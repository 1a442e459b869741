# Verified model of the attestation portal

The portal receives reports that TDX hosts push about their confidential VMs, verifies every VM's
quote and on-chain approval in the background, keeps the latest report per node in memory and on
disk, and shows the fleet on a public index page and on one detail page per app. This project models
that logic in Dafny and proves what its pages may be trusted for.

| file | models |
|---|---|
| `Wire.dfy` | the pushed types |
| `Hex.dfy`, `Quote.dfy`, `Verify.dfy` | the verify pipeline: hex text, quote slicing, the fail-closed verdict |
| `Summary.dfy`, `Fleet.dfy`, `Cards.dfy` | chips, cards, grouping the fleet by app, index and detail page |
| `Auth.dfy`, `Store.dfy` | the bearer check, the report map, the state file, the two critical sections |
| `Protocol.dfy`, `Runs.dfy`, `Durability.dfy` | the store under concurrency: every interleaving of pushes, verifications, saves, crashes |
| `Snapshot.dfy`, `Keystore.dfy` | reading the map in any order: the page order and the keystore link |
| `Text.dfy`, `Compose.dfy`, `Digests.dfy` | the compose scanner and the two digest extractors |
| `Sequential.dfy` | the server's own methods as one of these interleavings |
| `EndToEnd.dfy`, `GreenRows.dfy` | what a green row on the index proves, and exactly when it can be trusted |

How the parts are modelled:

- Everything outside the program is arbitrary. `Verify.World` holds the answers of certificate
  parsing, Intel's PCS, dcap-qvl, the NEAR RPC and the clock while one VM is verified; every theorem
  holds for all of them. The calls carry their arguments, so a theorem can say that the very quote in
  the VM's own certificate was verified and that the very claimed measurements were approved.
- The pipeline, the loops and the store's critical sections are methods; each is proved equal to a
  function that says field by field, or element by element, what the result is, and the theorems are
  about those functions.
- Where a theorem says what a helper of the source decides (which contract, which side of the index,
  which lines are comments), it says so in its own words and literals, not by calling that helper.
- The concurrent store is a transition system. A run is any list of actions (a disabled action changes
  nothing), so "for all action lists" is "for every interleaving". Both critical sections are one step.
  A save is three steps outside the lock: opening (and so truncating) the shared tmp file, filling it,
  renaming it. Files are inodes, so a saver can go on writing a file that another saver has already
  renamed into place. The methods of `Store.Server` are proved to be the
  interleavings in which nothing comes between their steps (`Sequential.dfy`).
- The one-second stamp appears as the hypothesis `Consistent`: pushes of one node in one second verify
  alike. `OwnershipIffConsistent` and `ConfluenceIffConsistent` prove it is exactly what verdict
  ownership and confluence need. What the server can check when pushes arrive is `DistinctStamps`: no
  two pushes of one node in one second, unless both report no VMs. `OwnershipInEveryWorldIff` proves
  that it is exactly what ownership needs if the outside world may answer anything. A green row needs
  less: `GreenRowsAreGenuineIff` gives its exact condition on the pushes that arrive.

Where the code and its own comments part, the model follows the code:

- "the row chip and the detail card can never disagree": they do, exactly for a verdict whose only flaw
  is a TCB status other than `UpToDate` (`ChipDisagreesIffOnlyTcbStale`, `ChipAlwaysAgreesIff`).
- a green row means the VM was verified: not if another push of its node in the same second, or another
  VM of its report, carries its vm id and can be green (`GreenRowsAreGenuineIff`, `GreenRowCanBeStolen`).
- the primary rows are "on-chain-approved" (server/templates/index.html:34): a worker or keystore that no
  contract governs turns green unapproved (`GreenMeansApprovedIff`).
- Green "only when EVERY concrete check passes (... measurements match)": a VM without claimed
  measurements and without a governing contract turns green uncompared (`GreenMeansComparedIff`).
- "we never link to" an empty app id: the index does, and no page resolves it (`RowUnresolvedIffNoAppId`).
- "write tmp + rename so a crash mid-write can't corrupt it": overlapping saves on the one tmp path can
  publish a truncated file (`OverlappingSavesCanLoseEverything`) or a failed write
  (`FailedWriteIsPublished`). `AlwaysWholeIff` says exactly which runs keep the file whole; writers
  that do not overlap do (`SoloSavesNeverTearTheFile`), and so do writes that are one step and succeed
  (`StateFileIsNeverTorn`, `OneStepWritesAlwaysWholeIff`).
- the file can stay behind memory for good even if no writers overlap (`SavesOutOfOrderKeepAStaleFile`);
  `CrashLosesNothingIff` says exactly when a crash loses nothing.
- an image's container is "the nearest preceding `services:` child key": it is the nearest bare key of
  any depth (`ContainerIsServiceIff`, `NestedKeyTakesTheRow`).
- the seed tool's extractor is "mirroring the agent's": `ExtractorsAgreeIff` says on exactly which
  tokens, `LongDigestDisagrees` and `UpperCaseDigestDisagrees` name two families where it does not.

## Model

| member | source | states |
|---|---|---|
| EndToEnd.GreenRowIsGenuine | server/src/page.rs:624-738 | in every reachable state of the store, if an index row is green then every VM of that app on every node has, in the very push that is stored, a quote from its own certificate that verified as UpToDate, claimed measurements equal to that quote's five registers byte for byte, and, for a worker or keystore on mainnet or testnet, the approval of exactly these claims by worker.outlayer or dao.outlayer on its own network |
| GreenRows.GreenRowsAreGenuineIff | server/src/page.rs:624-738 | whatever the outside world answers, every VM behind a green row of any reachable state has its evidence in an arrival of the stored report, if and only if no two arrivals of one node in one second (or one arrival and itself) let verdicts that may be green cover an app of the other report and reach a VM they do not belong to |
| GreenRows.GenuineOrStolen | server/src/main.rs:176-189 | a VM behind a green row has the evidence, or two arrivals are named whose verdicts and report were mixed |
| GreenRows.TheftShows | server/src/main.rs:179-184 | each such pair of arrivals does produce, in some reachable state, a green row over a VM without evidence |
| GreenRows.GreenRowWithDistinctStamps | server/src/page.rs:624-738 | distinct stamps per node (pushes without VMs excepted) and distinct vm ids per report are enough |
| GreenRows.GreenRowCanBeStolen | server/src/main.rs:179-184 | any two different VMs with one vm id, one of which can be green, pushed by one node in the same second: a reachable state shows a green row for the other one, of which nothing was verified |
| EndToEnd.GreenChipWasEarned | server/src/main.rs:142-189 | a green verdict found for a stored VM was computed for that very VM in a push of that very report |
| EndToEnd.GreenIsPossibleIff | server/src/page.rs:620-636 | some outside world makes a VM's chip green exactly if it has a certificate, hex text in every claimed register, and claimed measurements when a contract governs it |
| EndToEnd.GreenMeansApprovedIff | server/src/page.rs:624-636 | green implies on-chain approval, in every outside world, exactly for VMs that a contract governs and VMs that can never be green |
| EndToEnd.GreenRowIsReachable | server/src/main.rs:126-194 | each such VM does have a green row in some reachable state, on any node |
| EndToEnd.PagesAreDeterministic | server/src/main.rs:313-337 | in every reachable state both pages are the same whatever order the hash map hands out its entries in |
| Runs.VerdictOwnership | server/src/main.rs:126-194 | after any interleaving, crash and reload, an entry's verdicts (in memory and as a restart would load them) are empty or those of some push of the same node with the same stamp; if such pushes agree, those of verifying that very report |
| Runs.OwnershipIffConsistent | server/src/main.rs:176-189 | every run shows, for each node pushed since the restart, the last push with none or its own verdicts, if and only if pushes of one node in one second verify alike |
| Runs.ConsistentInEveryWorldIff | server/src/main.rs:399-404 | pushes of one node in one second verify alike, whatever the outside world answers, exactly if no two arrivals of one node share a second, those without VMs excepted |
| Runs.OwnershipInEveryWorldIff | server/src/main.rs:142-189 | whatever the outside world answers, every run shows only own verdicts, if and only if no two arrivals of one node share a second, those without VMs excepted |
| Runs.TakeOverStealsTheEntry | server/src/main.rs:179-184 | two pushes of one node in the same second: a concrete run ends with the second report carrying the first one's verdicts |
| Runs.QuiescentMap | server/src/main.rs:160-194 | once no verification is owed, memory is the loaded map overwritten by the last push of each node, each with exactly the verdicts of its own report |
| Runs.Confluence | server/src/main.rs:160-194 | the same pushes in the same order end in the same map, whatever the order of completions and saves |
| Runs.ConfluenceIffConsistent | server/src/main.rs:160-194 | the order of completions never shows, for any pushes, if and only if pushes of one node in one second verify alike |
| Runs.StaysUnverifiedIff | server/src/main.rs:82-92 | start-up verifies nothing: once no verification is owed, a node with VMs is unverified exactly if it was loaded unverified and has not been pushed since |
| Runs.StepsUseUpWork | server/src/main.rs:147-194 | every step but a push or a crash uses up pending work, so without new pushes every schedule ends |
| Runs.EveryRunCanSettle | server/src/main.rs:160-194 | from every reachable state some continuation without pushes, failures or crashes finishes all work and reaches the quiescent map |
| Durability.ReloadIsAnEarlierMap | server/src/main.rs:377-397 | at any crash point of any run, started on any disk (a leftover tmp file included), what a restart loads is a complete map memory held earlier, or nothing because the file is missing or not whole |
| Durability.AlwaysWholeIff | server/src/main.rs:387-397 | in any run, with any overlaps, failures and crashes, the state file is whole at every point if and only if no saver renames a tmp file that is truncated or badly written, and no write fails or mixes on a file already published |
| Durability.OneStepWritesAlwaysWholeIff | server/src/main.rs:387-397 | with each file write, failed or not, taken as one step that no other disk step interrupts, the file is whole at every point if and only if no saver renames what another one's failed write left behind |
| Durability.StateFileIsNeverTorn | server/src/main.rs:387-397 | if besides every write succeeds, the state file is a whole map at every point of every run, however saves overlap otherwise |
| Durability.FailedWriteIsPublished | server/src/main.rs:388-393 | any two pushes: a run with uninterrupted writes in which the second write fails and the first saver publishes it |
| Durability.SoloSavesNeverTearTheFile | server/src/main.rs:387-397 | if at most one save at a time is between opening and renaming, others may wait, no crash between any two steps and no failing file operation leaves a state file that is not whole |
| Durability.CrashLosesNothingIff | server/src/main.rs:377-397 | if at most one save at a time is between opening and renaming, with any failures and crashes, the file holds the map of the save renamed last, and a crash loses nothing if and only if that map is the one in memory |
| Durability.CrashLosesNothingInAnyRunIff | server/src/main.rs:377-397 | in any run, however writers overlap, a crash loses nothing if and only if the save that last filled the file now at the state path carried the map in memory (with no whole file: if memory is empty) |
| Durability.OrderedSavesKeepTheLatest | server/src/main.rs:147-192 | if besides no file operation fails and an older map is renamed only while a save of the latest is still to come, the file holds the latest map whenever no save is pending |
| Durability.SerialSavesKeepTheLatest | server/src/main.rs:147-157 | in particular with one save at a time, waiting ones included |
| Durability.OverlappingSavesCanLoseEverything | server/src/main.rs:388-393 | any two pushes: a run in which one save renames the tmp file the other has just truncated; after a crash every report is gone |
| Durability.InterruptedWritesCanMix | server/src/main.rs:388-393 | any two pushes: a run that publishes a file with bytes of both writes |
| Durability.SavesOutOfOrderKeepAStaleFile | server/src/main.rs:176-192 | pushes of two nodes: a run that finishes all work with both nodes verified in memory and the second one's verdicts missing from the file |
| Store.Server.constructor | server/src/main.rs:74-92 | an unset or empty token disables ingest; the map starts as the state file reads |
| Store.Server.Ingest | server/src/main.rs:126-167 | which status is returned exactly when; the map changes only for an authorized push that parses, only at its node, which starts unverified, and that map is saved and its verification spawned |
| Store.Server.VerifyInBackground | server/src/main.rs:171-194 | the verdicts of the report land on its node's entry exactly if that entry still carries the stamp; otherwise nothing changes |
| Store.Server.SaveState | server/src/main.rs:388-397 | a save nothing interrupts is all or nothing, whichever file operation fails |
| Sequential.SaveIsSaveState | server/src/main.rs:388-397 | a save whose steps nothing interrupts does to the disk what `SaveState` does, however its file operations turn out |
| Sequential.IngestIsReceiveThenSave | server/src/main.rs:140-164 | an accepted push in `Ingest` is the receiving step and its save: same map, same disk, verification spawned |
| Sequential.VerifyIsCompleteThenSave | server/src/main.rs:171-194 | the background task is the completing step and, if the stamp matches, its save |
| Auth.CtEq | server/src/main.rs:365-374 | the comparison that looks at every position answers equality, for all lengths |
| Auth.BearerOk | server/src/main.rs:353-362 | accepted exactly if the header is "Bearer " and the configured token, in header text |
| Verify.VerifyCvm | server/src/verify.rs:206-304 | the staged pipeline with its early returns and first-error rule computes the verdict that is given field by field |
| Verify.VerifyReport | server/src/verify.rs:308-314 | one verdict per CVM, in order |
| Verify.FailClosed | server/src/verify.rs:206-304 | for all outside answers: a valid signature exactly when the certificate's quote was attested, and exactly when there is a TCB status; otherwise an error and nothing positive; a contract without an answer forces an error; an answer needs a valid signature, claimed measurements and a comparison |
| Verify.AsksItsOwnContract | server/src/verify.rs:47-76 | once the signature is valid, the contract asked and named is worker.outlayer for a worker and dao.outlayer for a keystore, under .near on mainnet and .testnet on testnet, at that network's RPC endpoint; the verdict repeats its answer, and no other VM has one |
| Verify.UnknownNetworkIsNeverApproved | server/src/verify.rs:382-383 | the on-chain check asks the endpoint of its network, and on any other network gives an error and never an approval |
| Verify.EarlyErrorIsFirstFailure | server/src/verify.rs:206-253 | up to the signature check the error names exactly the first step that failed |
| Verify.LateErrorIsFirstFailure | server/src/verify.rs:268-304 | after it the error is exactly the first of: not a TDX report to compare, nothing to ask the contract about, no answer; and none if none of these holds |
| Verify.VerdictRepeatsTheReport | server/src/verify.rs:255-282 | TCB status and advisories are those of the verified report, the match flag is whether the claimed registers are its own, and the FMSPC is the quote's, as upper-case hex |
| Verify.MatchIsRegisterBytes | server/src/verify.rs:354-376 | the case-insensitive comparison of register texts is true exactly if each claimed string decodes, in either case, to the verified register's bytes |
| Verify.MeasurementsEqIsEquivalence | server/src/verify.rs:366-376 | the comparison is reflexive, symmetric and transitive |
| Verify.DecodedReportIsTheQuote | server/src/verify.rs:329-350 | the decoded block exists exactly for TDX reports, and each of its twelve texts is the lower-case hex text of that field of the verified quote |
| Verify.GovernedNetworkHasRpc | server/src/verify.rs:47-76 | a contract exists exactly for workers and keystores on mainnet and testnet, and then an RPC endpoint does too, so that error of the on-chain check is never reached |
| Verify.ContractsAreDistinct | server/src/verify.rs:57-76 | no two governed role and network pairs share a contract |
| Hex.HexLower | server/src/verify.rs:448-456 | the text is twice as long as the bytes and decodes back to them |
| Hex.HexUpper | server/src/verify.rs:459-467 | the same for the upper-case text |
| Hex.MatchesLowerTextIffDecodes | server/src/verify.rs:374-376 | a string compares equal to the lower-case text of some bytes exactly if it decodes to them |
| Hex.IgnoresAsciiCaseIff | server/src/verify.rs:374-376 | the comparison ignores the case of ASCII letters and nothing else |
| Hex.CasesCompareEqual | server/src/verify.rs:374-376 | upper-case and lower-case text of the same bytes compare equal |
| Quote.ExtractsLongestSuffix | server/src/verify.rs:188-201 | extraction returns a text exactly if it is the longest suffix of the extension value that starts with the magic and has at least 1000 bytes |
| Quote.FramingIsSlicedOff | server/src/verify.rs:168-201 | prefix and quote give back the quote exactly if the quote starts with the magic, is long enough, and the prefix does not contain the magic; no occurrence can straddle the boundary |
| Quote.ExtractionFailure | server/src/verify.rs:189-200 | not found exactly if the magic does not occur; any other failure is a first occurrence with too few bytes behind it |
| Summary.GreenIffGenuine | server/src/page.rs:624-636 | a pipeline verdict is green exactly on the evidence: attested quote, UpToDate, claimed measurements equal to the registers, and, where a contract governs, measurements claimed and approved |
| Summary.GovernedGreenIsComparedAndApproved | server/src/page.rs:624-636 | for governed VMs green means compared and approved, never unknown |
| Summary.GreenMeansComparedIff | server/src/page.rs:620-636 | green implies compared measurements, in every outside world, exactly for VMs without certificate, with claimed measurements, or with a governing contract |
| Summary.ChipDisagreesIffOnlyTcbStale | server/src/page.rs:577-636 | chip and card disagree exactly on a verdict whose only flaw is its TCB status; the card then still shows no good TCB badge |
| Summary.ChipAgreesWithCardIff | server/src/page.rs:577-636 | the same, for pipeline verdicts, in terms of what the pipeline saw |
| Summary.ChipAlwaysAgreesIff | server/src/page.rs:620-636 | the VMs for which chip and card agree in every outside world, exactly |
| Summary.CardDeterminesFacets | server/src/page.rs:577-618 | two verdicts are shown alike exactly if they agree on every facet; only a missing verdict is pending; the on-chain tri-state mirrors the answer; a green chip has a card that is not failing, with a good TCB badge |
| Summary.Aggregate | server/src/page.rs:116-135 | the flag loop computes the aggregate |
| Summary.Aggregated | server/src/page.rs:112-135 | failed exactly if some instance is; verified exactly if there is one and all are |
| Summary.AggregateIsJoin | server/src/page.rs:112-135 | the aggregate of two groups together is the join of their aggregates, except exactly when one is empty and the other all verified |
| Summary.AggregateIgnoresOrder | server/src/page.rs:112-135 | reordering instances does not change the aggregate |
| Summary.StatusIgnoresOrder | server/src/page.rs:652-670 | reordering instances does not change the status text |
| Summary.StatusIs | server/src/page.rs:652-670 | the status text is the common status; else, in decimal, how many of how many are running in any letter case; else "mixed" |
| Summary.DisplayNameTrimsInstanceNumber | server/src/page.rs:638-650 | a name is shortened exactly if it is a nonempty head, a dash and digits, and to that head |
| Fleet.JoinIsExactIff | server/src/page.rs:697-700 | looking verdicts up by vm id gives every VM its own verdict, in every outside world, exactly if the report's vm ids are distinct |
| Fleet.JoinFindsFirstHolder | server/src/page.rs:752-753 | otherwise a VM is shown the verdict of the first VM with its id |
| Fleet.GroupByAppGlobal | server/src/page.rs:723-738 | the accumulating loops compute, per distinct app id, the filter of the whole fleet |
| Fleet.GroupsPartitionByApp | server/src/page.rs:718-738 | groups are nonempty, one per distinct app id, each the order-preserving filter of the fleet and of one app only |
| Fleet.GroupsAreAPermutation | server/src/page.rs:718-738 | put end to end the groups are a permutation of all instances, each with its own node's verdicts |
| Prelude.DistinctKeepsFirstSeenOrder | server/src/page.rs:718-738 | app ids (and extracted digests) stand in the order in which they are first met |
| Fleet.BuildFleetList | server/src/page.rs:800-813 | the loop fills the two lists with the rows of the groups on either side of the split |
| Fleet.PrimaryIffWorkerOrKeystore | server/src/page.rs:359-364 | a row is a primary one exactly if the first instance of its app in the fleet is a worker or a keystore, and an infrastructure one exactly if it is anything else |
| Fleet.RowsInFirstSeenOrder | server/src/page.rs:800-813 | on either side the rows stand in the order in which their apps are first met |
| Fleet.MatchesAreTheGroup | server/src/page.rs:947-956 | what the detail page gathers node by node is the index's group of that app |
| Fleet.DetailExistsIffListed | server/src/page.rs:935-960 | the detail page of an app exists exactly if the index lists it, the empty app id excepted |
| Fleet.RowUnresolvedIffNoAppId | server/src/page.rs:932-942 | the page lookup does not resolve a row's app id exactly if it is empty; such a row exists exactly if some VM reports no app id |
| Fleet.RowIsUnique | server/src/page.rs:794-813 | an app id has at most one row, on one side of the split only |
| Fleet.IndexHasNoDuplicateRows | server/src/page.rs:794-813 | no row is listed twice |
| Fleet.IndexAndDetailAgree | server/src/page.rs:681-716 | a row's count, chip, status, name, role, network and side of the split are those of the cards behind its link, which are numbered 1 to that count |
| Cards.CardsShowTheirCvms | server/src/page.rs:744-793 | the cards of an app are those of its VMs on all nodes, one each, in fleet order; each shows its VM, the push time of its own node, and every facet and the decoded block of the first verdict of that node with its vm id, or that there is none |
| Cards.CardShowsOwnAttestation | server/src/page.rs:752-774 | for a node with the verdicts of its own report and distinct vm ids, a card shows a valid signature exactly if the quote in that VM's own certificate was attested, then that quote's TCB status and registers, and a green chip exactly on the evidence |
| Fleet.GreenRowMeansEveryInstanceGreen | server/src/page.rs:697-700 | a green row: every instance of the app on every node has a green verdict among its own node's |
| Snapshot.SnapshotIsUnique | server/src/main.rs:316-325 | sorting by node id leaves one possible list, whatever order the map is walked in |
| Snapshot.StrLeIff | server/src/main.rs:320 | node ids are sorted by prefix, then by the first character that differs |
| Keystore.ChoiceIsNewest | server/src/main.rs:294-311 | nothing is found exactly if no keystore of the network reports; otherwise the choice is a reporting keystore that none is newer than |
| Keystore.RedirectIsNewest | server/src/main.rs:266-311 | a redirect goes to the nonempty app of a keystore of the network that none is newer than; there is none if no keystore reports, and one if all newest keystores name their app |
| Keystore.RedirectInEveryOrder | server/src/main.rs:266-311 | if the newest reports end in one app, the redirect goes there whatever order the map is walked in, and there is none exactly if that app id is empty |
| Keystore.RedirectResolves | server/src/main.rs:266-287 | a redirect names a nonempty app id that the page lookup resolves on the same map, to a page that shows a keystore of the network |
| Keystore.OrderIndependentIff | server/src/main.rs:290-311 | the redirect is independent of the walking order exactly if the newest reports with a keystore of the network end in the same app |
| Compose.ImageRows | server/src/page.rs:435-496 | the scanner returns the table of the compose text, and nothing if it is missing or does not parse |
| Compose.ScanLines | server/src/page.rs:462-495 | the line loop with its three variables computes the table |
| Compose.LineReads | server/src/page.rs:462-491 | what is read off a line: nothing of a comment; else its indent, whether it opens a block, its bare key, its image reference without the blanks around it |
| Compose.ServiceKeyIff | server/src/page.rs:499-506 | a bare key is text before a final colon, with no other colon, no blank and no leading dash |
| Compose.ImageRowIff | server/src/page.rs:510-540 | a row is exactly what stands before and behind the first mark, neither blank, trimmed; named after its service or else its image; with its links and origin |
| Compose.CommentsDoNotMatter | server/src/page.rs:462-467 | texts that differ only in blank lines and comments, anywhere, have the same table |
| Compose.CommentCanBeInserted | server/src/page.rs:462-467 | a blank line or a comment between any two lines of any text leaves the table unchanged |
| Text.WhitespaceIs | server/examples/seed_state.rs:110 | the blanks are the 25 characters of Unicode White_Space |
| Text.IndentCountsBytes | server/src/page.rs:468 | an indent counts the bytes of its blanks |
| Compose.BlockAtIsOpenBlock | server/src/page.rs:470-482 | a services block is open at a line exactly if an opener started it, outside every earlier block, and no line at or left of its indent has closed it since |
| Compose.RowAppearsIff | server/src/page.rs:483-494 | a row appears exactly for a digest-pinned image line inside an open block, with the nearest bare key of that block as container |
| Compose.ContainerIsServiceIff | server/src/page.rs:423-433 | an image is credited to a given bare key exactly if no other bare key stands between them, or the last one repeats its name |
| Compose.NestedKeyTakesTheRow | server/src/page.rs:483-494 | in any compose text with another bare key between a service's key and its image, the table credits the image to that key |
| Compose.ComposeRoundTrip | server/src/page.rs:435-540 | services printed with any indentation and scanned come back as exactly one row each, in order, with the same container, image, digest and links |
| Compose.ComposeRoundTripInContext | server/src/page.rs:435-496 | the same with other keys before the services, anything from a key at the margin on behind them, and blank lines and comments anywhere |
| Compose.ReleaseVersionIff | server/src/page.rs:542-554 | a version is found exactly if the text after the last dash is a dotted number, and it is that text |
| Digests.AgentExtractDigests | agent/src/main.rs:295-304 | the distinct matches of the pattern in first-occurrence order |
| Digests.SeedExtractDigests | server/examples/seed_state.rs:108-123 | the distinct references of the tokens in first-occurrence order |
| Digests.MatchIsImageRef | agent/src/main.rs:97 | a match at the front of a text is exactly a prefix the pattern describes |
| Digests.NothingFoundIff | agent/src/main.rs:295-304 | the search finds nothing exactly if no part of the text is an image reference |
| Digests.TokensIff | server/examples/seed_state.rs:110 | a text is cut into tokens at every blank and quote and nowhere else |
| Digests.SeedRefIff | server/examples/seed_state.rs:111-115 | what is taken from a token: what is before the first mark, the mark, and exactly 64 hex digits of either case right behind it |
| Digests.TokenAgreesIff | server/examples/seed_state.rs:106-123 | both return the same list on a token exactly if what the seed tool takes is an image reference and the agent finds only that same one behind it, or it takes nothing and there is none |
| Digests.ExtractorsAgreeIff | server/examples/seed_state.rs:106-123 | for any vocabulary of tokens, both return the same list on every text written in it, if and only if each of its tokens is of that kind |
| Digests.ExtractorsAgree | server/examples/seed_state.rs:106-123 | in particular on every text whose own tokens are of that kind |
| Digests.CleanTokenAgrees | agent/src/main.rs:295-304 | they read alike any clean reference, even with an @-free tail that does not go on with a hex digit |
| Digests.AtFreeTokenAgrees | server/examples/seed_state.rs:110-111 | they read alike any @-free token |
| Digests.LongDigestDisagrees | server/examples/seed_state.rs:112-113 | on a one-token text with a digest of more than 64 hex digits the agent returns a cut reference and the seed tool nothing |
| Digests.UpperCaseDigestDisagrees | server/examples/seed_state.rs:112-113 | a digest with an upper-case digit is taken by the seed tool and not by the agent |

## Left out

- HTTP routing, body limits, status bodies, logging, environment and process arguments: plumbing without state.
- dcap-qvl, X.509 and PEM parsing, serde_json, base64, reqwest, the regex engine's internals and the decoding of the RPC reply: each is an arbitrary answer, or for the regex the language its pattern describes.
- JSON round trips of the report map: a file that holds one complete map is taken to load as that map, and any other content as unreadable.
- Fleet.RowUnresolvedIffNoAppId: is about the lookup by app id; the link `/app/<app_id>` is written without URL encoding (server/templates/index.html:40,69), and how a browser and the router read an id with a `/`, `?` or `#` in it is not part of this model.
- Keystore.RedirectResolves: the same for the redirect to `/app/<app_id>`.
- Durability.CrashLosesNothingIff: is for writers that do not overlap, where the file is what was renamed last; `CrashLosesNothingInAnyRunIff` is for all runs.
- Durability.SoloSavesNeverTearTheFile: a crash is a crash of the process; the save does not sync, so what a power loss leaves of bytes the system has not yet written is not part of this model.
- Durability.ReloadIsAnEarlierMap: a partly written file, or one with bytes of two writers mixed, is taken never to parse as a map.
- A poisoned mutex: its branches only skip a write or show an empty page.
- Error texts: errors are told apart by their cause, with the library's message as a string.
- Fields that are only copied through to the card (uptime, hashes, event log, gateway domain, age text).
- Templates and HTML escaping: presentation by a library.
- The agent's process scan and push loop: operating system and network I/O.
- Integer widths of stamps, counts and indents: they are compared and counted, never near a limit.
