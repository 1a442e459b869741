/** What the cards of the detail page show (server/src/page.rs): each belongs to one CVM of one node,
    and shows that node's verdict for it. */
module Cards {
  import opened Prelude
  import opened Wire
  import opened Hex
  import opened Verify
  import opened Summary
  import opened Fleet

  // ----- which CVM a card belongs to -----

  /** Node `at.0` reports a CVM of the app at position `at.1`. */
  ghost predicate IsPlace(nodes: seq<StoredReport>, appId: string, at: (nat, nat)) {
    && at.0 < |nodes| && at.1 < |nodes[at.0].report.cvms|
    && nodes[at.0].report.cvms[at.1].appId == appId
  }

  ghost predicate Before(a: (nat, nat), b: (nat, nat)) {
    a.0 < b.0 || (a.0 == b.0 && a.1 < b.1)
  }

  ghost predicate InOrder(places: seq<(nat, nat)>) {
    forall k, l :: 0 <= k < l < |places| ==> Before(places[k], places[l])
  }

  lemma OrderAppend(init: seq<(nat, nat)>, last: seq<(nat, nat)>, n: nat)
    requires InOrder(init) && forall k :: 0 <= k < |init| ==> init[k].0 < n
    requires InOrder(last) && forall k :: 0 <= k < |last| ==> last[k].0 == n
    ensures InOrder(init + last)
  {
  }

  /** All places of the app, each once, node by node and in each node in the report's order. */
  ghost predicate ArePlaces(nodes: seq<StoredReport>, appId: string, places: seq<(nat, nat)>) {
    && (forall k :: 0 <= k < |places| ==> IsPlace(nodes, appId, places[k]))
    && InOrder(places)
    && (forall at: (nat, nat) :: IsPlace(nodes, appId, at) ==> at in places)
  }

  // ----- what a card shows -----

  /** `j` is the first verdict of the list that carries the vm id. */
  ghost predicate FirstCarrier(verdicts: seq<CvmVerdict>, vmId: string, j: nat) {
    && j < |verdicts| && verdicts[j].vmId == vmId
    && forall l :: 0 <= l < j ==> verdicts[l].vmId != vmId
  }

  ghost predicate NoCarrier(verdicts: seq<CvmVerdict>, vmId: string) {
    forall l :: 0 <= l < |verdicts| ==> verdicts[l].vmId != vmId
  }

  /** Every facet of the card is that of the verdict. */
  ghost predicate ShowsVerdict(card: CvmCard, v: CvmVerdict) {
    var shown := card.verdict;
    && !shown.pending && shown.sigValid == v.sigValid && shown.tcbStatus == v.tcbStatus
    && (shown.tcbClass == Good <==> v.tcbStatus == Some("UpToDate"))
    && (shown.tcbClass == Bad <==> v.tcbStatus.None?)
    && shown.measurementsMatch == v.quoteMeasurementsMatch
    && (shown.onChain == Approved <==> v.onChainApproved == Some(true))
    && (shown.onChain == NotApproved <==> v.onChainApproved == Some(false))
    && shown.onChainContract == v.onChainContract && shown.advisoryIds == v.advisoryIds
    && shown.verifyError == v.error
    && (shown.failing <==>
          !v.sigValid || v.onChainApproved == Some(false) || v.quoteMeasurementsMatch == Some(false) || v.error.Some?)
    && card.decoded == v.decoded
    && (card.summary == Verified <==> !shown.failing && v.tcbStatus == Some("UpToDate"))
    && card.summary != Pending
  }

  /** No verdict yet: pending, and nothing claimed. */
  ghost predicate ShowsPending(card: CvmCard) {
    var shown := card.verdict;
    && shown.pending && !shown.sigValid && !shown.failing && shown.tcbStatus.None? && shown.tcbClass == Bad
    && shown.measurementsMatch.None? && shown.onChain == NotApplicable && shown.onChainContract.None?
    && shown.advisoryIds == [] && shown.verifyError.None? && card.decoded.None? && card.summary == Pending
  }

  /** Pushed less than ten minutes ago, less than an hour ago, or earlier; never from the future. */
  ghost predicate IsFreshness(f: Freshness, now: nat, receivedAt: nat) {
    match f
    case Live => now < receivedAt + 600
    case Stale => receivedAt + 600 <= now < receivedAt + 3600
    case Dead => receivedAt + 3600 <= now
  }

  /** The card is that of the node's CVM `i`: its data, the push time of its node, and the first of its
      own node's verdicts that carries its vm id. */
  ghost predicate ShowsCvm(card: CvmCard, node: StoredReport, i: nat, now: nat) {
    && i < |node.report.cvms| && card.cvm == node.report.cvms[i]
    && IsFreshness(card.freshness, now, node.receivedAt)
    && ((exists j: nat :: FirstCarrier(node.verdicts, card.cvm.vmId, j) && ShowsVerdict(card, node.verdicts[j]))
        || (NoCarrier(node.verdicts, card.cvm.vmId) && ShowsPending(card)))
  }

  lemma {:induction false} LookupFindsFirstCarrier(verdicts: seq<CvmVerdict>, vmId: string)
    ensures match VerdictFor(verdicts, vmId)
            case None => NoCarrier(verdicts, vmId)
            case Some(v) => exists j: nat :: FirstCarrier(verdicts, vmId, j) && verdicts[j] == v
  {
    if verdicts != [] {
      if verdicts[0].vmId == vmId {
        assert FirstCarrier(verdicts, vmId, 0);
      } else {
        LookupFindsFirstCarrier(verdicts[1..], vmId);
        if VerdictFor(verdicts, vmId).Some? {
          var j: nat :| FirstCarrier(verdicts[1..], vmId, j) && verdicts[1..][j] == VerdictFor(verdicts, vmId).value;
          assert FirstCarrier(verdicts, vmId, j + 1);
        }
      }
    }
  }

  lemma BuiltCardShowsCvm(node: StoredReport, i: nat, index: nat, total: nat, now: nat)
    requires i < |node.report.cvms|
    ensures ShowsCvm(BuildCvm(Match(Instance(node.report.cvms[i], node.verdicts), node.receivedAt), index, total, now),
                     node, i, now)
  {
    LookupFindsFirstCarrier(node.verdicts, node.report.cvms[i].vmId);
  }

  // ----- the places of an app -----

  /** The places of the app among the first `c` CVMs of node `n`. */
  function PlacesInNode(node: StoredReport, appId: string, n: nat, c: nat): seq<(nat, nat)>
    requires c <= |node.report.cvms|
  {
    if c == 0 then []
    else
      PlacesInNode(node, appId, n, c - 1) + if node.report.cvms[c - 1].appId == appId then [(n, c - 1)] else []
  }

  function Places(nodes: seq<StoredReport>, appId: string): seq<(nat, nat)> {
    if nodes == [] then []
    else
      var n := |nodes| - 1;
      Places(nodes[..n], appId) + PlacesInNode(nodes[n], appId, n, |nodes[n].report.cvms|)
  }

  lemma {:induction false} PlacesInNodeAre(node: StoredReport, appId: string, n: nat, c: nat)
    requires c <= |node.report.cvms|
    ensures var places := PlacesInNode(node, appId, n, c);
            && (forall k :: 0 <= k < |places| ==>
                  places[k].0 == n && places[k].1 < c && node.report.cvms[places[k].1].appId == appId)
            && InOrder(places)
            && (forall i: nat :: i < c && node.report.cvms[i].appId == appId ==> (n, i) in places)
  {
    if c > 0 {
      PlacesInNodeAre(node, appId, n, c - 1);
    }
  }

  lemma {:induction false} PlacesAre(nodes: seq<StoredReport>, appId: string)
    ensures ArePlaces(nodes, appId, Places(nodes, appId))
  {
    if nodes != [] {
      var n := |nodes| - 1;
      var init, last := Places(nodes[..n], appId), PlacesInNode(nodes[n], appId, n, |nodes[n].report.cvms|);
      PlacesAre(nodes[..n], appId);
      PlacesInNodeAre(nodes[n], appId, n, |nodes[n].report.cvms|);
      forall k | 0 <= k < |init|
        ensures init[k].0 < n && IsPlace(nodes, appId, init[k])
      {
        assert IsPlace(nodes[..n], appId, init[k]);
      }
      OrderAppend(init, last, n);
      forall at: (nat, nat) | IsPlace(nodes, appId, at)
        ensures at in Places(nodes, appId)
      {
        if at.0 < n {
          assert IsPlace(nodes[..n], appId, at);
        } else {
          assert (n, at.1) in last;
        }
      }
    }
  }

  /** What the page gathers for a place. */
  ghost predicate GatheredAt(m: Match, nodes: seq<StoredReport>, at: (nat, nat)) {
    && at.0 < |nodes| && at.1 < |nodes[at.0].report.cvms|
    && m == Match(Instance(nodes[at.0].report.cvms[at.1], nodes[at.0].verdicts), nodes[at.0].receivedAt)
  }

  lemma {:induction false} NodeIsGathered(node: StoredReport, appId: string, n: nat, c: nat)
    requires c <= |node.report.cvms|
    ensures var xs, places := Filter(NodeInstances(node)[..c], InApp(appId)), PlacesInNode(node, appId, n, c);
            && |xs| == |places|
            && forall k :: 0 <= k < |xs| ==>
                 places[k].1 < |node.report.cvms| && xs[k] == Instance(node.report.cvms[places[k].1], node.verdicts)
  {
    if c > 0 {
      NodeIsGathered(node, appId, n, c - 1);
      assert NodeInstances(node)[..c][..c - 1] == NodeInstances(node)[..c - 1];
    }
  }

  lemma {:induction false} PlacesAreGathered(nodes: seq<StoredReport>, appId: string)
    ensures |MatchesOf(nodes, appId)| == |Places(nodes, appId)|
    ensures forall k :: 0 <= k < |Places(nodes, appId)| ==>
              GatheredAt(MatchesOf(nodes, appId)[k], nodes, Places(nodes, appId)[k])
  {
    if nodes != [] {
      var n := |nodes| - 1;
      var c := |nodes[n].report.cvms|;
      var init := Places(nodes[..n], appId);
      PlacesAreGathered(nodes[..n], appId);
      NodeIsGathered(nodes[n], appId, n, c);
      PlacesInNodeAre(nodes[n], appId, n, c);
      assert NodeInstances(nodes[n])[..c] == NodeInstances(nodes[n]);
      forall k | 0 <= k < |Places(nodes, appId)|
        ensures GatheredAt(MatchesOf(nodes, appId)[k], nodes, Places(nodes, appId)[k])
      {
        if k < |init| {
          assert GatheredAt(MatchesOf(nodes[..n], appId)[k], nodes[..n], init[k]);
        }
      }
    }
  }

  // ----- the page -----

  /** The cards of an app are those of its CVMs on all nodes, one each, in fleet order, and each shows
      its own node's verdict for its CVM, or that there is none yet. */
  lemma CardsShowTheirCvms(nodes: seq<StoredReport>, appId: string, now: nat) returns (places: seq<(nat, nat)>)
    requires RenderApp(appId, now, nodes).Some?
    ensures ArePlaces(nodes, appId, places)
    ensures var cards := RenderApp(appId, now, nodes).value;
            && |cards| == |places| > 0
            && forall k :: 0 <= k < |cards| ==>
                 && cards[k].instanceIndex == k + 1 && cards[k].instanceTotal == |places|
                 && IsPlace(nodes, appId, places[k])
                 && ShowsCvm(cards[k], nodes[places[k].0], places[k].1, now)
  {
    places := Places(nodes, appId);
    PlacesAre(nodes, appId);
    PlacesAreGathered(nodes, appId);
    var cards := RenderApp(appId, now, nodes).value;
    forall k | 0 <= k < |cards|
      ensures ShowsCvm(cards[k], nodes[places[k].0], places[k].1, now)
    {
      assert GatheredAt(MatchesOf(nodes, appId)[k], nodes, places[k]);
      BuiltCardShowsCvm(nodes[places[k].0], places[k].1, k + 1, |places|, now);
    }
  }

  lemma VerdictIsForCvm(cvm: Cvm, w: World)
    ensures VerdictOf(cvm, w).vmId == cvm.vmId
  {
  }

  lemma OwnCarrier(report: NodeReport, env: nat -> World, i: nat)
    requires DistinctVmIds(report) && i < |report.cvms|
    ensures FirstCarrier(VerdictsOf(report, env), report.cvms[i].vmId, i)
  {
    forall j | 0 <= j < |report.cvms|
      ensures VerdictsOf(report, env)[j].vmId == report.cvms[j].vmId
    {
      VerdictIsForCvm(report.cvms[j], env(j));
    }
  }

  lemma ShownIsFirst(card: CvmCard, node: StoredReport, i: nat, now: nat, j: nat)
    requires ShowsCvm(card, node, i, now) && FirstCarrier(node.verdicts, card.cvm.vmId, j)
    ensures ShowsVerdict(card, node.verdicts[j])
  {
  }

  lemma ShownIsOwn(card: CvmCard, node: StoredReport, i: nat, now: nat, env: nat -> World)
    requires ShowsCvm(card, node, i, now)
    requires DistinctVmIds(node.report) && node.verdicts == VerdictsOf(node.report, env)
    ensures ShowsVerdict(card, VerdictOf(card.cvm, env(i)))
  {
    OwnCarrier(node.report, env, i);
    ShownIsFirst(card, node, i, now, i);
  }

  lemma ShownGreenIffSummary(card: CvmCard, v: CvmVerdict)
    requires ShowsVerdict(card, v) && (v.sigValid || v.error.Some?)
    ensures card.summary == SummaryOf(Some(v))
  {
  }

  /** A card of a node that carries the verdicts of its own report, with distinct vm ids: it shows a valid
      signature exactly if the quote in that CVM's own certificate was attested, and then that quote's TCB
      status and that quote's registers. */
  lemma CardShowsOwnAttestation(card: CvmCard, node: StoredReport, i: nat, now: nat, env: nat -> World)
    requires ShowsCvm(card, node, i, now)
    requires DistinctVmIds(node.report) && node.verdicts == VerdictsOf(node.report, env)
    ensures card.verdict.sigValid <==> exists quote, rep :: Attested(card.cvm, env(i), quote, rep)
    ensures forall quote, rep | Attested(card.cvm, env(i), quote, rep) ::
              && card.verdict.tcbStatus == Some(rep.status)
              && (card.decoded.Some? <==> !rep.report.SgxEnclave?)
              && (card.decoded.Some? ==> ShowsQuote(card.decoded.value, rep.report.AsTd10().value, quote))
    ensures card.summary == Verified <==> Genuine(card.cvm, env(i))
  {
    ShownIsOwn(card, node, i, now, env);
    OwnAttestationShown(card, env(i));
  }

  lemma OwnAttestationShown(card: CvmCard, w: World)
    requires ShowsVerdict(card, VerdictOf(card.cvm, w))
    ensures card.verdict.sigValid <==> exists quote, rep :: Attested(card.cvm, w, quote, rep)
    ensures forall quote, rep | Attested(card.cvm, w, quote, rep) ::
              && card.verdict.tcbStatus == Some(rep.status)
              && (card.decoded.Some? <==> !rep.report.SgxEnclave?)
              && (card.decoded.Some? ==> ShowsQuote(card.decoded.value, rep.report.AsTd10().value, quote))
    ensures card.summary == Verified <==> Genuine(card.cvm, w)
  {
    FailClosed(card.cvm, w);
    GreenIffGenuine(card.cvm, w);
    ShownGreenIffSummary(card, VerdictOf(card.cvm, w));
    forall quote, rep | Attested(card.cvm, w, quote, rep)
      ensures card.verdict.tcbStatus == Some(rep.status)
      ensures card.decoded.Some? <==> !rep.report.SgxEnclave?
      ensures card.decoded.Some? ==> ShowsQuote(card.decoded.value, rep.report.AsTd10().value, quote)
    {
      DecodedReportIsTheQuote(card.cvm, w, quote, rep);
      VerdictRepeatsTheReport(card.cvm, w, quote, rep);
    }
  }
}
