/** What a green row on the public index means, through the store, the pipeline and the page. */
module EndToEnd {
  import opened Prelude
  import opened Wire
  import opened Hex
  import opened Quote
  import opened Verify
  import opened Summary
  import opened Fleet
  import opened Store
  import opened Snapshot
  import opened Protocol
  import opened Runs

  /** Every report that can be pushed names each of its CVMs differently. */
  ghost predicate DistinctVms(U: iset<Push>) {
    forall p :: p in U ==> DistinctVmIds(p.report)
  }

  lemma ReachableKeysAreNodeIds(U: iset<Push>, m: Reports)
    requires Traced(U, m)
    ensures KeysAreNodeIds(m)
  {
    forall node | node in m
      ensures m[node].report.nodeId == node
    {
      assert EntryTraced(U, node, m[node]);
    }
  }

  /** `m` is what memory holds after some run of the store with pushes from `U`. */
  ghost predicate Reachable(U: iset<Push>, m: Reports) {
    exists persist, disk, actions ::
      TracedDisk(U, disk) && PushesIn(U, actions) && Exec(persist, FirstStart(persist, disk), actions).mem == m
  }

  lemma ReachableIsTraced(U: iset<Push>, m: Reports)
    requires Reachable(U, m)
    ensures Traced(U, m) && (Consistent(U) ==> Owned(U, m))
  {
    var persist, disk, actions :|
      TracedDisk(U, disk) && PushesIn(U, actions) && Exec(persist, FirstStart(persist, disk), actions).mem == m;
    VerdictOwnership(persist, U, disk, actions);
  }

  /** A row of the index with the green chip. */
  ghost predicate IsGreenRow(v: seq<StoredReport>, row: AppRow) {
    row in FleetListOf(v).primary + FleetListOf(v).infra && row.summary == Verified
  }

  ghost predicate IsInstanceOf(m: Reports, node: string, i: nat, appId: string) {
    node in m && i < |m[node].report.cvms| && m[node].report.cvms[i].appId == appId
  }

  /** In every reachable state, after any interleaving, crash and reload, the pages do not depend on
      the order in which the map hands out its entries. */
  lemma PagesAreDeterministic(U: iset<Push>, m: Reports, v1: seq<StoredReport>, v2: seq<StoredReport>)
    requires Reachable(U, m) && IsSnapshot(m, v1) && IsSnapshot(m, v2)
    ensures FleetListOf(v1) == FleetListOf(v2)
    ensures forall appId, now :: RenderApp(appId, now, v1) == RenderApp(appId, now, v2)
  {
    ReachableIsTraced(U, m);
    ReachableKeysAreNodeIds(U, m);
    SnapshotIsUnique(m, v1, v2);
  }

  /** A green chip of one stored CVM was earned by that very CVM in a push of that very report. */
  lemma GreenChipWasEarned(U: iset<Push>, m: Reports, node: string, i: nat) returns (p: Push)
    requires Owned(U, m) && DistinctVms(U)
    requires node in m && i < |m[node].report.cvms|
    requires SummaryOf(VerdictFor(m[node].verdicts, m[node].report.cvms[i].vmId)) == Verified
    ensures p in U && p.Node() == node && p.report == m[node].report && p.stamp == m[node].receivedAt
    ensures Genuine(m[node].report.cvms[i], p.env(i))
  {
    p :| p in U && Owns(p, node, m[node]);
    JoinIsExactIff(p.report);
    assert VerdictFor(VerdictsOf(p.report, p.env), p.report.cvms[i].vmId) ==
           Some(VerdictOf(p.report.cvms[i], p.env(i)));
    GreenIffGenuine(p.report.cvms[i], p.env(i));
  }

  /** The green row, end to end: in every reachable state, after any interleaving, crash and reload,
      if a row of the index is green, then for every CVM of that app on every node there is the
      evidence, in the very push that is stored. */
  lemma GreenRowIsGenuine(U: iset<Push>, m: Reports, v: seq<StoredReport>, row: AppRow, node: string, i: nat)
    returns (p: Push)
    requires Reachable(U, m) && Consistent(U) && DistinctVms(U)
    requires IsSnapshot(m, v) && IsGreenRow(v, row) && IsInstanceOf(m, node, i, row.appId)
    ensures p in U && p.Node() == node && p.report == m[node].report && p.stamp == m[node].receivedAt
    ensures exists quote, rep :: Evidence(m[node].report.cvms[i], p.env(i), quote, rep)
  {
    ReachableIsTraced(U, m);
    var n := EnumerationHasEntry(m, v, node);
    GreenRowMeansEveryInstanceGreen(v, row, n, i);
    p := GreenChipWasEarned(U, m, node, i);
  }

  // ----- green is within reach -----

  /** Nothing but the CVM's own data can keep it from ever being green: a certificate, hex text for
      the registers it claims, and claims if a contract governs it. */
  predicate CanBeGreen(cvm: Cvm) {
    && cvm.appCertPem.Some?
    && (cvm.measurements.Some? ==> AllDecode(cvm.measurements.value))
    && (GoverningContract(cvm).Some? ==> cvm.measurements.Some?)
  }

  function BestWorld(cvm: Cvm): World
    requires CanBeGreen(cvm)
  {
    LenientWorld(UP_TO_DATE,
                 if cvm.measurements.Some? then TD10(TdClaiming(cvm.measurements.value)) else SgxEnclave)
  }

  lemma BestWorldIsGreen(cvm: Cvm)
    requires CanBeGreen(cvm)
    ensures SummaryOf(Some(VerdictOf(cvm, BestWorld(cvm)))) == Verified
  {
    GovernedNetworkHasRpc(cvm);
    LenientWorldAttests(cvm, UP_TO_DATE,
                        if cvm.measurements.Some? then TD10(TdClaiming(cvm.measurements.value)) else SgxEnclave);
  }

  /** For some outside world its chip is green exactly if the CVM's own data allow it. */
  lemma GreenIsPossibleIff(cvm: Cvm)
    ensures CanBeGreen(cvm) <==> exists w: World :: SummaryOf(Some(VerdictOf(cvm, w))) == Verified
  {
    if CanBeGreen(cvm) {
      BestWorldIsGreen(cvm);
    }
    if w: World :| SummaryOf(Some(VerdictOf(cvm, w))) == Verified {
      GreenIffGenuine(cvm, w);
    }
  }

  lemma VerifiedAlone(p: Push)
    ensures Exec(false, FirstStart(false, Disk([], None, None)), [Receive(p), Complete(0)]).mem ==
            map[p.Node() := StoredReport(p.stamp, p.report, p.Verdicts())]
  {
    var s0 := FirstStart(false, Disk([], None, None));
    ExecTwo(false, s0, Receive(p), Complete(0));
    assert Apply(false, s0, Receive(p)).jobs == [Verifying(p)];
  }

  lemma LonePushIsReachable(p: Push)
    ensures Reachable(iset{p}, map[p.Node() := StoredReport(p.stamp, p.report, p.Verdicts())])
    ensures Consistent(iset{p})
  {
    VerifiedAlone(p);
    assert TracedDisk(iset{p}, Disk([], None, None)) && PushesIn(iset{p}, [Receive(p), Complete(0)]);
  }

  lemma LoneEntryIsSnapshot(node: string, e: StoredReport)
    ensures IsSnapshot(map[node := e], [e])
  {
    assert EnumeratedBy(map[node := e], [e], [node]);
  }

  /** A store with one node, whose verdicts for one of its apps are all green. */
  lemma LoneRowIsGreen(e: StoredReport, j: nat) returns (row: AppRow)
    requires j < |e.report.cvms|
    requires forall i :: 0 <= i < |e.report.cvms| && e.report.cvms[i].appId == e.report.cvms[j].appId ==>
                           SummaryOf(VerdictFor(e.verdicts, e.report.cvms[i].vmId)) == Verified
    ensures IsGreenRow([e], row) && row.appId == e.report.cvms[j].appId
  {
    var appId := e.report.cvms[j].appId;
    FlatMapOne(NodeInstances, e);
    var xs, group := NodeInstances(e), Filter(NodeInstances(e), InApp(appId));
    assert xs[j] in xs;
    FilterHas(xs, InApp(appId), xs[j]);
    forall k | 0 <= k < |group|
      ensures SummariesOf(group)[k] == Verified
    {
      FilterHas(xs, InApp(appId), group[k]);
    }
    GroupHasRow([e], appId);
    row := BuildAppRow(group);
  }

  /** Every such CVM does get a green row in some reachable state, so the guarantee of a green row
      speaks of states that exist. */
  lemma GreenRowIsReachable(cvm: Cvm, node: string)
    returns (p: Push, m: Reports, v: seq<StoredReport>, row: AppRow)
    requires CanBeGreen(cvm)
    ensures Reachable(iset{p}, m) && Consistent(iset{p}) && DistinctVms(iset{p})
    ensures IsSnapshot(m, v) && IsGreenRow(v, row) && IsInstanceOf(m, node, 0, row.appId)
    ensures node in m && m[node].report.cvms == [cvm]
  {
    p := Push(NodeReport(node, 0, [cvm]), 0, _ => BestWorld(cvm));
    var e := StoredReport(p.stamp, p.report, p.Verdicts());
    m, v := map[node := e], [e];
    LonePushIsReachable(p);
    LoneEntryIsSnapshot(node, e);
    BestWorldIsGreen(cvm);
    assert p.Verdicts() == [VerdictOf(cvm, BestWorld(cvm))];
    row := LoneRowIsGreen(e, 0);
  }

  /** "On-chain-approved": green means approved, in every outside world, exactly for CVMs that a
      contract governs and for CVMs that never turn green. Any other CVM turns green unapproved. */
  lemma GreenMeansApprovedIff(cvm: Cvm)
    ensures (forall w: World :: SummaryOf(Some(VerdictOf(cvm, w))) == Verified ==>
                                  VerdictOf(cvm, w).onChainApproved == Some(true))
            <==> GoverningContract(cvm).Some? || !CanBeGreen(cvm)
  {
    forall w: World | SummaryOf(Some(VerdictOf(cvm, w))) == Verified
      ensures CanBeGreen(cvm)
      ensures GoverningContract(cvm).Some? ==> VerdictOf(cvm, w).onChainApproved == Some(true)
    {
      GreenIsPossibleIff(cvm);
      GreenIffGenuine(cvm, w);
      GovernedNetworkHasRpc(cvm);
    }
    if CanBeGreen(cvm) && GoverningContract(cvm).None? {
      BestWorldIsGreen(cvm);
      assert VerdictOf(cvm, BestWorld(cvm)).onChainApproved.None?;
    }
  }
}
