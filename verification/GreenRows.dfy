/** Exactly when a green row of the public index can be trusted, in terms of the pushes that arrive. */
module GreenRows {
  import opened Prelude
  import opened Wire
  import opened Hex
  import opened Verify
  import opened Summary
  import opened Fleet
  import opened Store
  import opened Snapshot
  import opened Protocol
  import opened Runs
  import opened EndToEnd

  /** CVM `k` is the first one of the report with this vm id: lookups by that id find its verdict. */
  ghost predicate FirstHolder(report: NodeReport, vmId: string, k: nat) {
    && k < |report.cvms| && report.cvms[k].vmId == vmId
    && forall l :: 0 <= l < k ==> report.cvms[l].vmId != vmId
  }

  /** Shown with the verdicts of report `a`, CVM `j` of report `b` may turn green. */
  ghost predicate MayBeGreenBy(a: NodeReport, b: NodeReport, j: nat) {
    && j < |b.cvms|
    && exists k: nat :: FirstHolder(a, b.cvms[j].vmId, k) && CanBeGreen(a.cvms[k])
  }

  /** Shown with the verdicts of report `a`, CVM `j` of report `b` carries a verdict of its own. */
  ghost predicate IsOwnVerdict(a: NodeReport, b: NodeReport, j: nat) {
    j < |b.cvms| && a == b && FirstHolder(a, b.cvms[j].vmId, j)
  }

  /** The verdicts of arrival `a` may land on the report of arrival `b`, turn every CVM of an app
      there green, and be another one's verdict for CVM `j` of that app. */
  ghost predicate CanSteal(a: Arrival, b: Arrival, j: nat) {
    && a.report.nodeId == b.report.nodeId && a.stamp == b.stamp
    && j < |b.report.cvms|
    && (forall i: nat :: i < |b.report.cvms| && b.report.cvms[i].appId == b.report.cvms[j].appId ==>
                           MayBeGreenBy(a.report, b.report, i))
    && !IsOwnVerdict(a.report, b.report, j)
  }

  ghost predicate NoTheft(A: iset<Arrival>) {
    forall a, b, j :: a in A && b in A ==> !CanSteal(a, b, j)
  }

  /** In some reachable state the row is green, and CVM `i` of the node is one of its instances. */
  ghost predicate ShowsGreen(A: iset<Arrival>, answers: Answers, m: Reports, v: seq<StoredReport>,
                             row: AppRow, node: string, i: nat)
  {
    && Reachable(PushesOf(A, answers), m)
    && IsSnapshot(m, v) && IsGreenRow(v, row) && IsInstanceOf(m, node, i, row.appId)
  }

  /** Verifying CVM `i` of the stored report, as it arrived, gave the evidence. */
  ghost predicate HasEvidence(A: iset<Arrival>, answers: Answers, e: StoredReport, i: nat) {
    i < |e.report.cvms| &&
    exists a, quote, rep :: a in A && a.report == e.report && a.stamp == e.receivedAt
                            && Evidence(e.report.cvms[i], answers(a)(i), quote, rep)
  }

  /** Whatever the outside world answers, in every reachable state every CVM behind a green row has
      the evidence. */
  ghost predicate GreenRowsAreGenuine(A: iset<Arrival>) {
    forall answers, m, v, row, node, i ::
      ShowsGreen(A, answers, m, v, row, node, i) ==> HasEvidence(A, answers, m[node], i)
  }

  // ----- without a theft every green row is genuine -----

  lemma {:induction false} FoundIsFirstHolder(report: NodeReport, env: nat -> World, vmId: string, from: nat)
    returns (k: nat)
    requires from <= |report.cvms| && forall l :: 0 <= l < from ==> report.cvms[l].vmId != vmId
    requires VerdictFor(VerdictsOf(report, env)[from..], vmId).Some?
    ensures FirstHolder(report, vmId, k)
    ensures VerdictFor(VerdictsOf(report, env)[from..], vmId) == Some(VerdictOf(report.cvms[k], env(k)))
    decreases |report.cvms| - from
  {
    var verdicts := VerdictsOf(report, env);
    if report.cvms[from].vmId == vmId {
      k := from;
    } else {
      assert verdicts[from..][1..] == verdicts[from + 1..];
      k := FoundIsFirstHolder(report, env, vmId, from + 1);
    }
  }

  /** A green verdict found among those of one report is that of the id's first holder. */
  lemma GreenComesFromFirstHolder(report: NodeReport, env: nat -> World, vmId: string) returns (k: nat)
    requires SummaryOf(VerdictFor(VerdictsOf(report, env), vmId)) == Verified
    ensures FirstHolder(report, vmId, k) && CanBeGreen(report.cvms[k]) && Genuine(report.cvms[k], env(k))
  {
    var verdicts := VerdictsOf(report, env);
    assert verdicts[0..] == verdicts;
    k := FoundIsFirstHolder(report, env, vmId, 0);
    GreenIffGenuine(report.cvms[k], env(k));
    GreenIsPossibleIff(report.cvms[k]);
  }

  /** The arrivals an entry with verdicts comes from: `b` its report, `a` its verdicts. */
  lemma EntryComesFrom(A: iset<Arrival>, answers: Answers, node: string, e: StoredReport)
    returns (a: Arrival, b: Arrival)
    requires EntryTraced(PushesOf(A, answers), node, e) && e.verdicts != []
    ensures a in A && b in A && a.report.nodeId == b.report.nodeId == node
    ensures a.stamp == b.stamp == e.receivedAt && b.report == e.report
    ensures e.verdicts == VerdictsOf(a.report, answers(a))
  {
    var U := PushesOf(A, answers);
    var p :| p in U && Describes(p, node, e);
    var q :| q in U && SameSecond(q, node, e);
    b :| b in A && p == Push(b.report, b.stamp, answers(b));
    a :| a in A && q == Push(a.report, a.stamp, answers(a));
  }

  /** A CVM behind a green row has the evidence, unless its row was stolen. */
  lemma GenuineOrStolen(A: iset<Arrival>, answers: Answers, m: Reports, v: seq<StoredReport>,
                        row: AppRow, node: string, i: nat)
    returns (a: Arrival, b: Arrival)
    requires ShowsGreen(A, answers, m, v, row, node, i)
    ensures a in A && b in A
    ensures CanSteal(a, b, i) || HasEvidence(A, answers, m[node], i)
  {
    var e := m[node];
    ReachableIsTraced(PushesOf(A, answers), m);
    assert EntryTraced(PushesOf(A, answers), node, e);
    var n := EnumerationHasEntry(m, v, node);
    GreenRowMeansEveryInstanceGreen(v, row, n, i);
    a, b := EntryComesFrom(A, answers, node, e);
    forall j: nat | j < |b.report.cvms| && b.report.cvms[j].appId == row.appId
      ensures MayBeGreenBy(a.report, b.report, j)
    {
      GreenRowMeansEveryInstanceGreen(v, row, n, j);
      var k := GreenComesFromFirstHolder(a.report, answers(a), b.report.cvms[j].vmId);
    }
    if IsOwnVerdict(a.report, b.report, i) {
      var k := GreenComesFromFirstHolder(a.report, answers(a), b.report.cvms[i].vmId);
      assert k == i;
    }
  }

  // ----- a theft shows in some state -----

  /** Nothing verifies. */
  function FailingWorld(): World {
    LenientWorld("", SgxEnclave).(certExtension := _ => Err(""))
  }

  lemma NothingAttested(cvm: Cvm, quote: Bytes, rep: VerifiedReport)
    ensures !Evidence(cvm, FailingWorld(), quote, rep)
  {
  }

  /** Only arrival `a` meets a friendly world, and there only those CVMs whose verdicts are shown. */
  ghost function FriendlyTo(a: Arrival): Answers {
    x => i => if x == a && 0 <= i < |a.report.cvms| && CanBeGreen(a.report.cvms[i])
                 && FirstHolder(a.report, a.report.cvms[i].vmId, i)
              then BestWorld(a.report.cvms[i]) else FailingWorld()
  }

  lemma FriendlyTurnsGreen(a: Arrival, vmId: string, k: nat)
    requires FirstHolder(a.report, vmId, k) && CanBeGreen(a.report.cvms[k])
    ensures SummaryOf(VerdictFor(VerdictsOf(a.report, FriendlyTo(a)(a)), vmId)) == Verified
  {
    FirstMatchWins(VerdictsOf(a.report, FriendlyTo(a)(a)), vmId, k);
    BestWorldIsGreen(a.report.cvms[k]);
  }

  lemma StolenHasNoEvidence(A: iset<Arrival>, a: Arrival, b: Arrival, j: nat, e: StoredReport)
    requires CanSteal(a, b, j) && e.report == b.report
    ensures !HasEvidence(A, FriendlyTo(a), e, j)
  {
    forall x, quote, rep | x in A && x.report == e.report
      ensures !Evidence(e.report.cvms[j], FriendlyTo(a)(x)(j), quote, rep)
    {
      assert FriendlyTo(a)(x)(j) == FailingWorld();
      NothingAttested(e.report.cvms[j], quote, rep);
    }
  }

  /** Verdicts of one push land on the report of a push of the same node in the same second. */
  lemma StolenIsReachable(U: iset<Push>, p: Push, q: Push)
    requires p in U && q in U && p.Node() == q.Node() && p.stamp == q.stamp
    ensures Reachable(U, map[p.Node() := StoredReport(p.stamp, p.report, q.Verdicts())])
  {
    var disk := Disk([], None, None);
    TakeOverStealsTheEntry(false, disk, p, q);
    assert TracedDisk(U, disk) && PushesIn(U, TakeOver(q, p));
  }

  /** A theft that can happen does, in some reachable state: the row is green and CVM `j` of that app
      has no evidence. */
  lemma TheftShows(A: iset<Arrival>, a: Arrival, b: Arrival, j: nat)
    returns (answers: Answers, m: Reports, v: seq<StoredReport>, row: AppRow)
    requires a in A && b in A && CanSteal(a, b, j)
    ensures ShowsGreen(A, answers, m, v, row, b.report.nodeId, j)
    ensures m[b.report.nodeId].report == b.report && row.appId == b.report.cvms[j].appId
    ensures !HasEvidence(A, answers, m[b.report.nodeId], j)
  {
    answers := FriendlyTo(a);
    var p, q := Push(b.report, b.stamp, answers(b)), Push(a.report, a.stamp, answers(a));
    var e := StoredReport(b.stamp, b.report, q.Verdicts());
    m, v := map[b.report.nodeId := e], [e];
    StolenIsReachable(PushesOf(A, answers), p, q);
    LoneEntryIsSnapshot(b.report.nodeId, e);
    forall i | 0 <= i < |e.report.cvms| && e.report.cvms[i].appId == e.report.cvms[j].appId
      ensures SummaryOf(VerdictFor(e.verdicts, e.report.cvms[i].vmId)) == Verified
    {
      assert MayBeGreenBy(a.report, b.report, i);
      var k: nat :| FirstHolder(a.report, b.report.cvms[i].vmId, k) && CanBeGreen(a.report.cvms[k]);
      FriendlyTurnsGreen(a, b.report.cvms[i].vmId, k);
    }
    row := LoneRowIsGreen(e, j);
    StolenHasNoEvidence(A, a, b, j, e);
  }

  // ----- the exact condition and what follows from it -----

  /** Exactly when a green row can be trusted: whatever the outside world answers, every CVM behind a
      green row of any reachable state has the evidence, if and only if no arrival's verdicts can turn
      an app green on a report of the same node and second for a CVM they do not belong to. */
  lemma GreenRowsAreGenuineIff(A: iset<Arrival>)
    ensures GreenRowsAreGenuine(A) <==> NoTheft(A)
  {
    if NoTheft(A) {
      forall answers, m, v, row, node, i | ShowsGreen(A, answers, m, v, row, node, i)
        ensures HasEvidence(A, answers, m[node], i)
      {
        var a, b := GenuineOrStolen(A, answers, m, v, row, node, i);
      }
    } else {
      var a, b, j :| a in A && b in A && CanSteal(a, b, j);
      var answers, m, v, row := TheftShows(A, a, b, j);
    }
  }

  /** Distinct stamps per node and distinct vm ids per report leave nothing to steal. */
  lemma GreenRowWithDistinctStamps(A: iset<Arrival>)
    requires DistinctStamps(A) && forall a :: a in A ==> DistinctVmIds(a.report)
    ensures GreenRowsAreGenuine(A)
  {
    GreenRowsAreGenuineIff(A);
  }

  lemma NoEvidenceWithout(cvm: Cvm, w: World, quote: Bytes, rep: VerifiedReport)
    requires !CanBeGreen(cvm)
    ensures !Evidence(cvm, w, quote, rep)
  {
    GovernedNetworkHasRpc(cvm);
  }

  /** Two pushes of one node in one second, with one vm id: in some reachable state the row is green
      for a CVM that was never verified, whatever it claims. */
  lemma GreenRowCanBeStolen(cvm: Cvm, other: Cvm, node: string)
    returns (A: iset<Arrival>, answers: Answers, m: Reports, v: seq<StoredReport>, row: AppRow)
    requires CanBeGreen(cvm) && other.vmId == cvm.vmId && other != cvm
    ensures forall a :: a in A ==> DistinctVmIds(a.report) && a.report.nodeId == node && |a.report.cvms| == 1
    ensures ShowsGreen(A, answers, m, v, row, node, 0) && m[node].report.cvms == [other]
    ensures !HasEvidence(A, answers, m[node], 0)
    ensures !CanBeGreen(other) ==> forall w, quote, rep :: !Evidence(other, w, quote, rep)
  {
    var a, b := Arrival(0, NodeReport(node, 0, [cvm]), 0), Arrival(1, NodeReport(node, 0, [other]), 0);
    A := iset{a, b};
    assert FirstHolder(a.report, other.vmId, 0);
    assert MayBeGreenBy(a.report, b.report, 0);
    assert a.report.cvms[0] != b.report.cvms[0];
    answers, m, v, row := TheftShows(A, a, b, 0);
    forall w, quote, rep | !CanBeGreen(other)
      ensures !Evidence(other, w, quote, rep)
    {
      NoEvidenceWithout(other, w, quote, rep);
    }
  }
}
