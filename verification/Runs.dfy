/** What every run of the report store keeps: whose verdicts an entry carries, where all orders of
    completion lead, and that work in flight always drains. */
module Runs {
  import opened Prelude
  import opened Wire
  import opened Verify
  import opened Summary
  import opened Fleet
  import opened Store
  import opened Protocol

  /** Verdict ownership after any pushes, completions, failed or torn saves, crashes and reloads.
      Without any assumption on the stamps an entry's verdicts belong to some push of its node with
      its stamp; when such pushes agree they are the output of verifying that very report. Both hold
      of memory and of what a restart would load. */
  lemma VerdictOwnership(persist: bool, U: iset<Push>, disk: Disk, actions: seq<Action>)
    requires TracedDisk(U, disk) && PushesIn(U, actions)
    ensures var s := Exec(persist, FirstStart(persist, disk), actions);
            && Traced(U, s.mem) && Traced(U, s.disk.Load())
            && (Consistent(U) ==> Owned(U, s.mem) && Owned(U, s.disk.Load()))
  {
    RunsAreTraced(persist, U, disk, actions);
    var s := Exec(persist, FirstStart(persist, disk), actions);
    if s.disk.state.Some? {
      assert ContentTraced(U, s.disk.inodes[s.disk.state.value]);
    }
    if Consistent(U) {
      TracedIsOwned(U, s.mem);
      TracedIsOwned(U, s.disk.Load());
    }
  }

  // ----- the pushes since the last restart -----

  ghost function LastPush(pushed: seq<Push>, node: string): Option<Push> {
    if pushed == [] then None
    else if pushed[|pushed| - 1].Node() == node then Some(pushed[|pushed| - 1])
    else LastPush(pushed[..|pushed| - 1], node)
  }

  /** The push whose verification this job still owes. */
  ghost function Owes(job: Job): Option<Push> {
    match job
    case Saving(_, _, next) => next
    case Verifying(p) => Some(p)
    case Done => None
  }

  ghost predicate Live(jobs: seq<Job>, p: Push) {
    exists k :: 0 <= k < |jobs| && Owes(jobs[k]) == Some(p)
  }

  /** The entry of a node pushed since the restart is its last push, with that push's verdicts or
      with a verification still on its way; any other entry is as loaded. */
  ghost predicate NodeInv(s: State, node: string) {
    match LastPush(s.pushed, node)
    case None =>
      (node in s.mem <==> node in s.base) && (node in s.mem ==> s.mem[node] == s.base[node])
    case Some(p) =>
      && node in s.mem
      && Owns(p, node, s.mem[node])
      && (s.mem[node].verdicts == p.Verdicts() || Live(s.jobs, p))
  }

  /** Every push, and every verification owed, is of this run. */
  ghost predicate JobsInv(U: iset<Push>, s: State) {
    && (forall p :: p in s.pushed ==> p in U)
    && (forall k :: 0 <= k < |s.jobs| && Owes(s.jobs[k]).Some? ==> Owes(s.jobs[k]).value in s.pushed)
  }

  ghost predicate RunInv(U: iset<Push>, s: State) {
    JobsInv(U, s) && forall node :: NodeInv(s, node)
  }

  lemma {:induction false} LastPushIsInU(U: iset<Push>, pushed: seq<Push>, p: Push)
    requires p in pushed && forall q :: q in pushed ==> q in U
    ensures LastPush(pushed, p.Node()).Some?
    ensures var l := LastPush(pushed, p.Node()).value; l in U && l.Node() == p.Node()
  {
    var n := |pushed| - 1;
    if pushed[n].Node() != p.Node() {
      assert pushed == pushed[..n] + [pushed[n]];
      LastPushIsInU(U, pushed[..n], p);
    }
  }

  lemma ReceiveKeepsRunInv(persist: bool, U: iset<Push>, s: State, p: Push)
    requires s.disk.Valid() && RunInv(U, s) && p in U
    ensures RunInv(U, Apply(persist, s, Receive(p)))
  {
    var s' := Apply(persist, s, Receive(p));
    assert s'.pushed[..|s.pushed|] == s.pushed;
    assert Owes(s'.jobs[|s.jobs|]) == Some(p);
    forall node
      ensures NodeInv(s', node)
    {
      assert NodeInv(s, node);
      if node != p.Node() && LastPush(s.pushed, node).Some? && Live(s.jobs, LastPush(s.pushed, node).value) {
        var k :| 0 <= k < |s.jobs| && Owes(s.jobs[k]) == Some(LastPush(s.pushed, node).value);
        assert Owes(s'.jobs[k]) == Owes(s.jobs[k]);
      }
    }
  }

  /** A step that only ends job `k` and may change the entry of that job's node, seen from another node. */
  lemma OtherNodeStays(s: State, s': State, k: nat, p: Push, node: string)
    requires NodeInv(s, node) && p.Node() != node
    requires k < |s.jobs| == |s'.jobs| && Owes(s.jobs[k]) == Some(p)
    requires s'.pushed == s.pushed && s'.base == s.base
    requires forall j :: 0 <= j < |s.jobs| && j != k ==> s'.jobs[j] == s.jobs[j]
    requires (node in s'.mem <==> node in s.mem) && (node in s.mem ==> s'.mem[node] == s.mem[node])
    ensures NodeInv(s', node)
  {
    var last := LastPush(s.pushed, node);
    if last.Some? {
      LastPushIsOfNode(s.pushed, node);
      if Live(s.jobs, last.value) {
        var j :| 0 <= j < |s.jobs| && Owes(s.jobs[j]) == last;
        assert Owes(s'.jobs[j]) == last;
      }
    }
  }

  lemma {:induction false} LastPushIsOfNode(pushed: seq<Push>, node: string)
    requires LastPush(pushed, node).Some?
    ensures LastPush(pushed, node).value.Node() == node && LastPush(pushed, node).value in pushed
  {
    if pushed[|pushed| - 1].Node() != node {
      LastPushIsOfNode(pushed[..|pushed| - 1], node);
    }
  }

  /** Seen from its own node: written back onto the last push, or dropped because a newer push with
      another stamp is still being verified. */
  lemma CompleteKeepsOwnNode(persist: bool, U: iset<Push>, s: State, k: nat)
    requires s.disk.Valid() && k < |s.jobs| && s.jobs[k].Verifying?
    requires var p := s.jobs[k].push; p in s.pushed && NodeInv(s, p.Node())
    requires Consistent(U) && forall q :: q in s.pushed ==> q in U
    ensures NodeInv(Apply(persist, s, Complete(k)), s.jobs[k].push.Node())
  {
    var s' := Apply(persist, s, Complete(k));
    var p := s.jobs[k].push;
    LastPushIsInU(U, s.pushed, p);
    var l := LastPush(s.pushed, p.Node()).value;
    if l.stamp == p.stamp {
      assert l.Verdicts() == p.Verdicts();
    } else if Live(s.jobs, l) {
      var j :| 0 <= j < |s.jobs| && Owes(s.jobs[j]) == Some(l);
      assert Owes(s'.jobs[j]) == Some(l);
    }
  }

  lemma CompleteKeepsJobs(persist: bool, U: iset<Push>, s: State, k: nat)
    requires JobsInv(U, s) && k < |s.jobs| && s.jobs[k].Verifying?
    ensures JobsInv(U, Apply(persist, s, Complete(k)))
  {
  }

  lemma CompleteKeepsRunInv(persist: bool, U: iset<Push>, s: State, k: nat)
    requires s.disk.Valid() && RunInv(U, s) && Consistent(U)
    requires k < |s.jobs| && s.jobs[k].Verifying?
    ensures RunInv(U, Apply(persist, s, Complete(k)))
  {
    var p := s.jobs[k].push;
    assert Owes(s.jobs[k]) == Some(p);
    assert NodeInv(s, p.Node());
    CompleteKeepsJobs(persist, U, s, k);
    CompleteKeepsOwnNode(persist, U, s, k);
    forall node
      ensures NodeInv(Apply(persist, s, Complete(k)), node)
    {
      assert NodeInv(s, node);
      if node != p.Node() {
        OtherNodeStays(s, Apply(persist, s, Complete(k)), k, p, node);
      }
    }
  }

  lemma SaveStepKeepsRunInv(U: iset<Push>, s: State, s': State)
    requires RunInv(U, s)
    requires s'.mem == s.mem && s'.pushed == s.pushed && s'.base == s.base && |s'.jobs| == |s.jobs|
    requires forall k :: 0 <= k < |s.jobs| ==> Owes(s'.jobs[k]) == Owes(s.jobs[k])
    ensures RunInv(U, s')
  {
    forall node
      ensures NodeInv(s', node)
    {
      assert NodeInv(s, node);
      var last := LastPush(s.pushed, node);
      if last.Some? && Live(s.jobs, last.value) {
        var j :| 0 <= j < |s.jobs| && Owes(s.jobs[j]) == last;
        assert Owes(s'.jobs[j]) == last;
      }
    }
  }

  lemma StepKeepsRunInv(persist: bool, U: iset<Push>, s: State, a: Action)
    requires s.disk.Valid() && RunInv(U, s) && Consistent(U)
    requires a.Receive? ==> a.push in U
    ensures RunInv(U, Apply(persist, s, a))
  {
    var s' := Apply(persist, s, a);
    if Enabled(s, a) {
      match a {
        case Receive(p) => ReceiveKeepsRunInv(persist, U, s, p);
        case Complete(k) => CompleteKeepsRunInv(persist, U, s, k);
        case Crash =>
          forall node
            ensures NodeInv(s', node)
          {
            assert LastPush(s'.pushed, node) == None;
          }
        case _ => SaveStepKeepsRunInv(U, s, s');
      }
    }
  }

  lemma {:induction false} RunsKeepRunInv(persist: bool, U: iset<Push>, disk: Disk, actions: seq<Action>)
    requires disk.Valid() && PushesIn(U, actions) && Consistent(U)
    ensures RunInv(U, Exec(persist, FirstStart(persist, disk), actions))
  {
    var s0 := FirstStart(persist, disk);
    if actions == [] {
      forall node
        ensures NodeInv(s0, node)
      {
        assert LastPush(s0.pushed, node) == None;
      }
    } else {
      var init := actions[..|actions| - 1];
      PushesInPrefix(U, actions);
      RunsKeepRunInv(persist, U, disk, init);
      ExecStep(persist, s0, actions);
      ExecKeepsValid(persist, s0, init);
      StepKeepsRunInv(persist, U, Exec(persist, s0, init), actions[|actions| - 1]);
    }
  }

  // ----- the exact hypothesis on stamps -----

  /** Every node pushed since the restart shows its last push, unverified or with that push's own
      verdicts. */
  ghost predicate RunOwns(s: State) {
    forall node :: LastPush(s.pushed, node).Some? ==>
                     node in s.mem && Owns(LastPush(s.pushed, node).value, node, s.mem[node])
  }

  ghost function TakeOver(q: Push, p: Push): seq<Action> {
    [Receive(q), OpenFails(0)] + [Receive(p), Complete(0)]
  }

  /** A verification that finishes after a second push in the same second lands on the second push. */
  lemma TakeOverStealsTheEntry(persist: bool, disk: Disk, p: Push, q: Push)
    requires disk.Valid() && p.Node() == q.Node() && p.stamp == q.stamp
    ensures var s := Exec(persist, FirstStart(persist, disk), TakeOver(q, p));
            && LastPush(s.pushed, p.Node()) == Some(p)
            && s.mem == FirstStart(persist, disk).mem[p.Node() := StoredReport(p.stamp, p.report, q.Verdicts())]
  {
    var s0 := FirstStart(persist, disk);
    var first, second := [Receive(q), OpenFails(0)], [Receive(p), Complete(0)];
    ExecAppend(persist, s0, first, second);
    OneIsVerifying(persist, s0, q);
    TakeOverNow(persist, Exec(persist, s0, first), q, p);
  }

  lemma OneIsVerifying(persist: bool, s0: State, q: Push)
    requires s0.disk.Valid() && s0.jobs == [] && s0.pushed == []
    ensures var s := Exec(persist, s0, [Receive(q), OpenFails(0)]);
            && s.disk.Valid() && s.jobs == [Verifying(q)] && s.pushed == [q]
            && s.mem == Ingested(s0.mem, q.report, q.stamp)
  {
    ExecTwo(persist, s0, Receive(q), OpenFails(0));
    var s1 := Apply(persist, s0, Receive(q));
    assert s1.jobs == [if persist then Saving(s1.mem, Queued, Some(q)) else Verifying(q)];
  }

  lemma FinishShows(persist: bool, s: State, k: nat, node: string)
    requires s.disk.Valid() && k < |s.jobs| && s.jobs[k].Verifying? && node in s.mem
    requires s.jobs[k].push.Node() == node && s.jobs[k].push.stamp == s.mem[node].receivedAt
    ensures var s' := Apply(persist, s, Complete(k));
            && s'.disk.Valid() && s'.pushed == s.pushed
            && s'.mem == s.mem[node := s.mem[node].(verdicts := s.jobs[k].push.Verdicts())]
            && |s'.jobs| == |s.jobs| && Owes(s'.jobs[k]).None?
            && forall j :: 0 <= j < |s.jobs| && j != k ==> s'.jobs[j] == s.jobs[j]
  {
  }

  lemma TakeOverNow(persist: bool, s: State, q: Push, p: Push)
    requires s.disk.Valid() && s.jobs == [Verifying(q)] && s.pushed == [q]
    requires p.Node() == q.Node() && p.stamp == q.stamp
    ensures var s' := Exec(persist, s, [Receive(p), Complete(0)]);
            && LastPush(s'.pushed, p.Node()) == Some(p)
            && s'.mem == s.mem[p.Node() := StoredReport(p.stamp, p.report, q.Verdicts())]
  {
    ExecTwo(persist, s, Receive(p), Complete(0));
    var s1 := Apply(persist, s, Receive(p));
    assert s1.jobs[0] == Verifying(q) && s1.pushed == [q, p];
    FinishShows(persist, s1, 0, p.Node());
  }

  /** The one-second resolution of the stamp, exactly: every run with pushes from `U` shows only
      own verdicts if and only if pushes of one node in one second verify alike. */
  lemma OwnershipIffConsistent(persist: bool, disk: Disk, U: iset<Push>)
    requires disk.Valid()
    ensures (forall actions | PushesIn(U, actions) :: RunOwns(Exec(persist, FirstStart(persist, disk), actions)))
            <==> Consistent(U)
  {
    if Consistent(U) {
      forall actions | PushesIn(U, actions)
        ensures RunOwns(Exec(persist, FirstStart(persist, disk), actions))
      {
        RunsKeepRunInv(persist, U, disk, actions);
        var s := Exec(persist, FirstStart(persist, disk), actions);
        forall node | LastPush(s.pushed, node).Some?
          ensures node in s.mem && Owns(LastPush(s.pushed, node).value, node, s.mem[node])
        {
          assert NodeInv(s, node);
        }
      }
    } else {
      var p, q :| p in U && q in U && p.Node() == q.Node() && p.stamp == q.stamp && p.Verdicts() != q.Verdicts();
      var late, early := if q.Verdicts() != [] then p else q, if q.Verdicts() != [] then q else p;
      TakeOverStealsTheEntry(persist, disk, late, early);
      assert PushesIn(U, TakeOver(early, late));
      assert !RunOwns(Exec(persist, FirstStart(persist, disk), TakeOver(early, late)));
    }
  }

  // ----- the hypothesis as the server can check it -----

  /** A push when it arrives, before anything outside has answered; `id` tells apart arrivals of the
      same report in the same second. */
  datatype Arrival = Arrival(id: nat, report: NodeReport, stamp: nat)

  /** What the outside world will answer while an arrival is verified. */
  type Answers = Arrival -> (nat -> World)

  ghost function PushesOf(A: iset<Arrival>, answers: Answers): iset<Push> {
    iset a | a in A :: Push(a.report, a.stamp, answers(a))
  }

  /** No two arrivals of one node come in one second, unless both report no CVMs. */
  ghost predicate DistinctStamps(A: iset<Arrival>) {
    forall a, b :: a in A && b in A && a != b && a.report.nodeId == b.report.nodeId && a.stamp == b.stamp ==>
                     a.report.cvms == [] && b.report.cvms == []
  }

  function ClockAt(t: nat): World {
    LenientWorld("", SgxEnclave).(startedAt := t)
  }

  lemma DifferentClocksDisagree(a: Arrival, b: Arrival, answers: Answers)
    requires a.report.cvms != [] || b.report.cvms != []
    requires (forall i :: answers(a)(i) == ClockAt(0)) && (forall i :: answers(b)(i) == ClockAt(1))
    ensures VerdictsOf(a.report, answers(a)) != VerdictsOf(b.report, answers(b))
  {
    if |a.report.cvms| == |b.report.cvms| {
      assert VerdictsOf(a.report, answers(a))[0].verifiedAt == 0;
      assert VerdictsOf(b.report, answers(b))[0].verifiedAt == 1;
    }
  }

  /** Whatever the outside world answers, pushes of one node in one second verify alike: exactly if
      the stamps tell the arrivals with CVMs apart. */
  lemma ConsistentInEveryWorldIff(A: iset<Arrival>)
    ensures (forall answers: Answers :: Consistent(PushesOf(A, answers))) <==> DistinctStamps(A)
  {
    if !DistinctStamps(A) {
      var a, b :| a in A && b in A && a != b && a.report.nodeId == b.report.nodeId && a.stamp == b.stamp
                  && (a.report.cvms != [] || b.report.cvms != []);
      var answers: Answers := x => if x == a then _ => ClockAt(0) else _ => ClockAt(1);
      DifferentClocksDisagree(a, b, answers);
      var p, q := Push(a.report, a.stamp, answers(a)), Push(b.report, b.stamp, answers(b));
      assert p in PushesOf(A, answers) && q in PushesOf(A, answers);
      assert p.Verdicts() != q.Verdicts();
    }
  }

  /** Whatever the outside world answers, every run shows only own verdicts: exactly if no two
      arrivals of one node come in one second, those without CVMs excepted. */
  lemma OwnershipInEveryWorldIff(persist: bool, disk: Disk, A: iset<Arrival>)
    requires disk.Valid()
    ensures (forall answers: Answers, actions | PushesIn(PushesOf(A, answers), actions) ::
               RunOwns(Exec(persist, FirstStart(persist, disk), actions)))
            <==> DistinctStamps(A)
  {
    ConsistentInEveryWorldIff(A);
    forall answers: Answers
      ensures (forall actions | PushesIn(PushesOf(A, answers), actions) ::
                 RunOwns(Exec(persist, FirstStart(persist, disk), actions)))
              <==> Consistent(PushesOf(A, answers))
    {
      OwnershipIffConsistent(persist, disk, PushesOf(A, answers));
    }
  }

  // ----- quiescence and confluence -----

  ghost predicate Quiescent(s: State) {
    forall k :: 0 <= k < |s.jobs| ==> Owes(s.jobs[k]).None?
  }

  /** The loaded map overwritten by each push with the verdicts of its own report. */
  ghost function FinalMap(base: Reports, pushed: seq<Push>): Reports {
    if pushed == [] then base
    else
      var p := pushed[|pushed| - 1];
      FinalMap(base, pushed[..|pushed| - 1])[p.Node() := StoredReport(p.stamp, p.report, p.Verdicts())]
  }

  lemma {:induction false} FinalMapAt(base: Reports, pushed: seq<Push>, node: string)
    ensures match LastPush(pushed, node)
            case None =>
              && (node in FinalMap(base, pushed) <==> node in base)
              && (node in base ==> FinalMap(base, pushed)[node] == base[node])
            case Some(p) =>
              && node in FinalMap(base, pushed)
              && FinalMap(base, pushed)[node] == StoredReport(p.stamp, p.report, p.Verdicts())
  {
    if pushed != [] {
      FinalMapAt(base, pushed[..|pushed| - 1], node);
    }
  }

  /** Once no verification is owed, memory is the loaded map overwritten by the last push of each
      node, each with exactly the verdicts of its own report, whatever happened in between. */
  lemma QuiescentMap(persist: bool, U: iset<Push>, disk: Disk, actions: seq<Action>)
    requires disk.Valid() && PushesIn(U, actions) && Consistent(U)
    requires Quiescent(Exec(persist, FirstStart(persist, disk), actions))
    ensures var s := Exec(persist, FirstStart(persist, disk), actions);
            s.mem == FinalMap(s.base, s.pushed)
  {
    RunsKeepRunInv(persist, U, disk, actions);
    var s := Exec(persist, FirstStart(persist, disk), actions);
    var final := FinalMap(s.base, s.pushed);
    forall node
      ensures node in s.mem <==> node in final
      ensures node in s.mem ==> s.mem[node] == final[node]
    {
      assert NodeInv(s, node);
      FinalMapAt(s.base, s.pushed, node);
    }
  }

  /** CVMs without any verdict. */
  ghost predicate Unverified(e: StoredReport) {
    e.report.cvms != [] && e.verdicts == []
  }

  /** Start-up verifies nothing: once no verification is owed, a node is unverified exactly if it was
      loaded unverified and has not been pushed since. */
  lemma StaysUnverifiedIff(persist: bool, U: iset<Push>, disk: Disk, actions: seq<Action>, node: string)
    requires disk.Valid() && PushesIn(U, actions) && Consistent(U)
    requires Quiescent(Exec(persist, FirstStart(persist, disk), actions))
    ensures var s := Exec(persist, FirstStart(persist, disk), actions);
            node in s.mem && Unverified(s.mem[node]) <==>
            node in s.base && Unverified(s.base[node]) && LastPush(s.pushed, node).None?
  {
    QuiescentMap(persist, U, disk, actions);
    var s := Exec(persist, FirstStart(persist, disk), actions);
    FinalMapAt(s.base, s.pushed, node);
  }

  ghost function Received(actions: seq<Action>): seq<Push> {
    if actions == [] then []
    else
      var a := actions[|actions| - 1];
      Received(actions[..|actions| - 1]) + if a.Receive? then [a.push] else []
  }

  ghost predicate NoCrash(actions: seq<Action>) {
    forall i :: 0 <= i < |actions| ==> actions[i] != Crash
  }

  lemma {:induction false} History(persist: bool, s: State, actions: seq<Action>)
    requires s.disk.Valid() && NoCrash(actions)
    ensures Exec(persist, s, actions).base == s.base
    ensures Exec(persist, s, actions).pushed == s.pushed + Received(actions)
  {
    if actions != [] {
      var init, a := actions[..|actions| - 1], actions[|actions| - 1];
      History(persist, s, init);
      ExecStep(persist, s, actions);
      ExecKeepsValid(persist, s, init);
      StepHistory(persist, Exec(persist, s, init), a);
      var latest := if a.Receive? then [a.push] else [];
      assert s.pushed + (Received(init) + latest) == (s.pushed + Received(init)) + latest;
    }
  }

  lemma StepHistory(persist: bool, s: State, a: Action)
    requires s.disk.Valid() && a != Crash
    ensures Apply(persist, s, a).base == s.base
    ensures Apply(persist, s, a).pushed == s.pushed + if a.Receive? then [a.push] else []
  {
  }

  /** The same pushes in the same order: every order of completions and saves that drains ends in
      the same map. */
  lemma Confluence(persist: bool, U: iset<Push>, disk: Disk, actions1: seq<Action>, actions2: seq<Action>)
    requires disk.Valid() && Consistent(U)
    requires PushesIn(U, actions1) && PushesIn(U, actions2)
    requires NoCrash(actions1) && NoCrash(actions2)
    requires Received(actions1) == Received(actions2)
    requires Quiescent(Exec(persist, FirstStart(persist, disk), actions1))
    requires Quiescent(Exec(persist, FirstStart(persist, disk), actions2))
    ensures Exec(persist, FirstStart(persist, disk), actions1).mem ==
            Exec(persist, FirstStart(persist, disk), actions2).mem ==
            FinalMap(FirstStart(persist, disk).mem, Received(actions1))
  {
    var s0 := FirstStart(persist, disk);
    QuiescentMap(persist, U, disk, actions1);
    QuiescentMap(persist, U, disk, actions2);
    History(persist, s0, actions1);
    History(persist, s0, actions2);
    assert s0.pushed + Received(actions1) == Received(actions1);
  }

  /** A run without crashes in which every verification has finished. */
  ghost predicate Settles(persist: bool, U: iset<Push>, disk: Disk, actions: seq<Action>) {
    PushesIn(U, actions) && NoCrash(actions) && Quiescent(Exec(persist, FirstStart(persist, disk), actions))
  }

  ghost function Arrive(q: Push, p: Push): seq<Action> {
    [Receive(q), OpenFails(0)] + [Receive(p), OpenFails(1)]
  }

  lemma BothAreVerifying(persist: bool, s0: State, q: Push, p: Push)
    requires s0.disk.Valid() && s0.jobs == [] && s0.pushed == [] && p.Node() == q.Node()
    ensures var s := Exec(persist, s0, Arrive(q, p));
            && s.disk.Valid() && s.jobs == [Verifying(q), Verifying(p)] && s.pushed == [q, p]
            && p.Node() in s.mem && s.mem[p.Node()] == StoredReport(p.stamp, p.report, [])
  {
    OneIsVerifying(persist, s0, q);
    var s1 := Exec(persist, s0, [Receive(q), OpenFails(0)]);
    ExecAppend(persist, s0, [Receive(q), OpenFails(0)], [Receive(p), OpenFails(1)]);
    ExecTwo(persist, s1, Receive(p), OpenFails(1));
    var s2 := Apply(persist, s1, Receive(p));
    assert s2.jobs == [Verifying(q), if persist then Saving(s2.mem, Queued, Some(p)) else Verifying(p)];
  }

  /** Of two verifications in one second, the one that finishes last has its verdicts shown. */
  lemma LastToFinishWins(persist: bool, s: State, q: Push, p: Push, first: nat, last: nat)
    requires s.disk.Valid() && s.jobs == [Verifying(q), Verifying(p)]
    requires p.Node() == q.Node() && p.stamp == q.stamp
    requires p.Node() in s.mem && s.mem[p.Node()].receivedAt == p.stamp
    requires {first, last} == {0, 1}
    ensures var s' := Exec(persist, s, [Complete(first), Complete(last)]);
            && Quiescent(s') && s'.pushed == s.pushed && p.Node() in s'.mem
            && s'.mem[p.Node()].verdicts == s.jobs[last].push.Verdicts()
  {
    ExecTwo(persist, s, Complete(first), Complete(last));
    assert first in {0, 1} && last in {0, 1} && first != last by {
      assert 0 in {first, last} && 1 in {first, last};
    }
    FinishShows(persist, s, first, p.Node());
    FinishShows(persist, Apply(persist, s, Complete(first)), last, p.Node());
  }

  lemma OrderOfFinishingShows(persist: bool, U: iset<Push>, disk: Disk, q: Push, p: Push, first: nat, last: nat)
    requires disk.Valid() && p in U && q in U
    requires p.Node() == q.Node() && p.stamp == q.stamp && {first, last} == {0, 1}
    ensures var actions := Arrive(q, p) + [Complete(first), Complete(last)];
            && Settles(persist, U, disk, actions) && Received(actions) == [q, p]
            && var s := Exec(persist, FirstStart(persist, disk), actions);
               p.Node() in s.mem && s.mem[p.Node()].verdicts == [q, p][last].Verdicts()
  {
    var s0 := FirstStart(persist, disk);
    var actions := Arrive(q, p) + [Complete(first), Complete(last)];
    BothAreVerifying(persist, s0, q, p);
    LastToFinishWins(persist, Exec(persist, s0, Arrive(q, p)), q, p, first, last);
    ExecAppend(persist, s0, Arrive(q, p), [Complete(first), Complete(last)]);
    History(persist, s0, actions);
    assert s0.pushed + Received(actions) == Received(actions);
  }

  /** The order of completions never shows, for any sequence of pushes from `U`, exactly if pushes of
      one node in one second verify alike. */
  lemma ConfluenceIffConsistent(persist: bool, U: iset<Push>, disk: Disk)
    requires disk.Valid()
    ensures (forall actions1, actions2 ::
               Settles(persist, U, disk, actions1) && Settles(persist, U, disk, actions2)
               && Received(actions1) == Received(actions2) ==>
                 Exec(persist, FirstStart(persist, disk), actions1).mem ==
                 Exec(persist, FirstStart(persist, disk), actions2).mem)
            <==> Consistent(U)
  {
    if Consistent(U) {
      forall actions1, actions2 | Settles(persist, U, disk, actions1) && Settles(persist, U, disk, actions2)
                                  && Received(actions1) == Received(actions2)
        ensures Exec(persist, FirstStart(persist, disk), actions1).mem ==
                Exec(persist, FirstStart(persist, disk), actions2).mem
      {
        Confluence(persist, U, disk, actions1, actions2);
      }
    } else {
      var p, q :| p in U && q in U && p.Node() == q.Node() && p.stamp == q.stamp && p.Verdicts() != q.Verdicts();
      OrderOfFinishingShows(persist, U, disk, q, p, 0, 1);
      OrderOfFinishingShows(persist, U, disk, q, p, 1, 0);
    }
  }

  // ----- work in flight drains -----

  /** Steps a job can still take. */
  ghost function Effort(job: Job): nat {
    match job
    case Saving(_, phase, next) =>
      (match phase case Queued => 3 case Opened(_) => 2 case Filled => 1) + (if next.Some? then 4 else 0)
    case Verifying(_) => 4
    case Done => 0
  }

  ghost function Work(jobs: seq<Job>): nat {
    if jobs == [] then 0 else Work(jobs[..|jobs| - 1]) + Effort(jobs[|jobs| - 1])
  }

  lemma {:induction false} WorkAfterStep(jobs: seq<Job>, k: nat, job: Job)
    requires k < |jobs|
    ensures Work(jobs[k := job]) == Work(jobs) - Effort(jobs[k]) + Effort(job)
    ensures Work(jobs) >= Effort(jobs[k])
  {
    var n := |jobs| - 1;
    if k < n {
      WorkAfterStep(jobs[..n], k, job);
      assert jobs[k := job][..n] == jobs[..n][k := job];
    } else {
      assert jobs[k := job][..n] == jobs[..n];
    }
  }

  /** Every enabled action but a push or a crash uses up work, so without new pushes every schedule
      is finite. */
  lemma StepsUseUpWork(persist: bool, s: State, a: Action)
    requires s.disk.Valid() && Enabled(s, a) && !a.Receive? && !a.Crash?
    ensures Work(Apply(persist, s, a).jobs) < Work(s.jobs)
  {
    var s' := Apply(persist, s, a);
    var k := a.job;
    assert s'.jobs == s.jobs[k := s'.jobs[k]];
    WorkAfterStep(s.jobs, k, s'.jobs[k]);
  }

  lemma {:induction false} IdleHasNoWork(jobs: seq<Job>, k: nat)
    requires Work(jobs) == 0 && k < |jobs|
    ensures jobs[k] == Done
  {
    WorkAfterStep(jobs, k, Done);
  }

  ghost predicate InodesKnown(s: State) {
    && s.disk.Valid()
    && forall k :: 0 <= k < |s.jobs| && s.jobs[k].Saving? && s.jobs[k].phase.Opened? ==>
         s.jobs[k].phase.inode < |s.disk.inodes|
  }

  lemma {:induction false} RunsKeepInodesKnown(persist: bool, s: State, actions: seq<Action>)
    requires InodesKnown(s)
    ensures InodesKnown(Exec(persist, s, actions))
  {
    if actions != [] {
      RunsKeepInodesKnown(persist, s, actions[..|actions| - 1]);
      ExecStep(persist, s, actions);
      StepKeepsInodesKnown(persist, Exec(persist, s, actions[..|actions| - 1]), actions[|actions| - 1]);
    }
  }

  lemma StepKeepsInodesKnown(persist: bool, s: State, a: Action)
    requires InodesKnown(s)
    ensures InodesKnown(Apply(persist, s, a))
  {
  }

  ghost function NextStep(k: nat, job: Job): Action {
    match job
    case Saving(_, Queued, _) => Open(k)
    case Saving(_, Opened(_), _) => Fill(k)
    case Saving(_, Filled, _) => Rename(k)
    case _ => Complete(k)
  }

  /** No pushes, no failures, no crashes. */
  ghost predicate OnlyWork(actions: seq<Action>) {
    forall i :: 0 <= i < |actions| ==>
                  actions[i].Open? || actions[i].Fill? || actions[i].Rename? || actions[i].Complete?
  }

  /** No work is ever stuck: from any reachable state, some continuation without pushes, failures or
      crashes finishes every job. */
  lemma WorkCanDrain(persist: bool, s: State) returns (rest: seq<Action>)
    requires InodesKnown(s)
    ensures OnlyWork(rest)
    ensures Work(Exec(persist, s, rest).jobs) == 0
    decreases Work(s.jobs)
  {
    if Work(s.jobs) == 0 {
      rest := [];
    } else {
      var k := UndoneJob(s.jobs);
      var a := NextStep(k, s.jobs[k]);
      assert Enabled(s, a);
      StepsUseUpWork(persist, s, a);
      var s' := Apply(persist, s, a);
      ExecOne(persist, s, a);
      StepKeepsInodesKnown(persist, s, a);
      var more := WorkCanDrain(persist, s');
      rest := [a] + more;
      ExecAppend(persist, s, [a], more);
    }
  }

  lemma {:induction false} UndoneJob(jobs: seq<Job>) returns (k: nat)
    requires Work(jobs) > 0
    ensures k < |jobs| && jobs[k] != Done
  {
    var n := |jobs| - 1;
    if jobs[n] != Done {
      k := n;
    } else {
      k := UndoneJob(jobs[..n]);
    }
  }

  /** So every run can be continued until each node pushed since the restart shows its last push
      with exactly the verdicts of its own report. */
  lemma EveryRunCanSettle(persist: bool, U: iset<Push>, disk: Disk, actions: seq<Action>)
    returns (rest: seq<Action>)
    requires disk.Valid() && PushesIn(U, actions) && Consistent(U)
    ensures OnlyWork(rest)
    ensures var s := Exec(persist, FirstStart(persist, disk), actions + rest);
            Work(s.jobs) == 0 && s.mem == FinalMap(s.base, s.pushed)
  {
    var s0 := FirstStart(persist, disk);
    RunsKeepInodesKnown(persist, s0, actions);
    rest := WorkCanDrain(persist, Exec(persist, s0, actions));
    ExecAppend(persist, s0, actions, rest);
    var s := Exec(persist, s0, actions + rest);
    forall k | 0 <= k < |s.jobs|
      ensures Owes(s.jobs[k]).None?
    {
      IdleHasNoWork(s.jobs, k);
    }
    assert PushesIn(U, actions + rest);
    QuiescentMap(persist, U, disk, actions + rest);
  }
}
