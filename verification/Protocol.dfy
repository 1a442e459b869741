/** The report store under concurrency (server/src/main.rs): pushes, background verifications,
    saves to one shared tmp path, crashes and restarts, in every interleaving.

    The two critical sections of the mutex are one step each; a save is three steps outside the
    lock: open (truncate) the tmp file, fill it, rename it. A run is any list of actions; an
    action that is not enabled changes nothing, so every list is a run. */
module Protocol {
  import opened Prelude
  import opened Wire
  import opened Verify
  import opened Fleet
  import opened Store

  /** A push: the report, the stamp the server gives it, and the outside world its verification
      will meet. */
  datatype Push = Push(report: NodeReport, stamp: nat, env: nat -> World) {
    ghost function Node(): string { report.nodeId }
    ghost function Verdicts(): seq<CvmVerdict> { VerdictsOf(report, env) }
  }

  datatype Phase = Queued | Opened(inode: nat) | Filled

  /** Work in flight: a save of a snapshot (by the ingest handler, which spawns the verification of
      `next` afterwards, or by a finished verification), or a verification. */
  datatype Job =
    | Saving(snapshot: Reports, phase: Phase, next: Option<Push>)
    | Verifying(push: Push)
    | Done

  /** `pushed` and `base` are history: the pushes since the last restart, and the map that
      restart loaded. */
  datatype State = State(mem: Reports, jobs: seq<Job>, disk: Disk, pushed: seq<Push>, base: Reports)

  datatype Action =
    | Receive(push: Push)
    | Open(job: nat)
    | OpenFails(job: nat)
    | Fill(job: nat)
    | FillMixed(job: nat)
    | FillFails(job: nat)
    | Rename(job: nat)
    | RenameFails(job: nat)
    | Complete(job: nat)
    | Crash

  ghost predicate InPhase(s: State, k: nat, phase: Phase) {
    k < |s.jobs| && s.jobs[k].Saving? && s.jobs[k].phase == phase
  }

  ghost predicate IsOpened(s: State, k: nat) {
    && k < |s.jobs| && s.jobs[k].Saving? && s.jobs[k].phase.Opened?
    && s.jobs[k].phase.inode < |s.disk.inodes|
  }

  /** Two savers that have the same file open may leave a mixture of their bytes in it. */
  ghost predicate Enabled(s: State, a: Action) {
    s.disk.Valid() &&
    match a
    case Receive(_) => true
    case Open(k) => InPhase(s, k, Queued)
    case OpenFails(k) => InPhase(s, k, Queued)
    case Fill(k) => IsOpened(s, k)
    case FillMixed(k) => IsOpened(s, k) && s.disk.inodes[s.jobs[k].phase.inode] != Writing(k)
    case FillFails(k) => IsOpened(s, k)
    case Rename(k) => InPhase(s, k, Filled)
    case RenameFails(k) => InPhase(s, k, Filled)
    case Complete(k) => k < |s.jobs| && s.jobs[k].Verifying?
    case Crash => true
  }

  ghost function AfterSave(next: Option<Push>): Job {
    if next.Some? then Verifying(next.value) else Done
  }

  ghost function SetJob(s: State, k: nat, job: Job): State
    requires k < |s.jobs|
  {
    s.(jobs := s.jobs[k := job])
  }

  ghost function SetPhase(s: State, k: nat, phase: Phase): State
    requires k < |s.jobs| && s.jobs[k].Saving?
  {
    SetJob(s, k, s.jobs[k].(phase := phase))
  }

  ghost function EndSave(s: State, k: nat): State
    requires k < |s.jobs| && s.jobs[k].Saving?
  {
    SetJob(s, k, AfterSave(s.jobs[k].next))
  }

  ghost function Apply(persist: bool, s: State, a: Action): (s': State)
    ensures s.disk.Valid() ==> s'.disk.Valid()
  {
    if !Enabled(s, a) then s
    else
      match a
      case Receive(p) =>
        var mem := Ingested(s.mem, p.report, p.stamp);
        State(mem, s.jobs + [if persist then Saving(mem, Queued, Some(p)) else Verifying(p)],
              s.disk, s.pushed + [p], s.base)
      case Open(k) =>
        SetPhase(s, k, Opened(s.disk.TmpAfterOpen())).(disk := s.disk.OpenTmp(k))
      case OpenFails(k) => EndSave(s, k)
      case Fill(k) =>
        SetPhase(s, k, Filled).(disk := s.disk.Write(s.jobs[k].phase.inode, Holds(s.jobs[k].snapshot)))
      case FillMixed(k) =>
        SetPhase(s, k, Filled).(disk := s.disk.Write(s.jobs[k].phase.inode, Torn))
      case FillFails(k) =>
        EndSave(s, k).(disk := s.disk.Write(s.jobs[k].phase.inode, Torn))
      case Rename(k) => EndSave(s, k).(disk := s.disk.Rename())
      case RenameFails(k) => EndSave(s, k)
      case Complete(k) =>
        var p := s.jobs[k].push;
        (match Merged(s.mem, p.Node(), p.stamp, p.Verdicts())
         case None => SetJob(s, k, Done)
         case Some(mem) => SetJob(s, k, if persist then Saving(mem, Queued, None) else Done).(mem := mem))
      case Crash => Started(if persist then s.disk.Load() else map[], s.disk)
  }

  /** A process that has just come up with `mem`. */
  ghost function Started(mem: Reports, disk: Disk): State {
    State(mem, [], disk, [], mem)
  }

  ghost function Stepper(persist: bool): (State, Action) -> State {
    (s: State, a: Action) => Apply(persist, s, a)
  }

  /** The state a run leads to. */
  ghost function Exec(persist: bool, s: State, actions: seq<Action>): State {
    Fold(Stepper(persist), s, actions)
  }

  lemma ExecStep(persist: bool, s: State, actions: seq<Action>)
    requires actions != []
    ensures Exec(persist, s, actions) ==
            Apply(persist, Exec(persist, s, actions[..|actions| - 1]), actions[|actions| - 1])
  {
  }

  lemma ExecAppend(persist: bool, s: State, first: seq<Action>, rest: seq<Action>)
    ensures Exec(persist, s, first + rest) == Exec(persist, Exec(persist, s, first), rest)
  {
    FoldAppend(Stepper(persist), s, first, rest);
  }

  lemma ExecOne(persist: bool, s: State, a: Action)
    ensures Exec(persist, s, [a]) == Apply(persist, s, a)
  {
    ExecStep(persist, s, [a]);
    assert [a][..|[a]| - 1] == [];
  }

  lemma ExecTwo(persist: bool, s: State, a: Action, b: Action)
    ensures Exec(persist, s, [a, b]) == Apply(persist, Apply(persist, s, a), b)
  {
    ExecStep(persist, s, [a, b]);
    assert [a, b][..|[a, b]| - 1] == [a];
    ExecOne(persist, s, a);
  }

  lemma {:induction false} ExecKeepsValid(persist: bool, s: State, actions: seq<Action>)
    requires s.disk.Valid()
    ensures Exec(persist, s, actions).disk.Valid()
  {
    if actions != [] {
      ExecKeepsValid(persist, s, actions[..|actions| - 1]);
      ExecStep(persist, s, actions);
    }
  }

  ghost function FirstStart(persist: bool, disk: Disk): State {
    Started(if persist then disk.Load() else map[], disk)
  }

  /** Only pushes of `U` are received. */
  ghost predicate PushesIn(U: iset<Push>, actions: seq<Action>) {
    forall i :: 0 <= i < |actions| && actions[i].Receive? ==> actions[i].push in U
  }

  lemma PushesInPrefix(U: iset<Push>, actions: seq<Action>)
    requires PushesIn(U, actions) && actions != []
    ensures PushesIn(U, actions[..|actions| - 1])
  {
  }

  // ----- whose verdicts an entry carries -----

  ghost predicate Describes(p: Push, node: string, e: StoredReport) {
    p.Node() == node && p.stamp == e.receivedAt && p.report == e.report
  }

  /** The entry is push `p` itself, unverified or with the verdicts of that very report. */
  ghost predicate Owns(p: Push, node: string, e: StoredReport) {
    Describes(p, node, e) && (e.verdicts == [] || e.verdicts == p.Verdicts())
  }

  /** The verdicts come from some push of the same node with the same stamp. */
  ghost predicate SameSecond(q: Push, node: string, e: StoredReport) {
    q.Node() == node && q.stamp == e.receivedAt && e.verdicts == q.Verdicts()
  }

  ghost predicate EntryTraced(U: iset<Push>, node: string, e: StoredReport) {
    && (exists p :: p in U && Describes(p, node, e))
    && (e.verdicts == [] || exists q :: q in U && SameSecond(q, node, e))
  }

  ghost predicate Traced(U: iset<Push>, m: Reports) {
    forall node :: node in m ==> EntryTraced(U, node, m[node])
  }

  ghost predicate Owned(U: iset<Push>, m: Reports) {
    forall node :: node in m ==> exists p :: p in U && Owns(p, node, m[node])
  }

  /** Two pushes of one node in one second verify to the same verdicts. */
  ghost predicate Consistent(U: iset<Push>) {
    forall p, q :: p in U && q in U && p.Node() == q.Node() && p.stamp == q.stamp ==>
                     p.Verdicts() == q.Verdicts()
  }

  lemma TracedIsOwned(U: iset<Push>, m: Reports)
    requires Traced(U, m) && Consistent(U)
    ensures Owned(U, m)
  {
    forall node | node in m
      ensures exists p :: p in U && Owns(p, node, m[node])
    {
      assert EntryTraced(U, node, m[node]);
      var p :| p in U && Describes(p, node, m[node]);
      if m[node].verdicts != [] {
        var q :| q in U && SameSecond(q, node, m[node]);
        assert p.Verdicts() == q.Verdicts();
      }
      assert Owns(p, node, m[node]);
    }
  }

  ghost predicate JobTraced(U: iset<Push>, job: Job) {
    match job
    case Saving(snapshot, _, next) => Traced(U, snapshot) && (next.Some? ==> next.value in U)
    case Verifying(p) => p in U
    case Done => true
  }

  ghost predicate ContentTraced(U: iset<Push>, c: Content) {
    c.Holds? ==> Traced(U, c.reports)
  }

  /** Every map anywhere in the system, in memory, in flight or on disk, is traced. */
  ghost predicate TracedState(U: iset<Push>, s: State) {
    && s.disk.Valid()
    && Traced(U, s.mem)
    && Traced(U, s.base)
    && (forall p :: p in s.pushed ==> p in U)
    && (forall k :: 0 <= k < |s.jobs| ==> JobTraced(U, s.jobs[k]))
    && (forall i :: 0 <= i < |s.disk.inodes| ==> ContentTraced(U, s.disk.inodes[i]))
  }

  lemma IngestKeepsTraced(U: iset<Push>, m: Reports, p: Push)
    requires Traced(U, m) && p in U
    ensures Traced(U, Ingested(m, p.report, p.stamp))
  {
    var m' := Ingested(m, p.report, p.stamp);
    assert Describes(p, p.Node(), m'[p.Node()]);
    forall node | node in m'
      ensures EntryTraced(U, node, m'[node])
    {
      if node != p.Node() {
        assert EntryTraced(U, node, m[node]);
      }
    }
  }

  lemma MergeKeepsTraced(U: iset<Push>, m: Reports, p: Push)
    requires Traced(U, m) && p in U
    requires Merged(m, p.Node(), p.stamp, p.Verdicts()).Some?
    ensures Traced(U, Merged(m, p.Node(), p.stamp, p.Verdicts()).value)
  {
    var m' := Merged(m, p.Node(), p.stamp, p.Verdicts()).value;
    forall node | node in m'
      ensures EntryTraced(U, node, m'[node])
    {
      assert EntryTraced(U, node, m[node]);
      var d :| d in U && Describes(d, node, m[node]);
      assert Describes(d, node, m'[node]);
      if node == p.Node() {
        assert SameSecond(p, node, m'[node]);
      } else if m'[node].verdicts != [] {
        var q :| q in U && SameSecond(q, node, m[node]);
        assert SameSecond(q, node, m'[node]);
      }
    }
  }

  /** A step of a saver: no map but its own snapshot is written. */
  lemma SaveStepKeepsTraced(persist: bool, U: iset<Push>, s: State, a: Action)
    requires TracedState(U, s) && Enabled(s, a)
    requires !a.Receive? && !a.Complete? && !a.Crash?
    ensures TracedState(U, Apply(persist, s, a))
  {
    assert JobTraced(U, s.jobs[a.job]);
  }

  lemma CompleteKeepsTraced(persist: bool, U: iset<Push>, s: State, k: nat)
    requires TracedState(U, s) && Enabled(s, Complete(k))
    ensures TracedState(U, Apply(persist, s, Complete(k)))
  {
    var p := s.jobs[k].push;
    assert JobTraced(U, s.jobs[k]);
    if Merged(s.mem, p.Node(), p.stamp, p.Verdicts()).Some? {
      MergeKeepsTraced(U, s.mem, p);
    }
  }

  lemma StepKeepsTraced(persist: bool, U: iset<Push>, s: State, a: Action)
    requires TracedState(U, s)
    requires a.Receive? ==> a.push in U
    ensures TracedState(U, Apply(persist, s, a))
  {
    if Enabled(s, a) {
      match a {
        case Receive(p) => IngestKeepsTraced(U, s.mem, p);
        case Complete(k) => CompleteKeepsTraced(persist, U, s, k);
        case Crash =>
          if s.disk.state.Some? {
            assert ContentTraced(U, s.disk.inodes[s.disk.state.value]);
          }
        case _ => SaveStepKeepsTraced(persist, U, s, a);
      }
    }
  }

  ghost predicate TracedDisk(U: iset<Push>, disk: Disk) {
    disk.Valid() && forall i :: 0 <= i < |disk.inodes| ==> ContentTraced(U, disk.inodes[i])
  }

  lemma {:induction false} RunsAreTraced(persist: bool, U: iset<Push>, disk: Disk, actions: seq<Action>)
    requires TracedDisk(U, disk) && PushesIn(U, actions)
    ensures TracedState(U, Exec(persist, FirstStart(persist, disk), actions))
  {
    if actions == [] {
      if disk.state.Some? {
        assert ContentTraced(U, disk.inodes[disk.state.value]);
      }
    } else {
      PushesInPrefix(U, actions);
      RunsAreTraced(persist, U, disk, actions[..|actions| - 1]);
      ExecStep(persist, FirstStart(persist, disk), actions);
      StepKeepsTraced(persist, U, Exec(persist, FirstStart(persist, disk), actions[..|actions| - 1]),
                      actions[|actions| - 1]);
    }
  }
}
