/** What the state file holds, at any point of any run: the file may be read back after a crash
    between any two steps. */
module Durability {
  import opened Prelude
  import opened Wire
  import opened Verify
  import opened Fleet
  import opened Store
  import opened Protocol
  import opened Runs

  /** The state of a run after its first `j` actions. */
  ghost function At(s0: State, actions: seq<Action>, j: nat): State
    requires j <= |actions|
  {
    Exec(true, s0, actions[..j])
  }

  lemma NextAt(s0: State, actions: seq<Action>, j: nat)
    requires j < |actions|
    ensures At(s0, actions, j + 1) == Apply(true, At(s0, actions, j), actions[j])
  {
    ExecStep(true, s0, actions[..j + 1]);
    assert actions[..j + 1][..j] == actions[..j];
  }

  lemma AtEnd(s0: State, actions: seq<Action>)
    ensures At(s0, actions, |actions|) == Exec(true, s0, actions)
  {
    assert actions[..|actions|] == actions;
  }

  // ----- who is writing -----

  ghost predicate HasOpened(s: State, k: nat) {
    k < |s.jobs| && s.jobs[k].Saving? && s.jobs[k].phase.Opened?
  }

  /** The saver has begun its write and not yet renamed. */
  ghost predicate IsWriter(s: State, k: nat) {
    k < |s.jobs| && s.jobs[k].Saving? && !s.jobs[k].phase.Queued?
  }

  /** Only the job `c` changes. */
  ghost predicate OthersSame(s: State, s': State, c: nat) {
    |s'.jobs| == |s.jobs| && forall k :: 0 <= k < |s.jobs| && k != c ==> s'.jobs[k] == s.jobs[k]
  }

  // ----- nothing is invented -----

  /** Memory held `m` at some moment of the first `n` steps. */
  ghost predicate Held(s0: State, actions: seq<Action>, n: nat, m: Reports)
    requires n <= |actions|
  {
    exists j: nat :: j <= n && At(s0, actions, j).mem == m
  }

  /** A file a restart may come to read: the one at the state path, or the one a writer is to rename. */
  ghost predicate InUse(s: State, i: nat) {
    i < |s.disk.inodes| && (s.disk.state == Some(i) || (s.disk.tmp == Some(i) && exists k :: IsWriter(s, k)))
  }

  /** Memory, every snapshot in flight and every whole file in use is one of `maps`. */
  ghost predicate MapsAmong(s: State, maps: iset<Reports>) {
    && s.mem in maps
    && (forall k :: 0 <= k < |s.jobs| && s.jobs[k].Saving? ==> s.jobs[k].snapshot in maps)
    && (forall i: nat :: InUse(s, i) && s.disk.inodes[i].Holds? ==> s.disk.inodes[i].reports in maps)
  }

  lemma StepAddsOnlyMemory(s: State, a: Action, maps: iset<Reports>)
    requires s.disk.Valid() && MapsAmong(s, maps)
    ensures MapsAmong(Apply(true, s, a), maps + iset{Apply(true, s, a).mem})
  {
    if Enabled(s, a) {
      if a.Receive? || a.Complete? || a.Crash? {
        MemoryStepAddsOnlyMemory(s, a, maps);
      } else {
        SaveStepAddsNothing(s, a, maps);
      }
    }
  }

  lemma MemoryStepAddsOnlyMemory(s: State, a: Action, maps: iset<Reports>)
    requires MapsAmong(s, maps) && (a.Receive? || a.Complete? || a.Crash?)
    ensures MapsAmong(Apply(true, s, a), maps + iset{Apply(true, s, a).mem})
  {
    var s' := Apply(true, s, a);
    forall k: nat | IsWriter(s', k)
      ensures IsWriter(s, k)
    {
    }
  }

  lemma SaveStepAddsNothing(s: State, a: Action, maps: iset<Reports>)
    requires MapsAmong(s, maps) && Enabled(s, a) && !a.Receive? && !a.Complete? && !a.Crash?
    ensures MapsAmong(Apply(true, s, a), maps)
  {
    var s' := Apply(true, s, a);
    assert OthersSame(s, s', a.job);
    assert !a.Open? && !a.OpenFails? ==> IsWriter(s, a.job);
    assert forall k: nat :: IsWriter(s', k) ==> IsWriter(s, k) || a == Open(k);
    forall i: nat | InUse(s', i) && s'.disk.inodes[i].Holds?
      ensures s'.disk.inodes[i].reports in maps
    {
      if i < |s.disk.inodes| && s'.disk.inodes[i] == s.disk.inodes[i] {
        assert InUse(s, i);
      }
    }
  }

  ghost function HeldMaps(s0: State, actions: seq<Action>, n: nat): iset<Reports>
    requires n <= |actions|
  {
    iset m | Held(s0, actions, n, m)
  }

  lemma HeldGrows(s0: State, actions: seq<Action>, n: nat)
    requires n < |actions|
    ensures HeldMaps(s0, actions, n) + iset{At(s0, actions, n + 1).mem} <= HeldMaps(s0, actions, n + 1)
  {
  }

  lemma {:induction false} EverythingSavedWasHeld(disk: Disk, actions: seq<Action>, n: nat)
    requires disk.Valid() && n <= |actions|
    ensures var s0 := FirstStart(true, disk);
            MapsAmong(At(s0, actions, n), HeldMaps(s0, actions, n))
  {
    var s0 := FirstStart(true, disk);
    if n > 0 {
      EverythingSavedWasHeld(disk, actions, n - 1);
      NextAt(s0, actions, n - 1);
      ExecKeepsValid(true, s0, actions[..n - 1]);
      StepAddsOnlyMemory(At(s0, actions, n - 1), actions[n - 1], HeldMaps(s0, actions, n - 1));
      HeldGrows(s0, actions, n - 1);
    }
  }

  /** At any point of any run, what a restart would load is a complete map that memory held at some
      earlier moment, or nothing because the file is missing or not whole. A tmp file that an earlier
      process left behind is never read. */
  lemma ReloadIsAnEarlierMap(disk: Disk, actions: seq<Action>)
    requires disk.Valid()
    ensures var s := Exec(true, FirstStart(true, disk), actions);
            || (s.disk.StateContent().None? && s.disk.Load() == map[])
            || (s.disk.StateContent().Some? && !s.disk.StateContent().value.Holds? && s.disk.Load() == map[])
            || Held(FirstStart(true, disk), actions, |actions|, s.disk.Load())
  {
    EverythingSavedWasHeld(disk, actions, |actions|);
    AtEnd(FirstStart(true, disk), actions);
  }

  // ----- exactly when the file stays whole -----

  ghost predicate StateWhole(disk: Disk) {
    disk.Valid() && (disk.StateContent().Some? ==> disk.StateContent().value.Holds?)
  }

  /** The state file is whole at every point of the run. */
  ghost predicate AlwaysWhole(s0: State, actions: seq<Action>) {
    forall j: nat :: j <= |actions| ==> StateWhole(At(s0, actions, j).disk)
  }

  /** A saver renames a tmp file another one has truncated and not yet filled again, or whose last
      write failed or was mixed; or a write fails or is mixed on a file another saver has published. */
  ghost predicate Spoils(s: State, a: Action) {
    Enabled(s, a) &&
    match a
    case Rename(_) => s.disk.tmp.Some? && !s.disk.inodes[s.disk.tmp.value].Holds?
    case FillMixed(k) => s.disk.state == Some(s.jobs[k].phase.inode)
    case FillFails(k) => s.disk.state == Some(s.jobs[k].phase.inode)
    case _ => false
  }

  ghost predicate NeverSpoils(s0: State, actions: seq<Action>) {
    forall j: nat :: j < |actions| ==> !Spoils(At(s0, actions, j), actions[j])
  }

  lemma StepKeepsWholeIff(s: State, a: Action)
    requires StateWhole(s.disk)
    ensures StateWhole(Apply(true, s, a).disk) <==> !Spoils(s, a)
  {
  }

  lemma {:induction false} WholeSoFar(s0: State, actions: seq<Action>, n: nat)
    requires StateWhole(s0.disk) && NeverSpoils(s0, actions) && n <= |actions|
    ensures StateWhole(At(s0, actions, n).disk)
  {
    if n > 0 {
      WholeSoFar(s0, actions, n - 1);
      NextAt(s0, actions, n - 1);
      StepKeepsWholeIff(At(s0, actions, n - 1), actions[n - 1]);
    }
  }

  /** Under any interleaving, with any failures and crashes, the state file stays a complete map
      exactly if no step of the run spoils it. */
  lemma AlwaysWholeIff(s0: State, actions: seq<Action>)
    requires StateWhole(s0.disk)
    ensures AlwaysWhole(s0, actions) <==> NeverSpoils(s0, actions)
  {
    if NeverSpoils(s0, actions) {
      forall j: nat | j <= |actions|
        ensures StateWhole(At(s0, actions, j).disk)
      {
        WholeSoFar(s0, actions, j);
      }
    }
    if AlwaysWhole(s0, actions) {
      forall j: nat | j < |actions|
        ensures !Spoils(At(s0, actions, j), actions[j])
      {
        NextAt(s0, actions, j);
        assert StateWhole(At(s0, actions, j + 1).disk);
        StepKeepsWholeIff(At(s0, actions, j), actions[j]);
      }
    }
  }

  // ----- writes that are one step -----

  /** While a saver has the tmp file open, no other disk step runs. */
  ghost predicate OneStepWrite(s: State, a: Action) {
    forall k: nat :: HasOpened(s, k) ==>
                       a == Fill(k) || a == FillFails(k) || a.Receive? || a.Complete? || a == Crash
  }

  /** In this run each write, successful or not, is one step. */
  ghost predicate WritesAreOneStep(s0: State, actions: seq<Action>) {
    forall j: nat :: j < |actions| ==> OneStepWrite(At(s0, actions, j), actions[j])
  }

  ghost predicate OpenedSound(s: State, k: nat)
    requires HasOpened(s, k)
  {
    var i := s.jobs[k].phase.inode;
    i < |s.disk.inodes| && s.disk.tmp == Some(i) && s.disk.inodes[i] == Writing(k)
  }

  /** A truncated tmp file is being filled by the saver that truncated it. */
  ghost predicate TmpSound(s: State) {
    s.disk.tmp.Some? && s.disk.tmp.value < |s.disk.inodes| ==>
      var content := s.disk.inodes[s.disk.tmp.value];
      content.Writing? ==> HasOpened(s, content.saver)
  }

  ghost predicate OneStepInv(s: State) {
    && s.disk.Valid()
    && (forall k: nat :: HasOpened(s, k) ==> OpenedSound(s, k))
    && (forall k: nat :: InPhase(s, k, Filled) ==> TmpSound(s))
  }

  lemma OpenKeepsOneStep(s: State, c: nat)
    requires OneStepInv(s) && InPhase(s, c, Queued) && OneStepWrite(s, Open(c))
    ensures OneStepInv(Apply(true, s, Open(c)))
  {
    var s' := Apply(true, s, Open(c));
    assert OthersSame(s, s', c);
    assert HasOpened(s', c) && TmpSound(s');
    forall k: nat | HasOpened(s', k)
      ensures OpenedSound(s', k)
    {
      assert k != c ==> HasOpened(s, k);
    }
  }

  lemma FillKeepsOneStep(s: State, a: Action, c: nat)
    requires OneStepInv(s) && IsOpened(s, c) && (a == Fill(c) || a == FillFails(c))
    ensures OneStepInv(Apply(true, s, a))
  {
    var s' := Apply(true, s, a);
    assert HasOpened(s, c) && OthersSame(s, s', c);
    assert TmpSound(s');
    forall k: nat | HasOpened(s', k)
      ensures OpenedSound(s', k)
    {
      assert HasOpened(s, k) && OpenedSound(s, k) && OpenedSound(s, c);
    }
  }

  lemma RenameKeepsOneStep(s: State, c: nat)
    requires OneStepInv(s) && InPhase(s, c, Filled) && OneStepWrite(s, Rename(c))
    ensures OneStepInv(Apply(true, s, Rename(c)))
  {
    var s' := Apply(true, s, Rename(c));
    assert OthersSame(s, s', c) && TmpSound(s);
    forall k: nat
      ensures !HasOpened(s', k)
    {
      assert !HasOpened(s, k);
    }
  }

  /** A step that leaves the disk alone and brings no save any further. */
  lemma DisklessKeepsOneStep(s: State, s': State)
    requires OneStepInv(s) && s'.disk == s.disk
    requires forall k: nat :: HasOpened(s', k) <==> HasOpened(s, k)
    requires forall k: nat :: HasOpened(s', k) ==> s'.jobs[k] == s.jobs[k]
    requires forall k: nat :: InPhase(s', k, Filled) ==> InPhase(s, k, Filled)
    ensures OneStepInv(s')
  {
    forall k: nat | HasOpened(s', k)
      ensures OpenedSound(s', k)
    {
      assert OpenedSound(s, k);
    }
    assert TmpSound(s) ==> TmpSound(s');
  }

  lemma StepKeepsOneStep(s: State, a: Action)
    requires OneStepInv(s) && OneStepWrite(s, a)
    ensures OneStepInv(Apply(true, s, a))
  {
    var s' := Apply(true, s, a);
    assert a.FillMixed? ==> (IsOpened(s, a.job) ==> HasOpened(s, a.job));
    if Enabled(s, a) {
      match a {
        case Receive(p) =>
          assert forall k :: 0 <= k < |s.jobs| ==> s'.jobs[k] == s.jobs[k];
          DisklessKeepsOneStep(s, s');
        case Complete(c) => DisklessKeepsOneStep(s, s');
        case OpenFails(c) => DisklessKeepsOneStep(s, s');
        case RenameFails(c) => DisklessKeepsOneStep(s, s');
        case Open(c) => OpenKeepsOneStep(s, c);
        case Fill(c) => FillKeepsOneStep(s, a, c);
        case FillFails(c) => FillKeepsOneStep(s, a, c);
        case Rename(c) => RenameKeepsOneStep(s, c);
        case FillMixed(c) =>
        case Crash =>
      }
    }
  }

  lemma {:induction false} RunsKeepOneStep(disk: Disk, actions: seq<Action>, n: nat)
    requires disk.Valid() && WritesAreOneStep(FirstStart(true, disk), actions) && n <= |actions|
    ensures OneStepInv(At(FirstStart(true, disk), actions, n))
  {
    var s0 := FirstStart(true, disk);
    if n > 0 {
      RunsKeepOneStep(disk, actions, n - 1);
      NextAt(s0, actions, n - 1);
      StepKeepsOneStep(At(s0, actions, n - 1), actions[n - 1]);
    }
  }

  /** A saver renames the tmp file after another saver's write to it has failed. */
  ghost predicate PublishesFailedWrite(s: State, a: Action) {
    Enabled(s, a) && a.Rename? && s.disk.tmp.Some? && s.disk.inodes[s.disk.tmp.value] == Torn
  }

  lemma OneStepSpoilsIff(s: State, a: Action)
    requires OneStepInv(s) && OneStepWrite(s, a)
    ensures Spoils(s, a) <==> PublishesFailedWrite(s, a)
  {
    if Enabled(s, a) {
      match a {
        case Rename(k) => assert TmpSound(s);
        case FillMixed(k) => assert HasOpened(s, k);
        case FillFails(k) => assert OpenedSound(s, k);
        case _ =>
      }
    }
  }

  /** Taking each `fs::write` as one step that may fail, the state file stays whole exactly if no
      saver publishes what another one's failed write has left at the tmp path. */
  lemma OneStepWritesAlwaysWholeIff(disk: Disk, actions: seq<Action>)
    requires StateWhole(disk) && WritesAreOneStep(FirstStart(true, disk), actions)
    ensures var s0 := FirstStart(true, disk);
            AlwaysWhole(s0, actions) <==>
            forall j: nat :: j < |actions| ==> !PublishesFailedWrite(At(s0, actions, j), actions[j])
  {
    var s0 := FirstStart(true, disk);
    AlwaysWholeIff(s0, actions);
    forall j: nat | j < |actions|
      ensures Spoils(At(s0, actions, j), actions[j]) <==> PublishesFailedWrite(At(s0, actions, j), actions[j])
    {
      RunsKeepOneStep(disk, actions, j);
      OneStepSpoilsIff(At(s0, actions, j), actions[j]);
    }
  }

  ghost predicate WritesSucceed(actions: seq<Action>) {
    forall j :: 0 <= j < |actions| ==> !actions[j].FillFails?
  }

  ghost predicate FilledTmpNotTorn(s: State) {
    forall k: nat :: InPhase(s, k, Filled) && s.disk.tmp.Some? && s.disk.tmp.value < |s.disk.inodes| ==>
                       s.disk.inodes[s.disk.tmp.value] != Torn
  }

  lemma StepKeepsNotTorn(s: State, a: Action)
    requires OneStepInv(s) && OneStepWrite(s, a) && FilledTmpNotTorn(s) && !a.FillFails?
    ensures FilledTmpNotTorn(Apply(true, s, a))
  {
    var s' := Apply(true, s, a);
    assert a.FillMixed? ==> (IsOpened(s, a.job) ==> HasOpened(s, a.job));
    if Enabled(s, a) && a.Fill? {
      assert OpenedSound(s, a.job);
    } else {
      assert forall k: nat :: InPhase(s', k, Filled) ==> InPhase(s, k, Filled);
    }
  }

  lemma {:induction false} RunsKeepNotTorn(disk: Disk, actions: seq<Action>, n: nat)
    requires disk.Valid() && WritesAreOneStep(FirstStart(true, disk), actions) && WritesSucceed(actions)
    requires n <= |actions|
    ensures FilledTmpNotTorn(At(FirstStart(true, disk), actions, n))
  {
    var s0 := FirstStart(true, disk);
    if n > 0 {
      RunsKeepNotTorn(disk, actions, n - 1);
      RunsKeepOneStep(disk, actions, n - 1);
      NextAt(s0, actions, n - 1);
      StepKeepsNotTorn(At(s0, actions, n - 1), actions[n - 1]);
    }
  }

  /** Taking each `fs::write` as one step that succeeds, the state file is a complete map at every
      point of every run, however saves overlap otherwise. */
  lemma StateFileIsNeverTorn(disk: Disk, actions: seq<Action>)
    requires StateWhole(disk) && WritesAreOneStep(FirstStart(true, disk), actions) && WritesSucceed(actions)
    ensures AlwaysWhole(FirstStart(true, disk), actions)
  {
    OneStepWritesAlwaysWholeIff(disk, actions);
    forall j: nat | j < |actions|
      ensures !PublishesFailedWrite(At(FirstStart(true, disk), actions, j), actions[j])
    {
      RunsKeepNotTorn(disk, actions, j);
    }
  }

  // ----- one writer at a time -----

  ghost predicate OneWriter(s: State) {
    forall k: nat, j: nat :: IsWriter(s, k) && IsWriter(s, j) ==> k == j
  }

  /** At every point of the run at most one save is between opening and renaming; others may wait. */
  ghost predicate WritersNeverOverlap(s0: State, actions: seq<Action>) {
    forall j: nat :: j <= |actions| ==> OneWriter(At(s0, actions, j))
  }

  ghost predicate WriterSound(s: State, k: nat)
    requires IsWriter(s, k)
  {
    match s.jobs[k].phase
    case Queued => false
    case Opened(i) => i < |s.disk.inodes| && s.disk.tmp == Some(i) && s.disk.inodes[i] == Writing(k)
    case Filled =>
      s.disk.tmp.Some? && s.disk.tmp.value < |s.disk.inodes|
      && s.disk.inodes[s.disk.tmp.value] == Holds(s.jobs[k].snapshot)
  }

  ghost predicate WritersSound(s: State) {
    s.disk.Valid() && forall k: nat :: IsWriter(s, k) ==> WriterSound(s, k)
  }

  lemma WriterKeepsSound(s: State, a: Action)
    requires WritersSound(s) && OneWriter(s) && OneWriter(Apply(true, s, a)) && Enabled(s, a)
    requires !a.Receive? && !a.Complete? && !a.Crash?
    ensures WritersSound(Apply(true, s, a))
  {
    var s', c := Apply(true, s, a), a.job;
    assert OthersSame(s, s', c);
    assert a.Open? ==> IsWriter(s', c);
    assert !a.Open? && !a.OpenFails? ==> IsWriter(s, c) && WriterSound(s, c);
    forall k: nat | IsWriter(s', k)
      ensures WriterSound(s', k)
    {
      assert k != c ==> IsWriter(s, k) && a.OpenFails?;
    }
  }

  lemma StepKeepsWritersSound(s: State, a: Action)
    requires WritersSound(s) && OneWriter(s) && OneWriter(Apply(true, s, a))
    ensures WritersSound(Apply(true, s, a))
  {
    if Enabled(s, a) {
      if a.Receive? || a.Complete? || a.Crash? {
        var s' := Apply(true, s, a);
        forall k: nat | IsWriter(s', k)
          ensures WriterSound(s', k)
        {
          assert IsWriter(s, k) && s'.jobs[k] == s.jobs[k];
        }
      } else {
        WriterKeepsSound(s, a);
      }
    }
  }

  lemma {:induction false} RunsKeepWritersSound(disk: Disk, actions: seq<Action>, n: nat)
    requires disk.Valid() && WritersNeverOverlap(FirstStart(true, disk), actions) && n <= |actions|
    ensures WritersSound(At(FirstStart(true, disk), actions, n))
  {
    var s0 := FirstStart(true, disk);
    if n > 0 {
      RunsKeepWritersSound(disk, actions, n - 1);
      NextAt(s0, actions, n - 1);
      assert OneWriter(At(s0, actions, n - 1)) && OneWriter(At(s0, actions, n));
      StepKeepsWritersSound(At(s0, actions, n - 1), actions[n - 1]);
    }
  }

  lemma LoneWriterSpoilsNothing(s: State, a: Action)
    requires WritersSound(s)
    ensures !Spoils(s, a)
  {
    if Enabled(s, a) && (a.Rename? || a.FillMixed? || a.FillFails?) {
      assert IsWriter(s, a.job) && WriterSound(s, a.job);
    }
  }

  /** The promise of write-then-rename: as long as writers do not overlap, no crash between any two
      steps and no failing file operation ever leaves a state file that is not a whole map. */
  lemma SoloSavesNeverTearTheFile(disk: Disk, actions: seq<Action>)
    requires StateWhole(disk) && WritersNeverOverlap(FirstStart(true, disk), actions)
    ensures AlwaysWhole(FirstStart(true, disk), actions)
  {
    var s0 := FirstStart(true, disk);
    AlwaysWholeIff(s0, actions);
    forall j: nat | j < |actions|
      ensures !Spoils(At(s0, actions, j), actions[j])
    {
      RunsKeepWritersSound(disk, actions, j);
      LoneWriterSpoilsNothing(At(s0, actions, j), actions[j]);
    }
  }

  // ----- exactly when the file is the latest map -----

  ghost predicate Renames(s: State, a: Action) {
    Enabled(s, a) && a.Rename?
  }

  /** The snapshot of the save renamed last in the first `n` steps, or the first loaded map. */
  ghost function Published(s0: State, actions: seq<Action>, n: nat): Reports
    requires n <= |actions|
  {
    if n == 0 then s0.mem
    else
      var s, a := At(s0, actions, n - 1), actions[n - 1];
      if Renames(s, a) then s.jobs[a.job].snapshot else Published(s0, actions, n - 1)
  }

  lemma LoneWriterPublishesItsSnapshot(s: State, a: Action)
    requires WritersSound(s)
    ensures Apply(true, s, a).disk.Load() == if Renames(s, a) then s.jobs[a.job].snapshot else s.disk.Load()
  {
    if Enabled(s, a) && (a.Rename? || a.Fill? || a.FillMixed? || a.FillFails?) {
      assert IsWriter(s, a.job) && WriterSound(s, a.job);
    }
  }

  lemma {:induction false} FileIsPublished(disk: Disk, actions: seq<Action>, n: nat)
    requires disk.Valid() && WritersNeverOverlap(FirstStart(true, disk), actions) && n <= |actions|
    ensures At(FirstStart(true, disk), actions, n).disk.Load() == Published(FirstStart(true, disk), actions, n)
  {
    var s0 := FirstStart(true, disk);
    if n > 0 {
      FileIsPublished(disk, actions, n - 1);
      RunsKeepWritersSound(disk, actions, n - 1);
      NextAt(s0, actions, n - 1);
      LoneWriterPublishesItsSnapshot(At(s0, actions, n - 1), actions[n - 1]);
    }
  }

  lemma CrashReloads(s: State)
    requires s.disk.Valid()
    ensures Apply(true, s, Crash).mem == s.disk.Load()
  {
  }

  /** As long as writers do not overlap, with any failures and crashes: the file holds the map of the
      save renamed last, and a crash loses nothing exactly if that map is the one in memory. */
  lemma CrashLosesNothingIff(disk: Disk, actions: seq<Action>)
    requires disk.Valid() && WritersNeverOverlap(FirstStart(true, disk), actions)
    ensures var s0 := FirstStart(true, disk);
            var s := Exec(true, s0, actions);
            && s.disk.Load() == Published(s0, actions, |actions|)
            && (Apply(true, s, Crash).mem == s.mem <==> Published(s0, actions, |actions|) == s.mem)
  {
    var s0 := FirstStart(true, disk);
    FileIsPublished(disk, actions, |actions|);
    AtEnd(s0, actions);
    ExecKeepsValid(true, s0, actions);
    CrashReloads(Exec(true, s0, actions));
  }

  /** The map put last into file `i` in the first `n` steps: by the save that last filled it, or found
      there at the first start. */
  ghost function PutLast(s0: State, actions: seq<Action>, n: nat, i: nat): Option<Reports>
    requires n <= |actions|
  {
    if n == 0 then
      if i < |s0.disk.inodes| && s0.disk.inodes[i].Holds? then Some(s0.disk.inodes[i].reports) else None
    else
      var s, a := At(s0, actions, n - 1), actions[n - 1];
      if Fills(s, a, i) then Some(s.jobs[a.job].snapshot) else PutLast(s0, actions, n - 1, i)
  }

  ghost predicate Fills(s: State, a: Action, i: nat) {
    Enabled(s, a) && a.Fill? && s.jobs[a.job].phase.inode == i
  }

  lemma OnlyFillsPutMaps(s: State, a: Action, i: nat)
    requires s.disk.Valid()
    ensures var s' := Apply(true, s, a);
            i < |s'.disk.inodes| && s'.disk.inodes[i].Holds? ==>
              if Fills(s, a, i) then s'.disk.inodes[i].reports == s.jobs[a.job].snapshot
              else i < |s.disk.inodes| && s'.disk.inodes[i] == s.disk.inodes[i]
  {
  }

  lemma {:induction false} WholeFileIsPutLast(s0: State, actions: seq<Action>, n: nat, i: nat)
    requires s0.disk.Valid() && n <= |actions|
    ensures var disk := At(s0, actions, n).disk;
            i < |disk.inodes| && disk.inodes[i].Holds? ==>
              PutLast(s0, actions, n, i) == Some(disk.inodes[i].reports)
  {
    if n > 0 {
      WholeFileIsPutLast(s0, actions, n - 1, i);
      ExecKeepsValid(true, s0, actions[..n - 1]);
      NextAt(s0, actions, n - 1);
      OnlyFillsPutMaps(At(s0, actions, n - 1), actions[n - 1], i);
    }
  }

  /** In any run, however writers overlap: a file that is whole holds the map of the save that last
      filled the file now at the state path. So a crash loses nothing exactly if that is the map in
      memory; with no whole file, exactly if memory is empty. */
  lemma CrashLosesNothingInAnyRunIff(s0: State, actions: seq<Action>)
    requires s0.disk.Valid()
    ensures var s := Exec(true, s0, actions);
            var content := s.disk.StateContent();
            Apply(true, s, Crash).mem == s.mem <==>
              if content.Some? && content.value.Holds?
              then PutLast(s0, actions, |actions|, s.disk.state.value) == Some(s.mem)
              else s.mem == map[]
  {
    AtEnd(s0, actions);
    ExecKeepsValid(true, s0, actions);
    var s := Exec(true, s0, actions);
    CrashReloads(s);
    if s.disk.state.Some? {
      WholeFileIsPutLast(s0, actions, |actions|, s.disk.state.value);
    }
  }

  /** Save `k` is waiting or writing. */
  ghost predicate IsSaving(s: State, k: nat) {
    k < |s.jobs| && s.jobs[k].Saving?
  }

  ghost predicate NoSave(s: State) {
    forall k: nat :: !IsSaving(s, k)
  }

  /** A save of what is in memory now, other than save `k`. */
  ghost predicate OtherSavesLatest(s: State, k: nat) {
    exists j: nat :: j != k && IsSaving(s, j) && s.jobs[j].snapshot == s.mem
  }

  /** No file operation fails, and a save of an older map is renamed only while one of the latest map
      is still to come. */
  ghost predicate KeepsOrder(s: State, a: Action) {
    && !a.OpenFails? && !a.FillFails? && !a.RenameFails?
    && (Renames(s, a) && s.jobs[a.job].snapshot != s.mem ==> OtherSavesLatest(s, a.job))
  }

  ghost predicate SavesKeepOrder(s0: State, actions: seq<Action>) {
    forall j: nat :: j < |actions| ==> KeepsOrder(At(s0, actions, j), actions[j])
  }

  /** The file is memory, or a save of what is in memory is still to come. */
  ghost predicate LatestInv(s: State) {
    s.disk.Load() == s.mem || exists j: nat :: IsSaving(s, j) && s.jobs[j].snapshot == s.mem
  }

  lemma RenameKeepsLatest(s: State, k: nat)
    requires LatestInv(s) && WritersSound(s) && Renames(s, Rename(k)) && KeepsOrder(s, Rename(k))
    ensures LatestInv(Apply(true, s, Rename(k)))
  {
    var s' := Apply(true, s, Rename(k));
    LoneWriterPublishesItsSnapshot(s, Rename(k));
    if s.jobs[k].snapshot != s.mem {
      var j: nat :| j != k && IsSaving(s, j) && s.jobs[j].snapshot == s.mem;
      assert IsSaving(s', j) && s'.jobs[j] == s.jobs[j];
    }
  }

  lemma StepKeepsLatest(s: State, a: Action)
    requires LatestInv(s) && WritersSound(s) && KeepsOrder(s, a)
    ensures LatestInv(Apply(true, s, a))
  {
    var s' := Apply(true, s, a);
    LoneWriterPublishesItsSnapshot(s, a);
    if Enabled(s, a) {
      match a {
        case Receive(p) => assert IsSaving(s', |s.jobs|);
        case Rename(k) => RenameKeepsLatest(s, k);
        case Crash =>
        case Open(k) => WaitingSavesStay(s, s', k);
        case Fill(k) => WaitingSavesStay(s, s', k);
        case FillMixed(k) => WaitingSavesStay(s, s', k);
        case OpenFails(_) =>
        case FillFails(_) =>
        case RenameFails(_) =>
        case Complete(k) =>
          if s'.jobs[k].Saving? {
            assert IsSaving(s', k);
          } else {
            WaitingSavesStay(s, s', k);
          }
      }
    }
  }

  lemma WaitingSavesStay(s: State, s': State, c: nat)
    requires LatestInv(s) && s'.disk.Load() == s.disk.Load() && s'.mem == s.mem
    requires OthersSame(s, s', c) && c < |s.jobs|
    requires IsSaving(s, c) ==> IsSaving(s', c) && s'.jobs[c].snapshot == s.jobs[c].snapshot
    ensures LatestInv(s')
  {
    if j: nat :| IsSaving(s, j) && s.jobs[j].snapshot == s.mem {
      assert IsSaving(s', j) && s'.jobs[j].snapshot == s.mem;
    }
  }

  lemma {:induction false} RunsKeepLatest(disk: Disk, actions: seq<Action>, n: nat)
    requires disk.Valid() && n <= |actions|
    requires WritersNeverOverlap(FirstStart(true, disk), actions) && SavesKeepOrder(FirstStart(true, disk), actions)
    ensures LatestInv(At(FirstStart(true, disk), actions, n))
  {
    var s0 := FirstStart(true, disk);
    if n > 0 {
      RunsKeepLatest(disk, actions, n - 1);
      RunsKeepWritersSound(disk, actions, n - 1);
      NextAt(s0, actions, n - 1);
      StepKeepsLatest(At(s0, actions, n - 1), actions[n - 1]);
    }
  }

  /** As long as writers do not overlap, no file operation fails and no older map is renamed last, the
      file holds the latest map whenever no save is pending: a crash then loses nothing. */
  lemma OrderedSavesKeepTheLatest(disk: Disk, actions: seq<Action>)
    requires disk.Valid()
    requires WritersNeverOverlap(FirstStart(true, disk), actions) && SavesKeepOrder(FirstStart(true, disk), actions)
    ensures var s := Exec(true, FirstStart(true, disk), actions);
            NoSave(s) ==> s.disk.Load() == s.mem && Apply(true, s, Crash).mem == s.mem
  {
    var s0 := FirstStart(true, disk);
    RunsKeepLatest(disk, actions, |actions|);
    AtEnd(s0, actions);
    ExecKeepsValid(true, s0, actions);
  }

  // ----- one save at a time -----

  /** At most one save is waiting or writing. */
  ghost predicate OneSave(s: State) {
    forall k: nat, j: nat :: IsSaving(s, k) && IsSaving(s, j) ==> k == j
  }

  ghost predicate SavesNeverOverlap(s0: State, actions: seq<Action>) {
    forall j: nat :: j <= |actions| ==> OneSave(At(s0, actions, j))
  }

  ghost predicate FileOpsSucceed(actions: seq<Action>) {
    forall i :: 0 <= i < |actions| ==>
                  !actions[i].OpenFails? && !actions[i].FillFails? && !actions[i].RenameFails?
  }

  ghost predicate SavesAreLatest(s: State) {
    forall k: nat :: IsSaving(s, k) ==> s.jobs[k].snapshot == s.mem
  }

  lemma StepKeepsSavesLatest(s: State, a: Action)
    requires SavesAreLatest(s) && OneSave(Apply(true, s, a))
    ensures SavesAreLatest(Apply(true, s, a))
  {
    var s' := Apply(true, s, a);
    if Enabled(s, a) {
      match a {
        case Receive(p) => assert IsSaving(s', |s.jobs|);
        case Complete(k) => assert s'.jobs[k].Saving? ==> IsSaving(s', k);
        case Crash =>
        case _ => assert OthersSame(s, s', a.job) && IsSaving(s, a.job);
      }
    }
  }

  lemma {:induction false} RunsKeepSavesLatest(disk: Disk, actions: seq<Action>, n: nat)
    requires SavesNeverOverlap(FirstStart(true, disk), actions) && n <= |actions|
    ensures SavesAreLatest(At(FirstStart(true, disk), actions, n))
  {
    var s0 := FirstStart(true, disk);
    if n > 0 {
      RunsKeepSavesLatest(disk, actions, n - 1);
      NextAt(s0, actions, n - 1);
      assert OneSave(At(s0, actions, n));
      StepKeepsSavesLatest(At(s0, actions, n - 1), actions[n - 1]);
    }
  }

  /** With one save at a time, waiting ones included, nothing is ever renamed out of order. */
  lemma SerialSavesKeepTheLatest(disk: Disk, actions: seq<Action>)
    requires disk.Valid() && SavesNeverOverlap(FirstStart(true, disk), actions) && FileOpsSucceed(actions)
    ensures var s := Exec(true, FirstStart(true, disk), actions);
            NoSave(s) ==> s.disk.Load() == s.mem && Apply(true, s, Crash).mem == s.mem
  {
    var s0 := FirstStart(true, disk);
    forall j: nat | j <= |actions|
      ensures OneWriter(At(s0, actions, j))
    {
      var s := At(s0, actions, j);
      assert OneSave(s);
      assert forall k: nat :: IsWriter(s, k) ==> IsSaving(s, k);
    }
    forall j: nat | j < |actions|
      ensures KeepsOrder(At(s0, actions, j), actions[j])
    {
      RunsKeepSavesLatest(disk, actions, j);
      var s, a := At(s0, actions, j), actions[j];
      assert Renames(s, a) ==> IsSaving(s, a.job);
    }
    OrderedSavesKeepTheLatest(disk, actions);
  }

  // ----- runs that break these promises -----

  const EMPTY_DISK: Disk := Disk([], None, None)

  ghost function BothReceived(p: Push, q: Push): State {
    var m1 := Ingested(map[], p.report, p.stamp);
    var m2 := Ingested(m1, q.report, q.stamp);
    State(m2, [Saving(m1, Queued, Some(p)), Saving(m2, Queued, Some(q))], EMPTY_DISK, [p, q], map[])
  }

  lemma ReceiveBoth(p: Push, q: Push)
    ensures Exec(true, FirstStart(true, EMPTY_DISK), [Receive(p), Receive(q)]) == BothReceived(p, q)
  {
    ExecTwo(true, FirstStart(true, EMPTY_DISK), Receive(p), Receive(q));
  }

  lemma OpenAndFill(s: State, k: nat)
    requires s.disk.Valid() && InPhase(s, k, Queued)
    ensures var s' := Exec(true, s, [Open(k), Fill(k)]);
            && InPhase(s', k, Filled) && s'.disk.Valid() && s'.disk.tmp.Some?
            && s'.disk.inodes[s'.disk.tmp.value] == Holds(s.jobs[k].snapshot)
            && s'.jobs == s.jobs[k := s.jobs[k].(phase := Filled)]
            && s'.mem == s.mem && s'.pushed == s.pushed && s'.base == s.base
  {
    ExecTwo(true, s, Open(k), Fill(k));
  }

  lemma TruncateThenRename(s: State, k: nat, j: nat)
    requires s.disk.Valid() && s.disk.tmp.Some?
    requires InPhase(s, j, Queued) && InPhase(s, k, Filled)
    ensures var s' := Exec(true, s, [Open(j), Rename(k)]);
            s'.disk.Valid() && s'.disk.StateContent() == Some(Writing(j)) && s'.mem == s.mem
  {
    ExecTwo(true, s, Open(j), Rename(k));
  }

  /** Two pushes whose saves overlap on the shared tmp path: the first one renames the file the
      second one has just truncated. A crash then loses every report. */
  lemma OverlappingSavesCanLoseEverything(p: Push, q: Push)
    ensures var s0 := FirstStart(true, EMPTY_DISK);
            var actions := [Receive(p), Receive(q)] + [Open(0), Fill(0)] + [Open(1), Rename(0)];
            var s := Exec(true, s0, actions);
            && p.Node() in s.mem && q.Node() in s.mem
            && !StateWhole(s.disk)
            && Exec(true, s0, actions + [Crash]).mem == map[]
  {
    var s0 := FirstStart(true, EMPTY_DISK);
    var a1, a2, a3 := [Receive(p), Receive(q)], [Open(0), Fill(0)], [Open(1), Rename(0)];
    ReceiveBoth(p, q);
    OpenAndFill(BothReceived(p, q), 0);
    ExecAppend(true, s0, a1, a2);
    var s2 := Exec(true, s0, a1 + a2);
    assert InPhase(s2, 1, Queued);
    TruncateThenRename(s2, 0, 1);
    ExecAppend(true, s0, a1 + a2, a3);
    ExecAppend(true, s0, a1 + a2 + a3, [Crash]);
    ExecOne(true, Exec(true, s0, a1 + a2 + a3), Crash);
  }

  lemma FailThenRename(s: State, k: nat, j: nat)
    requires s.disk.Valid() && s.disk.tmp.Some?
    requires InPhase(s, j, Queued) && InPhase(s, k, Filled)
    ensures var s' := Exec(true, s, [Open(j), FillFails(j)] + [Rename(k)]);
            s'.disk.Valid() && s'.disk.StateContent() == Some(Torn) && s'.mem == s.mem
  {
    ExecTwo(true, s, Open(j), FillFails(j));
    ExecAppend(true, s, [Open(j), FillFails(j)], [Rename(k)]);
    ExecOne(true, Exec(true, s, [Open(j), FillFails(j)]), Rename(k));
  }

  /** Two pushes whose writes do not interrupt each other: the second write fails, on a full disk say,
      and the first saver then renames what it has left. */
  lemma FailedWriteIsPublished(p: Push, q: Push)
    ensures var s0 := FirstStart(true, EMPTY_DISK);
            var actions := [Receive(p), Receive(q)] + [Open(0), Fill(0)] + ([Open(1), FillFails(1)] + [Rename(0)]);
            var s := Exec(true, s0, actions);
            p.Node() in s.mem && q.Node() in s.mem && !StateWhole(s.disk)
  {
    var s0 := FirstStart(true, EMPTY_DISK);
    var a1, a2 := [Receive(p), Receive(q)], [Open(0), Fill(0)];
    ReceiveBoth(p, q);
    OpenAndFill(BothReceived(p, q), 0);
    ExecAppend(true, s0, a1, a2);
    var s2 := Exec(true, s0, a1 + a2);
    assert InPhase(s2, 1, Queued);
    FailThenRename(s2, 0, 1);
    ExecAppend(true, s0, a1 + a2, [Open(1), FillFails(1)] + [Rename(0)]);
  }

  lemma MixThenRename(s: State, k: nat, j: nat)
    requires s.disk.Valid() && k != j && InPhase(s, k, Queued) && InPhase(s, j, Queued)
    ensures var s' := Exec(true, s, [Open(k), Open(j)] + [FillMixed(k), Rename(k)]);
            s'.disk.Valid() && s'.disk.StateContent() == Some(Torn) && s'.mem == s.mem
  {
    ExecTwo(true, s, Open(k), Open(j));
    var s2 := Exec(true, s, [Open(k), Open(j)]);
    var inode := s.disk.TmpAfterOpen();
    assert s2.disk.tmp == Some(inode) && s2.disk.inodes[inode] == Writing(j);
    assert s2.jobs[k] == s.jobs[k].(phase := Opened(inode));
    ExecAppend(true, s, [Open(k), Open(j)], [FillMixed(k), Rename(k)]);
    ExecTwo(true, s2, FillMixed(k), Rename(k));
  }

  /** Two pushes whose writes interrupt each other: the file is published with bytes of both. */
  lemma InterruptedWritesCanMix(p: Push, q: Push)
    ensures var actions := [Receive(p), Receive(q)] + ([Open(0), Open(1)] + [FillMixed(0), Rename(0)]);
            var s := Exec(true, FirstStart(true, EMPTY_DISK), actions);
            p.Node() in s.mem && q.Node() in s.mem && !StateWhole(s.disk)
  {
    ReceiveBoth(p, q);
    MixThenRename(BothReceived(p, q), 0, 1);
    ExecAppend(true, FirstStart(true, EMPTY_DISK), [Receive(p), Receive(q)],
               [Open(0), Open(1)] + [FillMixed(0), Rename(0)]);
  }

  /** One save from start to end with no other in between. */
  lemma WholeSave(s: State, k: nat)
    requires s.disk.Valid() && InPhase(s, k, Queued)
    ensures var s' := Exec(true, s, [Open(k), Fill(k), Rename(k)]);
            && s'.disk.Valid() && s'.disk.StateContent() == Some(Holds(s.jobs[k].snapshot))
            && s'.jobs == s.jobs[k := AfterSave(s.jobs[k].next)]
            && s'.mem == s.mem && s'.pushed == s.pushed && s'.base == s.base
  {
    OpenAndFill(s, k);
    ExecAppend(true, s, [Open(k), Fill(k)], [Rename(k)]);
    assert [Open(k), Fill(k)] + [Rename(k)] == [Open(k), Fill(k), Rename(k)];
    ExecOne(true, Exec(true, s, [Open(k), Fill(k)]), Rename(k));
  }

  ghost function SaveActions(k: nat): seq<Action> {
    [Open(k), Fill(k), Rename(k)]
  }

  /** The entries of two nodes, the first verified, the second verified or not. */
  ghost function TwoEntries(p: Push, q: Push, verdicts: seq<CvmVerdict>): Reports {
    map[p.Node() := StoredReport(p.stamp, p.report, p.Verdicts()),
        q.Node() := StoredReport(q.stamp, q.report, verdicts)]
  }

  lemma CompleteWritesBack(s: State, k: nat, p: Push, m: Reports)
    requires s.disk.Valid() && k < |s.jobs| && s.jobs[k] == Verifying(p)
    requires Merged(s.mem, p.Node(), p.stamp, p.Verdicts()) == Some(m)
    ensures var s' := Apply(true, s, Complete(k));
            s'.disk == s.disk && s'.mem == m && s'.jobs == s.jobs[k := Saving(m, Queued, None)]
  {
  }

  lemma BothComplete(s: State, p: Push, q: Push)
    requires p.Node() != q.Node() && s.disk.Valid()
    requires s.jobs == [Verifying(p), Verifying(q)] && s.mem == BothReceived(p, q).mem
    ensures var s' := Exec(true, s, [Complete(0), Complete(1)]);
            && s'.disk.Valid() && s'.mem == TwoEntries(p, q, q.Verdicts())
            && s'.jobs == [Saving(TwoEntries(p, q, []), Queued, None), Saving(s'.mem, Queued, None)]
  {
    ExecTwo(true, s, Complete(0), Complete(1));
    var m1, m2 := TwoEntries(p, q, []), TwoEntries(p, q, q.Verdicts());
    assert s.mem[p.Node() := s.mem[p.Node()].(verdicts := p.Verdicts())] == m1;
    CompleteWritesBack(s, 0, p, m1);
    assert m1[q.Node() := m1[q.Node()].(verdicts := q.Verdicts())] == m2;
    CompleteWritesBack(Apply(true, s, Complete(0)), 1, q, m2);
  }

  lemma BothSaved(p: Push, q: Push)
    ensures var s := Exec(true, Exec(true, BothReceived(p, q), SaveActions(0)), SaveActions(1));
            s.disk.Valid() && s.jobs == [Verifying(p), Verifying(q)] && s.mem == BothReceived(p, q).mem
  {
    WholeSave(BothReceived(p, q), 0);
    var s := Exec(true, BothReceived(p, q), SaveActions(0));
    assert InPhase(s, 1, Queued);
    WholeSave(s, 1);
  }

  lemma SavedInReverse(s: State, m1: Reports, m2: Reports)
    requires s.disk.Valid() && s.jobs == [Saving(m1, Queued, None), Saving(m2, Queued, None)]
    ensures var s' := Exec(true, Exec(true, s, SaveActions(1)), SaveActions(0));
            s'.mem == s.mem && s'.jobs == [Done, Done] && s'.disk.Load() == m1
  {
    WholeSave(s, 1);
    var s1 := Exec(true, s, SaveActions(1));
    assert InPhase(s1, 0, Queued);
    WholeSave(s1, 0);
  }

  ghost function OutOfOrder(p: Push, q: Push): seq<Action> {
    [Receive(p), Receive(q)] + SaveActions(0) + SaveActions(1) + [Complete(0), Complete(1)]
    + SaveActions(1) + SaveActions(0)
  }

  /** Two verifications whose saves reach the disk in the other order, each save undisturbed: all
      work is done, memory has both nodes' verdicts, and the file stays without the second one's. */
  lemma SavesOutOfOrderKeepAStaleFile(p: Push, q: Push)
    requires p.Node() != q.Node() && q.Verdicts() != []
    ensures var s := Exec(true, FirstStart(true, EMPTY_DISK), OutOfOrder(p, q));
            && s.jobs == [Done, Done]
            && s.mem == TwoEntries(p, q, q.Verdicts())
            && s.disk.Load() == TwoEntries(p, q, [])
            && s.disk.Load() != s.mem
  {
    var s0 := FirstStart(true, EMPTY_DISK);
    var a1 := [Receive(p), Receive(q)];
    var a2 := a1 + SaveActions(0);
    var a3 := a2 + SaveActions(1);
    var a4 := a3 + [Complete(0), Complete(1)];
    var a5 := a4 + SaveActions(1);
    ReceiveBoth(p, q);
    BothSaved(p, q);
    ExecAppend(true, s0, a1, SaveActions(0));
    ExecAppend(true, s0, a2, SaveActions(1));
    ExecAppend(true, s0, a3, [Complete(0), Complete(1)]);
    ExecAppend(true, s0, a4, SaveActions(1));
    ExecAppend(true, s0, a5, SaveActions(0));
    BothComplete(Exec(true, s0, a3), p, q);
    SavedInReverse(Exec(true, s0, a4), TwoEntries(p, q, []), TwoEntries(p, q, q.Verdicts()));
    assert TwoEntries(p, q, [])[q.Node()].verdicts == [];
  }
}
