/** The server that does one thing at a time, as module Store has it, is one of the interleavings of
    module Protocol: its methods and the protocol's steps reach the same map and the same disk. */
module Sequential {
  import opened Prelude
  import opened Wire
  import opened Verify
  import opened Store
  import opened Protocol

  /** The steps of one save whose file operations turn out as `io` says. */
  ghost function SaveSteps(k: nat, io: Io): seq<Action> {
    if !io.openOk then [OpenFails(k)]
    else if !io.writeOk then [Open(k), FillFails(k)]
    else if !io.renameOk then [Open(k), Fill(k)] + [RenameFails(k)]
    else [Open(k), Fill(k)] + [Rename(k)]
  }

  lemma OpenThenFill(s: State, k: nat)
    requires s.disk.Valid() && InPhase(s, k, Queued)
    ensures var s' := Exec(true, s, [Open(k), Fill(k)]);
            s' == SetPhase(s, k, Filled).(disk := s.disk.OpenTmp(0).Write(s.disk.TmpAfterOpen(), Holds(s.jobs[k].snapshot)))
  {
    ExecTwo(true, s, Open(k), Fill(k));
  }

  lemma OpenThenFail(s: State, k: nat)
    requires s.disk.Valid() && InPhase(s, k, Queued)
    ensures Exec(true, s, [Open(k), FillFails(k)]) ==
            EndSave(s, k).(disk := s.disk.OpenTmp(0).Write(s.disk.TmpAfterOpen(), Torn))
  {
    ExecTwo(true, s, Open(k), FillFails(k));
  }

  /** Nothing but its own steps between them, a queued save does to the disk what `SaveState` does. */
  lemma SaveIsSaveState(s: State, k: nat, io: Io)
    requires s.disk.Valid() && InPhase(s, k, Queued)
    ensures Exec(true, s, SaveSteps(k, io)) ==
            EndSave(s, k).(disk := SavedTo(s.disk, s.jobs[k].snapshot, io))
  {
    if !io.openOk {
      ExecOne(true, s, OpenFails(k));
    } else if !io.writeOk {
      OpenThenFail(s, k);
    } else {
      OpenThenFill(s, k);
      var last := if io.renameOk then Rename(k) else RenameFails(k);
      ExecAppend(true, s, [Open(k), Fill(k)], [last]);
      ExecOne(true, Exec(true, s, [Open(k), Fill(k)]), last);
    }
  }

  /** What `Server.Ingest` does with an accepted push is `Receive` and its save: the same map, the same
      disk, and the verification of that push spawned. */
  lemma IngestIsReceiveThenSave(s: State, p: Push, io: Io)
    requires s.disk.Valid()
    ensures var s' := Exec(true, s, [Receive(p)] + SaveSteps(|s.jobs|, io));
            && s'.mem == Ingested(s.mem, p.report, p.stamp)
            && s'.disk == SavedTo(s.disk, s'.mem, io)
            && s'.jobs == s.jobs + [Verifying(p)]
    ensures var s' := Exec(false, s, [Receive(p)]);
            s'.mem == Ingested(s.mem, p.report, p.stamp) && s'.disk == s.disk && s'.jobs == s.jobs + [Verifying(p)]
  {
    var k := |s.jobs|;
    ExecOne(true, s, Receive(p));
    ExecOne(false, s, Receive(p));
    ExecAppend(true, s, [Receive(p)], SaveSteps(k, io));
    SaveIsSaveState(Apply(true, s, Receive(p)), k, io);
  }

  /** What `Server.VerifyInBackground` does is `Complete` and, if the stamp still matches, its save. */
  lemma VerifyIsCompleteThenSave(s: State, k: nat, p: Push, io: Io)
    requires s.disk.Valid() && k < |s.jobs| && s.jobs[k] == Verifying(p)
    ensures var merged := Merged(s.mem, p.Node(), p.stamp, p.Verdicts());
            var s' := Exec(true, s, [Complete(k)] + if merged.Some? then SaveSteps(k, io) else []);
            && s'.mem == (if merged.Some? then merged.value else s.mem)
            && s'.disk == (if merged.Some? then SavedTo(s.disk, s'.mem, io) else s.disk)
            && s'.jobs == s.jobs[k := Done]
    ensures var merged := Merged(s.mem, p.Node(), p.stamp, p.Verdicts());
            var s' := Exec(false, s, [Complete(k)]);
            && s'.mem == (if merged.Some? then merged.value else s.mem)
            && s'.disk == s.disk && s'.jobs == s.jobs[k := Done]
  {
    var merged := Merged(s.mem, p.Node(), p.stamp, p.Verdicts());
    ExecOne(true, s, Complete(k));
    ExecOne(false, s, Complete(k));
    if merged.Some? {
      ExecAppend(true, s, [Complete(k)], SaveSteps(k, io));
      SaveIsSaveState(Apply(true, s, Complete(k)), k, io);
    } else {
      assert [Complete(k)] + [] == [Complete(k)];
    }
  }
}
