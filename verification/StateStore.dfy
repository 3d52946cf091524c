/** The state file's methods, call by call, against the protocol of `StateFile`. */
module StateStore {
  import opened Wrappers
  import opened StateFile

  function Rank(stage: WriteStage): nat {
    match stage
    case Create => 11
    case Fill => 10
    case SyncFile => 9
    case Replace => 8
    case MoveIn => 7
    case RemoveStale => 6
    case SwapOut => 5
    case SwapIn => 4
    case RemoveOld => 3
    case Restrict => 2
    case SyncDir => 1
  }

  /** A whole write without a crash, in which the calls named by `fails` return an error. */
  function WriteRun(m: Machine, fails: WriteStage -> bool): (r: Machine)
    requires m.journal != []
    ensures r.journal != [] && !r.pc.Write?
    decreases if m.pc.Write? then Rank(m.pc.wstage) else 0
  {
    if !m.pc.Write? then m
    else WriteRun(if fails(m.pc.wstage) then FaultStep(m) else WriteStep(m), fails)
  }

  lemma {:induction false} WriteRunKeepsInv(m: Machine, fails: WriteStage -> bool)
    requires Inv(m)
    ensures Inv(WriteRun(m, fails))
    decreases if m.pc.Write? then Rank(m.pc.wstage) else 0
  {
    hide Inv;
    if m.pc.Write? {
      NonEmptyJournal(m);
      StepKeepsInv(m, if fails(m.pc.wstage) then Fault else Advance(false));
      WriteRunKeepsInv(if fails(m.pc.wstage) then FaultStep(m) else WriteStep(m), fails);
    }
  }

  lemma NonEmptyJournal(m: Machine)
    requires Inv(m)
    ensures m.journal != []
  {
  }

  /** One call of a write: it stops there, or goes on after it. */
  lemma Call(m: Machine, fails: WriteStage -> bool)
    requires m.journal != [] && m.pc.Write?
    ensures !fails(m.pc.wstage) ==> WriteRun(m, fails) == WriteRun(WriteStep(m), fails)
    ensures !fails(m.pc.wstage) && m.pc.wstage == SyncDir ==> WriteRun(m, fails) == WriteStep(m)
    ensures fails(m.pc.wstage) && m.pc.wstage != RemoveOld ==> WriteRun(m, fails) == WriteFailed(m, m.pc.caller)
    ensures fails(m.pc.wstage) && m.pc.wstage == RemoveOld ==>
              WriteRun(m, fails) == WriteRun(m.(pc := Write(Restrict, m.pc.caller)), fails)
  {
    assert WriteRun(WriteFailed(m, m.pc.caller), fails) == WriteFailed(m, m.pc.caller);
  }

  /** Every directory the disk may come back with is a good one. */
  ghost predicate AllSurvive(journal: seq<Dir>, acked: nat, attempted: nat) {
    journal != [] && forall i :: 0 <= i < |journal| ==> Survives(journal[i], acked, attempted)
  }

  lemma WriteRunSurvives(m: Machine, fails: WriteStage -> bool)
    requires m.pc == Write(Create, Serving) && m.acked < m.attempted && AllSurvive(m.journal, m.acked, m.attempted)
    ensures var r := WriteRun(m, fails); AllSurvive(r.journal, r.acked, r.attempted)
  {
    WriteRunKeepsInv(m, fails);
    hide WriteRun;
  }

  /** No call of a recovery fails; only on Unix is the temporary name removed by one of its own. */
  predicate RecoverySucceeds(platform: Platform, fails: RecoverStage -> bool) {
    && !fails(RCreate) && !fails(RFill) && !fails(RSyncFile) && !fails(RInstall) && (platform.Unix? ==> !fails(RUnlink))
    && !fails(RVerify) && !fails(RRemoveBackup) && !fails(RSyncDir)
  }

  class StateStore {
    const platform: Platform
    var journal: seq<Dir>
    var temp: Option<File>

    constructor (platform: Platform)
      ensures this.platform == platform && journal == [Dir(None, None)] && temp == None
    {
      this.platform := platform;
      journal := [Dir(None, None)];
      temp := None;
    }

    ghost function At(stage: WriteStage, acked: nat, version: nat): Machine
      reads this
    {
      Machine(platform, journal, temp, Write(stage, Serving), acked, version, 0)
    }

    /** `replace_state_file` for Windows. */
    method ReplaceWindows(ghost acked: nat, ghost version: nat, fails: WriteStage -> bool) returns (ok: bool)
      requires platform.Windows? && journal != [] && temp == Fresh(version) && !fails(Replace)
      modifies this
      ensures journal != []
      ensures var before := old(WriteRun(At(Replace, acked, version), fails));
              if ok then WriteRun(At(Restrict, acked, version), fails) == before
              else before == Machine(platform, journal, None, Serve, acked, version, 0)
    {
      hide WriteRun;
      Call(At(Replace, acked, version), fails);
      var live := journal[|journal| - 1];
      if live.primary.None? {
        Call(At(MoveIn, acked, version), fails);
        if fails(MoveIn) {
          return false;
        }
        journal, temp := [live.(primary := temp)], None;
        return true;
      }
      if live.backup.Some? {
        Call(At(RemoveStale, acked, version), fails);
        if fails(RemoveStale) {
          return false;
        }
        journal := journal + [live.(backup := None)];
      }
      ok := SwapFiles(acked, version, fails);
    }

    /** `ReplaceFileW` and the removal of the backup it leaves. */
    method SwapFiles(ghost acked: nat, ghost version: nat, fails: WriteStage -> bool) returns (ok: bool)
      requires journal != [] && temp == Fresh(version)
      modifies this
      ensures journal != []
      ensures var before := old(WriteRun(At(SwapOut, acked, version), fails));
              if ok then WriteRun(At(Restrict, acked, version), fails) == before
              else before == Machine(platform, journal, None, Serve, acked, version, 0)
    {
      hide WriteRun;
      var live := journal[|journal| - 1];
      Call(At(SwapOut, acked, version), fails);
      if fails(SwapOut) {
        return false;
      }
      journal := journal + [Dir(None, live.primary)];
      Call(At(SwapIn, acked, version), fails);
      if fails(SwapIn) {
        return false;
      }
      journal, temp := [Dir(temp, live.primary)], None;
      Call(At(RemoveOld, acked, version), fails);
      if !fails(RemoveOld) {
        journal := journal + [Dir(journal[0].primary, None)];
      }
      return true;
    }

    /** Creating, filling and syncing the temporary file. */
    method PrepareTemporary(ghost acked: nat, version: nat, fails: WriteStage -> bool) returns (ok: bool)
      requires journal != []
      modifies this`temp
      ensures ok ==> temp == Fresh(version)
      ensures var before := old(WriteRun(At(Create, acked, version), fails));
              if ok then WriteRun(At(Replace, acked, version), fails) == before
              else before == Machine(platform, journal, None, Serve, acked, version, 0)
    {
      hide WriteRun;
      Call(At(Create, acked, version), fails);
      if fails(Create) {
        return false;
      }
      temp := Some(File(Torn, false));
      Call(At(Fill, acked, version), fails);
      if fails(Fill) {
        return false;
      }
      temp := Some(File(Whole(version), false));
      Call(At(SyncFile, acked, version), fails);
      if fails(SyncFile) {
        return false;
      }
      temp := Some(File(Whole(version), true));
      return true;
    }

    /** The body of `write_protected_state_file_with`, up to its clean-up. */
    method WriteAndReplace(ghost acked: nat, version: nat, fails: WriteStage -> bool) returns (ok: bool)
      requires journal != []
      modifies this
      ensures journal != []
      ensures old(WriteRun(At(Create, acked, version), fails)) ==
                Machine(platform, journal, None, Serve, if ok then version else acked, version, 0)
    {
      hide WriteRun;
      ok := PrepareTemporary(acked, version, fails);
      if !ok {
        return false;
      }
      Call(At(Replace, acked, version), fails);
      if fails(Replace) {
        return false;
      }
      ok := ReplaceUnixOrWindows(acked, version, fails);
      if ok {
        ok := FinishWrite(acked, version, fails);
      }
    }

    /** Restricting the new file and syncing the directory. */
    method FinishWrite(ghost acked: nat, ghost version: nat, fails: WriteStage -> bool) returns (ok: bool)
      requires journal != []
      modifies this`journal
      ensures journal != []
      ensures old(WriteRun(At(Restrict, acked, version), fails)) ==
                Machine(platform, journal, None, Serve, if ok then version else acked, version, 0)
    {
      hide WriteRun;
      Call(At(Restrict, acked, version), fails);
      if fails(Restrict) {
        return false;
      }
      Call(At(SyncDir, acked, version), fails);
      if fails(SyncDir) {
        return false;
      }
      if platform.Unix? {
        journal := [journal[|journal| - 1]];
      }
      return true;
    }

    method ReplaceUnixOrWindows(ghost acked: nat, ghost version: nat, fails: WriteStage -> bool) returns (ok: bool)
      requires journal != [] && temp == Fresh(version) && !fails(Replace)
      modifies this
      ensures journal != []
      ensures var before := old(WriteRun(At(Replace, acked, version), fails));
              if ok then WriteRun(At(Restrict, acked, version), fails) == before
              else before == Machine(platform, journal, None, Serve, acked, version, 0)
    {
      hide WriteRun;
      if platform.Windows? {
        ok := ReplaceWindows(acked, version, fails);
      } else {
        Call(At(Replace, acked, version), fails);
        journal, temp := journal + [journal[|journal| - 1].(primary := temp)], None;
        ok := true;
      }
    }

    /** `write_protected_state_file_with`: whichever calls fail, no directory the disk may come
        back with has lost the last acknowledged state, and success means that every one of
        them shows the new state. */
    method WriteState(ghost acked: nat, version: nat, fails: WriteStage -> bool) returns (ok: bool)
      requires 1 <= version && acked < version && AllSurvive(journal, acked, version)
      modifies this
      ensures temp == None
      ensures AllSurvive(journal, if ok then version else acked, version)
      ensures ok <==> WriteSucceeds(platform, old(journal[|journal| - 1]), fails)
      ensures ok ==> journal[|journal| - 1] == Written(platform, old(journal[|journal| - 1]), Fresh(version), fails)
    {
      ghost var m := At(Create, acked, version);
      WriteRunSurvives(m, fails);
      SucceedsIff(m, fails);
      hide AllSurvive, WriteRun, WriteSucceeds, Written;
      ok := WriteAndReplace(acked, version, fails);
      if temp.Some? {
        temp := None;
      }
    }

    /** `recover_protected_state_file_with_validation`, for a given test of the backup that stands
        for its size limit and the caller's validation.  Whichever calls fail, a start still finds
        the same state; a primary that is there is left alone; success is exactly: nothing to do, or
        a backup that passes and no call that fails, and it leaves the backup's bytes under the
        primary name and no backup. */
    method RecoverState(ghost acked: nat, ghost attempted: nat, accepts: Content -> bool, fails: RecoverStage -> bool)
      returns (ok: bool)
      requires AllSurvive(journal, acked, attempted)
      modifies this
      ensures AllSurvive(journal, acked, attempted)
      ensures var (was, live) := (old(journal[|journal| - 1]), journal[|journal| - 1]);
              && Visible(live) == Visible(was)
              && (was.primary.Some? ==> ok && journal == old(journal))
              && (was.primary.None? && ok ==> live == Dir(was.backup, None))
              && (was.primary.None? && was.backup.Some? ==>
                    (ok <==> accepts(was.backup.value.content) && RecoverySucceeds(platform, fails)))
              && (was.primary.None? && was.backup.Some? && !accepts(was.backup.value.content) ==> journal == old(journal))
              && (was == Dir(None, None) ==> ok)
    {
      var live := journal[|journal| - 1];
      assert Survives(live, acked, attempted);
      if live.primary.Some? || live.backup.None? {
        return true;
      }
      var bytes := live.backup.value.content;
      if !accepts(bytes) {
        return false;
      }
      ok := InstallRecovered(acked, attempted, bytes, fails);
      temp := None;
    }

    /** `install_recovered_backup_bytes` */
    method InstallRecovered(ghost acked: nat, ghost attempted: nat, bytes: Content, fails: RecoverStage -> bool)
      returns (ok: bool)
      requires AllSurvive(journal, acked, attempted)
      requires journal[|journal| - 1] == Dir(None, Some(File(bytes, true)))
      modifies this
      ensures AllSurvive(journal, acked, attempted)
      ensures var live := journal[|journal| - 1];
              && Visible(live) == Version(Some(File(bytes, true)))
              && (ok ==> live == Dir(Some(File(bytes, true)), None))
      ensures ok <==> RecoverySucceeds(platform, fails)
    {
      assert Survives(journal[|journal| - 1], acked, attempted);
      if fails(RCreate) {
        return false;
      }
      temp := Some(File(Torn, false));
      if fails(RFill) {
        return false;
      }
      temp := Some(File(bytes, false));
      if fails(RSyncFile) {
        return false;
      }
      temp := Some(File(bytes, true));
      if fails(RInstall) {
        return false;
      }
      var linked := journal[|journal| - 1].(primary := temp);
      if platform.Unix? {
        journal := journal + [linked];
        if fails(RUnlink) {
          return false;
        }
        temp := None;
      } else {
        journal, temp := [linked], None;
      }
      if fails(RVerify) || linked.primary != Some(File(bytes, true)) || fails(RRemoveBackup) {
        return false;
      }
      journal := journal + [linked.(backup := None)];
      if fails(RSyncDir) {
        return false;
      }
      if platform.Unix? {
        journal := [journal[|journal| - 1]];
      }
      return true;
    }
  }

  /** No call a write depends on fails.  Removing the replaced file afterwards is not one. */
  predicate WriteSucceeds(platform: Platform, live: Dir, fails: WriteStage -> bool) {
    && !fails(Create) && !fails(Fill) && !fails(SyncFile)
    && !fails(Replace) && (platform.Windows? ==> ReplacementSucceeds(live, fails))
    && !fails(Restrict) && !fails(SyncDir)
  }

  predicate ReplacementSucceeds(live: Dir, fails: WriteStage -> bool) {
    if live.primary.None? then !fails(MoveIn)
    else (live.backup.Some? ==> !fails(RemoveStale)) && !fails(SwapOut) && !fails(SwapIn)
  }

  /** The directory after a replacement: the new state as the primary.  On Windows the one it
      replaced is gone, or the backup if it could not be removed; an older backup stays only where
      nothing was replaced. */
  function Written(platform: Platform, live: Dir, written: Option<File>, fails: WriteStage -> bool): Dir {
    if platform.Unix? || live.primary.None? then live.(primary := written)
    else Dir(written, if fails(RemoveOld) then live.primary else None)
  }

  lemma FinishSucceedsIff(m: Machine, fails: WriteStage -> bool)
    requires m.journal != [] && m.pc == Write(Restrict, Serving) && m.acked < m.attempted
    ensures WriteRun(m, fails).acked == m.attempted <==> !fails(Restrict) && !fails(SyncDir)
    ensures Live(WriteRun(m, fails)) == Live(m)
  {
    hide WriteRun;
    Call(m, fails);
    if !fails(Restrict) {
      Call(WriteStep(m), fails);
    }
  }

  lemma MoveSucceedsIff(m: Machine, fails: WriteStage -> bool)
    requires m.journal != [] && m.pc == Write(MoveIn, Serving) && m.acked < m.attempted
    ensures WriteRun(m, fails).acked == m.attempted <==> !fails(MoveIn) && !fails(Restrict) && !fails(SyncDir)
    ensures !fails(MoveIn) ==> Live(WriteRun(m, fails)) == Live(m).(primary := m.temp)
  {
    hide WriteRun;
    Call(m, fails);
    FinishSucceedsIff(WriteStep(m), fails);
  }

  lemma SwapSucceedsIff(m: Machine, fails: WriteStage -> bool)
    requires m.journal != [] && m.pc == Write(SwapOut, Serving) && m.acked < m.attempted
    ensures WriteRun(m, fails).acked == m.attempted <==>
              !fails(SwapOut) && !fails(SwapIn) && !fails(Restrict) && !fails(SyncDir)
    ensures !fails(SwapOut) && !fails(SwapIn) ==>
              Live(WriteRun(m, fails)) == Dir(m.temp, if fails(RemoveOld) then Live(m).primary else None)
  {
    hide WriteRun;
    Call(m, fails);
    var c := WriteStep(m);
    Call(c, fails);
    var d := WriteStep(c);
    Call(d, fails);
    FinishSucceedsIff(if fails(RemoveOld) then d.(pc := Write(Restrict, Serving)) else WriteStep(d), fails);
  }

  lemma ReplaceSucceedsIff(m: Machine, fails: WriteStage -> bool)
    requires m.journal != [] && m.pc == Write(Replace, Serving) && m.acked < m.attempted
    ensures WriteRun(m, fails).acked == m.attempted <==>
              && !fails(Replace) && (m.platform.Windows? ==> ReplacementSucceeds(Live(m), fails))
              && !fails(Restrict) && !fails(SyncDir)
    ensures !fails(Replace) && (m.platform.Windows? ==> ReplacementSucceeds(Live(m), fails)) ==>
              Live(WriteRun(m, fails)) == Written(m.platform, Live(m), m.temp, fails)
  {
    hide WriteRun;
    Call(m, fails);
    var next := WriteStep(m);
    if m.platform.Unix? {
      FinishSucceedsIff(next, fails);
    } else if Live(m).primary.None? {
      MoveSucceedsIff(next, fails);
    } else if Live(m).backup.Some? {
      Call(next, fails);
      SwapSucceedsIff(WriteStep(next), fails);
    } else {
      SwapSucceedsIff(next, fails);
    }
  }

  lemma PrepareSucceedsIff(m: Machine, fails: WriteStage -> bool)
    requires m.journal != [] && m.pc == Write(Create, Serving) && m.acked < m.attempted
    ensures WriteRun(m, fails).acked == m.attempted <==>
              && !fails(Create) && !fails(Fill) && !fails(SyncFile)
              && WriteRun(m.(temp := Fresh(m.attempted), pc := Write(Replace, Serving)), fails).acked == m.attempted
    ensures !fails(Create) && !fails(Fill) && !fails(SyncFile) ==>
              WriteRun(m, fails) == WriteRun(m.(temp := Fresh(m.attempted), pc := Write(Replace, Serving)), fails)
  {
    hide WriteRun;
    Call(m, fails);
    var a := WriteStep(m);
    Call(a, fails);
    var b := WriteStep(a);
    Call(b, fails);
    assert WriteStep(b) == m.(temp := Fresh(m.attempted), pc := Write(Replace, Serving));
  }

  lemma SucceedsIff(m: Machine, fails: WriteStage -> bool)
    requires m.journal != [] && m.pc == Write(Create, Serving) && m.acked < m.attempted
    ensures WriteRun(m, fails).acked == m.attempted <==> WriteSucceeds(m.platform, Live(m), fails)
    ensures WriteSucceeds(m.platform, Live(m), fails) ==>
              Live(WriteRun(m, fails)) == Written(m.platform, Live(m), Fresh(m.attempted), fails)
  {
    hide WriteRun, WriteStep, ReplacementSucceeds, Written;
    PrepareSucceedsIff(m, fails);
    ReplaceSucceedsIff(m.(temp := Fresh(m.attempted), pc := Write(Replace, Serving)), fails);
  }
}
