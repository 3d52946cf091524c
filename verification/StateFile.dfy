/** The protected state file: replacing it, recovering it and starting from it.

A machine is the disk, the process's place in the code and what the caller has been told.
Every event is one file-system call that succeeds or fails, a request to write, a crash of
the process, or a loss of power.  States are numbered in the order in which writing them
began; 0 stands for no state at all.
*/
module StateFile {
  import opened Wrappers

  datatype Platform = Unix | Windows

  datatype Content = Whole(version: nat) | Torn

  datatype File = File(content: Content, synced: bool)

  /** The two names that outlive a process; a temporary name is never used twice. */
  datatype Dir = Dir(primary: Option<File>, backup: Option<File>)

  datatype Caller = Initializing | Migrating | Serving

  datatype WriteStage =
    | Create | Fill | SyncFile | Replace
    | MoveIn | RemoveStale | SwapOut | SwapIn | RemoveOld
    | Restrict | SyncDir

  datatype RecoverStage = RCreate | RFill | RSyncFile | RInstall | RUnlink | RVerify | RRemoveBackup | RSyncDir

  /** Where the process is: not running, starting up, recovering, writing or serving. */
  datatype Pc =
    | Down | Inspect | OpenBackup | Load | Migrate | Cleanup | Serve
    | Recover(rstage: RecoverStage, bytes: Content)
    | Write(wstage: WriteStage, caller: Caller)

  /** `journal` lists what the directory may be after a loss of power, oldest first; its last
      entry is what the directory is now.  `validated` is the state that passed decoding,
      migration and validation in this start, 0 before that. */
  datatype Machine = Machine(
    platform: Platform, journal: seq<Dir>, temp: Option<File>, pc: Pc, acked: nat, attempted: nat, validated: nat)

  datatype Event =
    | Boot                    // start the process
    | Advance(migrate: bool)  // the current call succeeds; a loaded state may need rewriting
    | Fault                   // the current call returns an error
    | Request                 // the serving process is asked to store a new state
    | ProcessCrash
    | PowerLoss(k: nat)

  function Live(m: Machine): Dir
    requires m.journal != []
  {
    m.journal[|m.journal| - 1]
  }

  /** A directory operation the disk may still lose. */
  function Change(m: Machine, d: Dir): Machine {
    m.(journal := m.journal + [d])
  }

  /** The directory is on stable storage. */
  function Flush(m: Machine, d: Dir): Machine {
    m.(journal := [d])
  }

  function Halt(m: Machine): Machine {
    m.(pc := Down, temp := None, validated := 0)
  }

  function Begin(m: Machine, caller: Caller): Machine {
    m.(pc := Write(Create, caller), attempted := m.attempted + 1)
  }

  function WriteFailed(m: Machine, caller: Caller): Machine {
    if caller == Serving then m.(pc := Serve, temp := None) else Halt(m)
  }

  function WriteDone(m: Machine, caller: Caller): Machine {
    m.(pc := (match caller case Initializing => Migrate case Migrating => Cleanup case Serving => Serve),
       temp := None, acked := m.attempted,
       validated := if caller == Migrating then m.attempted else m.validated)
  }

  /** One call of `write_protected_state_file_with`, or one of the two moves inside
      `ReplaceFileW`. */
  function WriteStep(m: Machine): Machine
    requires m.journal != [] && m.pc.Write?
  {
    var (live, c) := (Live(m), m.pc.caller);
    match m.pc.wstage
    case Create => m.(temp := Some(File(Torn, false)), pc := Write(Fill, c))
    case Fill => m.(temp := Some(File(Whole(m.attempted), false)), pc := Write(SyncFile, c))
    case SyncFile => m.(temp := Some(File(Whole(m.attempted), true)), pc := Write(Replace, c))
    case Replace =>
      if m.platform.Unix? then Change(m, live.(primary := m.temp)).(pc := Write(Restrict, c), temp := None)
      else if live.primary.None? then m.(pc := Write(MoveIn, c))
      else if live.backup.Some? then m.(pc := Write(RemoveStale, c))
      else m.(pc := Write(SwapOut, c))
    case MoveIn => Flush(m, live.(primary := m.temp)).(pc := Write(Restrict, c), temp := None)
    case RemoveStale => Change(m, live.(backup := None)).(pc := Write(SwapOut, c))
    case SwapOut => Change(m, Dir(None, live.primary)).(pc := Write(SwapIn, c))
    case SwapIn => Flush(m, live.(primary := m.temp)).(pc := Write(RemoveOld, c), temp := None)
    case RemoveOld => Change(m, live.(backup := None)).(pc := Write(Restrict, c))
    case Restrict => m.(pc := Write(SyncDir, c))
    case SyncDir => WriteDone(if m.platform.Unix? then Flush(m, live) else m, c)
  }

  /** One call of `install_recovered_backup_bytes`. */
  function RecoverStep(m: Machine): Machine
    requires m.journal != [] && m.pc.Recover?
  {
    var (live, bytes) := (Live(m), m.pc.bytes);
    match m.pc.rstage
    case RCreate => m.(temp := Some(File(Torn, false)), pc := Recover(RFill, bytes))
    case RFill => m.(temp := Some(File(bytes, false)), pc := Recover(RSyncFile, bytes))
    case RSyncFile => m.(temp := Some(File(bytes, true)), pc := Recover(RInstall, bytes))
    case RInstall =>
      if live.primary.Some? then Halt(m)
      else if m.platform.Unix? then Change(m, live.(primary := m.temp)).(pc := Recover(RUnlink, bytes))
      else Flush(m, live.(primary := m.temp)).(pc := Recover(RVerify, bytes), temp := None)
    case RUnlink => m.(temp := None, pc := Recover(RVerify, bytes))
    case RVerify =>
      if live.primary.Some? && live.primary.value.content == bytes then m.(pc := Recover(RRemoveBackup, bytes))
      else Halt(m)
    case RRemoveBackup => Change(m, live.(backup := None)).(pc := Recover(RSyncDir, bytes))
    case RSyncDir => (if m.platform.Unix? then Flush(m, live) else m).(pc := Load)
  }

  /** The current call succeeds. */
  function AdvanceStep(m: Machine, migrate: bool): Machine
    requires m.journal != []
  {
    var live := Live(m);
    match m.pc
    case Down => m
    case Serve => m
    case Inspect => m.(pc := if live.primary.Some? then Load else OpenBackup)
    case OpenBackup => m.(pc := if live.backup.Some? then Recover(RCreate, live.backup.value.content) else Load)
    case Load =>
      if live.primary.None? then Begin(m, Initializing)
      else if live.primary.value.content.Torn? then Halt(m)
      else m.(pc := Migrate)
    case Migrate =>
      if migrate then Begin(m, Migrating) else m.(pc := Cleanup, validated := Version(live.primary))
    case Cleanup =>
      (if m.platform.Windows? then Change(m, live.(backup := None)) else m).(pc := Serve)
    case Recover(_, _) => RecoverStep(m)
    case Write(_, _) => WriteStep(m)
  }

  /** The current call fails.  A backup that cannot be removed after a replacement is only
      reported. */
  function FaultStep(m: Machine): Machine {
    match m.pc
    case Down => m
    case Serve => m
    case Write(stage, caller) =>
      if stage == RemoveOld then m.(pc := Write(Restrict, caller)) else WriteFailed(m, caller)
    case _ => Halt(m)
  }

  function AfterPowerLoss(f: Option<File>): Option<File> {
    match f
    case None => None
    case Some(file) => Some(if file.synced then file else File(Torn, true))
  }

  function Step(m: Machine, e: Event): Machine
    requires m.journal != []
    ensures Step(m, e).journal != []
  {
    match e
    case Boot => if m.pc.Down? then m.(pc := Inspect) else m
    case Advance(migrate) => AdvanceStep(m, migrate)
    case Fault => FaultStep(m)
    case Request => if m.pc.Serve? then Begin(m, Serving) else m
    case ProcessCrash => Halt(m)
    case PowerLoss(k) =>
      if k >= |m.journal| then m
      else
        var d := m.journal[k];
        Flush(Halt(m), Dir(AfterPowerLoss(d.primary), AfterPowerLoss(d.backup)))
  }

  function Run(m: Machine, events: seq<Event>): (r: Machine)
    requires m.journal != []
    ensures r.journal != []
  {
    if events == [] then m else Step(Run(m, events[..|events| - 1]), events[|events| - 1])
  }

  function Initial(platform: Platform): Machine {
    Machine(platform, [Dir(None, None)], None, Down, 0, 0, 0)
  }

  // ----- What every run keeps

  function Version(f: Option<File>): nat {
    match f
    case Some(File(Whole(v), _)) => v
    case _ => 0
  }

  /** The state a start from this directory ends up with: the primary, or the backup when
      there is no primary. */
  function Visible(d: Dir): nat {
    if d.primary.Some? then Version(d.primary) else Version(d.backup)
  }

  /** A file, if present, is complete, on stable storage and one of the states written. */
  predicate Intact(f: Option<File>, attempted: nat) {
    f.Some? ==> f.value.synced && 1 <= Version(f) <= attempted
  }

  /** The directory holds no torn file, and a start from it finds a state at least as new as
      the last one acknowledged. */
  predicate Survives(d: Dir, acked: nat, attempted: nat) {
    Intact(d.primary, attempted) && Intact(d.backup, attempted) && acked <= Visible(d)
  }

  function Fresh(version: nat): Option<File> {
    Some(File(Whole(version), true))
  }

  ghost predicate Installed(m: Machine)
    requires m.journal != []
  {
    && Live(m).primary == Fresh(m.attempted)
    && (m.platform.Windows? ==> forall i :: 0 <= i < |m.journal| ==> m.journal[i].primary == Fresh(m.attempted))
  }

  ghost predicate WriteInv(m: Machine)
    requires m.journal != [] && m.pc.Write?
  {
    && m.attempted >= 1
    && match m.pc.wstage
       case Create => true
       case Fill => true
       case SyncFile => m.temp == Some(File(Whole(m.attempted), false))
       case Replace => m.temp == Fresh(m.attempted)
       case MoveIn => m.temp == Fresh(m.attempted) && m.platform.Windows? && Live(m).primary.None?
       case RemoveStale => m.temp == Fresh(m.attempted) && m.platform.Windows? && Live(m).primary.Some?
       case SwapOut => m.temp == Fresh(m.attempted) && m.platform.Windows? && Live(m).primary.Some?
       case SwapIn => m.temp == Fresh(m.attempted) && m.platform.Windows? && Live(m).primary.None?
       case RemoveOld => m.platform.Windows? && Installed(m)
       case Restrict => Installed(m)
       case SyncDir => Installed(m)
  }

  ghost predicate RecoverInv(m: Machine)
    requires m.journal != [] && m.pc.Recover?
  {
    var (live, f) := (Live(m), Some(File(m.pc.bytes, true)));
    match m.pc.rstage
    case RCreate => live == Dir(None, f)
    case RFill => live == Dir(None, f)
    case RSyncFile => live == Dir(None, f)
    case RInstall => live == Dir(None, f) && m.temp == f
    case RUnlink => live == Dir(f, f)
    case RVerify => live == Dir(f, f)
    case RRemoveBackup => live == Dir(f, f)
    case RSyncDir => live == Dir(f, None)
  }

  ghost predicate PcInv(m: Machine)
    requires m.journal != []
  {
    match m.pc
    case OpenBackup => Live(m).primary.None?
    case Load => Live(m).primary.None? ==> Live(m).backup.None?
    case Migrate => Live(m).primary.Some?
    case Cleanup => Live(m).primary == Fresh(m.validated)
    case Recover(_, _) => RecoverInv(m)
    case Write(_, _) => WriteInv(m)
    case _ => true
  }

  ghost predicate Inv(m: Machine) {
    && m.journal != [] && m.acked <= m.attempted
    && (forall i :: 0 <= i < |m.journal| ==> Survives(m.journal[i], m.acked, m.attempted))
    && PcInv(m)
  }

  predicate Preparing(stage: WriteStage) {
    stage in {Create, Fill, SyncFile, Replace, MoveIn}
  }

  lemma PreparingKeepsInv(m: Machine)
    requires Inv(m) && m.pc.Write? && Preparing(m.pc.wstage)
    ensures Inv(WriteStep(m))
  {
    assert Survives(Live(m), m.acked, m.attempted);
  }

  predicate Finishing(stage: WriteStage) {
    stage in {RemoveOld, Restrict, SyncDir}
  }

  lemma SwappingKeepsInv(m: Machine)
    requires Inv(m) && m.pc.Write? && !Preparing(m.pc.wstage) && !Finishing(m.pc.wstage)
    ensures Inv(WriteStep(m))
  {
    assert Survives(Live(m), m.acked, m.attempted);
  }

  lemma FinishingKeepsInv(m: Machine)
    requires Inv(m) && m.pc.Write? && Finishing(m.pc.wstage)
    ensures Inv(WriteStep(m))
  {
    assert Survives(Live(m), m.acked, m.attempted);
  }

  lemma WriteStepKeepsInv(m: Machine)
    requires Inv(m) && m.pc.Write?
    ensures Inv(WriteStep(m))
  {
    hide WriteStep, Inv;
    if Preparing(m.pc.wstage) {
      PreparingKeepsInv(m);
    } else if Finishing(m.pc.wstage) {
      FinishingKeepsInv(m);
    } else {
      SwappingKeepsInv(m);
    }
  }

  lemma RecoverStepKeepsInv(m: Machine)
    requires Inv(m) && m.pc.Recover?
    ensures Inv(RecoverStep(m))
  {
    assert Survives(Live(m), m.acked, m.attempted);
  }

  lemma AdvanceKeepsInv(m: Machine, migrate: bool)
    requires Inv(m)
    ensures Inv(AdvanceStep(m, migrate))
  {
    assert Survives(Live(m), m.acked, m.attempted);
    hide WriteStep, RecoverStep;
    match m.pc
    case Recover(_, _) => RecoverStepKeepsInv(m);
    case Write(_, _) => WriteStepKeepsInv(m);
    case _ =>
  }

  lemma StepKeepsInv(m: Machine, e: Event)
    requires Inv(m)
    ensures Inv(Step(m, e))
  {
    hide AdvanceStep;
    match e
    case Advance(migrate) => AdvanceKeepsInv(m, migrate);
    case _ =>
  }

  lemma {:induction false} RunKeepsInv(m: Machine, events: seq<Event>)
    requires Inv(m)
    ensures Inv(Run(m, events))
  {
    if events == [] {
    } else {
      RunKeepsInv(m, events[..|events| - 1]);
      StepKeepsInv(Run(m, events[..|events| - 1]), events[|events| - 1]);
    }
  }

  // ----- Crash safety

  /** Crash safety: after any run of writes, failures, crashes, losses of power and restarts,
      in whatever condition the directory comes back, either the primary is a complete state
      no older than the last acknowledged one, or the primary is absent and the backup is
      such a state, or nothing was ever acknowledged. */
  lemma CrashSafety(platform: Platform, events: seq<Event>, k: nat)
    requires k < |Run(Initial(platform), events).journal|
    ensures var m := Run(Initial(platform), events);
            var d := m.journal[k];
            || (exists v :: m.acked <= v <= m.attempted && d.primary == Fresh(v))
            || (d.primary == None && exists v :: m.acked <= v <= m.attempted && d.backup == Fresh(v))
            || (d == Dir(None, None) && m.acked == 0)
  {
    RunKeepsInv(Initial(platform), events);
    var m := Run(Initial(platform), events);
    var d := m.journal[k];
    assert Survives(d, m.acked, m.attempted);
    if d.primary.Some? {
      assert d.primary == Fresh(Version(d.primary));
    } else if d.backup.Some? {
      assert d.backup == Fresh(Version(d.backup));
    }
  }

  /** Short of a loss of power, what a restart would find never gets older. */
  lemma VisibleNeverGoesBack(m: Machine, e: Event)
    requires Inv(m) && !e.PowerLoss?
    ensures Visible(Live(Step(m, e))) >= Visible(Live(m))
  {
    assert Survives(Live(m), m.acked, m.attempted);
  }

  /** A write is acknowledged only once every way the directory may come back shows it. */
  lemma AcknowledgedIsDurable(m: Machine, e: Event, k: nat)
    requires Inv(m) && Step(m, e).acked != m.acked && k < |Step(m, e).journal|
    ensures Step(m, e).acked == m.attempted && Step(m, e).journal[k].primary == Fresh(m.attempted)
  {
    assert m.pc.Write? && m.pc.wstage == SyncDir;
  }

  /** Neither starting up nor recovering ever overwrites or removes a primary that is there:
      only a write does. */
  lemma OnlyWritesTouchThePrimary(m: Machine, e: Event)
    requires Inv(m) && !e.PowerLoss? && !m.pc.Write? && Live(m).primary.Some?
    ensures Live(Step(m, e)).primary == Live(m).primary
  {
  }

  /** A backup goes away only beside a complete primary, and the start-up cleanup removes it only
      beside the very state that passed decoding, migration and validation in this start. */
  lemma BackupGoesBesidePrimary(m: Machine, e: Event)
    requires Inv(m) && !e.PowerLoss?
    requires Live(m).backup.Some? && Live(Step(m, e)).backup.None?
    ensures Live(m).primary.Some? && Live(m).primary.value.content.Whole?
    ensures Live(Step(m, e)).primary == Live(m).primary
    ensures m.pc == Cleanup ==> Live(m).primary == Fresh(m.validated)
  {
    assert Survives(Live(m), m.acked, m.attempted);
  }

  lemma WritingIsNotStarting(m: Machine)
    requires m.journal != [] && m.pc.Write?
    ensures WriteStep(m).pc == Cleanup ==> m.pc == Write(SyncDir, Migrating)
    ensures WriteStep(m).pc.Write? ==> WriteStep(m).pc.wstage != Create
    ensures WriteStep(m).validated != m.validated ==> WriteStep(m).pc == Cleanup
  {
  }

  lemma RecoveringIsNotStarting(m: Machine)
    requires m.journal != [] && m.pc.Recover?
    ensures RecoverStep(m).pc != Cleanup && !RecoverStep(m).pc.Write?
    ensures RecoverStep(m).validated == 0 || RecoverStep(m).validated == m.validated
  {
  }

  /** A state counts as validated only by passing validation, or by being the rewritten form of
      one that passed; a start reaches its cleanup no other way. */
  lemma CleanupFollowsValidation(m: Machine, e: Event)
    requires m.journal != []
    ensures Step(m, e).pc == Cleanup != m.pc ==>
              (m.pc == Migrate && e == Advance(false)) || (m.pc == Write(SyncDir, Migrating) && e.Advance?)
    ensures Step(m, e).pc == Write(Create, Migrating) != m.pc ==> m.pc == Migrate && e == Advance(true)
    ensures Step(m, e).validated != 0 && Step(m, e).validated != m.validated ==> Step(m, e).pc == Cleanup
  {
    hide WriteStep, RecoverStep;
    if m.pc.Write? {
      WritingIsNotStarting(m);
    } else if m.pc.Recover? {
      RecoveringIsNotStarting(m);
    }
  }

  /** On Unix a backup is removed only by a recovery that has verified what it installed. */
  lemma UnixKeepsTheBackup(m: Machine, e: Event)
    requires m.journal != [] && m.platform.Unix? && !e.PowerLoss?
    requires m.pc.Write? ==> m.pc.wstage in {Create, Fill, SyncFile, Replace, Restrict, SyncDir}
    ensures Live(Step(m, e)).backup == Live(m).backup || (m.pc.Recover? && m.pc.rstage == RRemoveBackup)
  {
  }

  /** Whatever the directory looks like, even if somebody else changed it: a recovery never installs
      over a primary, removes the backup only after reading back the bytes it recovered, and a
      start never goes past a primary that does not decode. */
  lemma NothingIsTakenOnTrust(m: Machine, migrate: bool)
    requires m.journal != []
    ensures var m' := Step(m, Advance(migrate));
            && (m.pc.Recover? && m.pc.rstage == RInstall && Live(m).primary.Some? ==>
                  m'.pc == Down && m'.journal == m.journal)
            && (m.pc.Recover? && m.pc.rstage == RVerify ==>
                  if Live(m).primary.Some? && Live(m).primary.value.content == m.pc.bytes
                  then m'.pc == Recover(RRemoveBackup, m.pc.bytes) else m'.pc == Down)
            && (m.pc == Load && Live(m).primary.Some? ==>
                  if Live(m).primary.value.content.Whole? then m'.pc == Migrate else m'.pc == Down)
            && (m.pc == Inspect ==> m'.pc == if Live(m).primary.Some? then Load else OpenBackup)
  {
  }

  /** A new state is created at start-up only if no write was ever acknowledged. */
  lemma NothingIsReinitialized(m: Machine, e: Event)
    requires Inv(m) && !m.pc.Write?
    requires Step(m, e).pc == Write(Create, Initializing)
    ensures m.acked == 0 && Live(m) == Dir(None, None)
  {
    assert Survives(Live(m), m.acked, m.attempted);
  }

  // ----- A start without faults

  function Go(m: Machine, n: nat): (r: Machine)
    requires m.journal != []
    ensures r.journal != []
    decreases n
  {
    if n == 0 then m else Go(Step(m, Advance(false)), n - 1)
  }

  lemma {:induction false} GoAdds(m: Machine, i: nat, j: nat)
    requires m.journal != []
    ensures Go(m, i + j) == Go(Go(m, i), j)
    decreases i
  {
    if i == 0 {
    } else {
      GoAdds(Step(m, Advance(false)), i - 1, j);
    }
  }

  /** Restoring the backup takes seven successful calls, one more on Unix. */
  lemma RecoveryRestores(m: Machine)
    requires m.journal != [] && m.pc.Recover? && m.pc.rstage == RCreate
    requires Live(m) == Dir(None, Some(File(m.pc.bytes, true)))
    ensures var n := if m.platform.Unix? then 8 else 7;
            && Go(m, n).pc == Load && Live(Go(m, n)) == Dir(Some(File(m.pc.bytes, true)), None)
            && Go(m, n).acked == m.acked && Go(m, n).attempted == m.attempted && Go(m, n).platform == m.platform
  {
    var ready := Step(Step(Step(m, Advance(false)), Advance(false)), Advance(false));
    assert ready == m.(temp := Some(File(m.pc.bytes, true)), pc := Recover(RInstall, m.pc.bytes));
    assert Go(m, 3) == ready by {
      GoAdds(m, 1, 2);
      GoAdds(Go(m, 1), 1, 1);
    }
    InstallRestores(ready);
    GoAdds(m, 3, if m.platform.Unix? then 5 else 4);
  }

  lemma InstallRestores(m: Machine)
    requires m.journal != [] && m.pc.Recover? && m.pc.rstage == RInstall
    requires m.temp == Some(File(m.pc.bytes, true)) && Live(m) == Dir(None, m.temp)
    ensures var n := if m.platform.Unix? then 5 else 4;
            && Go(m, n).pc == Load && Live(Go(m, n)) == Dir(m.temp, None)
            && Go(m, n).acked == m.acked && Go(m, n).attempted == m.attempted && Go(m, n).platform == m.platform
  {
    var f := m.temp;
    var a := Step(m, Advance(false));
    var b := if m.platform.Unix? then Step(a, Advance(false)) else a;
    assert b.pc == Recover(RVerify, m.pc.bytes) && Live(b) == Dir(f, f);
    var c := Step(Step(b, Advance(false)), Advance(false));
    assert c.pc == Recover(RSyncDir, m.pc.bytes) && Live(c) == Dir(f, None);
    var d := Step(c, Advance(false));
    assert Go(b, 3) == d by {
      GoAdds(b, 2, 1);
      GoAdds(b, 1, 1);
    }
    GoAdds(m, if m.platform.Unix? then 2 else 1, 3);
    if m.platform.Unix? {
      GoAdds(m, 1, 1);
    }
  }

  /** However it went down, a machine with a state to start from serves exactly that state
      after a start without faults. */
  lemma StartRestores(m: Machine) returns (n: nat)
    requires Inv(m) && m.pc.Down? && Visible(Live(m)) > 0
    ensures var r := Go(Step(m, Boot), n);
            && r.pc == Serve && Live(r).primary == Fresh(Visible(Live(m)))
            && (m.platform.Windows? ==> Live(r).backup == None)
            && r.acked == m.acked && r.attempted == m.attempted
  {
    assert Survives(Live(m), m.acked, m.attempted);
    var up := Step(m, Boot);
    if Live(m).primary.Some? {
      var l := Step(up, Advance(false));
      LoadServes(l);
      GoAdds(up, 1, 3);
      n := 4;
    } else {
      var r := Step(Step(up, Advance(false)), Advance(false));
      RecoveryRestores(r);
      var k := if m.platform.Unix? then 8 else 7;
      LoadServes(Go(r, k));
      GoAdds(up, 1, 1);
      GoAdds(up, 2, k);
      GoAdds(up, 2 + k, 3);
      n := 5 + k;
    }
  }

  lemma LoadServes(m: Machine)
    requires m.journal != [] && m.pc == Load && Live(m).primary.Some? && Live(m).primary.value.content.Whole?
    ensures Go(m, 3).pc == Serve && Live(Go(m, 3)).primary == Live(m).primary
    ensures Live(Go(m, 3)).backup == if m.platform.Windows? then None else Live(m).backup
    ensures Go(m, 3).acked == m.acked && Go(m, 3).attempted == m.attempted
  {
    var r := Step(Step(Step(m, Advance(false)), Advance(false)), Advance(false));
    assert Go(m, 3) == r by {
      GoAdds(m, 1, 2);
      GoAdds(Go(m, 1), 1, 1);
    }
  }
}
