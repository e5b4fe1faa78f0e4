/**
  The directory receiver over any number of crashes and resumes of a one-subvolume stream.

  A run dies when its fuel, the number of effects it may have on disk, is used up. A connection that breaks delivers
  only the first commands, then a stream error. In each run the filesystem may refuse the operations of some commands.
  */
module CrashSafe {
  import opened Commands
  import opened Crc32c
  import opened OffsetFile
  import opened Receive
  import opened Resume
  import opened Wrappers

  // One Subvol or Snapshot, operations, END. `Ops` is the number of commands before END.
  ghost predicate OneSubvolume(cmds: seq<Command>) {
    && 2 <= |cmds| <= FINISHED
    && IsOpen(cmds[0].cmd)
    && (forall i | 1 <= i < Ops(cmds) :: !IsOpen(cmds[i].cmd) && cmds[i].cmd != CMD_END)
    && cmds[Ops(cmds)].cmd == CMD_END
  }

  function Ops(cmds: seq<Command>): int { |cmds| - 1 }

  // END honoured, no error tolerated: the defaults of the tool.
  const OPTIONS := Options(0, true, 0)

  // What survives a crash: the offset file, its directory, and (for the statements only) the log of executed commands.
  datatype Disk = Disk(file: Option<string>, ran: seq<nat>, hasDir: bool)

  // The recorded offset; -1 when there is none.
  function Recorded(d: Disk): int {
    if d.file == None then -1
    else match Scan(d.file.value)
         case NoNumber => -1
         case Number(n) => n
  }

  // The commands with index below n were executed.
  ghost predicate AllRan(ran: seq<nat>, n: int) {
    forall j: nat | j < n :: j in ran
  }

  // No record, or in the directory an empty file, the index of an executed command with all before it, or the
  // finished mark.
  ghost predicate Sound(d: Disk, ops: int) {
    || d.file == None
    || (d.hasDir
        && (|| d.file == Some("")
            || (exists k: nat | k < ops :: d.file == Some(Decimal(k)) && AllRan(d.ran, k + 1))
            || (d.file == Some(Decimal(FINISHED)) && AllRan(d.ran, ops))))
  }

  // From one disk to a later one of the same run.
  ghost predicate Advances(d: Disk, e: Disk, ops: int) {
    && Sound(e, ops)
    && Recorded(d) <= Recorded(e)
    && d.ran <= e.ran
    && (d.hasDir ==> e.hasDir)
    && forall i | |d.ran| <= i < |e.ran| :: e.ran[i] == 0 || e.ran[i] >= Recorded(d)
  }

  lemma RecordedCases(d: Disk, ops: int)
    requires Sound(d, ops) && 1 <= ops < FINISHED
    ensures d.file == None || d.file == Some("") <==> Recorded(d) == -1
    ensures Recorded(d) != -1 ==> d.file == Some(Decimal(Recorded(d)))
    ensures Recorded(d) == -1 || 0 <= Recorded(d) < ops || Recorded(d) == FINISHED
    ensures Recorded(d) < ops ==> AllRan(d.ran, Recorded(d) + 1)
    ensures Recorded(d) == FINISHED ==> AllRan(d.ran, ops)
    ensures d.file != None ==> d.hasDir
  {
    hide Decimal;
    assert Scan("") == NoNumber;
    ScanDecimal(FINISHED);
    if k: nat :| k < ops && d.file == Some(Decimal(k)) && AllRan(d.ran, k + 1) {
      ScanDecimal(k);
    }
  }

  function DiskOf(c: Ctx): Disk
    requires c.receiver.Directory?
  {
    Disk(c.receiver.dir.file, c.receiver.dir.ran, c.receiver.dir.hasDir)
  }

  function Boot(d: Disk, fuel: nat, refused: set<nat>): Ctx {
    StartCtx(Directory(DirState(0, d.file, d.ran, d.hasDir, fuel, refused)))
  }

  function Max(a: int, b: int): int { if a < b then b else a }

  // A run in progress, i commands in, that started from disk d.
  ghost predicate Progress(d: Disk, ops: int, refused: set<nat>, c: Ctx, i: int) {
    && c.status == Running && c.errors == 0 && c.offset == i && c.receiver.Directory?
    && c.receiver.dir.refused == refused
    && Advances(d, DiskOf(c), ops)
    && if i == 0 then c.subvol == None && c == Boot(d, c.receiver.dir.fuel, refused)
       else
         && c.subvol != None
         && c.receiver.dir.currentOffset == Max(Recorded(d), 0)
         && c.receiver.dir.file == Some(Decimal(Max(Recorded(d), i - 1)))
         && AllRan(c.receiver.dir.ran, if i < ops then i else ops)
  }

  ghost predicate Ended(d: Disk, ops: int, c: Ctx) {
    c.status != Running && c.receiver.Directory? && Advances(d, DiskOf(c), ops)
  }

  // Ended in a failure, with no more recorded than `most`, or than there was.
  ghost predicate Failed(d: Disk, ops: int, c: Ctx, most: int) {
    Ended(d, ops, c) && c.status != Returned(None) && Recorded(DiskOf(c)) <= Max(Recorded(d), most)
  }

  // ---- single effects

  // Executing a command logs it.
  lemma LogCommand(d: Disk, ops: int, e: Disk, i: nat)
    requires Advances(d, e, ops) && (i == 0 || i >= Recorded(d))
    ensures Advances(d, e.(ran := e.ran + [i]), ops)
    ensures forall n :: AllRan(e.ran, n) ==> AllRan(e.ran + [i], n)
    ensures AllRan(e.ran, i) ==> AllRan(e.ran + [i], i + 1)
  {
    hide Decimal;
    var f := e.(ran := e.ran + [i]);
    assert Sound(f, ops) by {
      if k: nat :| k < ops && e.file == Some(Decimal(k)) && AllRan(e.ran, k + 1) {
        assert f.file == Some(Decimal(k)) && AllRan(f.ran, k + 1);
      }
    }
  }

  // Recording an executed index, over a smaller number or an empty file.
  lemma {:induction false} RecordIndex(d: Disk, ops: int, e: Disk, i: nat)
    requires Advances(d, e, ops) && e.hasDir && i < ops && Recorded(d) <= i && AllRan(e.ran, i + 1)
    ensures Advances(d, e.(file := Some(Decimal(i))), ops)
  {
    hide Decimal;
    ScanDecimal(i);
  }

  lemma RecordFinished(d: Disk, ops: int, e: Disk)
    requires Advances(d, e, ops) && e.hasDir && ops < FINISHED && 1 <= ops && Sound(d, ops) && AllRan(e.ran, ops)
    ensures Advances(d, e.(file := Some(Decimal(FINISHED))), ops)
  {
    hide Decimal;
    RecordedCases(d, ops);
    ScanDecimal(FINISHED);
  }

  lemma MakeDir(d: Disk, ops: int, e: Disk)
    requires Advances(d, e, ops)
    ensures Advances(d, e.(hasDir := true), ops)
  {
    hide Decimal;
    var f := e.(hasDir := true);
    if k: nat :| k < ops && e.file == Some(Decimal(k)) && AllRan(e.ran, k + 1) {
      assert f.file == Some(Decimal(k)) && AllRan(f.ran, k + 1);
    }
  }

  // ---- one command

  // The first command gets through: it decodes, the filesystem does not refuse it, the record if any can be read, and
  // a first record has a directory to go to.
  ghost predicate Opens(d: Disk, refused: set<nat>, cmd: Command) {
    d.file != Some("") && (cmd.cmd == 1 || d.hasDir) && WellFormed(cmd) && 0 !in refused
  }

  // A later one gets through: the record covers it, or it decodes and neither receiver nor filesystem refuses it.
  ghost predicate Goes(d: Disk, refused: set<nat>, cmd: Command, i: nat) {
    i < Recorded(d) || (WellFormed(cmd) && cmd.cmd != 16 && cmd.cmd != 26 && i !in refused)
  }

  // What is known of the disk while the first command runs.
  lemma FirstEffects(d: Disk, ops: int)
    requires Sound(d, ops) && 1 <= ops < FINISHED
    ensures var e := d.(ran := d.ran + [0]);
            && Advances(d, e, ops) && Advances(d, e.(hasDir := true), ops)
            && AllRan(e.ran, 1) && AllRan(e.ran, if 1 < ops then 1 else ops)
            && (Recorded(d) <= 0 ==> Advances(d, Disk(Some(Decimal(0)), e.ran, true), ops))
            && (d.file == None ==> Advances(d, Disk(Some(""), e.ran, true), ops))
    ensures Advances(d, d, ops)
    ensures Recorded(Disk(Some(""), d.ran + [0], true)) == -1
  {
    hide Decimal, Scan, Sound;
    var e := d.(ran := d.ran + [0]);
    LogCommand(d, ops, d, 0);
    assert AllRan(d.ran, 0) by { NoneRan(d.ran); }
    MakeDir(d, ops, e);
    EmptyHasNoNumber();
    if Recorded(d) <= 0 {
      RecordIndex(d, ops, e.(hasDir := true), 0);
    }
    if d.file == None {
      CreatedEmpty(d, ops, e.(hasDir := true));
    }
  }

  function Fails(c: Ctx, dir: DirState): Ctx {
    c.(receiver := Directory(dir), errors := 1, status := Returned(Some(MaxErrors(Failure))))
  }

  // The first command's step, in terms of what the receiver does with the disk.
  lemma OpenStep(c: Ctx, cmd: Command)
    requires c.status == Running && c.errors == 0 && c.offset == 0 && c.subvol == None && IsOpen(cmd.cmd)
    requires c.receiver.Directory? && c.receiver.dir.currentOffset == 0
    ensures var c1 := Step(OPTIONS, c, cmd);
            if !WellFormed(cmd) then c1.status != Running && c1.status != Returned(None) && c1.receiver == c.receiver
            else
              var subvol := Some(Subvolume(cmd.attrs));
              var (d1, ok) := OpenSubvolume(c.receiver.dir, 0, cmd.cmd == CMD_SUBVOL);
              var (d2, ok') := WriteOffset(d1, 0);
              if !ok then c1 == Fails(c.(subvol := subvol), d1)
              else if d1.currentOffset > 0 then c1 == c.(subvol := subvol, receiver := Directory(d1), offset := 1)
              else if !ok' then c1 == Fails(c.(subvol := subvol), d2)
              else c1 == c.(subvol := subvol, receiver := Directory(d2), offset := 1)
  {
    hide Required, EnsureAttrs, Subvolume, DecodeCommand, OpenSubvolume, WriteOffset;
  }

  // And that of a later one.
  lemma OperationStep(c: Ctx, cmd: Command)
    requires c.status == Running && c.errors == 0 && c.receiver.Directory? && !IsOpen(cmd.cmd) && cmd.cmd != CMD_END
    ensures var c1, dir := Step(OPTIONS, c, cmd), c.receiver.dir;
            if dir.currentOffset > c.offset then c1 == c.(offset := c.offset + 1)
            else if !WellFormed(cmd) then
              c1.status != Running && c1.status != Returned(None) && c1.receiver == c.receiver
            else
              var (d1, ok) := Execute(dir, c.offset);
              var (d2, ok') := WriteOffset(d1, c.offset);
              if Unsupported(cmd.cmd) then c1 == Fails(c, dir)
              else if !ok then c1 == Fails(c, d1)
              else if !ok' then c1 == Fails(c, d2)
              else c1 == c.(receiver := Directory(d2), offset := c.offset + 1)
  {
    hide Required, EnsureAttrs, Subvolume, DecodeCommand, WriteOffset;
  }

  lemma OpenOutcome(dir: DirState, d: Disk, makeDir: bool)
    requires dir.currentOffset == 0 && d == Disk(dir.file, dir.ran, dir.hasDir)
    ensures var (d1, ok) := OpenSubvolume(dir, 0, makeDir);
            if dir.fuel == 0 || 0 in dir.refused then d1 == dir && !ok
            else
              && d1 == dir.(ran := d.ran + [0], fuel := dir.fuel - 1, hasDir := d.hasDir || makeDir,
                            currentOffset := Max(Recorded(d), 0))
              && (ok <==> d.file == None || Recorded(d) != -1)
  {
    hide Scan, Decimal;
  }

  // Writing where there is no file, and over a number that is no larger.
  lemma {:induction false} WriteOutcome(dir: DirState, m: nat, n: nat)
    requires m <= n
    ensures dir.file == None ==>
              WriteOffset(dir, n) ==
              if dir.fuel == 0 || !dir.hasDir then (dir, false)
              else if dir.fuel == 1 then (dir.(file := Some(""), fuel := 0), false)
              else (dir.(file := Some(Decimal(n)), fuel := dir.fuel - 2), true)
    ensures dir.file == Some(Decimal(m)) ==>
              WriteOffset(dir, n) ==
              if dir.fuel == 0 then (dir, false) else (dir.(file := Some(Decimal(n)), fuel := dir.fuel - 1), true)
  {
    OverwriteLarger(m, n);
    hide Decimal;
    assert Overwrite("", Decimal(n)) == Decimal(n);
  }

  // The disks a first command can leave behind when it fails, and when it does not.
  ghost predicate FirstFailure(d: Disk, e: Disk) {
    || e == d
    || e == d.(ran := d.ran + [0])
    || e == d.(ran := d.ran + [0], hasDir := true)
    || (d.file == None && e == Disk(Some(""), d.ran + [0], true))
  }

  ghost predicate FirstSuccess(d: Disk, e: Disk) {
    if Recorded(d) > 0 then FirstFailure(d, e) && 0 in e.ran else e == Disk(Some(Decimal(0)), d.ran + [0], true)
  }

  lemma FirstFailed(d: Disk, ops: int, c: Ctx)
    requires Sound(d, ops) && 1 <= ops < FINISHED && c.receiver.Directory? && FirstFailure(d, DiskOf(c))
    requires c.status != Running && c.status != Returned(None)
    ensures Failed(d, ops, c, -1)
  {
    hide Decimal, Advances, Scan;
    FirstEffects(d, ops);
  }

  lemma FirstProgress(d: Disk, ops: int, refused: set<nat>, c: Ctx)
    requires Sound(d, ops) && 1 <= ops < FINISHED && c.receiver.Directory? && FirstSuccess(d, DiskOf(c))
    requires d.file != Some("") && c.status == Running && c.errors == 0 && c.offset == 1 && c.subvol != None
    requires c.receiver.dir.refused == refused && c.receiver.dir.currentOffset == Max(Recorded(d), 0)
    ensures Progress(d, ops, refused, c, 1)
  {
    hide Decimal, Advances, Recorded, Sound;
    RecordedCases(d, ops);
    FirstEffects(d, ops);
  }

  lemma FirstCommand(d: Disk, cmds: seq<Command>, refused: set<nat>, c: Ctx)
    requires OneSubvolume(cmds) && Sound(d, Ops(cmds)) && Progress(d, Ops(cmds), refused, c, 0)
    ensures var c1 := Step(OPTIONS, c, cmds[0]);
            && (Progress(d, Ops(cmds), refused, c1, 1) || Failed(d, Ops(cmds), c1, -1))
            && (Opens(d, refused, cmds[0]) && c.receiver.dir.fuel >= 3 ==>
                  c1.status == Running && c1.receiver.dir.fuel >= c.receiver.dir.fuel - 3)
            && (!Opens(d, refused, cmds[0]) ==> c1.status != Running && c1.receiver.dir.file == d.file)
  {
    var ops, dir, makeDir := Ops(cmds), c.receiver.dir, cmds[0].cmd == CMD_SUBVOL;
    OpenStep(c, cmds[0]);
    OpenOutcome(dir, d, makeDir);
    hide Step, WellFormed, Subvolume, OpenSubvolume, WriteOffset, Decimal, Recorded, Sound, Progress, Failed;
    WriteOutcome(OpenSubvolume(dir, 0, makeDir).0, 0, 0);
    RecordedCases(d, ops);
    var c1 := Step(OPTIONS, c, cmds[0]);
    if c1.status == Running {
      FirstProgress(d, ops, refused, c1);
    } else {
      FirstFailed(d, ops, c1);
    }
  }

  lemma NoneRan(ran: seq<nat>)
    ensures AllRan(ran, 0)
  {
  }

  lemma EmptyHasNoNumber()
    ensures Scan("") == NoNumber
  {
  }

  // The moment between creating the file and writing to it.
  lemma CreatedEmpty(d: Disk, ops: int, e: Disk)
    requires Advances(d, e, ops) && e.hasDir && d.file == None
    ensures Advances(d, e.(file := Some("")), ops)
  {
    EmptyHasNoNumber();
  }

  lemma OperationCommand(d: Disk, cmds: seq<Command>, refused: set<nat>, c: Ctx, i: nat)
    requires OneSubvolume(cmds) && Sound(d, Ops(cmds)) && 1 <= i < Ops(cmds) && Progress(d, Ops(cmds), refused, c, i)
    ensures var c1 := Step(OPTIONS, c, cmds[i]);
            && (Progress(d, Ops(cmds), refused, c1, i + 1) || Failed(d, Ops(cmds), c1, i - 1))
            && (Goes(d, refused, cmds[i], i) && c.receiver.dir.fuel >= 3 ==>
                  c1.status == Running && c1.receiver.dir.fuel >= c.receiver.dir.fuel - 3)
            && (!Goes(d, refused, cmds[i], i) ==> c1.status != Running && c1.receiver.dir.file == c.receiver.dir.file)
  {
    hide Step, WellFormed, OneSubvolume, Recorded, Progress, Failed, Sound;
    assert Ops(cmds) < FINISHED && !IsOpen(cmds[i].cmd) && cmds[i].cmd != CMD_END by { OperationFacts(cmds, i); }
    if Recorded(d) > i {
      ProgressFacts(d, Ops(cmds), refused, c, i);
      CoveredCommand(d, cmds, refused, c, i);
    } else {
      UncoveredCommand(d, Ops(cmds), refused, c, cmds[i], i);
    }
  }

  lemma OperationFacts(cmds: seq<Command>, i: nat)
    requires OneSubvolume(cmds) && 1 <= i < Ops(cmds)
    ensures Ops(cmds) < FINISHED && !IsOpen(cmds[i].cmd) && cmds[i].cmd != CMD_END
  {
  }

  lemma ProgressFacts(d: Disk, ops: int, refused: set<nat>, c: Ctx, i: int)
    requires Progress(d, ops, refused, c, i) && 1 <= i < ops
    ensures c.status == Running && c.errors == 0 && c.offset == i && c.receiver.Directory? && c.subvol != None
    ensures c.receiver.dir.refused == refused && Advances(d, DiskOf(c), ops)
    ensures c.receiver.dir.currentOffset == Max(Recorded(d), 0)
    ensures c.receiver.dir.file == Some(Decimal(Max(Recorded(d), i - 1))) && AllRan(c.receiver.dir.ran, i)
  {
  }

  // A command from the record on is executed, then recorded.
  lemma UncoveredCommand(d: Disk, ops: int, refused: set<nat>, c: Ctx, cmd: Command, i: nat)
    requires 1 <= i < ops < FINISHED && Progress(d, ops, refused, c, i) && Recorded(d) <= i
    requires !IsOpen(cmd.cmd) && cmd.cmd != CMD_END
    ensures var c1 := Step(OPTIONS, c, cmd);
            && (Progress(d, ops, refused, c1, i + 1) || Failed(d, ops, c1, i - 1))
            && (Goes(d, refused, cmd, i) && c.receiver.dir.fuel >= 3 ==>
                  c1.status == Running && c1.receiver.dir.fuel >= c.receiver.dir.fuel - 3)
            && (!Goes(d, refused, cmd, i) ==> c1.status != Running && c1.receiver.dir.file == c.receiver.dir.file)
  {
    ProgressFacts(d, ops, refused, c, i);
    hide Step, WellFormed, WriteOffset, Decimal, Recorded, Advances, AllRan, Progress, Failed, IsOpen;
    var dir, e, c1 := c.receiver.dir, DiskOf(c), Step(OPTIONS, c, cmd);
    OperationStep(c, cmd);
    OperationEffects(d, ops, e, i);
    WriteOutcome(Execute(dir, i).0, Max(Recorded(d), i - 1), i);
    if c1.status == Running {
      ProgressMade(d, ops, refused, c1, i + 1);
    } else {
      FailureMade(d, ops, c1, i - 1);
    }
  }

  // What is known of the disk while an operation runs.
  lemma OperationEffects(d: Disk, ops: int, e: Disk, i: nat)
    requires Advances(d, e, ops) && 1 <= i < ops < FINISHED && Recorded(d) <= i && AllRan(e.ran, i)
    requires e.file == Some(Decimal(Max(Recorded(d), i - 1)))
    ensures var f := e.(ran := e.ran + [i]);
            && Advances(d, f, ops) && Advances(d, f.(file := Some(Decimal(i))), ops) && AllRan(f.ran, i + 1)
            && Recorded(e) == Recorded(f) == Max(Recorded(d), i - 1)
  {
    hide Decimal, Recorded, Advances, AllRan, Sound;
    var f := e.(ran := e.ran + [i]);
    RecordedIs(e, Max(Recorded(d), i - 1));
    RecordedIs(f, Max(Recorded(d), i - 1));
    LogCommand(d, ops, e, i);
    AdvancesFacts(d, e, ops);
    RecordedCases(e, ops);
    RecordIndex(d, ops, f, i);
  }

  lemma ProgressMade(d: Disk, ops: int, refused: set<nat>, c: Ctx, i: int)
    requires c.status == Running && c.errors == 0 && c.offset == i && c.receiver.Directory? && 0 < i <= ops
    requires c.receiver.dir.refused == refused && Advances(d, DiskOf(c), ops) && c.subvol != None
    requires c.receiver.dir.currentOffset == Max(Recorded(d), 0)
    requires c.receiver.dir.file == Some(Decimal(Max(Recorded(d), i - 1))) && AllRan(c.receiver.dir.ran, i)
    ensures Progress(d, ops, refused, c, i)
  {
  }

  lemma FailureMade(d: Disk, ops: int, c: Ctx, most: int)
    requires c.status != Running && c.status != Returned(None) && c.receiver.Directory?
    requires Advances(d, DiskOf(c), ops) && Recorded(DiskOf(c)) <= Max(Recorded(d), most)
    ensures Failed(d, ops, c, most)
  {
  }

  // A command strictly below the record is skipped.
  lemma CoveredCommand(d: Disk, cmds: seq<Command>, refused: set<nat>, c: Ctx, i: nat)
    requires OneSubvolume(cmds) && Sound(d, Ops(cmds)) && 1 <= i < Ops(cmds) && Progress(d, Ops(cmds), refused, c, i)
    requires Recorded(d) > i
    ensures Step(OPTIONS, c, cmds[i]) == c.(offset := i + 1)
    ensures Progress(d, Ops(cmds), refused, c.(offset := i + 1), i + 1)
  {
    OperationStep(c, cmds[i]);
    hide Step, WellFormed, WriteOffset, Decimal, Recorded, Advances, AllRan, Sound;
    RecordedCases(d, Ops(cmds));
    AdvancesFacts(d, DiskOf(c), Ops(cmds));
    RanFar(c.receiver.dir.ran, d.ran, Recorded(d), i + 1, Ops(cmds));
  }

  lemma {:induction false} RecordedIs(e: Disk, n: nat)
    ensures e.file == Some(Decimal(n)) ==> Recorded(e) == n
  {
    hide Decimal, Scan;
    ScanDecimal(n);
  }

  lemma AdvancesFacts(d: Disk, e: Disk, ops: int)
    requires Advances(d, e, ops)
    ensures d.ran <= e.ran && Sound(e, ops)
  {
  }

  // What the record vouches for was executed before the run began.
  lemma RanFar(ran: seq<nat>, before: seq<nat>, recorded: int, n: int, ops: int)
    requires before <= ran && n <= recorded && n <= ops
    requires recorded < ops ==> AllRan(before, recorded + 1)
    requires recorded >= ops ==> AllRan(before, ops)
    ensures AllRan(ran, n)
  {
    forall j: nat | j < n ensures j in ran {
      assert j in before;
      var k :| 0 <= k < |before| && before[k] == j;
      assert ran[k] == j;
    }
  }

  lemma EndCommand(d: Disk, cmds: seq<Command>, refused: set<nat>, c: Ctx)
    requires OneSubvolume(cmds) && Sound(d, Ops(cmds)) && Progress(d, Ops(cmds), refused, c, Ops(cmds))
    ensures var ops := Ops(cmds);
            var c1 := Step(OPTIONS, c, cmds[ops]);
            && (Progress(d, ops, refused, c1, ops + 1) || Ended(d, ops, c1))
            && (c1.status == Running ==> Recorded(d) == FINISHED && c1.receiver == c.receiver)
            && (c1.status != Running ==> c1.status == Returned(None) && c1.receiver.dir.ran == c.receiver.dir.ran)
            && (c1.status != Running && c.receiver.dir.fuel >= 1 ==> c1.receiver.dir.file == Some(Decimal(FINISHED)))
  {
    hide Decimal, Scan, Advances, AllRan, Sound;
    var ops := Ops(cmds);
    RecordedCases(d, ops);
    AdvancesFacts(d, DiskOf(c), ops);
    RecordedCases(DiskOf(c), ops);
    if Recorded(d) <= ops {
      RecordFinished(d, ops, DiskOf(c));
      OverwriteLarger(Max(Recorded(d), ops - 1), FINISHED);
    }
  }

  // ---- a run

  lemma {:induction false} RunSteps(d: Disk, cmds: seq<Command>, fuel: nat, refused: set<nat>, i: nat)
    requires OneSubvolume(cmds) && Sound(d, Ops(cmds)) && i <= |cmds|
    ensures var c := Steps(OPTIONS, Boot(d, fuel, refused), cmds[..i]);
            Progress(d, Ops(cmds), refused, c, i) || Ended(d, Ops(cmds), c)
    ensures var c := Steps(OPTIONS, Boot(d, fuel, refused), cmds[..i]);
            i == |cmds| && c.status == Running ==> Recorded(d) == FINISHED
    decreases i
  {
    hide Step, Progress, Ended, Sound, Opens, Goes;
    if i == 0 {
      NothingDone(d, Ops(cmds), fuel, refused);
    } else {
      RunSteps(d, cmds, fuel, refused, i - 1);
      var c := StepsSoFar(d, cmds, fuel, refused, i - 1);
      if Progress(d, Ops(cmds), refused, c, i - 1) {
        if i == 1 {
          FirstCommand(d, cmds, refused, c);
        } else if i - 1 < Ops(cmds) {
          OperationCommand(d, cmds, refused, c, i - 1);
        } else {
          EndCommand(d, cmds, refused, c);
        }
      }
    }
  }

  // The context after i commands, and what the next one makes of it.
  lemma StepsSoFar(d: Disk, cmds: seq<Command>, fuel: nat, refused: set<nat>, i: nat) returns (c: Ctx)
    requires i < |cmds|
    ensures c == Steps(OPTIONS, Boot(d, fuel, refused), cmds[..i])
    ensures Steps(OPTIONS, Boot(d, fuel, refused), cmds[..i + 1]) == Step(OPTIONS, c, cmds[i])
    ensures forall ops :: Ended(d, ops, c) ==> Step(OPTIONS, c, cmds[i]) == c && c.status != Running
  {
    hide Ended, Step, Advances;
    c := Steps(OPTIONS, Boot(d, fuel, refused), cmds[..i]);
    assert cmds[..i + 1] == cmds[..i] + [cmds[i]];
    StepsNext(OPTIONS, Boot(d, fuel, refused), cmds[..i], cmds[i]);
    forall ops | Ended(d, ops, c) ensures Step(OPTIONS, c, cmds[i]) == c && c.status != Running {
      EndedStays(d, ops, c, cmds[i]);
    }
  }

  lemma EndedStays(d: Disk, ops: int, c: Ctx, cmd: Command)
    ensures Ended(d, ops, c) ==> Step(OPTIONS, c, cmd) == c && c.status != Running
  {
  }

  lemma NothingDone(d: Disk, ops: int, fuel: nat, refused: set<nat>)
    requires Sound(d, ops)
    ensures Progress(d, ops, refused, Boot(d, fuel, refused), 0)
    ensures Steps(OPTIONS, Boot(d, fuel, refused), []) == Boot(d, fuel, refused)
  {
  }

  // One run: how many commands it receives before the connection breaks, how many effects it lives for, and what the
  // filesystem refuses.
  datatype Attempt = Attempt(received: nat, fuel: nat, refused: set<nat>, broken: ScanError)

  function RunOnce(d: Disk, cmds: seq<Command>, a: Attempt): Ctx {
    if a.received < |cmds| then Run(OPTIONS, Boot(d, a.fuel, a.refused), cmds[..a.received], Some(a.broken))
    else Run(OPTIONS, Boot(d, a.fuel, a.refused), cmds, None)
  }

  lemma RunAdvances(d: Disk, cmds: seq<Command>, a: Attempt)
    requires OneSubvolume(cmds) && Sound(d, Ops(cmds))
    ensures Ended(d, Ops(cmds), RunOnce(d, cmds, a))
  {
    hide Steps, Sound, Advances;
    var ops := Ops(cmds);
    var n := if a.received < |cmds| then a.received else |cmds|;
    RunSteps(d, cmds, a.fuel, a.refused, n);
    assert cmds[..|cmds|] == cmds;
    var c := Steps(OPTIONS, Boot(d, a.fuel, a.refused), cmds[..n]);
    if n == |cmds| && c.status == Running {
      FinishAgain(d, ops, a.refused, c, |cmds|);
    }
  }

  // A finished subvolume is only marked finished once more.
  lemma FinishAgain(d: Disk, ops: int, refused: set<nat>, c: Ctx, i: int)
    requires Sound(d, ops) && 1 <= ops < FINISHED && i == ops + 1 && Progress(d, ops, refused, c, i)
    requires Recorded(d) == FINISHED
    ensures DiskOf(EndOfStream(c)) == DiskOf(c) && EndOfStream(c).status == Returned(None)
    ensures EndOfStream(c).receiver.Directory? && DiskOf(c).file == Some(Decimal(FINISHED))
  {
    hide Decimal, Advances, Sound, AllRan;
    OverwriteLarger(FINISHED, FINISHED);
  }

  // ---- any number of runs

  // The disk after some runs, with or without the directory at the start.
  ghost function AfterRuns(cmds: seq<Command>, hasDir: bool, attempts: seq<Attempt>): (d: Disk)
    requires OneSubvolume(cmds)
    ensures Sound(d, Ops(cmds))
    decreases |attempts|
  {
    if attempts == [] then Disk(None, [], hasDir)
    else
      var d := AfterRuns(cmds, hasDir, attempts[..|attempts| - 1]);
      RunAdvances(d, cmds, attempts[|attempts| - 1]);
      DiskOf(RunOnce(d, cmds, attempts[|attempts| - 1]))
  }

  // Over any crashes and resumes: the record never goes back; every command up to a recorded index was executed;
  // the finished mark means that all were; and the next run executes only command 0 and commands from the record on.
  lemma {:induction false} CrashSafety(cmds: seq<Command>, hasDir: bool, attempts: seq<Attempt>, next: Attempt)
    requires OneSubvolume(cmds)
    ensures var d, e := AfterRuns(cmds, hasDir, attempts), AfterRuns(cmds, hasDir, attempts + [next]);
            && Recorded(d) <= Recorded(e)
            && (forall j: nat | j <= Recorded(d) && j < Ops(cmds) :: j in d.ran)
            && (Recorded(d) == -1 || Recorded(d) < Ops(cmds) || Recorded(d) == 18446744073709551614)
            && d.ran <= e.ran
            && (forall i | |d.ran| <= i < |e.ran| :: e.ran[i] == 0 || e.ran[i] >= Recorded(d))
  {
    hide Decimal, Sound, RunOnce;
    var d := AfterRuns(cmds, hasDir, attempts);
    RecordedCases(d, Ops(cmds));
    RunAdvances(d, cmds, next);
    assert (attempts + [next])[..|attempts|] == attempts;
  }

  // ---- which runs finish

  // Nothing stands in the way of the first n commands.
  ghost predicate Clear(d: Disk, cmds: seq<Command>, refused: set<nat>, n: int)
    requires 0 <= n <= |cmds|
  {
    && (n > 0 ==> Opens(d, refused, cmds[0]))
    && forall j | 1 <= j < n :: Goes(d, refused, cmds[j], j)
  }

  lemma {:induction false} Undisturbed(d: Disk, cmds: seq<Command>, fuel: nat, refused: set<nat>, i: nat)
    requires OneSubvolume(cmds) && Sound(d, Ops(cmds)) && i <= Ops(cmds) && Clear(d, cmds, refused, i)
    requires fuel >= 3 * |cmds|
    ensures var c := Steps(OPTIONS, Boot(d, fuel, refused), cmds[..i]);
            Progress(d, Ops(cmds), refused, c, i) && c.receiver.dir.fuel >= fuel - 3 * i
    decreases i
  {
    hide Step, Sound, Advances, Opens, Goes, Ended;
    if i == 0 {
      NothingDone(d, Ops(cmds), fuel, refused);
    } else {
      Undisturbed(d, cmds, fuel, refused, i - 1);
      var c := StepsSoFar(d, cmds, fuel, refused, i - 1);
      hide Progress;
      if i == 1 {
        FirstCommand(d, cmds, refused, c);
      } else {
        OperationCommand(d, cmds, refused, c, i - 1);
      }
      NotEnded(d, Ops(cmds), Steps(OPTIONS, Boot(d, fuel, refused), cmds[..i]));
    }
  }

  lemma NotEnded(d: Disk, ops: int, c: Ctx)
    ensures c.status == Running ==> !Ended(d, ops, c)
  {
  }

  // Command k does not get through.
  ghost predicate Blocked(d: Disk, cmds: seq<Command>, refused: set<nat>, k: nat) {
    k < |cmds| && if k == 0 then !Opens(d, refused, cmds[0]) else !Goes(d, refused, cmds[k], k)
  }

  // No run gets past it, and none records it.
  lemma {:induction false} BlockedSteps(d: Disk, cmds: seq<Command>, fuel: nat, refused: set<nat>, k: nat, i: nat)
    requires OneSubvolume(cmds) && Sound(d, Ops(cmds)) && k < Ops(cmds) && Blocked(d, cmds, refused, k) && i <= |cmds|
    ensures var c := Steps(OPTIONS, Boot(d, fuel, refused), cmds[..i]);
            Failed(d, Ops(cmds), c, k - 1) || (i <= k && Progress(d, Ops(cmds), refused, c, i))
    decreases i
  {
    hide Step, Progress, Ended, Sound, Opens, Goes, Decimal, Recorded;
    var ops := Ops(cmds);
    if i == 0 {
      NothingDone(d, ops, fuel, refused);
    } else {
      BlockedSteps(d, cmds, fuel, refused, k, i - 1);
      var c := StepsSoFar(d, cmds, fuel, refused, i - 1);
      if Progress(d, ops, refused, c, i - 1) {
        ProgressRuns(d, ops, refused, c, i - 1);
        NotEnded(d, ops, c);
        if i == 1 {
          FirstCommand(d, cmds, refused, c);
        } else {
          OperationCommand(d, cmds, refused, c, i - 1);
        }
        NotProgress(d, ops, refused, Steps(OPTIONS, Boot(d, fuel, refused), cmds[..i]), i);
      }
    }
  }

  lemma NotProgress(d: Disk, ops: int, refused: set<nat>, c: Ctx, i: int)
    ensures c.status != Running ==> !Progress(d, ops, refused, c, i)
  {
  }

  lemma BlockedRun(d: Disk, cmds: seq<Command>, a: Attempt, k: nat)
    requires OneSubvolume(cmds) && Sound(d, Ops(cmds)) && k < Ops(cmds) && Blocked(d, cmds, a.refused, k)
    ensures var c := RunOnce(d, cmds, a);
            && c.receiver.Directory? && c.status != Returned(None)
            && Recorded(DiskOf(c)) <= Max(Recorded(d), k - 1)
  {
    hide Steps, Sound, Advances, Blocked, Decimal, Recorded;
    var ops := Ops(cmds);
    var n := if a.received < |cmds| then a.received else |cmds|;
    BlockedSteps(d, cmds, a.fuel, a.refused, k, n);
    assert cmds[..|cmds|] == cmds;
    var c := Steps(OPTIONS, Boot(d, a.fuel, a.refused), cmds[..n]);
    if Progress(d, ops, a.refused, c, n) {
      ProgressRecorded(d, ops, a.refused, c, n);
    }
  }

  lemma ProgressRecorded(d: Disk, ops: int, refused: set<nat>, c: Ctx, i: nat)
    requires Progress(d, ops, refused, c, i)
    ensures Recorded(DiskOf(c)) == Max(Recorded(d), i - 1)
  {
    hide Decimal, Scan, Advances, AllRan;
    if i > 0 {
      RecordedIs(DiskOf(c), Max(Recorded(d), i - 1));
    } else {
      RecordedAtLeast(d);
    }
  }

  lemma RecordedAtLeast(d: Disk)
    ensures Recorded(d) >= -1
  {
  }

  lemma ClearRun(d: Disk, cmds: seq<Command>, fuel: nat, refused: set<nat>)
    requires OneSubvolume(cmds) && Sound(d, Ops(cmds)) && fuel >= 3 * |cmds| && Clear(d, cmds, refused, Ops(cmds))
    ensures var c := RunOnce(d, cmds, Attempt(|cmds|, fuel, refused, EOF));
            c.receiver.Directory? && c.receiver.dir.file == Some(Decimal(FINISHED)) && c.status == Returned(None)
  {
    hide Step, Sound, Progress, Decimal, Opens, Goes, Steps, EndOfStream, Advances, Recorded;
    var ops := Ops(cmds);
    Undisturbed(d, cmds, fuel, refused, ops);
    assert cmds[..|cmds|] == cmds;
    var c := StepsSoFar(d, cmds, fuel, refused, ops);
    EndCommand(d, cmds, refused, c);
    var c1 := Steps(OPTIONS, Boot(d, fuel, refused), cmds);
    if c1.status == Running {
      NotEnded(d, ops, c1);
      FinishAgain(d, ops, refused, c1, |cmds|);
    } else {
      NotProgress(d, ops, refused, c1, ops + 1);
    }
  }

  // A run that gets everything and lives long enough finishes if and only if every command gets through.
  lemma FinishesExactly(d: Disk, cmds: seq<Command>, fuel: nat, refused: set<nat>)
    requires OneSubvolume(cmds) && Sound(d, Ops(cmds)) && fuel >= 3 * |cmds|
    ensures var c := RunOnce(d, cmds, Attempt(|cmds|, fuel, refused, EOF));
            && c.receiver.Directory?
            && (c.receiver.dir.file == Some(Decimal(18446744073709551614)) && c.status == Returned(None)
                <==> Clear(d, cmds, refused, Ops(cmds)))
  {
    hide RunOnce, Sound, Decimal, Clear;
    if Clear(d, cmds, refused, Ops(cmds)) {
      ClearRun(d, cmds, fuel, refused);
    } else {
      var k := FindBlocked(d, cmds, refused);
      BlockedRun(d, cmds, Attempt(|cmds|, fuel, refused, EOF), k);
    }
  }

  lemma FindBlocked(d: Disk, cmds: seq<Command>, refused: set<nat>) returns (k: nat)
    requires OneSubvolume(cmds) && !Clear(d, cmds, refused, Ops(cmds))
    ensures k < Ops(cmds) && Blocked(d, cmds, refused, k)
  {
    hide Opens, Goes;
    if Opens(d, refused, cmds[0]) {
      k :| 1 <= k < Ops(cmds) && !Goes(d, refused, cmds[k], k);
    } else {
      k := 0;
    }
  }

  // ---- which streams can be finished at all

  // The first n commands decode and the receiver has an operation for each; and the record has a directory.
  ghost predicate Doable(cmds: seq<Command>, hasDir: bool, n: int)
    requires OneSubvolume(cmds) && n <= |cmds|
  {
    && (cmds[0].cmd == 1 || hasDir)
    && (forall j | 0 <= j < n :: WellFormed(cmds[j]) && cmds[j].cmd != 16 && cmds[j].cmd != 26)
  }

  ghost predicate Finishable(cmds: seq<Command>, hasDir: bool)
    requires OneSubvolume(cmds)
  {
    Doable(cmds, hasDir, Ops(cmds))
  }

  lemma {:induction false} FinishesAtOnce(cmds: seq<Command>, hasDir: bool)
    requires OneSubvolume(cmds) && Finishable(cmds, hasDir)
    ensures AfterRuns(cmds, hasDir, [Attempt(|cmds|, 3 * |cmds|, {}, EOF)]).file == Some(Decimal(FINISHED))
  {
    hide Decimal, WellFormed, RunOnce;
    var d, a := Disk(None, [], hasDir), Attempt(|cmds|, 3 * |cmds|, {}, EOF);
    assert [a][..0] == [];
    assert AfterRuns(cmds, hasDir, []) == d;
    FinishesExactly(d, cmds, 3 * |cmds|, {});
  }

  // A stream is ever finished, by some runs, if and only if it is finishable.
  lemma {:induction false} FinishableExactly(cmds: seq<Command>, hasDir: bool)
    requires OneSubvolume(cmds)
    ensures (exists attempts :: AfterRuns(cmds, hasDir, attempts).file == Some(Decimal(18446744073709551614)))
            <==> Finishable(cmds, hasDir)
  {
    hide Decimal, WellFormed, RunOnce, AfterRuns, Recorded;
    if Finishable(cmds, hasDir) {
      FinishesAtOnce(cmds, hasDir);
    } else {
      var k: nat :| k < Ops(cmds) && (!WellFormed(cmds[k]) || cmds[k].cmd == 16 || cmds[k].cmd == 26
                                      || (k == 0 && cmds[0].cmd != 1 && !hasDir));
      forall attempts ensures AfterRuns(cmds, hasDir, attempts).file != Some(Decimal(FINISHED)) {
        NeverPast(cmds, hasDir, attempts, k);
        RecordedIs(AfterRuns(cmds, hasDir, attempts), FINISHED);
      }
    }
  }

  // Whatever the runs, such a command is never recorded.
  lemma {:induction false} NeverPast(cmds: seq<Command>, hasDir: bool, attempts: seq<Attempt>, k: nat)
    requires OneSubvolume(cmds) && k < Ops(cmds)
    requires !WellFormed(cmds[k]) || cmds[k].cmd == 16 || cmds[k].cmd == 26 || (k == 0 && cmds[0].cmd != 1 && !hasDir)
    ensures Recorded(AfterRuns(cmds, hasDir, attempts)) < k
    ensures cmds[0].cmd != CMD_SUBVOL ==> AfterRuns(cmds, hasDir, attempts).hasDir == hasDir
    decreases |attempts|
  {
    hide WellFormed, RunOnce, Decimal;
    if attempts != [] {
      var n := |attempts| - 1;
      NeverPast(cmds, hasDir, attempts[..n], k);
      var d := AfterRuns(cmds, hasDir, attempts[..n]);
      BlockedRun(d, cmds, attempts[n], k);
      if cmds[0].cmd != CMD_SUBVOL {
        DirOnlyBySubvol(d, cmds, attempts[n]);
      }
    }
  }

  lemma {:induction false} DirSteps(o: Options, c: Ctx, cmds: seq<Command>)
    requires c.receiver.Directory? && forall cmd <- cmds :: cmd.cmd != CMD_SUBVOL
    ensures var c1 := Steps(o, c, cmds); c1.receiver.Directory? && c1.receiver.dir.hasDir == c.receiver.dir.hasDir
    decreases |cmds|
  {
    hide Step;
    if cmds != [] {
      var n := |cmds| - 1;
      assert cmds[n] in cmds;
      DirSteps(o, c, cmds[..n]);
      DirStep(o, Steps(o, c, cmds[..n]), cmds[n]);
    }
  }

  ghost predicate SameDir(r: Receiver, r': Receiver) {
    r.Directory? ==> r'.Directory? && r'.dir.hasDir == r.dir.hasDir
  }

  lemma CallSameDir(r: Receiver, call: Call, offset: nat, subvol: Option<SubvolInfo>)
    ensures (call.Open? && call.cmd == CMD_SUBVOL) || SameDir(r, DoCall(r, call, offset, subvol).0)
  {
    hide Scan, Decimal;
  }

  lemma PostSameDir(r: Receiver, offset: nat)
    ensures SameDir(r, PostOp(r, offset).0)
  {
    hide Scan, Decimal;
  }

  lemma DirStep(o: Options, c: Ctx, cmd: Command)
    requires c.receiver.Directory? && cmd.cmd != CMD_SUBVOL
    ensures var c1 := Step(o, c, cmd); c1.receiver.Directory? && c1.receiver.dir.hasDir == c.receiver.dir.hasDir
  {
    hide Required, EnsureAttrs, DecodeCommand, Subvolume, DoCall, PostOp, PreOp;
    forall r: Receiver, call: Call, offset: nat, subvol: Option<SubvolInfo>
      ensures (call.Open? && call.cmd == CMD_SUBVOL) || SameDir(r, DoCall(r, call, offset, subvol).0)
    {
      CallSameDir(r, call, offset, subvol);
    }
    forall r: Receiver, offset: nat ensures SameDir(r, PostOp(r, offset).0) {
      PostSameDir(r, offset);
    }
  }

  lemma DirOnlyBySubvol(d: Disk, cmds: seq<Command>, a: Attempt)
    requires OneSubvolume(cmds) && Sound(d, Ops(cmds)) && cmds[0].cmd != CMD_SUBVOL
    ensures RunOnce(d, cmds, a).receiver.Directory? && DiskOf(RunOnce(d, cmds, a)).hasDir == d.hasDir
  {
    hide Steps, Decimal;
    assert forall cmd <- cmds :: cmd.cmd != CMD_SUBVOL;
    var n := if a.received < |cmds| then a.received else |cmds|;
    DirSteps(OPTIONS, Boot(d, a.fuel, a.refused), cmds[..n]);
    assert cmds[..|cmds|] == cmds;
  }

  // A well-formed stream with a clone in it: no runs ever finish it.

  function Fill(n: nat): (r: seq<byte>)
    ensures |r| == n
  {
    seq(n, _ => 0)
  }

  function CloneStream(): seq<Command> {
    [Command.Command(CMD_SUBVOL, map[ATTR_PATH := Fill(1), ATTR_UUID := Fill(16), ATTR_CTRANSID := Fill(8)]),
     Command.Command(CMD_CLONE, map[ATTR_PATH := Fill(1), 18 := Fill(8), 24 := Fill(8), ATTR_CLONE_UUID := Fill(16),
                                    ATTR_CLONE_CTRANSID := Fill(8), 22 := Fill(1), 23 := Fill(8)]),
     Command.Command(CMD_END, map[])]
  }

  lemma CloneStreamWellFormed()
    ensures OneSubvolume(CloneStream()) && AllWellFormed(CloneStream())
  {
    var cmds := CloneStream();
    forall c | c in cmds ensures WellFormed(c) {
      if c.cmd != CMD_END {
        assert forall n <- Needs(c.cmd) :: DecodeNeed(c.attrs, n) == Decodes.Sound;
      }
    }
  }

  lemma {:induction false} CloneNeverFinishes(hasDir: bool, attempts: seq<Attempt>)
    ensures OneSubvolume(CloneStream()) && AllWellFormed(CloneStream())
    ensures AfterRuns(CloneStream(), hasDir, attempts).file != Some(Decimal(FINISHED))
  {
    CloneStreamWellFormed();
    assert Unsupported(CloneStream()[1].cmd);
    hide CloneStream, Decimal, Unsupported;
    FinishableExactly(CloneStream(), hasDir);
  }

  // ---- three ways to get stuck

  // A run that gets the first k + 1 commands, undisturbed, records the last of them ...
  lemma {:induction false} RecordsLast(cmds: seq<Command>, hasDir: bool, k: nat)
    requires OneSubvolume(cmds) && k < Ops(cmds) && Doable(cmds, hasDir, k + 1)
    ensures Recorded(AfterRuns(cmds, hasDir, [Attempt(k + 1, 3 * |cmds|, {}, EOF)])) == k
  {
    hide Decimal, WellFormed, Steps, Progress, Recorded;
    var d, a := Disk(None, [], hasDir), Attempt(k + 1, 3 * |cmds|, {}, EOF);
    assert [a][..0] == [];
    assert AfterRuns(cmds, hasDir, []) == d;
    Undisturbed(d, cmds, 3 * |cmds|, {}, k + 1);
    var c := Steps(OPTIONS, Boot(d, a.fuel, {}), cmds[..k + 1]);
    ProgressRecorded(d, Ops(cmds), {}, c, k + 1);
    assert Recorded(d) == -1 by { NoRecord(d); }
    assert c.status == Running by { ProgressRuns(d, Ops(cmds), {}, c, k + 1); }
  }

  lemma NoRecord(d: Disk)
    ensures d.file == None ==> Recorded(d) == -1
  {
  }

  lemma ProgressRuns(d: Disk, ops: int, refused: set<nat>, c: Ctx, i: int)
    ensures Progress(d, ops, refused, c, i) ==> c.status == Running
  {
  }

  // ... and resumes execute it again. Where the filesystem will not do it twice they all end there: the record stays.
  lemma {:induction false} RepeatRefused(cmds: seq<Command>, hasDir: bool, k: nat, later: seq<Attempt>)
    requires OneSubvolume(cmds) && k < Ops(cmds) && Doable(cmds, hasDir, k + 1)
    requires forall a <- later :: k in a.refused
    ensures Recorded(AfterRuns(cmds, hasDir, [Attempt(k + 1, 3 * |cmds|, {}, EOF)] + later)) == k
    decreases |later|
  {
    hide WellFormed, RunOnce, Decimal, Recorded;
    var first := [Attempt(k + 1, 3 * |cmds|, {}, EOF)];
    if later == [] {
      RecordsLast(cmds, hasDir, k);
      assert first + later == first;
    } else {
      var n := |later| - 1;
      var a := later[n];
      RepeatRefused(cmds, hasDir, k, later[..n]);
      assert first + later == first + later[..n] + [a];
      CrashSafety(cmds, hasDir, first + later[..n], a);
      assert (first + later)[..|first + later| - 1] == first + later[..n];
      BlockedRun(AfterRuns(cmds, hasDir, first + later[..n]), cmds, a, k);
    }
  }

  // With an empty offset file the first command fails, and nothing is ever written.
  lemma {:induction false} EmptyFileStops(d: Disk, cmds: seq<Command>, fuel: nat, refused: set<nat>)
    requires OneSubvolume(cmds) && Sound(d, Ops(cmds)) && d.file == Some("")
    ensures var c := Steps(OPTIONS, Boot(d, fuel, refused), cmds);
            c.status != Running && c.receiver.Directory? && c.receiver.dir.file == Some("")
  {
    hide Step, Sound, Progress, Advances;
    NothingDone(d, Ops(cmds), fuel, refused);
    var c := Boot(d, fuel, refused);
    FirstCommand(d, cmds, refused, c);
    assert cmds == [cmds[0]] + cmds[1..];
    OneStep(OPTIONS, c, cmds[0]);
    StepsConcat(OPTIONS, c, [cmds[0]], cmds[1..]);
    StepsEnded(OPTIONS, Steps(OPTIONS, c, [cmds[0]]), cmds[1..]);
    NotProgress(d, Ops(cmds), refused, Step(OPTIONS, c, cmds[0]), 1);
  }

  // Such a file comes about: executing the first command and creating the file are a run's first two effects.
  lemma {:induction false} CrashAfterCreate(cmds: seq<Command>, hasDir: bool)
    requires OneSubvolume(cmds) && Doable(cmds, hasDir, 1)
    ensures AfterRuns(cmds, hasDir, [Attempt(|cmds|, 2, {}, EOF)]).file == Some("")
  {
    hide Decimal, Required, EnsureAttrs, Subvolume, DecodeCommand;
    var start := Boot(Disk(None, [], hasDir), 2, {});
    assert WellFormed(cmds[0]);
    var c := Step(OPTIONS, start, cmds[0]);
    assert c.status != Running && c.receiver.dir.file == Some("");
    hide Step;
    assert cmds == [cmds[0]] + cmds[1..];
    OneStep(OPTIONS, start, cmds[0]);
    StepsConcat(OPTIONS, start, [cmds[0]], cmds[1..]);
    StepsEnded(OPTIONS, c, cmds[1..]);
    assert [Attempt(|cmds|, 2, {}, EOF)][..0] == [];
    assert AfterRuns(cmds, hasDir, []) == Disk(None, [], hasDir);
  }
}
