/**
  Applying a send stream to a receiver: the command loop with its offset, current subvolume, error budget and
  hooks, for a receiver that only records its calls and for the directory receiver with its offset file.
  */
module Receive {
  import opened Commands
  import opened Crc32c
  import opened LittleEndian
  import opened Streams
  import opened StreamTheorems
  import opened OffsetFile
  import opened Wrappers

  datatype Command = Command(cmd: uint16, attrs: CmdAttrs)

  datatype SubvolInfo = SubvolInfo(path: seq<byte>, uuid: seq<byte>, ctransid: seq<byte>)

  predicate IsOpen(cmd: uint16) { cmd == CMD_SUBVOL || cmd == CMD_SNAPSHOT }

  // The commands with a handler of their own.
  predicate HasHandler(cmd: uint16) { 1 <= cmd <= 26 && cmd != CMD_END }

  // The attributes each handler insists on.
  function Required(cmd: uint16): seq<uint16> {
    match cmd
    case 1 => [15, 1, 2]
    case 2 => [15, 1, 2, 20, 21]
    case 3 => [15, 3]
    case 4 => [15, 3]
    case 5 => [15, 3, 5, 8]
    case 6 => [15, 3]
    case 7 => [15, 3]
    case 8 => [15, 3, 17]
    case 9 => [15, 16]
    case 10 => [15, 17]
    case 11 => [15]
    case 12 => [15]
    case 13 => [15, 13, 14]
    case 14 => [15, 13]
    case 15 => [15, 18, 19]
    case 16 => [15, 18, 24, 20, 21, 22, 23]
    case 17 => [15, 4]
    case 18 => [15, 5]
    case 19 => [15, 6, 7]
    case 20 => [15, 11, 10, 9]
    case 22 => [15, 18, 4]
    case 23 => [15, 25, 18, 4]
    case 24 => [15, 26]
    case 25 => [15, 18, 27, 28, 29, 19]
    case 26 => [15, 32, 33, 34, 35]
    case _ => []
  }

  predicate EnsureAttrs(attrs: CmdAttrs, keys: seq<uint16>) {
    forall k <- keys :: k in attrs
  }

  function AttrOrEmpty(attrs: CmdAttrs, k: uint16): seq<byte> {
    if k in attrs then attrs[k] else []
  }

  // What a handler decodes: an integer of so many bytes, one that may be absent or empty, a UUID, a time.
  datatype Need =
    | Integer(attr: uint16, width: nat)
    | OptionalInteger(attr: uint16, width: nat)
    | Id(attr: uint16)
    | Time(attr: uint16)

  // The attributes each handler decodes, in its order, which decides which defect shows first.
  function Needs(cmd: uint16): seq<Need> {
    match cmd
    case 1 => [Integer(2, 8), Id(1)]
    case 2 => [Id(1), Integer(2, 8), Id(20), Integer(21, 8)]
    case 3 => [Integer(3, 8)]
    case 4 => [Integer(3, 8)]
    case 5 => [Integer(3, 8), Integer(5, 4), Integer(8, 8)]
    case 6 => [Integer(3, 8)]
    case 7 => [Integer(3, 8)]
    case 8 => [Integer(3, 8)]
    case 15 => [Integer(18, 8)]
    case 16 => [Id(20), Integer(18, 8), Integer(24, 8), Integer(21, 8), Integer(23, 8)]
    case 17 => [Integer(4, 8)]
    case 18 => [Integer(5, 8)]
    case 19 => [Integer(6, 8), Integer(7, 8)]
    case 20 => [Time(11), Time(10), Time(9)]
    case 22 => [Integer(18, 8), Integer(4, 8)]
    case 23 => [Integer(25, 4), Integer(18, 8), Integer(4, 8)]
    case 24 => [Integer(26, 4)]
    case 25 => [Integer(18, 8), Integer(27, 8), Integer(28, 8), Integer(29, 8),
                OptionalInteger(30, 4), OptionalInteger(31, 4)]
    case 26 => [Integer(33, 4), Integer(32, 1)]
    case _ => []
  }

  // Decoding an integer that is too short panics; an id or a time of the wrong length is an error.
  datatype Decodes = Sound | Undecodable | TooShort

  function DecodeNeed(attrs: CmdAttrs, need: Need): Decodes {
    var n := |AttrOrEmpty(attrs, need.attr)|;
    match need
    case Integer(_, width) => if n < width then TooShort else Sound
    case OptionalInteger(_, width) => if 0 < n < width then TooShort else Sound
    case Id(_) => if n != 16 then Undecodable else Sound
    case Time(_) => if n < 12 then Undecodable else Sound
  }

  function DecodeNeeds(attrs: CmdAttrs, needs: seq<Need>): (r: Decodes)
    ensures r == Sound <==> forall n <- needs :: DecodeNeed(attrs, n) == Sound
  {
    if needs == [] then Sound
    else
      assert needs == [needs[0]] + needs[1..];
      if DecodeNeed(attrs, needs[0]) != Sound then DecodeNeed(attrs, needs[0]) else DecodeNeeds(attrs, needs[1..])
  }

  // How decoding a command's attributes goes.
  function DecodeCommand(cmd: Command): (r: Decodes)
    ensures r == Sound && IsOpen(cmd.cmd) ==>
              |AttrOrEmpty(cmd.attrs, ATTR_CTRANSID)| >= 8 && |AttrOrEmpty(cmd.attrs, ATTR_UUID)| == 16
  {
    assert IsOpen(cmd.cmd) ==> Integer(ATTR_CTRANSID, 8) in Needs(cmd.cmd) && Id(ATTR_UUID) in Needs(cmd.cmd);
    DecodeNeeds(cmd.attrs, Needs(cmd.cmd))
  }

  function Subvolume(attrs: CmdAttrs): SubvolInfo
    requires |AttrOrEmpty(attrs, ATTR_CTRANSID)| >= 8
  {
    SubvolInfo(AttrOrEmpty(attrs, ATTR_PATH), AttrOrEmpty(attrs, ATTR_UUID), AttrOrEmpty(attrs, ATTR_CTRANSID)[..8])
  }

  // ---- receivers

  datatype Call = Open(cmd: uint16, info: SubvolInfo) | Op(cmd: uint16, attrs: CmdAttrs) | Finish

  datatype CallError = SkipCommand | Failure

  // A call as the receiver sees it, with the context's current subvolume.
  datatype Entry = Entry(call: Call, subvol: Option<SubvolInfo>)

  // Tracing: no hooks, never fails, writes down every call. Directory: the directory receiver.
  datatype Receiver = Tracing(trace: seq<Entry>) | Directory(dir: DirState)

  // The operations that the directory receiver always refuses.
  predicate Unsupported(cmd: uint16) { cmd == CMD_CLONE || cmd == CMD_ENABLE_VERITY }

  function DoCall(r: Receiver, call: Call, offset: nat, subvol: Option<SubvolInfo>): (Receiver, Option<CallError>) {
    match r
    case Tracing(t) => (Tracing(t + [Entry(call, subvol)]), None)
    case Directory(d) =>
      var (d', ok) :=
        match call
        case Open(cmd, _) => OpenSubvolume(d, offset, cmd == CMD_SUBVOL)
        case Op(cmd, _) => if Unsupported(cmd) then (d, false) else Execute(d, offset)
        case Finish => WriteOffset(d, FINISHED);
      (Directory(d'), if ok then None else Some(Failure))
  }

  function PreOp(r: Receiver, offset: nat): Option<CallError> {
    if r.Directory? && r.dir.currentOffset > offset then Some(SkipCommand) else None
  }

  function PostOp(r: Receiver, offset: nat): (Receiver, Option<CallError>) {
    if r.Tracing? || offset < r.dir.currentOffset then (r, None)
    else
      var (d, ok) := WriteOffset(r.dir, offset);
      (Directory(d), if ok then None else Some(Failure))
  }

  // ---- the loop

  datatype Options = Options(startOffset: nat, honorEnd: bool, maxErrors: int)

  datatype RunError = BadUuid | MaxErrors(last: CallError) | StreamError(error: ScanError)

  // Panicked: an integer attribute shorter than its width was decoded.
  datatype Status = Running | Returned(err: Option<RunError>) | Panicked

  datatype Ctx = Ctx(offset: nat, subvol: Option<SubvolInfo>, errors: nat, receiver: Receiver, status: Status)

  function StartCtx(r: Receiver): Ctx { Ctx(0, None, 0, r, Running) }

  // Result of a handler: the context after it and its error.
  datatype Handled = Handled(ctx: Ctx, err: Option<CallError>)

  function CallReceiver(c: Ctx, call: Call): Handled {
    var (r, e) := DoCall(c.receiver, call, c.offset, c.subvol);
    Handled(c.(receiver := r), e)
  }

  // Subvol and Snapshot: finish what is open, decode, make the new subvolume current, tell the receiver.
  function ProcessOpen(c: Ctx, cmd: Command): Handled
    requires IsOpen(cmd.cmd)
  {
    if !EnsureAttrs(cmd.attrs, Required(cmd.cmd)) then Handled(c, Some(Failure))
    else
      var finished := if c.subvol == None then Handled(c, None) else CallReceiver(c, Finish);
      if finished.err != None then finished
      else
        var c1 := finished.ctx.(subvol := None);
        match DecodeCommand(cmd)
        case Sound => var info := Subvolume(cmd.attrs);
                      CallReceiver(c1.(subvol := Some(info)), Open(cmd.cmd, info))
        case Undecodable => Handled(c1, Some(Failure))
        case TooShort => Handled(c1.(status := Panicked), None)
  }

  function Process(c: Ctx, cmd: Command): Handled {
    if IsOpen(cmd.cmd) then ProcessOpen(c, cmd)
    else if !HasHandler(cmd.cmd) || !EnsureAttrs(cmd.attrs, Required(cmd.cmd)) then Handled(c, Some(Failure))
    else
      match DecodeCommand(cmd)
      case Sound => CallReceiver(c, Op(cmd.cmd, cmd.attrs))
      case Undecodable => Handled(c, Some(Failure))
      case TooShort => Handled(c.(status := Panicked), None)
  }

  // An error other than "skip" counts against the budget.
  function Charge(c: Ctx, err: Option<CallError>, maxErrors: int): Ctx {
    if err == None || err == Some(SkipCommand) then c
    else if c.errors + 1 >= maxErrors then c.(errors := c.errors + 1, status := Returned(Some(MaxErrors(err.value))))
    else c.(errors := c.errors + 1)
  }

  // Before the start offset commands only move the offset and, for Subvol and Snapshot, the current subvolume.
  function SkipStep(c: Ctx, cmd: Command): Ctx {
    var c1 := c.(offset := c.offset + 1);
    if !IsOpen(cmd.cmd) then c1
    else if |AttrOrEmpty(cmd.attrs, ATTR_CTRANSID)| < 8 then c1.(status := Panicked)
    else if |AttrOrEmpty(cmd.attrs, ATTR_UUID)| != 16 then c1.(status := Returned(Some(BadUuid)))
    else c1.(subvol := Some(Subvolume(cmd.attrs)))
  }

  // One turn of the loop.
  function Step(o: Options, c: Ctx, cmd: Command): Ctx {
    if c.status != Running then c
    else if o.startOffset > c.offset then SkipStep(c, cmd)
    else
      var pre := PreOp(c.receiver, c.offset);
      if pre != None then Charge(c.(offset := c.offset + 1), pre, o.maxErrors)
      else if cmd.cmd == CMD_END && o.honorEnd then EndOfStream(c)
      else
        var h := if cmd.cmd == CMD_END then FinishAtEnd(c) else Process(c, cmd);
        if h.ctx.status != Running then h.ctx
        else
          var c1 := Charge(h.ctx, h.err, o.maxErrors);
          if c1.status != Running then c1
          else
            var (r, e) := PostOp(c1.receiver, c1.offset);
            var c2 := Charge(c1.(receiver := r), e, o.maxErrors);
            if c2.status != Running then c2 else c2.(offset := c2.offset + 1)
  }

  function FinishAtEnd(c: Ctx): Handled {
    var h := CallReceiver(c, Finish);
    Handled(h.ctx.(subvol := None), h.err)
  }

  // A last Finish for an open subvolume; its error is only logged.
  function EndOfStream(c: Ctx): Ctx {
    (if c.subvol == None then c else CallReceiver(c, Finish).ctx).(status := Returned(None))
  }

  function Steps(o: Options, c: Ctx, cmds: seq<Command>): Ctx {
    if cmds == [] then c else Step(o, Steps(o, c, cmds[..|cmds| - 1]), cmds[|cmds| - 1])
  }

  // A whole run: the commands the scanner delivers, then the scanner's error if there is one.
  function Run(o: Options, c: Ctx, cmds: seq<Command>, end: Option<ScanError>): Ctx {
    var c1 := Steps(o, c, cmds);
    if c1.status != Running then c1
    else if end != None then c1.(status := Returned(Some(StreamError(end.value))))
    else EndOfStream(c1)
  }

  function CommandsOf(d: Delivered): (r: seq<Command>)
    ensures |r| == |d|
  {
    seq(|d|, i requires 0 <= i < |d| => Command.Command(d[i].0.cmd, d[i].1))
  }

  // The command after the last, and the steps so far.
  lemma {:induction false} StepsNext(o: Options, c: Ctx, cmds: seq<Command>, cmd: Command)
    ensures Steps(o, c, cmds + [cmd]) == Step(o, Steps(o, c, cmds), cmd)
  {
    assert (cmds + [cmd])[..|cmds|] == cmds;
  }

  lemma {:induction false} StepsConcat(o: Options, c: Ctx, a: seq<Command>, b: seq<Command>)
    ensures Steps(o, c, a + b) == Steps(o, Steps(o, c, a), b)
    decreases |b|
  {
    hide Step;
    if b == [] {
      assert a + b == a;
    } else {
      var n := |b| - 1;
      assert a + b == a + b[..n] + [b[n]];
      StepsNext(o, c, a + b[..n], b[n]);
      StepsConcat(o, c, a, b[..n]);
    }
  }

  // A run that has ended does nothing more.
  lemma {:induction false} StepsEnded(o: Options, c: Ctx, cmds: seq<Command>)
    requires c.status != Running
    ensures Steps(o, c, cmds) == c
  {
    if cmds != [] {
      StepsEnded(o, c, cmds[..|cmds| - 1]);
    }
  }

  // The loop's context, updated in place.
  class ReceiveCtx {
    const options: Options
    var currentOffset: nat
    var currentSubvolInfo: Option<SubvolInfo>
    var streamErrors: nat
    var receiver: Receiver

    ghost function State(status: Status): Ctx
      reads this
    {
      Ctx(currentOffset, currentSubvolInfo, streamErrors, receiver, status)
    }

    constructor (options: Options, receiver: Receiver)
      ensures this.options == options && State(Running) == StartCtx(receiver)
    {
      this.options, this.receiver := options, receiver;
      currentOffset, currentSubvolInfo, streamErrors := 0, None, 0;
    }

    method CallIt(call: Call) returns (err: Option<CallError>)
      modifies this`receiver
      ensures forall status :: CallReceiver(old(State(status)), call) == Handled(State(status), err)
    {
      var (r, e) := DoCall(receiver, call, currentOffset, currentSubvolInfo);
      receiver := r;
      return e;
    }

    // Counts an error; true when the budget is used up.
    method ChargeIt(err: Option<CallError>) returns (status: Status)
      modifies this`streamErrors
      ensures State(status) == Charge(old(State(Running)), err, options.maxErrors)
    {
      status := Running;
      if err != None && err != Some(SkipCommand) {
        streamErrors := streamErrors + 1;
        if streamErrors >= options.maxErrors {
          status := Returned(Some(MaxErrors(err.value)));
        }
      }
    }

    method ProcessOpenCommand(cmd: Command) returns (status: Status, err: Option<CallError>)
      requires IsOpen(cmd.cmd)
      modifies this
      ensures Handled(State(status), err) == ProcessOpen(old(State(Running)), cmd)
    {
      hide DoCall, Required, DecodeNeeds, Needs;
      status := Running;
      if !EnsureAttrs(cmd.attrs, Required(cmd.cmd)) {
        return status, Some(Failure);
      }
      if currentSubvolInfo != None {
        err := CallIt(Finish);
        if err != None {
          return;
        }
        currentSubvolInfo := None;
      }
      match DecodeCommand(cmd)
      case Sound =>
        var info := Subvolume(cmd.attrs);
        currentSubvolInfo := Some(info);
        err := CallIt(Open(cmd.cmd, info));
      case Undecodable =>
        err := Some(Failure);
      case TooShort =>
        status, err := Panicked, None;
    }

    // The handlers of the other commands: attributes, decoding, one call of the receiver.
    method ProcessOperation(cmd: Command) returns (status: Status, err: Option<CallError>)
      requires HasHandler(cmd.cmd) && !IsOpen(cmd.cmd)
      modifies this`receiver
      ensures Handled(State(status), err) == Process(old(State(Running)), cmd)
    {
      hide DoCall, Required, EnsureAttrs, DecodeCommand;
      status := Running;
      if !EnsureAttrs(cmd.attrs, Required(cmd.cmd)) {
        return status, Some(Failure);
      }
      match DecodeCommand(cmd)
      case Sound =>
        err := CallIt(Op(cmd.cmd, cmd.attrs));
      case Undecodable =>
        err := Some(Failure);
      case TooShort =>
        status, err := Panicked, None;
    }

    method ProcessCommand(cmd: Command) returns (status: Status)
      modifies this
      ensures State(status) == Step(options, old(State(Running)), cmd)
    {
      hide DoCall, Required, ProcessOpen, EnsureAttrs, DecodeCommand;
      status := Running;
      if options.startOffset > currentOffset {
        currentOffset := currentOffset + 1;
        if IsOpen(cmd.cmd) {
          if |AttrOrEmpty(cmd.attrs, ATTR_CTRANSID)| < 8 {
            return Panicked;
          }
          if |AttrOrEmpty(cmd.attrs, ATTR_UUID)| != 16 {
            return Returned(Some(BadUuid));
          }
          currentSubvolInfo := Some(Subvolume(cmd.attrs));
        }
        return;
      }
      var pre := PreOp(receiver, currentOffset);
      if pre != None {
        currentOffset := currentOffset + 1;
        status := ChargeIt(pre);
        return;
      }
      var err;
      if cmd.cmd == CMD_END {
        if options.honorEnd {
          if currentSubvolInfo != None {
            var _ := CallIt(Finish);
          }
          return Returned(None);
        }
        err := CallIt(Finish);
        currentSubvolInfo := None;
      } else if IsOpen(cmd.cmd) {
        status, err := ProcessOpenCommand(cmd);
      } else if HasHandler(cmd.cmd) {
        status, err := ProcessOperation(cmd);
      } else {
        err := Some(Failure);
      }
      if status != Running {
        return;
      }
      status := ChargeIt(err);
      if status != Running {
        return;
      }
      var (r, e) := PostOp(receiver, currentOffset);
      receiver := r;
      status := ChargeIt(e);
      if status == Running {
        currentOffset := currentOffset + 1;
      }
    }

    method ProcessSendStream(stream: seq<byte>, ignoreChecksums: bool) returns (status: Status)
      modifies this
      ensures var (d, end) := ScanAll(Start(stream, ignoreChecksums));
              State(status) == Run(options, old(State(Running)), CommandsOf(d), end.scanErr)
    {
      hide Step, ScanAll, ScanStep, Steps, CallReceiver;
      var scanner := new Scanner(stream, ignoreChecksums);
      ghost var (d, end) := ScanAll(scanner.State());
      ghost var cmds, n := CommandsOf(d), 0;
      ghost var begin := State(Running);
      status := Running;
      NoSteps(options, begin);
      while true
        invariant n <= |d| && ScanAll(scanner.State()) == (d[n..], end)
        invariant State(Running) == Steps(options, begin, cmds[..n])
        decreases |d| - n
      {
        AfterScan(scanner.State());
        var more := scanner.Scan();
        if !more {
          break;
        }
        assert d[n..][0] == (scanner.curHdr, scanner.curAttrs);
        assert d[n..][1..] == d[n + 1..];
        StepsNext(options, begin, cmds[..n], cmds[n]);
        assert cmds[..n + 1] == cmds[..n] + [cmds[n]];
        status := ProcessCommand(Command.Command(scanner.curHdr.cmd, scanner.curAttrs));
        n := n + 1;
        if status != Running {
          StepsConcat(options, begin, cmds[..n], cmds[n..]);
          assert cmds == cmds[..n] + cmds[n..];
          StepsEnded(options, Steps(options, begin, cmds[..n]), cmds[n..]);
          return;
        }
      }
      assert d[n..] == [];
      assert cmds[..n] == cmds;
      assert State(Running) == Steps(options, begin, cmds);
      if scanner.scanErr != None {
        return Returned(Some(StreamError(scanner.scanErr.value)));
      }
      if currentSubvolInfo != None {
        var _ := CallIt(Finish);
      }
      status := Returned(None);
    }
  }

  lemma {:induction false} NoSteps(o: Options, c: Ctx)
    ensures Steps(o, c, []) == c
  {
  }
}
