/**
  What the receiver is told over a whole run: the calls of a well-formed stream come in brackets, and a run that
  was cut off and one that starts at its offset together make the calls of one full run.
  */
module Resume {
  import opened Commands
  import opened Receive
  import opened Wrappers

  // The handler is there, its attributes are there and they decode.
  ghost predicate WellFormed(cmd: Command) {
    || cmd.cmd == CMD_END
    || (HasHandler(cmd.cmd) && EnsureAttrs(cmd.attrs, Required(cmd.cmd)) && DecodeCommand(cmd) == Sound)
  }

  ghost predicate AllWellFormed(cmds: seq<Command>) {
    forall c <- cmds :: WellFormed(c)
  }

  predicate HasEnd(cmds: seq<Command>) {
    exists c <- cmds :: c.cmd == CMD_END
  }

  // ---- the calls that a list of commands makes, by definition

  datatype Calls = Calls(entries: seq<Entry>, subvol: Option<SubvolInfo>, ended: bool)

  function FinishOpen(subvol: Option<SubvolInfo>): seq<Entry> {
    if subvol == None then [] else [Entry(Finish, subvol)]
  }

  ghost function CallsOf(honorEnd: bool, subvol: Option<SubvolInfo>, cmd: Command): Calls
    requires WellFormed(cmd)
  {
    if cmd.cmd == CMD_END then
      if honorEnd then Calls(FinishOpen(subvol), subvol, true) else Calls([Entry(Finish, subvol)], None, false)
    else if IsOpen(cmd.cmd) then
      var info := Subvolume(cmd.attrs);
      Calls(FinishOpen(subvol) + [Entry(Open(cmd.cmd, info), Some(info))], Some(info), false)
    else Calls([Entry(Op(cmd.cmd, cmd.attrs), subvol)], subvol, false)
  }

  ghost function AllCalls(honorEnd: bool, subvol: Option<SubvolInfo>, cmds: seq<Command>): Calls
    requires AllWellFormed(cmds)
    decreases |cmds|
  {
    if cmds == [] then Calls([], subvol, false)
    else
      var first := CallsOf(honorEnd, subvol, cmds[0]);
      if first.ended then first
      else
        var rest := AllCalls(honorEnd, first.subvol, cmds[1..]);
        rest.(entries := first.entries + rest.entries)
  }

  // The loop makes exactly these calls.
  lemma StepMakesCalls(o: Options, c: Ctx, cmd: Command)
    requires c.status == Running && c.receiver.Tracing? && o.startOffset <= c.offset && WellFormed(cmd)
    ensures var k := CallsOf(o.honorEnd, c.subvol, cmd);
            Step(o, c, cmd) == Ctx(if k.ended then c.offset else c.offset + 1, k.subvol, c.errors,
                                   Tracing(c.receiver.trace + k.entries), if k.ended then Returned(None) else Running)
  {
    hide Required, EnsureAttrs, Subvolume;
    var t := c.receiver.trace;
    assert t + [] == t;
    if IsOpen(cmd.cmd) && c.subvol != None {
      var info := Subvolume(cmd.attrs);
      assert t + [Entry(Finish, c.subvol)] + [Entry(Open(cmd.cmd, info), Some(info))]
          == t + ([Entry(Finish, c.subvol)] + [Entry(Open(cmd.cmd, info), Some(info))]);
    } else if IsOpen(cmd.cmd) {
      var info := Subvolume(cmd.attrs);
      assert [] + [Entry(Open(cmd.cmd, info), Some(info))] == [Entry(Open(cmd.cmd, info), Some(info))];
    }
  }

  lemma {:induction false} StepsMakeCalls(o: Options, c: Ctx, cmds: seq<Command>)
    requires c.status == Running && c.receiver.Tracing? && o.startOffset <= c.offset && AllWellFormed(cmds)
    ensures var k := AllCalls(o.honorEnd, c.subvol, cmds);
            var end := Steps(o, c, cmds);
            && end.receiver == Tracing(c.receiver.trace + k.entries)
            && end.subvol == k.subvol && end.errors == c.errors
            && end.status == (if k.ended then Returned(None) else Running)
            && (!k.ended ==> end.offset == c.offset + |cmds|)
    decreases |cmds|
  {
    hide Step, CallsOf, WellFormed;
    if cmds == [] {
      assert c.receiver.trace + [] == c.receiver.trace;
    } else {
      var k := CallsOf(o.honorEnd, c.subvol, cmds[0]);
      var c1 := Step(o, c, cmds[0]);
      StepMakesCalls(o, c, cmds[0]);
      assert cmds == [cmds[0]] + cmds[1..];
      StepsConcat(o, c, [cmds[0]], cmds[1..]);
      assert Steps(o, c, [cmds[0]]) == c1 by { OneStep(o, c, cmds[0]); }
      if k.ended {
        StepsEnded(o, c1, cmds[1..]);
      } else {
        StepsMakeCalls(o, c1, cmds[1..]);
        var rest := AllCalls(o.honorEnd, k.subvol, cmds[1..]);
        assert c.receiver.trace + k.entries + rest.entries == c.receiver.trace + (k.entries + rest.entries);
      }
    }
  }

  lemma {:induction false} OneStep(o: Options, c: Ctx, cmd: Command)
    ensures Steps(o, c, [cmd]) == Step(o, c, cmd)
  {
    hide Step;
    assert [] + [cmd] == [cmd];
    StepsNext(o, c, [], cmd);
  }

  lemma {:induction false} CallsConcat(honorEnd: bool, subvol: Option<SubvolInfo>, a: seq<Command>, b: seq<Command>)
    requires AllWellFormed(a) && AllWellFormed(b)
    ensures AllWellFormed(a + b)
    ensures var k := AllCalls(honorEnd, subvol, a);
            AllCalls(honorEnd, subvol, a + b) ==
            if k.ended then k
            else var m := AllCalls(honorEnd, k.subvol, b); m.(entries := k.entries + m.entries)
    decreases |a|
  {
    hide CallsOf, WellFormed;
    if a == [] {
      assert a + b == b;
    } else {
      assert (a + b)[1..] == a[1..] + b;
      var first := CallsOf(honorEnd, subvol, a[0]);
      CallsConcat(honorEnd, first.subvol, a[1..], b);
    }
  }

  // ---- skipping to an offset

  ghost function OpenInfo(cmd: Command): SubvolInfo
    requires WellFormed(cmd) && IsOpen(cmd.cmd)
  {
    Subvolume(cmd.attrs)
  }

  ghost function LastOpened(subvol: Option<SubvolInfo>, cmds: seq<Command>): Option<SubvolInfo>
    requires AllWellFormed(cmds)
    decreases |cmds|
  {
    if cmds == [] then subvol
    else
      assert WellFormed(cmds[0]);
      LastOpened(if IsOpen(cmds[0].cmd) then Some(OpenInfo(cmds[0])) else subvol, cmds[1..])
  }

  lemma {:induction false} SkipSteps(o: Options, c: Ctx, cmds: seq<Command>)
    requires c.status == Running && AllWellFormed(cmds) && c.offset + |cmds| <= o.startOffset
    ensures Steps(o, c, cmds) == c.(offset := c.offset + |cmds|, subvol := LastOpened(c.subvol, cmds))
    decreases |cmds|
  {
    hide Required, EnsureAttrs, Subvolume, DecodeCommand;
    if cmds != [] {
      var c1 := Step(o, c, cmds[0]);
      assert WellFormed(cmds[0]);
      assert c1 == c.(offset := c.offset + 1,
                      subvol := if IsOpen(cmds[0].cmd) then Some(Subvolume(cmds[0].attrs)) else c.subvol);
      hide Step, WellFormed;
      assert cmds == [cmds[0]] + cmds[1..];
      StepsConcat(o, c, [cmds[0]], cmds[1..]);
      OneStep(o, c, cmds[0]);
      SkipSteps(o, c1, cmds[1..]);
    }
  }

  lemma {:induction false} NoEndKeepsOpen(honorEnd: bool, subvol: Option<SubvolInfo>, cmds: seq<Command>)
    requires AllWellFormed(cmds) && !HasEnd(cmds)
    ensures var k := AllCalls(honorEnd, subvol, cmds); !k.ended && k.subvol == LastOpened(subvol, cmds)
    decreases |cmds|
  {
    hide Subvolume;
    if cmds != [] {
      assert cmds[0] in cmds && WellFormed(cmds[0]);
      assert forall c <- cmds[1..] :: c in cmds;
      NoEndKeepsOpen(honorEnd, CallsOf(honorEnd, subvol, cmds[0]).subvol, cmds[1..]);
    }
  }

  // ---- the three runs

  function Trace(c: Ctx): seq<Entry> {
    if c.receiver.Tracing? then c.receiver.trace else []
  }

  function Full(honorEnd: bool, maxErrors: int, cmds: seq<Command>, end: Option<ScanError>): Ctx {
    Run(Options(0, honorEnd, maxErrors), StartCtx(Tracing([])), cmds, end)
  }

  // Breaks off after k commands with a stream error.
  function Cut(honorEnd: bool, maxErrors: int, cmds: seq<Command>, k: nat, e: ScanError): Ctx
    requires k <= |cmds|
  {
    Run(Options(0, honorEnd, maxErrors), StartCtx(Tracing([])), cmds[..k], Some(e))
  }

  function Resumed(honorEnd: bool, maxErrors: int, cmds: seq<Command>, k: nat, end: Option<ScanError>): Ctx {
    Run(Options(k, honorEnd, maxErrors), StartCtx(Tracing([])), cmds, end)
  }

  ghost function Ending(k: Calls, end: Option<ScanError>): seq<Entry> {
    if k.ended || end != None then [] else FinishOpen(k.subvol)
  }

  lemma {:induction false} RunCalls(o: Options, c: Ctx, cmds: seq<Command>, end: Option<ScanError>)
    requires c.status == Running && c.receiver.Tracing? && o.startOffset <= c.offset && AllWellFormed(cmds)
    ensures var k := AllCalls(o.honorEnd, c.subvol, cmds);
            && Run(o, c, cmds, end).receiver == Tracing(c.receiver.trace + k.entries + Ending(k, end))
            && Run(o, c, cmds, end).status ==
               if !k.ended && end != None then Returned(Some(StreamError(end.value))) else Returned(None)
  {
    hide Steps, AllCalls;
    StepsMakeCalls(o, c, cmds);
    var k := AllCalls(o.honorEnd, c.subvol, cmds);
    assert c.receiver.trace + k.entries + [] == c.receiver.trace + k.entries;
  }

  lemma SplitCommands(cmds: seq<Command>, k: nat)
    requires k <= |cmds| && AllWellFormed(cmds)
    ensures AllWellFormed(cmds[..k]) && AllWellFormed(cmds[k..]) && cmds == cmds[..k] + cmds[k..]
  {
  }

  lemma {:induction false} CutRun(honorEnd: bool, maxErrors: int, cmds: seq<Command>, k: nat, e: ScanError)
    requires k <= |cmds| && AllWellFormed(cmds[..k])
    ensures Cut(honorEnd, maxErrors, cmds, k, e).receiver == Tracing(AllCalls(honorEnd, None, cmds[..k]).entries)
  {
    hide AllCalls, Run, AllWellFormed;
    RunCalls(Options(0, honorEnd, maxErrors), StartCtx(Tracing([])), cmds[..k], Some(e));
    var a := AllCalls(honorEnd, None, cmds[..k]);
    assert [] + a.entries + [] == a.entries;
  }

  function StatusAfter(ended: bool, end: Option<ScanError>): Status {
    if !ended && end != None then Returned(Some(StreamError(end.value))) else Returned(None)
  }

  lemma {:induction false} FullRun(honorEnd: bool, maxErrors: int, first: seq<Command>, rest: seq<Command>,
                                   end: Option<ScanError>)
    requires AllWellFormed(first) && AllWellFormed(rest)
    ensures var a := AllCalls(honorEnd, None, first);
            var b := AllCalls(honorEnd, a.subvol, rest);
            var full := Full(honorEnd, maxErrors, first + rest, end);
            && full.receiver == Tracing(if a.ended then a.entries else a.entries + (b.entries + Ending(b, end)))
            && full.status == StatusAfter(a.ended || b.ended, end)
  {
    hide AllCalls, Run, AllWellFormed;
    CallsConcat(honorEnd, None, first, rest);
    RunCalls(Options(0, honorEnd, maxErrors), StartCtx(Tracing([])), first + rest, end);
    var a := AllCalls(honorEnd, None, first);
    var b := AllCalls(honorEnd, a.subvol, rest);
    assert [] + a.entries + [] == a.entries;
    assert [] + (a.entries + b.entries) + Ending(b, end) == a.entries + (b.entries + Ending(b, end));
  }

  lemma {:induction false} ResumedRun(honorEnd: bool, maxErrors: int, first: seq<Command>, rest: seq<Command>,
                                      end: Option<ScanError>)
    requires AllWellFormed(first) && AllWellFormed(rest)
    ensures var r := AllCalls(honorEnd, LastOpened(None, first), rest);
            var resumed := Resumed(honorEnd, maxErrors, first + rest, |first|, end);
            resumed.receiver == Tracing(r.entries + Ending(r, end)) && resumed.status == StatusAfter(r.ended, end)
  {
    hide AllCalls, Steps, LastOpened, AllWellFormed;
    var o, start := Options(|first|, honorEnd, maxErrors), StartCtx(Tracing([]));
    SkipSteps(o, start, first);
    StepsConcat(o, start, first, rest);
    var c := Steps(o, start, first);
    assert Run(o, start, first + rest, end) == Run(o, c, rest, end);
    hide Run;
    RunCalls(o, c, rest, end);
    var r := AllCalls(honorEnd, LastOpened(None, first), rest);
    assert [] + r.entries == r.entries;
  }

  // What the three runs call, in terms of the two parts of the stream.
  lemma {:induction false} ThreeRuns(honorEnd: bool, maxErrors: int, cmds: seq<Command>, k: nat,
                                     end: Option<ScanError>, e: ScanError)
    requires k <= |cmds| && AllWellFormed(cmds)
    ensures AllWellFormed(cmds[..k]) && AllWellFormed(cmds[k..])
    ensures var a := AllCalls(honorEnd, None, cmds[..k]);
            var b := AllCalls(honorEnd, a.subvol, cmds[k..]);
            var r := AllCalls(honorEnd, LastOpened(None, cmds[..k]), cmds[k..]);
            && Cut(honorEnd, maxErrors, cmds, k, e).receiver == Tracing(a.entries)
            && Full(honorEnd, maxErrors, cmds, end).receiver
               == Tracing(if a.ended then a.entries else a.entries + (b.entries + Ending(b, end)))
            && Full(honorEnd, maxErrors, cmds, end).status == StatusAfter(a.ended || b.ended, end)
            && Resumed(honorEnd, maxErrors, cmds, k, end).receiver == Tracing(r.entries + Ending(r, end))
            && Resumed(honorEnd, maxErrors, cmds, k, end).status == StatusAfter(r.ended, end)
  {
    SplitCommands(cmds, k);
    hide AllCalls, AllWellFormed, LastOpened, Full, Cut, Resumed, Ending;
    CutRun(honorEnd, maxErrors, cmds, k, e);
    FullRun(honorEnd, maxErrors, cmds[..k], cmds[k..], end);
    ResumedRun(honorEnd, maxErrors, cmds[..k], cmds[k..], end);
  }

  // The calls of a run cut off after k commands, then those of a run from offset k, are the calls of one full run,
  // each with the same current subvolume, and the last run ends as the full one does.
  lemma ResumeEquivalence(honorEnd: bool, maxErrors: int, cmds: seq<Command>, k: nat, end: Option<ScanError>,
      e: ScanError)
    requires k <= |cmds| && AllWellFormed(cmds) && !HasEnd(cmds[..k])
    ensures var full, cut, resumed := Full(honorEnd, maxErrors, cmds, end), Cut(honorEnd, maxErrors, cmds, k, e),
                                      Resumed(honorEnd, maxErrors, cmds, k, end);
            && Trace(full) == Trace(cut) + Trace(resumed)
            && full.status == resumed.status
  {
    hide AllCalls, Run, LastOpened, WellFormed, Ending;
    SplitCommands(cmds, k);
    ThreeRuns(honorEnd, maxErrors, cmds, k, end, e);
    NoEndKeepsOpen(honorEnd, None, cmds[..k]);
  }

  // ---- and exactly when

  // Skipping agrees with running on which subvolume is current.
  predicate SeekAgrees(honorEnd: bool, skipped: seq<Command>) {
    if honorEnd then !HasEnd(skipped)
    else
      forall j | 0 <= j < |skipped| && skipped[j].cmd == CMD_END ::
        exists i | j < i < |skipped| :: IsOpen(skipped[i].cmd)
  }

  lemma {:induction false} CurrentAfter(subvol: Option<SubvolInfo>, cmds: seq<Command>)
    requires AllWellFormed(cmds)
    ensures var k := AllCalls(false, subvol, cmds);
            && !k.ended
            && (SeekAgrees(false, cmds) ==> k.subvol == LastOpened(subvol, cmds))
            && (!SeekAgrees(false, cmds) ==> k.subvol == None)
    decreases |cmds|
  {
    hide Subvolume;
    if cmds != [] {
      var n := |cmds| - 1;
      var last := cmds[n];
      SplitCommands(cmds, n);
      assert cmds[n..] == [last] && WellFormed(last);
      CurrentAfter(subvol, cmds[..n]);
      CallsConcat(false, subvol, cmds[..n], [last]);
      OpenedConcat(subvol, cmds[..n], [last]);
      AgreesLast(cmds);
    }
  }

  lemma OpenLast(cmds: seq<Command>)
    requires cmds != [] && IsOpen(cmds[|cmds| - 1].cmd)
    ensures SeekAgrees(false, cmds)
  {
    var n := |cmds| - 1;
    forall j | 0 <= j < |cmds| && cmds[j].cmd == CMD_END ensures exists i | j < i < |cmds| :: IsOpen(cmds[i].cmd) {
      assert j < n && IsOpen(cmds[n].cmd);
    }
  }

  lemma AgreesLast(cmds: seq<Command>)
    requires cmds != []
    ensures var n := |cmds| - 1;
            SeekAgrees(false, cmds) <==> IsOpen(cmds[n].cmd) || (cmds[n].cmd != CMD_END && SeekAgrees(false, cmds[..n]))
  {
    var n := |cmds| - 1;
    if IsOpen(cmds[n].cmd) {
      assert IsOpen(cmds[n].cmd) && SeekAgrees(false, cmds) by { OpenLast(cmds); }
    } else if cmds[n].cmd != CMD_END {
      if SeekAgrees(false, cmds) {
        forall j | 0 <= j < n && cmds[..n][j].cmd == CMD_END ensures exists i | j < i < n :: IsOpen(cmds[..n][i].cmd) {
          var i :| j < i < |cmds| && IsOpen(cmds[i].cmd);
          assert IsOpen(cmds[..n][i].cmd);
        }
      }
      if SeekAgrees(false, cmds[..n]) {
        forall j | 0 <= j < |cmds| && cmds[j].cmd == CMD_END ensures exists i | j < i < |cmds| :: IsOpen(cmds[i].cmd) {
          assert cmds[..n][j].cmd == CMD_END;
          var i :| j < i < n && IsOpen(cmds[..n][i].cmd);
          assert IsOpen(cmds[i].cmd);
        }
      }
    }
  }

  lemma {:induction false} OpenedConcat(subvol: Option<SubvolInfo>, a: seq<Command>, b: seq<Command>)
    requires AllWellFormed(a) && AllWellFormed(b)
    ensures AllWellFormed(a + b) && LastOpened(subvol, a + b) == LastOpened(LastOpened(subvol, a), b)
    decreases |a|
  {
    hide Subvolume, WellFormed;
    if a == [] {
      assert a + b == b;
    } else {
      assert (a + b)[1..] == a[1..] + b;
      assert WellFormed(a[0]);
      OpenedConcat(if IsOpen(a[0].cmd) then Some(OpenInfo(a[0])) else subvol, a[1..], b);
    }
  }

  // After a first command that opens a subvolume, one stays open until an END.
  lemma {:induction false} StaysOpen(honorEnd: bool, subvol: Option<SubvolInfo>, cmds: seq<Command>)
    requires AllWellFormed(cmds) && (subvol != None || (cmds != [] && IsOpen(cmds[0].cmd)))
    ensures honorEnd ==> AllCalls(honorEnd, subvol, cmds).subvol != None
    ensures LastOpened(subvol, cmds) != None
    ensures honorEnd && HasEnd(cmds) ==> AllCalls(honorEnd, subvol, cmds).ended
    decreases |cmds|
  {
    hide Subvolume;
    if cmds != [] {
      assert WellFormed(cmds[0]);
      var s := if IsOpen(cmds[0].cmd) then Some(OpenInfo(cmds[0])) else subvol;
      StaysOpen(honorEnd, s, cmds[1..]);
      assert cmds == [cmds[0]] + cmds[1..];
    }
  }

  // With different current subvolumes the rest of a stream makes different calls.
  lemma {:induction false} RestDiffers(honorEnd: bool, s: Option<SubvolInfo>, t: SubvolInfo, rest: seq<Command>)
    requires AllWellFormed(rest) && s == None
    ensures var b, r := AllCalls(honorEnd, s, rest), AllCalls(honorEnd, Some(t), rest);
            b.entries + Ending(b, None) != r.entries + Ending(r, None)
  {
    hide Subvolume, EnsureAttrs, Required;
    var b, r := AllCalls(honorEnd, s, rest), AllCalls(honorEnd, Some(t), rest);
    if rest != [] {
      assert WellFormed(rest[0]);
      var x, y := CallsOf(honorEnd, s, rest[0]), CallsOf(honorEnd, Some(t), rest[0]);
      assert (r.entries + Ending(r, None))[0] == y.entries[0];
      if x.entries != [] {
        assert (b.entries + Ending(b, None))[0] == x.entries[0];
        assert x.entries[0] != y.entries[0];
      }
    }
  }

  // For a complete stream that starts by opening a subvolume, resuming at k is equivalent to one full run exactly
  // when skipping the first k commands leaves the subvolume current that running them would.
  lemma ResumeExactly(honorEnd: bool, maxErrors: int, cmds: seq<Command>, k: nat, e: ScanError)
    requires k <= |cmds| && AllWellFormed(cmds) && cmds != [] && IsOpen(cmds[0].cmd)
    ensures Trace(Full(honorEnd, maxErrors, cmds, None))
            == Trace(Cut(honorEnd, maxErrors, cmds, k, e)) + Trace(Resumed(honorEnd, maxErrors, cmds, k, None))
            <==> SeekAgrees(honorEnd, cmds[..k])
  {
    hide AllCalls, Run, LastOpened, WellFormed, Ending;
    var a, b := cmds[..k], cmds[k..];
    SplitCommands(cmds, k);
    ThreeRuns(honorEnd, maxErrors, cmds, k, None, e);
    if k == 0 {
      NoCommands(honorEnd);
    } else {
      StaysOpen(honorEnd, None, a);
      if honorEnd && HasEnd(a) {
        EndingNonempty(LastOpened(None, a), b);
      } else if honorEnd {
        NoEndKeepsOpen(honorEnd, None, a);
      } else {
        CurrentAfter(None, a);
        if !SeekAgrees(false, a) {
          var t := LastOpened(None, a).value;
          RestDiffers(false, None, t, b);
          var x, y := AllCalls(false, None, b), AllCalls(false, Some(t), b);
          SamePrefix(AllCalls(false, None, a).entries, x.entries + Ending(x, None), y.entries + Ending(y, None));
        }
      }
    }
  }

  lemma SamePrefix(p: seq<Entry>, x: seq<Entry>, y: seq<Entry>)
    ensures p + x == p + y ==> x == y
  {
    assert (p + x)[|p|..] == x && (p + y)[|p|..] == y;
  }

  lemma {:induction false} NoCommands(honorEnd: bool)
    ensures AllWellFormed([]) && AllCalls(honorEnd, None, []) == Calls([], None, false) && LastOpened(None, []) == None
  {
  }

  lemma {:induction false} EndingNonempty(subvol: Option<SubvolInfo>, rest: seq<Command>)
    requires AllWellFormed(rest) && subvol != None
    ensures var r := AllCalls(true, subvol, rest); r.entries + Ending(r, None) != []
  {
    if rest != [] {
      assert WellFormed(rest[0]);
    }
  }

  // ---- brackets

  // A sequence of groups: an opening call, operations on that subvolume, its finish. `subvol` is the one open.
  predicate Bracketed(trace: seq<Entry>, subvol: Option<SubvolInfo>) {
    if trace == [] then subvol == None
    else
      var e := trace[0];
      match e.call
      case Open(_, info) => subvol == None && e.subvol == Some(info) && Bracketed(trace[1..], Some(info))
      case Op(_, _) => subvol != None && e.subvol == subvol && Bracketed(trace[1..], subvol)
      case Finish => subvol != None && e.subvol == subvol && Bracketed(trace[1..], None)
  }

  function Opened(trace: seq<Entry>): seq<Option<SubvolInfo>> {
    if trace == [] then []
    else (if trace[0].call.Open? then [trace[0].subvol] else []) + Opened(trace[1..])
  }

  function Finished(trace: seq<Entry>): seq<Option<SubvolInfo>> {
    if trace == [] then []
    else (if trace[0].call.Finish? then [trace[0].subvol] else []) + Finished(trace[1..])
  }

  // In a bracketed trace the subvolumes finished are those opened, each once and in order.
  lemma {:induction false} BracketedBalance(trace: seq<Entry>, subvol: Option<SubvolInfo>)
    requires Bracketed(trace, subvol)
    ensures Finished(trace) == (if subvol == None then [] else [subvol]) + Opened(trace)
  {
    if trace != [] {
      match trace[0].call
      case Open(_, info) => BracketedBalance(trace[1..], Some(info));
      case Op(_, _) => BracketedBalance(trace[1..], subvol);
      case Finish => BracketedBalance(trace[1..], None);
    }
  }

  // The subvolumes opened by the commands before the first END.
  ghost function OpensBeforeEnd(cmds: seq<Command>): seq<Option<SubvolInfo>>
    requires AllWellFormed(cmds)
  {
    if cmds == [] || cmds[0].cmd == CMD_END then []
    else
      assert WellFormed(cmds[0]);
      (if IsOpen(cmds[0].cmd) then [Some(OpenInfo(cmds[0]))] else []) + OpensBeforeEnd(cmds[1..])
  }

  // One command's calls before a bracketed rest.
  lemma {:induction false} BracketExtended(subvol: Option<SubvolInfo>, cmd: Command, rest: seq<Entry>)
    requires WellFormed(cmd) && cmd.cmd != CMD_END && (subvol != None || IsOpen(cmd.cmd))
    requires Bracketed(rest, CallsOf(true, subvol, cmd).subvol)
    ensures var all := CallsOf(true, subvol, cmd).entries + rest;
            && Bracketed(all, subvol)
            && Opened(all) == (if IsOpen(cmd.cmd) then [Some(OpenInfo(cmd))] else []) + Opened(rest)
  {
    hide Subvolume, EnsureAttrs, Required, DecodeCommand;
    var first := CallsOf(true, subvol, cmd).entries;
    var all := first + rest;
    if IsOpen(cmd.cmd) && subvol != None {
      assert all[1..][1..] == rest;
      assert all[1..][0] == first[1];
    } else {
      assert all[1..] == rest;
    }
  }

  lemma {:induction false} CallsBracketed(subvol: Option<SubvolInfo>, cmds: seq<Command>)
    requires AllWellFormed(cmds) && HasEnd(cmds) && (subvol != None || IsOpen(cmds[0].cmd))
    ensures var k := AllCalls(true, subvol, cmds);
            k.ended && Bracketed(k.entries, subvol) && Opened(k.entries) == OpensBeforeEnd(cmds)
    decreases |cmds|
  {
    hide Subvolume, EnsureAttrs, Required, DecodeCommand, Bracketed, Opened;
    var cmd := cmds[0];
    assert WellFormed(cmd);
    assert cmds == [cmd] + cmds[1..];
    if cmd.cmd == CMD_END {
      EndBrackets(subvol);
    } else {
      var s := CallsOf(true, subvol, cmd).subvol;
      CallsBracketed(s, cmds[1..]);
      BracketExtended(subvol, cmd, AllCalls(true, s, cmds[1..]).entries);
    }
  }

  lemma {:induction false} EndBrackets(subvol: Option<SubvolInfo>)
    ensures Bracketed(FinishOpen(subvol), subvol) && Opened(FinishOpen(subvol)) == []
  {
  }

  // A stream with an END, honoured, that starts by opening a subvolume: its run ends without error, its calls are
  // bracketed, and what is opened and finished is exactly what the commands before END name.
  lemma {:induction false} SubvolumeBracketing(maxErrors: int, cmds: seq<Command>, end: Option<ScanError>)
    requires AllWellFormed(cmds) && HasEnd(cmds) && IsOpen(cmds[0].cmd)
    ensures var full := Full(true, maxErrors, cmds, end);
            && full.status == Returned(None)
            && Bracketed(Trace(full), None)
            && Opened(Trace(full)) == OpensBeforeEnd(cmds) == Finished(Trace(full))
  {
    hide Run;
    RunCalls(Options(0, true, maxErrors), StartCtx(Tracing([])), cmds, end);
    CallsBracketed(None, cmds);
    var k := AllCalls(true, None, cmds);
    hide AllCalls;
    assert [] + k.entries + [] == k.entries;
    BracketedBalance(k.entries, None);
  }

  // ---- the error budget

  // The number of commands that their handlers reject, up to an honoured END.
  ghost function Rejected(honorEnd: bool, cmds: seq<Command>): nat {
    if cmds == [] then 0
    else
      var earlier, cmd := cmds[..|cmds| - 1], cmds[|cmds| - 1];
      Rejected(honorEnd, earlier) + if (honorEnd && HasEnd(earlier)) || WellFormed(cmd) then 0 else 1
  }

  // Decoding the command panics.
  ghost predicate CutShort(cmd: Command) {
    HasHandler(cmd.cmd) && EnsureAttrs(cmd.attrs, Required(cmd.cmd)) && DecodeCommand(cmd) == TooShort
  }

  lemma StepCounts(o: Options, c: Ctx, cmd: Command)
    requires c.status == Running && c.receiver.Tracing? && o.startOffset <= c.offset
    ensures var c1 := Step(o, c, cmd);
            && c1.receiver.Tracing? && c1.offset >= c.offset
            && (c1.status == Panicked <==> CutShort(cmd))
            && (!CutShort(cmd) ==>
                  && c1.errors == c.errors + (if WellFormed(cmd) then 0 else 1)
                  && c1.status == if !WellFormed(cmd) && c.errors + 1 >= o.maxErrors
                                  then Returned(Some(MaxErrors(Failure)))
                                  else if o.honorEnd && cmd.cmd == CMD_END then Returned(None) else Running)
  {
    hide Required, EnsureAttrs, Subvolume, DecodeCommand;
  }

  // The run goes on to the command after these: none panics, the budget lasts, and no END is honoured.
  ghost predicate Reaches(o: Options, cmds: seq<Command>) {
    !(o.honorEnd && HasEnd(cmds)) && !(0 < Rejected(o.honorEnd, cmds) && o.maxErrors <= Rejected(o.honorEnd, cmds))
  }

  // Decoding panics at some command before the budget is reached and before an END is honoured.
  ghost predicate Panics(o: Options, cmds: seq<Command>) {
    exists i | 0 <= i < |cmds| :: CutShort(cmds[i]) && Reaches(o, cmds[..i])
  }

  lemma PanicsNext(o: Options, cmds: seq<Command>)
    requires cmds != []
    ensures var n := |cmds| - 1;
            Panics(o, cmds) <==> Panics(o, cmds[..n]) || (CutShort(cmds[n]) && Reaches(o, cmds[..n]))
  {
    hide CutShort, Reaches;
    var n := |cmds| - 1;
    assert forall i | 0 <= i < n :: cmds[..n][..i] == cmds[..i];
    if i :| 0 <= i < n && CutShort(cmds[i]) && Reaches(o, cmds[..i]) {
      assert CutShort(cmds[..n][i]) && Reaches(o, cmds[..n][..i]);
    }
    if i :| 0 <= i < n && CutShort(cmds[..n][i]) && Reaches(o, cmds[..n][..i]) {
      assert CutShort(cmds[i]) && Reaches(o, cmds[..i]);
    }
  }

  // What becomes of a run, from its commands alone: it panics, a rejected command reaches the budget and ends it, an
  // honoured END does, or it goes on. A budget of zero or less is a budget of one.
  ghost predicate Budgeted(o: Options, cmds: seq<Command>, c: Ctx) {
    var n := Rejected(o.honorEnd, cmds);
    if Panics(o, cmds) then c.status == Panicked
    else if 0 < n && o.maxErrors <= n then
      c.status == Returned(Some(MaxErrors(Failure))) && c.errors == if o.maxErrors < 1 then 1 else o.maxErrors
    else
      c.errors == n && c.status == if o.honorEnd && HasEnd(cmds) then Returned(None) else Running
  }

  lemma {:induction false} ErrorBudget(o: Options, cmds: seq<Command>)
    requires o.startOffset == 0
    ensures var c := Steps(o, StartCtx(Tracing([])), cmds); c.receiver.Tracing? && Budgeted(o, cmds, c)
    decreases |cmds|
  {
    hide Step, WellFormed, CutShort, Panics;
    if cmds == [] {
      assert !Panics(o, cmds) by { NothingPanics(o); }
    } else {
      var n := |cmds| - 1;
      var earlier, cmd := cmds[..n], cmds[n];
      assert cmds == earlier + [cmd];
      ErrorBudget(o, earlier);
      var c := Steps(o, StartCtx(Tracing([])), earlier);
      StepsNext(o, StartCtx(Tracing([])), earlier, cmd);
      PanicsNext(o, cmds);
      assert HasEnd(cmds) <==> HasEnd(earlier) || cmd.cmd == CMD_END;
      assert cmd.cmd == CMD_END ==> WellFormed(cmd) by { EndWellFormed(cmd); }
      if c.status == Running {
        StepCounts(o, c, cmd);
      } else {
        StepsEnded(o, c, [cmd]);
        OneStep(o, c, cmd);
      }
    }
  }

  lemma NothingPanics(o: Options)
    ensures !Panics(o, [])
  {
  }

  // A run panics if and only if such a command is there.
  lemma {:induction false} PanicsExactly(o: Options, cmds: seq<Command>)
    requires o.startOffset == 0
    ensures Steps(o, StartCtx(Tracing([])), cmds).status == Panicked <==> Panics(o, cmds)
  {
    hide Steps, Panics, Rejected, HasEnd;
    ErrorBudget(o, cmds);
  }

  lemma EndWellFormed(cmd: Command)
    ensures cmd.cmd == CMD_END ==> WellFormed(cmd)
  {
  }
}
