/**
  The handlers on the numbers of the format: which commands are accepted, which panic, and what opening a subvolume
  tells the receiver, attribute by attribute.
  */
module Handlers {
  import opened Commands
  import opened Crc32c
  import opened LittleEndian
  import opened Receive
  import opened Resume
  import opened Wrappers

  // ---- which commands are accepted, command by command, on the numbers of the format

  predicate Has(a: CmdAttrs, keys: set<uint16>) { keys <= a.Keys }

  // An integer of n bytes, and an optional one.
  predicate Wide(a: CmdAttrs, k: uint16, n: nat) { k in a && |a[k]| >= n }

  predicate NoneOrWide(a: CmdAttrs, k: uint16, n: nat) { k !in a || a[k] == [] || |a[k]| >= n }

  predicate IsId(a: CmdAttrs, k: uint16) { k in a && |a[k]| == 16 }

  predicate Accepts(cmd: Command) {
    var a := cmd.attrs;
    match cmd.cmd
    case 1 => Has(a, {15}) && IsId(a, 1) && Wide(a, 2, 8)
    case 2 => Has(a, {15}) && IsId(a, 1) && Wide(a, 2, 8) && IsId(a, 20) && Wide(a, 21, 8)
    case 3 => Has(a, {15}) && Wide(a, 3, 8)
    case 4 => Has(a, {15}) && Wide(a, 3, 8)
    case 5 => Has(a, {15}) && Wide(a, 3, 8) && Wide(a, 5, 4) && Wide(a, 8, 8)
    case 6 => Has(a, {15}) && Wide(a, 3, 8)
    case 7 => Has(a, {15}) && Wide(a, 3, 8)
    case 8 => Has(a, {15, 17}) && Wide(a, 3, 8)
    case 9 => Has(a, {15, 16})
    case 10 => Has(a, {15, 17})
    case 11 => Has(a, {15})
    case 12 => Has(a, {15})
    case 13 => Has(a, {15, 13, 14})
    case 14 => Has(a, {15, 13})
    case 15 => Has(a, {15, 19}) && Wide(a, 18, 8)
    case 16 => Has(a, {15, 22}) && Wide(a, 18, 8) && Wide(a, 24, 8) && IsId(a, 20) && Wide(a, 21, 8) && Wide(a, 23, 8)
    case 17 => Has(a, {15}) && Wide(a, 4, 8)
    case 18 => Has(a, {15}) && Wide(a, 5, 8)
    case 19 => Has(a, {15}) && Wide(a, 6, 8) && Wide(a, 7, 8)
    case 20 => Has(a, {15}) && Wide(a, 9, 12) && Wide(a, 10, 12) && Wide(a, 11, 12)
    case 21 => true
    case 22 => Has(a, {15}) && Wide(a, 18, 8) && Wide(a, 4, 8)
    case 23 => Has(a, {15}) && Wide(a, 25, 4) && Wide(a, 18, 8) && Wide(a, 4, 8)
    case 24 => Has(a, {15}) && Wide(a, 26, 4)
    case 25 => Has(a, {15, 19}) && Wide(a, 18, 8) && Wide(a, 27, 8) && Wide(a, 28, 8) && Wide(a, 29, 8)
               && NoneOrWide(a, 30, 4) && NoneOrWide(a, 31, 4)
    case 26 => Has(a, {15, 34, 35}) && Wide(a, 32, 1) && Wide(a, 33, 4)
    case _ => false
  }

  // Asking for a list of attributes is asking for each.

  lemma AskOne(a: CmdAttrs, keys: seq<uint16>, k: uint16)
    ensures EnsureAttrs(a, [k] + keys) <==> k in a && EnsureAttrs(a, keys)
  {
    assert k in [k] + keys;
    assert forall j <- keys :: j in [k] + keys;
  }

  lemma AskNone(a: CmdAttrs)
    ensures EnsureAttrs(a, [])
  {
  }

  // Decoding a list of needs is decoding the first, and if that is sound the others.
  lemma {:induction false} DecodeFirst(a: CmdAttrs, needs: seq<Need>, n: Need)
    ensures DecodeNeeds(a, [n] + needs) == if DecodeNeed(a, n) == Sound then DecodeNeeds(a, needs) else DecodeNeed(a, n)
  {
    assert ([n] + needs)[1..] == needs;
  }

  lemma Ask1(a: CmdAttrs, k1: uint16)
    ensures EnsureAttrs(a, [k1]) <==> k1 in a
  {
    hide EnsureAttrs;
    AskNone(a);
    AskOne(a, [], k1);
    assert [k1] + [] == [k1];
  }

  lemma Ask2(a: CmdAttrs, k1: uint16, k2: uint16)
    ensures EnsureAttrs(a, [k1, k2]) <==> k1 in a && k2 in a
  {
    hide EnsureAttrs;
    Ask1(a, k2);
    AskOne(a, [k2], k1);
    assert [k1] + [k2] == [k1, k2];
  }

  lemma Ask3(a: CmdAttrs, k1: uint16, k2: uint16, k3: uint16)
    ensures EnsureAttrs(a, [k1, k2, k3]) <==> k1 in a && k2 in a && k3 in a
  {
    hide EnsureAttrs;
    Ask2(a, k2, k3);
    AskOne(a, [k2, k3], k1);
    assert [k1] + [k2, k3] == [k1, k2, k3];
  }

  lemma Ask4(a: CmdAttrs, k1: uint16, k2: uint16, k3: uint16, k4: uint16)
    ensures EnsureAttrs(a, [k1, k2, k3, k4]) <==> k1 in a && k2 in a && k3 in a && k4 in a
  {
    hide EnsureAttrs;
    Ask3(a, k2, k3, k4);
    AskOne(a, [k2, k3, k4], k1);
    assert [k1] + [k2, k3, k4] == [k1, k2, k3, k4];
  }

  lemma Ask5(a: CmdAttrs, k1: uint16, k2: uint16, k3: uint16, k4: uint16, k5: uint16)
    ensures EnsureAttrs(a, [k1, k2, k3, k4, k5]) <==> k1 in a && k2 in a && k3 in a && k4 in a && k5 in a
  {
    hide EnsureAttrs;
    Ask4(a, k2, k3, k4, k5);
    AskOne(a, [k2, k3, k4, k5], k1);
    assert [k1] + [k2, k3, k4, k5] == [k1, k2, k3, k4, k5];
  }

  lemma Ask6(a: CmdAttrs, k1: uint16, k2: uint16, k3: uint16, k4: uint16, k5: uint16, k6: uint16)
    ensures EnsureAttrs(a, [k1, k2, k3, k4, k5, k6]) <==> k1 in a && k2 in a && k3 in a && k4 in a && k5 in a && k6 in a
  {
    hide EnsureAttrs;
    Ask5(a, k2, k3, k4, k5, k6);
    AskOne(a, [k2, k3, k4, k5, k6], k1);
    assert [k1] + [k2, k3, k4, k5, k6] == [k1, k2, k3, k4, k5, k6];
  }

  lemma Ask7(a: CmdAttrs, k1: uint16, k2: uint16, k3: uint16, k4: uint16, k5: uint16, k6: uint16, k7: uint16)
    ensures EnsureAttrs(a, [k1, k2, k3, k4, k5, k6, k7]) <==>
              k1 in a && k2 in a && k3 in a && k4 in a && k5 in a && k6 in a && k7 in a
  {
    hide EnsureAttrs;
    Ask6(a, k2, k3, k4, k5, k6, k7);
    AskOne(a, [k2, k3, k4, k5, k6, k7], k1);
    assert [k1] + [k2, k3, k4, k5, k6, k7] == [k1, k2, k3, k4, k5, k6, k7];
  }

  lemma {:induction false} Decode1(a: CmdAttrs, n1: Need)
    ensures DecodeNeeds(a, [n1]) ==
            if DecodeNeed(a, n1) != Sound then DecodeNeed(a, n1) else
            Sound
  {
    hide DecodeNeed;
    assert [n1][1..] == [];
  }

  lemma {:induction false} Decode2(a: CmdAttrs, n1: Need, n2: Need)
    ensures DecodeNeeds(a, [n1, n2]) ==
            if DecodeNeed(a, n1) != Sound then DecodeNeed(a, n1) else
            if DecodeNeed(a, n2) != Sound then DecodeNeed(a, n2) else
            Sound
  {
    hide DecodeNeed;
    Decode1(a, n2);
    DecodeFirst(a, [n2], n1);
    assert [n1] + [n2] == [n1, n2];
  }

  lemma {:induction false} Decode3(a: CmdAttrs, n1: Need, n2: Need, n3: Need)
    ensures DecodeNeeds(a, [n1, n2, n3]) ==
            if DecodeNeed(a, n1) != Sound then DecodeNeed(a, n1) else
            if DecodeNeed(a, n2) != Sound then DecodeNeed(a, n2) else
            if DecodeNeed(a, n3) != Sound then DecodeNeed(a, n3) else
            Sound
  {
    hide DecodeNeed;
    Decode2(a, n2, n3);
    DecodeFirst(a, [n2, n3], n1);
    assert [n1] + [n2, n3] == [n1, n2, n3];
  }

  lemma {:induction false} Decode4(a: CmdAttrs, n1: Need, n2: Need, n3: Need, n4: Need)
    ensures DecodeNeeds(a, [n1, n2, n3, n4]) ==
            if DecodeNeed(a, n1) != Sound then DecodeNeed(a, n1) else
            if DecodeNeed(a, n2) != Sound then DecodeNeed(a, n2) else
            if DecodeNeed(a, n3) != Sound then DecodeNeed(a, n3) else
            if DecodeNeed(a, n4) != Sound then DecodeNeed(a, n4) else
            Sound
  {
    hide DecodeNeed;
    Decode3(a, n2, n3, n4);
    DecodeFirst(a, [n2, n3, n4], n1);
    assert [n1] + [n2, n3, n4] == [n1, n2, n3, n4];
  }

  lemma {:induction false} Decode5(a: CmdAttrs, n1: Need, n2: Need, n3: Need, n4: Need, n5: Need)
    ensures DecodeNeeds(a, [n1, n2, n3, n4, n5]) ==
            if DecodeNeed(a, n1) != Sound then DecodeNeed(a, n1) else
            if DecodeNeed(a, n2) != Sound then DecodeNeed(a, n2) else
            if DecodeNeed(a, n3) != Sound then DecodeNeed(a, n3) else
            if DecodeNeed(a, n4) != Sound then DecodeNeed(a, n4) else
            if DecodeNeed(a, n5) != Sound then DecodeNeed(a, n5) else
            Sound
  {
    hide DecodeNeed;
    Decode4(a, n2, n3, n4, n5);
    DecodeFirst(a, [n2, n3, n4, n5], n1);
    assert [n1] + [n2, n3, n4, n5] == [n1, n2, n3, n4, n5];
  }

  lemma {:induction false} Decode6(a: CmdAttrs, n1: Need, n2: Need, n3: Need, n4: Need, n5: Need, n6: Need)
    ensures DecodeNeeds(a, [n1, n2, n3, n4, n5, n6]) ==
            if DecodeNeed(a, n1) != Sound then DecodeNeed(a, n1) else
            if DecodeNeed(a, n2) != Sound then DecodeNeed(a, n2) else
            if DecodeNeed(a, n3) != Sound then DecodeNeed(a, n3) else
            if DecodeNeed(a, n4) != Sound then DecodeNeed(a, n4) else
            if DecodeNeed(a, n5) != Sound then DecodeNeed(a, n5) else
            if DecodeNeed(a, n6) != Sound then DecodeNeed(a, n6) else
            Sound
  {
    hide DecodeNeed;
    Decode5(a, n2, n3, n4, n5, n6);
    DecodeFirst(a, [n2, n3, n4, n5, n6], n1);
    assert [n1] + [n2, n3, n4, n5, n6] == [n1, n2, n3, n4, n5, n6];
  }

  lemma {:induction false} NoNeeds(a: CmdAttrs)
    ensures DecodeNeeds(a, []) == Sound
  {
  }

  // Decoding a command panics when it has all attributes and a short integer is met before a bad id.
  predicate Short(cmd: Command)
    requires HasHandler(cmd.cmd) && EnsureAttrs(cmd.attrs, Required(cmd.cmd))
  {
    var a := cmd.attrs;
    !Accepts(cmd) &&
    match cmd.cmd
    case 1 => |AttrOrEmpty(a, 2)| < 8
    case 2 => |AttrOrEmpty(a, 1)| == 16
              && (|AttrOrEmpty(a, 2)| < 8 || (|AttrOrEmpty(a, 20)| == 16 && |AttrOrEmpty(a, 21)| < 8))
    case 16 => |AttrOrEmpty(a, 20)| == 16
    case 20 => false
    case _ => true
  }

  lemma {:induction false} AcceptedCreating(cmd: Command)
    requires cmd.cmd <= 8
    ensures WellFormed(cmd) <==> Accepts(cmd)
    ensures CutShort(cmd) <==> HasHandler(cmd.cmd) && EnsureAttrs(cmd.attrs, Required(cmd.cmd)) && Short(cmd)
  {
    hide EnsureAttrs, DecodeNeeds;
    var a := cmd.attrs;
    match cmd.cmd
    case 1 =>
      Ask3(a, 15, 1, 2);
      Decode2(a, Integer(2, 8), Id(1));
    case 2 =>
      Ask5(a, 15, 1, 2, 20, 21);
      Decode4(a, Id(1), Integer(2, 8), Id(20), Integer(21, 8));
    case 3 =>
      Ask2(a, 15, 3);
      Decode1(a, Integer(3, 8));
    case 4 =>
      Ask2(a, 15, 3);
      Decode1(a, Integer(3, 8));
    case 5 =>
      Ask4(a, 15, 3, 5, 8);
      Decode3(a, Integer(3, 8), Integer(5, 4), Integer(8, 8));
    case 6 =>
      Ask2(a, 15, 3);
      Decode1(a, Integer(3, 8));
    case 7 =>
      Ask2(a, 15, 3);
      Decode1(a, Integer(3, 8));
    case 8 =>
      Ask3(a, 15, 3, 17);
      Decode1(a, Integer(3, 8));
    case _ =>
  }

  lemma {:induction false} AcceptedChanging(cmd: Command)
    requires 8 < cmd.cmd <= 19
    ensures WellFormed(cmd) <==> Accepts(cmd)
    ensures CutShort(cmd) <==> HasHandler(cmd.cmd) && EnsureAttrs(cmd.attrs, Required(cmd.cmd)) && Short(cmd)
  {
    hide EnsureAttrs, DecodeNeeds;
    var a := cmd.attrs;
    match cmd.cmd
    case 9 =>
      Ask2(a, 15, 16);
      NoNeeds(a);
    case 10 =>
      Ask2(a, 15, 17);
      NoNeeds(a);
    case 11 =>
      Ask1(a, 15);
      NoNeeds(a);
    case 12 =>
      Ask1(a, 15);
      NoNeeds(a);
    case 13 =>
      Ask3(a, 15, 13, 14);
      NoNeeds(a);
    case 14 =>
      Ask2(a, 15, 13);
      NoNeeds(a);
    case 15 =>
      Ask3(a, 15, 18, 19);
      Decode1(a, Integer(18, 8));
    case 16 =>
      Ask7(a, 15, 18, 24, 20, 21, 22, 23);
      Decode5(a, Id(20), Integer(18, 8), Integer(24, 8), Integer(21, 8), Integer(23, 8));
    case 17 =>
      Ask2(a, 15, 4);
      Decode1(a, Integer(4, 8));
    case 18 =>
      Ask2(a, 15, 5);
      Decode1(a, Integer(5, 8));
    case 19 =>
      Ask3(a, 15, 6, 7);
      Decode2(a, Integer(6, 8), Integer(7, 8));
    case _ =>
  }

  lemma {:induction false} AcceptedOther(cmd: Command)
    requires 19 < cmd.cmd
    ensures WellFormed(cmd) <==> Accepts(cmd)
    ensures CutShort(cmd) <==> HasHandler(cmd.cmd) && EnsureAttrs(cmd.attrs, Required(cmd.cmd)) && Short(cmd)
  {
    hide EnsureAttrs, DecodeNeeds;
    var a := cmd.attrs;
    match cmd.cmd
    case 20 =>
      Ask4(a, 15, 11, 10, 9);
      Decode3(a, Time(11), Time(10), Time(9));
    case 22 =>
      Ask3(a, 15, 18, 4);
      Decode2(a, Integer(18, 8), Integer(4, 8));
    case 23 =>
      Ask4(a, 15, 25, 18, 4);
      Decode3(a, Integer(25, 4), Integer(18, 8), Integer(4, 8));
    case 24 =>
      Ask2(a, 15, 26);
      Decode1(a, Integer(26, 4));
    case 25 =>
      Ask6(a, 15, 18, 27, 28, 29, 19);
      Decode6(a, Integer(18, 8), Integer(27, 8), Integer(28, 8), Integer(29, 8), OptionalInteger(30, 4),
          OptionalInteger(31, 4));
    case 26 =>
      Ask5(a, 15, 32, 33, 34, 35);
      Decode2(a, Integer(33, 4), Integer(32, 1));
    case _ =>
  }

  // The tables of the handlers against these, command by command.
  lemma AcceptedExactly(cmd: Command)
    ensures WellFormed(cmd) <==> Accepts(cmd)
    ensures CutShort(cmd) <==> HasHandler(cmd.cmd) && EnsureAttrs(cmd.attrs, Required(cmd.cmd)) && Short(cmd)
  {
    hide WellFormed, Accepts, Short, CutShort, EnsureAttrs, Required;
    if cmd.cmd <= 8 {
      AcceptedCreating(cmd);
    } else if cmd.cmd <= 19 {
      AcceptedChanging(cmd);
    } else {
      AcceptedOther(cmd);
    }
  }

  // ---- opening a subvolume

  // What becomes the current subvolume and what the receiver is told, on the attributes themselves: 15 is the path,
  // 1 the UUID, 2 the transaction id.
  lemma OpenedSubvolume(o: Options, c: Ctx, cmd: Command)
    requires c.status == Running && c.receiver.Tracing? && o.startOffset <= c.offset && WellFormed(cmd)
    requires cmd.cmd == 1 || cmd.cmd == 2
    ensures 15 in cmd.attrs && 1 in cmd.attrs && 2 in cmd.attrs && |cmd.attrs[1]| == 16 && |cmd.attrs[2]| >= 8
    ensures var c1 := Step(o, c, cmd);
            && c1.status == Running && c1.subvol.Some? && c1.receiver.Tracing? && c1.receiver.trace != []
            && c1.subvol.value.path == cmd.attrs[15]
            && c1.subvol.value.uuid == cmd.attrs[1]
            && c1.subvol.value.ctransid == cmd.attrs[2][..8]
            && var last := c1.receiver.trace[|c1.receiver.trace| - 1];
            && last.subvol == c1.subvol && last.call == Open(cmd.cmd, c1.subvol.value)
  {
    AcceptedExactly(cmd);
    StepMakesCalls(o, c, cmd);
    hide Step, WellFormed, Accepts;
  }

  // The same when the command is skipped on the way to the start offset, without a call.
  lemma SkippedSubvolume(o: Options, c: Ctx, cmd: Command)
    requires c.status == Running && o.startOffset > c.offset && WellFormed(cmd) && (cmd.cmd == 1 || cmd.cmd == 2)
    ensures 15 in cmd.attrs && 1 in cmd.attrs && 2 in cmd.attrs && |cmd.attrs[2]| >= 8
    ensures var c1 := Step(o, c, cmd);
            && c1.status == Running && c1.subvol.Some? && c1.receiver == c.receiver && c1.offset == c.offset + 1
            && c1.subvol.value.path == cmd.attrs[15]
            && c1.subvol.value.uuid == cmd.attrs[1]
            && c1.subvol.value.ctransid == cmd.attrs[2][..8]
  {
    AcceptedExactly(cmd);
    hide WellFormed;
  }

  function Attr(cmd: Command, k: uint16): seq<byte> {
    if k in cmd.attrs then cmd.attrs[k] else []
  }

  // A skipped Subvol or Snapshot is not asked for its attributes; it panics without a transaction id and ends the run
  // without a UUID.
  lemma SkippedDefects(o: Options, c: Ctx, cmd: Command)
    requires c.status == Running && o.startOffset > c.offset && (cmd.cmd == 1 || cmd.cmd == 2)
    ensures var c1 := Step(o, c, cmd);
            && c1.receiver == c.receiver
            && (c1.status == Panicked <==> |Attr(cmd, 2)| < 8)
            && (c1.status == Returned(Some(BadUuid)) <==> |Attr(cmd, 2)| >= 8 && |Attr(cmd, 1)| != 16)
  {
  }

  // A rejected Subvol or Snapshot: without its attributes nothing happens to what is open; with them, but with an id
  // that does not decode, what is open has been finished before.
  lemma RejectedOpen(o: Options, c: Ctx, cmd: Command)
    requires c.status == Running && c.receiver.Tracing? && o.startOffset <= c.offset
    requires (cmd.cmd == 1 || cmd.cmd == 2) && !WellFormed(cmd)
    ensures var c1, a := Step(o, c, cmd), cmd.attrs;
            && c1.receiver.Tracing?
            && if 15 in a && 1 in a && 2 in a && (cmd.cmd == 2 ==> 20 in a && 21 in a) then
                 c1.subvol == None
                 && c1.receiver.trace == c.receiver.trace + if c.subvol == None then [] else [Entry(Finish, c.subvol)]
               else c1.subvol == c.subvol && c1.receiver == c.receiver
  {
    hide DecodeCommand, Subvolume, EnsureAttrs;
    Ask3(cmd.attrs, 15, 1, 2);
    Ask5(cmd.attrs, 15, 1, 2, 20, 21);
    assert c.receiver.trace + [] == c.receiver.trace;
  }

  // ---- what the receiver decides

  // Where the directory receiver's record lies ahead, any command, END too, only moves the offset.
  lemma CoveredCommand(o: Options, c: Ctx, cmd: Command)
    requires c.status == Running && o.startOffset <= c.offset
    requires c.receiver.Directory? && c.offset < c.receiver.dir.currentOffset
    ensures Step(o, c, cmd) == c.(offset := c.offset + 1)
  {
  }

  // If the open subvolume cannot be finished, it stays open and the new one is not opened.
  lemma UnfinishedStaysOpen(o: Options, c: Ctx, cmd: Command)
    requires c.status == Running && o.startOffset <= c.offset && (cmd.cmd == 1 || cmd.cmd == 2)
    requires c.receiver.Directory? && c.receiver.dir.currentOffset <= c.offset && c.receiver.dir.fuel == 0
    requires c.subvol != None
    ensures var c1 := Step(o, c, cmd);
            && c1.subvol == c.subvol && c1.receiver == c.receiver && c1.errors > c.errors
            && c1.status != Panicked
  {
    hide EnsureAttrs, DecodeCommand, Subvolume;
  }
}
