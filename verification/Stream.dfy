/**
  Whole streams: the Writer and the Scanner as classes, and what scanning a written stream, a part of one,
  or a damaged one delivers.
  */
module Streams {
  import opened Commands
  import opened Crc32c
  import opened LittleEndian
  import opened Wrappers

  // "btrfs-stream" and a zero byte, then the protocol version.
  const MAGIC: seq<byte> := [98, 116, 114, 102, 115, 45, 115, 116, 114, 101, 97, 109, 0]
  const VERSION: uint32 := 2

  function StreamHeader(): (r: seq<byte>)
    ensures |r| == 17
  {
    MAGIC + PutUint32(VERSION)
  }

  // ---- writing

  // A command as it was handed to the Writer, with the order in which its map was iterated.
  datatype Written = Written(cmd: uint16, attrs: CmdAttrs, order: seq<uint16>)
  {
    ghost predicate Valid() { IterationOrder(order, attrs) }

    function Data(): seq<byte>
      requires Valid()
    {
      EncodedBytes(attrs, order)
    }

    function Header(): CmdHeader
      requires Valid()
    {
      var h := CmdHeader(Wrap32(|Data()|), cmd, 0);
      h.(crc := CommandChecksum(h, Data()))
    }

    function Bytes(): seq<byte>
      requires Valid()
    {
      Pack(Header()) + Data()
    }
  }

  class Writer {
    var output: seq<byte>
    var headerSent: bool

    constructor ()
      ensures output == [] && !headerSent
    {
      output := [];
      headerSent := false;
    }

    // Fails, without writing, when the header was already sent.
    method SendHeader() returns (ok: bool)
      modifies this
      ensures ok == !old(headerSent)
      ensures headerSent
      ensures output == old(output) + if old(headerSent) then [] else StreamHeader()
    {
      if headerSent {
        return false;
      }
      output := output + (MAGIC + PutUint32(VERSION));
      headerSent := true;
      ok := true;
    }

    method WriteCommand(cmd: uint16, attrs: CmdAttrs, order: seq<uint16>)
      requires IterationOrder(order, attrs)
      modifies this
      ensures headerSent
      ensures output == old(output) + (if old(headerSent) then [] else StreamHeader())
                        + Written(cmd, attrs, order).Bytes()
    {
      hide Checksum, Pack, EncodedBytes, StreamHeader;
      if !headerSent {
        var _ := SendHeader();
      }
      var len := BinarySize(attrs, order);
      var data := Encode(attrs, order);
      var header := CmdHeader(len, cmd, 0);
      var crc := CalculateCrc32(header, data);
      header := header.(crc := crc);
      assert header == Written(cmd, attrs, order).Header();
      output := output + Pack(header);
      output := output + data;
    }

    method End()
      modifies this
      ensures headerSent
      ensures output == old(output) + (if old(headerSent) then [] else StreamHeader())
                        + Written(CMD_END, map[], []).Bytes()
    {
      hide StreamHeader, Written.Bytes;
      if !headerSent {
        var _ := SendHeader();
      }
      assert IterationOrder([], map[]);
      WriteCommand(CMD_END, map[], []);
    }
  }

  // ---- scanning

  datatype Read = Got(bytes: seq<byte>, rest: seq<byte>) | Short(error: ScanError)

  // Reading exactly n bytes. A reader with no bytes at all reports EOF, one that ends midway UnexpectedEOF.
  function ReadFull(input: seq<byte>, n: nat): Read {
    if n <= |input| then Got(input[..n], input[n..])
    else if input == [] then Short(EOF) else Short(UnexpectedEOF)
  }

  datatype CommandRead =
    | Command(hdr: CmdHeader, attrs: CmdAttrs, rest: seq<byte>)
    | Failed(error: ScanError, rest: seq<byte>)

  function ReadCommand(input: seq<byte>, ignoreChecksums: bool): CommandRead {
    match ReadFull(input, 10)
    case Short(e) => Failed(e, [])
    case Got(b, r) =>
      var hdr := Unpack(b);
      match ReadFull(r, hdr.len)
      case Short(e) => Failed(e, [])
      case Got(data, rest) =>
        if !ignoreChecksums && hdr.crc != CommandChecksum(hdr, data) then Failed(InvalidChecksum, rest)
        else
          match Decode(data, map[])
          case Attrs(attrs) => Command(hdr, attrs, rest)
          case Malformed(e) => Failed(e, rest)
  }

  datatype HeaderRead = HeaderRead(error: Option<ScanError>, parsed: bool, rest: seq<byte>)

  function ReadHeader(input: seq<byte>): HeaderRead {
    match ReadFull(input, 17)
    case Short(e) => HeaderRead(Some(e), false, [])
    case Got(b, rest) =>
      HeaderRead(if b[..13] != MAGIC then Some(InvalidMagic)
                 else if GetUint32(b[13..]) != VERSION then Some(InvalidVersion)
                 else None,
                 true, rest)
  }

  datatype ScanState = ScanState(input: seq<byte>, ignoreChecksums: bool, headerParsed: bool,
                                 scanErr: Option<ScanError>, curHdr: CmdHeader, curAttrs: CmdAttrs)

  // One call of Scan.
  function ScanStep(s: ScanState): (bool, ScanState) {
    if s.scanErr.Some? then (false, s)
    else if s.headerParsed then CommandStep(s)
    else
      var h := ReadHeader(s.input);
      var s' := s.(input := h.rest, headerParsed := h.parsed);
      if h.error.Some? then (false, s'.(scanErr := h.error)) else CommandStep(s')
  }

  function CommandStep(s: ScanState): (bool, ScanState)
    requires s.scanErr == None
  {
    match ReadCommand(s.input, s.ignoreChecksums)
    case Command(hdr, attrs, rest) => (true, s.(input := rest, curHdr := hdr, curAttrs := attrs))
    case Failed(e, rest) =>
      var forgiven := !s.curHdr.IsZero() && s.curHdr.cmd == CMD_END && e == EOF;
      (false, s.(input := rest, scanErr := if forgiven then None else Some(e)))
  }

  class Scanner {
    var input: seq<byte>
    const ignoreChecksums: bool
    var headerParsed: bool
    var scanErr: Option<ScanError>
    var curHdr: CmdHeader
    var curAttrs: CmdAttrs

    ghost function State(): ScanState
      reads this
    {
      ScanState(input, ignoreChecksums, headerParsed, scanErr, curHdr, curAttrs)
    }

    constructor (bytes: seq<byte>, ignoreChecksums: bool)
      ensures State() == Start(bytes, ignoreChecksums)
    {
      this.input := bytes;
      this.ignoreChecksums := ignoreChecksums;
      headerParsed := false;
      scanErr := None;
      curHdr := CmdHeader(0, 0, 0);
      curAttrs := map[];
    }

    method Scan() returns (ok: bool)
      modifies this
      ensures (ok, State()) == ScanStep(old(State()))
    {
      hide ReadFull, Decode, MAGIC, Unpack;
      if scanErr.Some? {
        return false;
      }
      if !headerParsed {
        var err := ReadStreamHeader();
        if err.Some? {
          scanErr := err;
          return false;
        }
      }
      var hdr, attrs, err := ReadNextCommand();
      if err.Some? {
        if curHdr.IsZero() {
          scanErr := err;
          return false;
        }
        if curHdr.cmd == CMD_END {
          if err.value == EOF {
            scanErr := None;
            return false;
          }
        }
        scanErr := err;
        return false;
      }
      curHdr := hdr;
      curAttrs := attrs;
      return true;
    }

    method ReadStreamHeader() returns (err: Option<ScanError>)
      requires !headerParsed
      modifies this`input, this`headerParsed
      ensures HeaderRead(err, headerParsed, input) == ReadHeader(old(input))
    {
      var b, e := ReadBytes(17);
      if e.Some? {
        return e;
      }
      headerParsed := true;
      if b[..13] != MAGIC {
        return Some(InvalidMagic);
      }
      if GetUint32(b[13..]) != VERSION {
        return Some(InvalidVersion);
      }
      return None;
    }

    method ReadNextCommand() returns (hdr: CmdHeader, attrs: CmdAttrs, err: Option<ScanError>)
      modifies this`input
      ensures ReadCommand(old(input), ignoreChecksums)
              == if err == None then Command(hdr, attrs, input) else Failed(err.value, input)
    {
      hide Unpack, Decode, Checksum;
      hdr, attrs := CmdHeader(0, 0, 0), map[];
      var b;
      b, err := ReadBytes(10);
      if err.Some? {
        return;
      }
      hdr := Unpack(b);
      var data;
      data, err := ReadBytes(hdr.len);
      if err.Some? {
        return;
      }
      if !ignoreChecksums {
        var ok := ValidateCrc32(hdr, data);
        if !ok {
          err := Some(InvalidChecksum);
          return;
        }
      }
      attrs, err := DecodeAttributes(data);
    }

    method ReadBytes(n: nat) returns (b: seq<byte>, err: Option<ScanError>)
      modifies this`input
      ensures match ReadFull(old(input), n)
              case Got(bytes, rest) => err == None && b == bytes && input == rest
              case Short(e) => err == Some(e) && input == []
    {
      if n <= |input| {
        b, err, input := input[..n], None, input[n..];
      } else {
        b, err := [], Some(if input == [] then EOF else UnexpectedEOF);
        input := [];
      }
    }

    // The loop over the attribute bytes of one command.
    static method DecodeAttributes(data: seq<byte>) returns (attrs: CmdAttrs, err: Option<ScanError>)
      ensures Decode(data, map[]) == if err == None then Attrs(attrs) else Malformed(err.value)
    {
      hide GetUint16;
      attrs, err := map[], None;
      var pos, size := 0, |data|;
      while pos < size
        invariant 0 <= pos <= size
        invariant Decode(data, map[]) == Decode(data[pos..], attrs)
      {
        if size - pos < 2 {
          return attrs, Some(UnexpectedEOF);
        }
        var attr := GetUint16(data[pos..]);
        ghost var start := pos;
        pos := pos + 2;
        assert data[start..][2..] == data[pos..];
        var attrLen;
        if attr == ATTR_DATA {
          attrLen := size - pos;
          assert data[pos..pos + attrLen] == data[start..][2..];
          assert data[pos + attrLen..] == [];
        } else {
          if size - pos < 2 {
            return attrs, Some(if size == pos then EOF else UnexpectedEOF);
          }
          attrLen := GetUint16(data[pos..]);
          pos := pos + 2;
          if size < pos + attrLen {
            return attrs, Some(IndexOutOfRange);
          }
          assert data[start..][4..4 + attrLen] == data[pos..pos + attrLen];
          assert data[start..][4 + attrLen..] == data[pos + attrLen..];
        }
        attrs := attrs[attr := data[pos..pos + attrLen]];
        pos := pos + attrLen;
      }
      assert data[pos..] == [];
    }
  }

  function Start(bytes: seq<byte>, ignoreChecksums: bool): ScanState {
    ScanState(bytes, ignoreChecksums, false, None, CmdHeader(0, 0, 0), map[])
  }
}

module StreamTheorems {
  import opened Burst
  import opened Commands
  import opened Crc32c
  import opened LittleEndian
  import opened Streams
  import opened Wrappers

  type Delivered = seq<(CmdHeader, CmdAttrs)>

  lemma ScanConsumes(s: ScanState)
    ensures ScanStep(s).0 ==> |ScanStep(s).1.input| < |s.input|
  {
    hide Decode, Unpack, MAGIC;
  }

  // What the loop `for Scan()` sees, and the state it stops in.
  function ScanAll(s: ScanState): (r: (Delivered, ScanState))
    decreases |s.input|
  {
    var (ok, s') := ScanStep(s);
    ScanConsumes(s);
    if !ok then ([], s') else
      var (more, last) := ScanAll(s');
      ([(s'.curHdr, s'.curAttrs)] + more, last)
  }

  // One successful Scan takes the next command off what is still to come.
  lemma {:induction false} AfterScan(s: ScanState)
    ensures var (ok, s') := ScanStep(s);
            if ok then ScanAll(s) == ([(s'.curHdr, s'.curAttrs)] + ScanAll(s').0, ScanAll(s').1)
            else ScanAll(s) == ([], s')
  {
  }

  // A Scan that fails keeps the current command; once there is an error, it stays. The header is taken for parsed as
  // soon as its 17 bytes were there.
  lemma FailedScan(s: ScanState)
    ensures var (ok, s') := ScanStep(s);
            && (!ok ==> s'.curHdr == s.curHdr && s'.curAttrs == s.curAttrs)
            && (s'.scanErr != None ==> !ok && ScanStep(s') == (false, s'))
            && (s.scanErr == None ==> (s'.headerParsed <==> s.headerParsed || |s.input| >= 17))
  {
    hide ReadCommand, GetUint32;
  }

  // ---- a written stream

  ghost predicate AllValid(ws: seq<Written>) {
    forall w <- ws :: w.Valid()
  }

  ghost predicate AllFit(ws: seq<Written>) {
    forall w <- ws :: Fits(w.attrs)
  }

  function Body(ws: seq<Written>): seq<byte>
    requires AllValid(ws)
  {
    if ws == [] then [] else ws[0].Bytes() + Body(ws[1..])
  }

  function StreamBytes(ws: seq<Written>): seq<byte>
    requires AllValid(ws)
  {
    StreamHeader() + Body(ws)
  }

  function Expected(ws: seq<Written>): (r: Delivered)
    requires AllValid(ws)
    ensures |r| == |ws|
  {
    if ws == [] then [] else [(ws[0].Header(), ws[0].attrs)] + Expected(ws[1..])
  }

  lemma {:induction false} ExpectedAt(ws: seq<Written>, i: nat)
    requires AllValid(ws) && i < |ws|
    ensures Expected(ws)[i] == (ws[i].Header(), ws[i].attrs)
  {
    if i > 0 {
      ExpectedAt(ws[1..], i - 1);
    }
  }

  // What a run of the Writer leaves behind, command by command.
  method WriteAll(ws: seq<Written>) returns (bytes: seq<byte>)
    requires AllValid(ws) && ws != []
    ensures bytes == StreamBytes(ws)
  {
    hide StreamHeader, Written.Bytes, Written.Valid, Body;
    NoBody();
    var w := new Writer();
    for i := 0 to |ws|
      invariant w.headerSent == (i > 0)
      invariant w.output == if i == 0 then [] else StreamBytes(ws[..i])
      modifies w
    {
      NextWritten(ws, i);
      w.WriteCommand(ws[i].cmd, ws[i].attrs, ws[i].order);
      if i == 0 {
        assert ws[..0] == [];
      }
    }
    assert ws[..|ws|] == ws;
    bytes := w.output;
  }

  lemma NoBody()
    ensures Body([]) == []
  {
  }

  lemma {:induction false} NextWritten(ws: seq<Written>, i: nat)
    requires AllValid(ws) && i < |ws|
    ensures IterationOrder(ws[i].order, ws[i].attrs) && Written(ws[i].cmd, ws[i].attrs, ws[i].order) == ws[i]
    ensures ws[i].Valid() && Body(ws[..i + 1]) == Body(ws[..i]) + ws[i].Bytes()
  {
    hide Written.Bytes;
    assert ws[i] in ws;
    assert ws[..i + 1] == ws[..i] + [ws[i]];
    BodyConcat(ws[..i], [ws[i]]);
    assert Body([ws[i]]) == ws[i].Bytes() + Body([]);
  }

  lemma {:induction false} BodyConcat(a: seq<Written>, b: seq<Written>)
    requires AllValid(a) && AllValid(b)
    ensures AllValid(a + b) && Body(a + b) == Body(a) + Body(b)
  {
    hide Written.Bytes, Written.Valid;
    if a == [] {
      assert a + b == b;
    } else {
      assert (a + b)[1..] == a[1..] + b;
      BodyConcat(a[1..], b);
    }
  }

  // ---- one command

  // A command that fits is read back exactly; what follows it is left alone.
  lemma ReadWritten(w: Written, rest: seq<byte>, ignore: bool)
    requires w.Valid() && Fits(w.attrs)
    ensures ReadCommand(w.Bytes() + rest, ignore) == Command(w.Header(), w.attrs, rest)
  {
    hide Pack, Unpack, EncodedBytes, Checksum, Decode;
    var h, data := w.Header(), w.Data();
    var all := w.Bytes() + rest;
    assert all == Pack(h) + (data + rest);
    assert all[..10] == Pack(h) && all[10..] == data + rest;
    UnpackPack(h, []);
    assert Pack(h) + [] == Pack(h);
    EncodedSize(w.attrs, w.order);
    assert h.len == |data|;
    assert (data + rest)[..h.len] == data && (data + rest)[h.len..] == rest;
    assert CommandChecksum(h, data) == h.crc by {
      assert h.(crc := 0) == CmdHeader(Wrap32(|data|), w.cmd, 0);
    }
    DecodeEncoded(w.attrs, w.order);
  }

  // And only such a command is: a value or a command too long for its length field does not come back.
  lemma ReadBackFits(input: seq<byte>, ignore: bool)
    requires ReadCommand(input, ignore).Command?
    ensures Fits(ReadCommand(input, ignore).attrs)
  {
    hide Unpack, Checksum, Decode;
    var hdr := Unpack(input[..10]);
    var data := input[10..][..hdr.len];
    assert Decode(data, map[]) == Attrs(ReadCommand(input, ignore).attrs);
    DecodedFits(data, map[]);
  }

  // ---- truncation: the first n bytes of a written stream

  // How many commands the first n bytes of the body hold completely.
  function WholeCommands(ws: seq<Written>, n: nat): (k: nat)
    requires AllValid(ws)
    ensures k <= |ws|
  {
    if ws == [] || n < |ws[0].Bytes()| then 0
    else 1 + WholeCommands(ws[1..], n - |ws[0].Bytes()|)
  }

  lemma {:induction false} WholeCommandsIsLargest(ws: seq<Written>, n: nat, k: nat)
    requires AllValid(ws) && k <= |ws|
    ensures k <= WholeCommands(ws, n) <==> |Body(ws[..k])| <= n
  {
    hide Written.Bytes;
    if k > 0 {
      assert ws[..k][1..] == ws[1..][..k - 1];
      if n >= |ws[0].Bytes()| {
        WholeCommandsIsLargest(ws[1..], n - |ws[0].Bytes()|, k - 1);
      }
    }
  }

  // The error after a stream that breaks off `left` bytes into a command (0 when it ends between commands).
  // A break right before a command's attribute bytes looks like an end of input, and after an END command
  // an end of input is no error.
  function EndError(last: CmdHeader, left: nat): Option<ScanError> {
    if left != 0 && left != 10 then Some(UnexpectedEOF)
    else if last.cmd == CMD_END then None
    else Some(EOF)
  }

  function LastHeader(first: CmdHeader, ws: seq<Written>): CmdHeader
    requires AllValid(ws)
  {
    if ws == [] then first else ws[|ws| - 1].Header()
  }

  lemma ReadTruncated(w: Written, n: nat, ignore: bool)
    requires w.Valid() && Fits(w.attrs) && n < |w.Bytes()|
    ensures ReadCommand(w.Bytes()[..n], ignore) == Failed(if n == 0 || n == 10 then EOF else UnexpectedEOF, [])
  {
    hide Pack, Unpack, EncodedBytes, Checksum, Decode;
    var h, data := w.Header(), w.Data();
    var cut := w.Bytes()[..n];
    EncodedSize(w.attrs, w.order);
    if n >= 10 {
      assert cut[..10] == Pack(h) + [];
      UnpackPack(h, []);
      assert |cut[10..]| == n - 10 < h.len;
    }
  }

  ghost predicate Running(s: ScanState) {
    s.headerParsed && s.scanErr == None
  }

  lemma {:induction false} ScanBodyPrefix(s: ScanState, ws: seq<Written>, n: nat)
    requires AllValid(ws) && AllFit(ws) && n <= |Body(ws)|
    requires Running(s) && s.input == Body(ws)[..n]
    ensures var k := WholeCommands(ws, n);
            var (got, end) := ScanAll(s);
            && |Body(ws[..k])| <= n
            && got == Expected(ws[..k])
            && end.scanErr == EndError(LastHeader(s.curHdr, ws[..k]), n - |Body(ws[..k])|)
            && end.input == []
    decreases |ws|
  {
    hide Pack, Unpack, EncodedBytes, Checksum, Decode, ReadCommand, Written.Bytes, Written.Header, Fits;
    if ws == [] {
      assert s.input == [];
      ReadNothing(s.ignoreChecksums);
    } else {
      var w, len := ws[0], |ws[0].Bytes()|;
      if n < len {
        assert s.input == w.Bytes()[..n];
        ReadTruncated(w, n, s.ignoreChecksums);
      } else {
        var rest := Body(ws[1..])[..n - len];
        assert s.input == w.Bytes() + rest;
        ReadWritten(w, rest, s.ignoreChecksums);
        var s' := ScanStep(s).1;
        ScanBodyPrefix(s', ws[1..], n - len);
        var k := WholeCommands(ws[1..], n - len);
        assert ws[..k + 1][1..] == ws[1..][..k];
      }
    }
  }

  lemma ReadNothing(ignore: bool)
    ensures ReadCommand([], ignore) == Failed(EOF, [])
  {
  }

  lemma ReadWrittenHeader(rest: seq<byte>)
    ensures ReadHeader(StreamHeader() + rest) == HeaderRead(None, true, rest)
  {
    hide PutUint32, GetUint32;
    var all := StreamHeader() + rest;
    assert all[..17] == StreamHeader() && all[17..] == rest;
    assert StreamHeader()[..13] == MAGIC;
    assert StreamHeader()[13..] == PutUint32(VERSION) + [];
    Uint32RoundTrip(VERSION, []);
  }

  lemma ReadShortHeader(input: seq<byte>)
    requires |input| < 17
    ensures ReadHeader(input) == HeaderRead(Some(if input == [] then EOF else UnexpectedEOF), false, [])
  {
  }

  // Scanning the first n bytes of a written stream delivers exactly the commands wholly inside them, in order,
  // and then reports the error that the place of the break calls for.
  lemma {:induction false} TruncatedStream(ws: seq<Written>, n: nat, ignore: bool)
    requires AllValid(ws) && AllFit(ws) && n <= |StreamBytes(ws)|
    ensures var (got, end) := ScanAll(Start(StreamBytes(ws)[..n], ignore));
            if n < 17 then got == [] && end.scanErr == Some(if n == 0 then EOF else UnexpectedEOF)
            else
              var k := WholeCommands(ws, n - 17);
              && |Body(ws[..k])| <= n - 17
              && got == Expected(ws[..k])
              && end.scanErr == EndError(LastHeader(CmdHeader(0, 0, 0), ws[..k]), n - 17 - |Body(ws[..k])|)
  {
    hide StreamHeader, ReadHeader, CommandStep, Body, WholeCommands, Expected, LastHeader, Written.Header,
        Written.Bytes;
    var s := Start(StreamBytes(ws)[..n], ignore);
    if n < 17 {
      ReadShortHeader(s.input);
    } else {
      var rest := Body(ws)[..n - 17];
      assert s.input == StreamHeader() + rest;
      ReadWrittenHeader(rest);
      var s' := s.(input := rest, headerParsed := true);
      assert ScanStep(s) == ScanStep(s');
      ScanBodyPrefix(s', ws, n - 17);
    }
  }

  // ---- any bytes

  lemma ByteValue(b: byte)
    ensures (FromByte(b) == 0 <==> b == 0) && (FromByte(b) == 2 <==> b == 2) && (FromByte(b) == 19 <==> b == 19)
  {
  }

  lemma VersionTwo(b: seq<byte>)
    requires |b| == 4
    ensures GetUint32(b) == 2 <==> b == [2, 0, 0, 0]
  {
    ByteValue(b[0]);
    ByteValue(b[1]);
    ByteValue(b[2]);
    ByteValue(b[3]);
    hide FromByte;
  }

  // What decides over a stream: its first 13 bytes are "btrfs-stream" and a zero byte, the next four are 2, 0, 0, 0.
  lemma HeaderExactly(input: seq<byte>, ignore: bool)
    requires |input| >= 17
    ensures var (got, end) := ScanAll(Start(input, ignore));
            if input[..13] != [98, 116, 114, 102, 115, 45, 115, 116, 114, 101, 97, 109, 0] then
              got == [] && end.scanErr == Some(InvalidMagic)
            else if input[13..17] != [2, 0, 0, 0] then got == [] && end.scanErr == Some(InvalidVersion)
            else (got, end) == ScanAll(Start(input, ignore).(input := input[17..], headerParsed := true))
  {
    hide CommandStep, GetUint32;
    assert input[..17][..13] == input[..13] && input[..17][13..] == input[13..17];
    VersionTwo(input[13..17]);
    var s := Start(input, ignore);
    var s' := s.(input := input[17..], headerParsed := true);
    if input[..13] == MAGIC && input[13..17] == [2, 0, 0, 0] {
      assert ScanStep(s) == ScanStep(s');
    }
  }

  // The packed header: length, command, checksum, each least significant byte first.
  lemma HeaderLayout(h: CmdHeader)
    ensures var p := Pack(h);
            && FromByte(p[0]) + 256 * FromByte(p[1]) + 65536 * FromByte(p[2]) + 16777216 * FromByte(p[3]) == h.len
            && FromByte(p[4]) + 256 * FromByte(p[5]) == h.cmd
            && (p[6] as bv32) | ((p[7] as bv32) << 8) | ((p[8] as bv32) << 16) | ((p[9] as bv32) << 24) == h.crc
  {
    hide FromByte, ToByte;
    ByteRoundTrip(h.len % 0x1_0000 % 256);
    ByteRoundTrip(h.len % 0x1_0000 / 256);
    ByteRoundTrip(h.len / 0x1_0000 % 256);
    ByteRoundTrip(h.len / 0x1_0000 / 256);
    ByteRoundTrip(h.cmd % 256);
    ByteRoundTrip(h.cmd / 256);
    WordRoundTrip(h.crc, []);
    assert PutWord(h.crc) + [] == PutWord(h.crc);
  }

  // One attribute: its type and, unless that is 19, a length of 16 bits, both least significant byte first.
  lemma AttributeLayout(k: uint16, v: seq<byte>)
    ensures var b := EncodedBytes(map[k := v], [k]);
            && |b| >= 2 && FromByte(b[0]) + 256 * FromByte(b[1]) == k
            && if k == 19 then b[2..] == v
               else |b| >= 4 && FromByte(b[2]) + 256 * FromByte(b[3]) == |v| % 65536 && b[4..] == v
  {
    hide FromByte, PutUint16, AttrBytes, FieldBytes, DataBytes, EncodedBytes;
    OneAttribute(k, v);
    AttributeBytes(k, v);
    NumberBytes(k);
    NumberBytes(|v| % 65536);
  }

  lemma AttributeBytes(k: uint16, v: seq<byte>)
    ensures AttrBytes(k, v) == PutUint16(k) + PutUint16(|v| % 65536) + v
  {
  }

  lemma {:induction false} OneAttribute(k: uint16, v: seq<byte>)
    ensures EncodedBytes(map[k := v], [k]) == if k == 19 then PutUint16(k) + v else AttrBytes(k, v)
  {
    hide PutUint16, AttrBytes;
    assert [k][..0] == [];
    assert FieldBytes(map[k := v], []) == [];
    assert [] + AttrBytes(k, v) + [] == AttrBytes(k, v);
  }

  lemma NumberBytes(n: uint16)
    ensures FromByte(PutUint16(n)[0]) + 256 * FromByte(PutUint16(n)[1]) == n
  {
    hide FromByte, ToByte;
    ByteRoundTrip(n % 256);
    ByteRoundTrip(n / 256);
  }

  // Where decoding attributes ends, on the bytes: a type cut short, DATA (19), a length missing or cut short, a value
  // that reaches beyond the command.
  lemma {:induction false} DecodeEnds(data: seq<byte>, attrs: CmdAttrs)
    ensures |data| == 1 ==> Decode(data, attrs) == Malformed(UnexpectedEOF)
    ensures |data| >= 2 && data[..2] == [19, 0] ==> Decode(data, attrs) == Attrs(attrs[19 := data[2..]])
    ensures |data| == 2 && data != [19, 0] ==> Decode(data, attrs) == Malformed(EOF)
    ensures |data| == 3 && data[..2] != [19, 0] ==> Decode(data, attrs) == Malformed(UnexpectedEOF)
    ensures |data| >= 4 && data[..2] != [19, 0] && |data| < 4 + FromByte(data[2]) + 256 * FromByte(data[3])
            ==> Decode(data, attrs) == Malformed(IndexOutOfRange)
  {
    if |data| >= 2 {
      ByteValue(data[0]);
      ByteValue(data[1]);
      ByteBound(data[0]);
      hide FromByte;
      assert data[..2] == [data[0], data[1]];
    }
  }

  // Without checking, no command fails for its checksum, and none that passes the check is read otherwise.
  lemma IgnoredChecksums(input: seq<byte>)
    ensures match ReadCommand(input, true)
            case Command(_, _, _) => true
            case Failed(e, _) => e != InvalidChecksum
    ensures ReadCommand(input, false) == ReadCommand(input, true)
            || (exists rest :: ReadCommand(input, false) == Failed(InvalidChecksum, rest))
  {
    hide Unpack, Checksum;
    if |input| >= 10 && |input[10..]| >= Unpack(input[..10]).len {
      NeverInvalidChecksum(input[10..][..Unpack(input[..10]).len], map[]);
    }
  }

  lemma {:induction false} NeverInvalidChecksum(data: seq<byte>, attrs: CmdAttrs)
    ensures Decode(data, attrs) != Malformed(InvalidChecksum)
    decreases |data|
  {
    hide GetUint16;
    if |data| >= 4 {
      var k := GetUint16(data);
      var n: nat := GetUint16(data[2..]);
      if |data| >= 4 + n && k != ATTR_DATA {
        NeverInvalidChecksum(data[4 + n..], attrs[k := data[4..4 + n]]);
      }
    }
  }

  // A whole written stream comes back exactly, and without error exactly when it was ended.
  lemma {:induction false} RoundTrip(ws: seq<Written>, ignore: bool)
    requires AllValid(ws) && AllFit(ws)
    ensures var (got, end) := ScanAll(Start(StreamBytes(ws), ignore));
            && got == Expected(ws)
            && (end.scanErr == None <==> ws != [] && ws[|ws| - 1].cmd == 21)
            && (end.scanErr == None || end.scanErr == Some(EOF))
  {
    hide StreamHeader, ScanAll, WholeCommands, Body, Expected, ScanStep, Written.Header, Written.Bytes;
    var n := |StreamBytes(ws)|;
    TruncatedStream(ws, n, ignore);
    assert StreamBytes(ws)[..n] == StreamBytes(ws);
    AllWhole(ws);
    if ws != [] {
      HeaderCommand(ws[|ws| - 1]);
    }
  }

  lemma {:induction false} AllWhole(ws: seq<Written>)
    requires AllValid(ws)
    ensures |StreamBytes(ws)| == 17 + |Body(ws)| && WholeCommands(ws, |Body(ws)|) == |ws| && ws[..|ws|] == ws
  {
    hide Body, WholeCommands, Written.Bytes;
    assert ws[..|ws|] == ws;
    WholeCommandsIsLargest(ws, |Body(ws)|, |ws|);
  }

  lemma HeaderCommand(w: Written)
    requires w.Valid()
    ensures w.Header().cmd == w.cmd
  {
  }

  // The limits of the format are exact: a stream comes back as it was written if and only if every command fits.
  lemma {:induction false} RoundTripExactly(ws: seq<Written>, ignore: bool)
    requires AllValid(ws)
    ensures ScanAll(Start(StreamBytes(ws), ignore)).0 == Expected(ws) <==> AllFit(ws)
  {
    hide StreamHeader, ReadCommand, MAGIC;
    if AllFit(ws) {
      RoundTrip(ws, ignore);
    } else {
      var s := Start(StreamBytes(ws), ignore);
      ReadWrittenHeader(Body(ws));
      var s' := s.(input := Body(ws), headerParsed := true);
      assert ScanStep(s) == ScanStep(s');
      if ScanAll(s').0 == Expected(ws) {
        DeliveredFit(s', ws);
        assert false;
      }
    }
  }

  lemma {:induction false} DeliveredFit(s: ScanState, ws: seq<Written>)
    requires AllValid(ws) && Running(s) && s.input == Body(ws)
    requires ScanAll(s).0 == Expected(ws)
    ensures AllFit(ws)
    decreases |ws|
  {
    hide ReadCommand;
    if ws != [] {
      ReadBackFits(s.input, s.ignoreChecksums);
      assert ScanAll(s).0[0] == Expected(ws)[0];
      ReadWritten(ws[0], Body(ws[1..]), s.ignoreChecksums);
      var s' := ScanStep(s).1;
      assert ScanAll(s).0[1..] == Expected(ws)[1..];
      DeliveredFit(s', ws[1..]);
    }
  }

  // ---- damage

  // The header with its Crc field cleared and the attribute bytes: what the checksum covers.
  function Covered(h: CmdHeader, data: seq<byte>): seq<byte> {
    Pack(h.(crc := 0)) + data
  }

  // If a command passes the check, no damage confined to 32 consecutive bits of what the checksum covers does.
  lemma DamageIsDetected(h: CmdHeader, data: seq<byte>, h': CmdHeader, data': seq<byte>)
    requires h.crc == CommandChecksum(h, data)
    requires h'.crc == h.crc && DifferByBurst(Covered(h, data), Covered(h', data'))
    ensures h'.crc != CommandChecksum(h', data')
  {
    hide Checksum, Pack;
    BurstsAreDetected(0, Covered(h, data), Covered(h', data'));
  }

  // A written command whose type or attribute bytes were damaged so is reported, whatever follows it.
  lemma DamagedCommandIsReported(w: Written, cmd': uint16, data': seq<byte>, rest: seq<byte>)
    requires w.Valid() && Fits(w.attrs)
    requires DifferByBurst(Covered(w.Header(), w.Data()), Covered(w.Header().(cmd := cmd'), data'))
    ensures ReadCommand(Pack(w.Header().(cmd := cmd')) + data' + rest, false) == Failed(InvalidChecksum, rest)
  {
    hide Pack, Unpack, EncodedBytes, Checksum, Decode;
    var h := w.Header().(cmd := cmd');
    EncodedSize(w.attrs, w.order);
    assert |data'| == h.len;
    var all := Pack(h) + data' + rest;
    assert all[..10] == Pack(h) + [] && all[10..] == data' + rest;
    UnpackPack(h, []);
    assert (data' + rest)[..h.len] == data' && (data' + rest)[h.len..] == rest;
    assert w.Header().crc == CommandChecksum(w.Header(), w.Data()) by {
      assert w.Header().(crc := 0) == CmdHeader(Wrap32(|w.Data()|), w.cmd, 0);
    }
    DamageIsDetected(w.Header(), w.Data(), h, data');
  }
}
