/**
  The send stream format, protocol version 2: little-endian integers, commands with attribute maps,
  the Writer that produces a stream and the Scanner that takes it apart.
  */
module LittleEndian {
  import opened Crc32c

  type uint16 = n: nat | n < 0x1_0000
  type uint32 = n: nat | n < 0x1_0000_0000

  // The byte with value n. Counting up keeps integers and bit vectors apart in the proofs.
  function ToByte(n: nat): byte
    requires n < 256
  {
    if n == 0 then 0 else ToByte(n - 1) + 1
  }

  function FromByte(b: byte): nat { b as nat }

  lemma {:induction false} ByteRoundTrip(n: nat)
    requires n < 256
    ensures FromByte(ToByte(n)) == n
  {
    if n > 0 {
      hide FromByte;
      ByteRoundTrip(n - 1);
      NextByteValue(ToByte(n - 1));
    } else {
      assert FromByte(0) == 0;
    }
  }

  lemma NextByteValue(b: byte)
    ensures FromByte(b) < 255 ==> FromByte(b + 1) == FromByte(b) + 1
  {
    if FromByte(b) < 255 {
      NotLastByte(b);
      Increment(b);
    }
  }

  lemma NotLastByte(b: bv8)
    ensures b as nat < 255 ==> b < 255
  {
  }

  lemma Increment(b: bv8)
    requires b < 255
    ensures (b + 1) as nat == b as nat + 1
  {
  }

  lemma ByteBound(b: byte)
    ensures FromByte(b) < 256
  {
  }

  function PutUint16(n: uint16): (r: seq<byte>)
    ensures |r| == 2
  {
    [ToByte(n % 256), ToByte(n / 256)]
  }

  function GetUint16(b: seq<byte>): uint16
    requires |b| >= 2
  {
    ByteBound(b[0]);
    ByteBound(b[1]);
    FromByte(b[0]) + 256 * FromByte(b[1])
  }

  function PutUint32(n: uint32): (r: seq<byte>)
    ensures |r| == 4
  {
    PutUint16(n % 0x1_0000) + PutUint16(n / 0x1_0000)
  }

  // Conversion to uint32 drops the bits above the low 32.
  function Wrap32(n: nat): uint32 { n % 0x1_0000_0000 }

  lemma WrapSum(a: nat, b: nat)
    ensures Wrap32(Wrap32(a) + b) == Wrap32(a + b) == Wrap32(Wrap32(a) + Wrap32(b))
  {
    WrapOne(a, b);
    WrapOne(b, Wrap32(a));
  }

  lemma WrapOne(a: nat, b: nat)
    ensures Wrap32(Wrap32(a) + b) == Wrap32(a + b)
  {
  }

  function GetUint32(b: seq<byte>): uint32
    requires |b| >= 4
  {
    GetUint16(b) + 0x1_0000 * GetUint16(b[2..])
  }

  // A checksum word, as four bytes.
  function PutWord(w: bv32): (r: seq<byte>)
    ensures |r| == 4
  {
    [(w & 0xff) as byte, ((w >> 8) & 0xff) as byte, ((w >> 16) & 0xff) as byte, ((w >> 24) & 0xff) as byte]
  }

  function GetWord(b: seq<byte>): bv32
    requires |b| >= 4
  {
    (b[0] as bv32) | ((b[1] as bv32) << 8) | ((b[2] as bv32) << 16) | ((b[3] as bv32) << 24)
  }

  lemma Uint16RoundTrip(n: uint16, rest: seq<byte>)
    ensures GetUint16(PutUint16(n) + rest) == n
  {
    hide ToByte, FromByte;
    ByteRoundTrip(n % 256);
    ByteRoundTrip(n / 256);
  }

  lemma Uint32RoundTrip(n: uint32, rest: seq<byte>)
    ensures GetUint32(PutUint32(n) + rest) == n
  {
    hide PutUint16, GetUint16;
    var lo, hi := PutUint16(n % 0x1_0000), PutUint16(n / 0x1_0000);
    assert PutUint32(n) + rest == lo + (hi + rest);
    assert (lo + (hi + rest))[2..] == hi + rest;
    Uint16RoundTrip(n % 0x1_0000, hi + rest);
    Uint16RoundTrip(n / 0x1_0000, rest);
  }

  lemma WordRoundTrip(w: bv32, rest: seq<byte>)
    ensures GetWord(PutWord(w) + rest) == w
  {
    var b := PutWord(w);
    assert (b + rest)[0] == b[0] && (b + rest)[1] == b[1] && (b + rest)[2] == b[2] && (b + rest)[3] == b[3];
    WordBytes(w);
  }

  lemma WordBytes(w: bv32)
    ensures ((w & 0xff) as byte as bv32) | ((((w >> 8) & 0xff) as byte as bv32) << 8)
            | ((((w >> 16) & 0xff) as byte as bv32) << 16) | ((((w >> 24) & 0xff) as byte as bv32) << 24) == w
  {
  }
}

module Commands {
  import opened Crc32c
  import opened LittleEndian

  const CMD_SUBVOL: uint16 := 1
  const CMD_SNAPSHOT: uint16 := 2
  const CMD_CLONE: uint16 := 16
  const CMD_END: uint16 := 21
  const CMD_ENABLE_VERITY: uint16 := 26
  const ATTR_UUID: uint16 := 1
  const ATTR_CTRANSID: uint16 := 2
  const ATTR_PATH: uint16 := 15
  const ATTR_DATA: uint16 := 19
  const ATTR_CLONE_UUID: uint16 := 20
  const ATTR_CLONE_CTRANSID: uint16 := 21

  type CmdAttrs = map<uint16, seq<byte>>

  datatype CmdHeader = CmdHeader(len: uint32, cmd: uint16, crc: bv32)
  {
    predicate IsZero() { len == 0 && cmd == 0 && crc == 0 }
  }

  // The packed header, ten bytes.
  function Pack(h: CmdHeader): (r: seq<byte>)
    ensures |r| == 10
  {
    PutUint32(h.len) + PutUint16(h.cmd) + PutWord(h.crc)
  }

  function Unpack(b: seq<byte>): CmdHeader
    requires |b| >= 10
  {
    CmdHeader(GetUint32(b), GetUint16(b[4..]), GetWord(b[6..]))
  }

  lemma UnpackPack(h: CmdHeader, rest: seq<byte>)
    ensures Unpack(Pack(h) + rest) == h
  {
    hide PutUint32, PutUint16, PutWord, GetUint32, GetUint16, GetWord;
    var a, b, c := PutUint32(h.len), PutUint16(h.cmd), PutWord(h.crc);
    var all := Pack(h) + rest;
    assert all == a + (b + c + rest);
    assert all[4..] == b + (c + rest);
    assert all[6..] == c + rest;
    Uint32RoundTrip(h.len, b + c + rest);
    Uint16RoundTrip(h.cmd, c + rest);
    WordRoundTrip(h.crc, rest);
  }

  // ---- the checksum of a command: its header with the Crc field cleared, then its attribute bytes

  function CommandChecksum(h: CmdHeader, data: seq<byte>): bv32 {
    Checksum(0, Pack(h.(crc := 0)) + data)
  }

  method CalculateCrc32(h: CmdHeader, data: seq<byte>) returns (sum: bv32)
    ensures sum == Checksum(0, Pack(h) + data)
  {
    sum := BtrfsCrc32c(0, Pack(h) + data);
  }

  method ValidateCrc32(hdr: CmdHeader, data: seq<byte>) returns (ok: bool)
    ensures ok <==> hdr.crc == CommandChecksum(hdr, data)
  {
    hide Checksum;
    var sum := CalculateCrc32(hdr.(crc := 0), data);
    ok := hdr.crc == sum;
  }

  // ---- encoding an attribute map; a map has no order of its own, so each loop over it is given one

  ghost predicate IterationOrder(order: seq<uint16>, attrs: CmdAttrs) {
    && (forall i, j | 0 <= i < j < |order| :: order[i] != order[j])
    && (forall k :: k in order <==> k in attrs)
  }

  // The bytes an attribute takes: its type, a length unless it is DATA, and its value.
  function AttrSize(k: uint16, v: seq<byte>): nat {
    2 + (if k == ATTR_DATA then 0 else 2) + |v|
  }

  function SizeAlong(attrs: CmdAttrs, order: seq<uint16>): nat
    requires forall k <- order :: k in attrs
  {
    if order == [] then 0
    else SizeAlong(attrs, order[..|order| - 1]) + AttrSize(order[|order| - 1], attrs[order[|order| - 1]])
  }

  // The encoded size of a map, whatever the order.
  ghost function Size(attrs: CmdAttrs): nat {
    if attrs == map[] then 0
    else var k :| k in attrs; AttrSize(k, attrs[k]) + Size(attrs - {k})
  }

  method BinarySize(attrs: CmdAttrs, order: seq<uint16>) returns (size: uint32)
    requires IterationOrder(order, attrs)
    ensures size == Wrap32(Size(attrs))
  {
    size := 0;
    assert Wrap32(0) == 0;
    hide Wrap32, SizeAlong, AttrSize;
    assert SizeAlong(attrs, []) == 0 by { NoSize(attrs); }
    for i := 0 to |order|
      invariant size == Wrap32(SizeAlong(attrs, order[..i]))
    {
      var k := order[i];
      var v := attrs[k];
      NextSize(attrs, order, i);
      AddAttr(SizeAlong(attrs, order[..i]), k, v);
      size := Wrap32(size + 2);
      if k != ATTR_DATA {
        size := Wrap32(size + 2);
      }
      size := Wrap32(size + Wrap32(|v|));
    }
    assert order[..|order|] == order;
    SizeIsOrderFree(attrs, order);
  }

  // Adding an attribute's parts one by one, each sum cut to 32 bits, is adding its size and cutting once.
  lemma AddAttr(before: nat, k: uint16, v: seq<byte>)
    ensures var withType := Wrap32(Wrap32(before) + 2);
            var withLen := if k == ATTR_DATA then withType else Wrap32(withType + 2);
            Wrap32(withLen + Wrap32(|v|)) == Wrap32(before + AttrSize(k, v))
  {
    hide Wrap32;
    WrapSum(before, 2);
    WrapSum(before + 2, 2);
    WrapSum(before + 2, |v|);
    WrapSum(before + 4, |v|);
  }

  lemma {:induction false} NoSize(attrs: CmdAttrs)
    ensures SizeAlong(attrs, []) == 0
  {
  }

  lemma {:induction false} NextSize(attrs: CmdAttrs, order: seq<uint16>, i: nat)
    requires i < |order| && forall k <- order :: k in attrs
    ensures SizeAlong(attrs, order[..i + 1]) == SizeAlong(attrs, order[..i]) + AttrSize(order[i], attrs[order[i]])
  {
    assert order[..i + 1][..i] == order[..i] && order[..i + 1][i] == order[i];
  }

  lemma {:induction false} SizeWithout(attrs: CmdAttrs, k: uint16)
    requires k in attrs
    ensures Size(attrs) == AttrSize(k, attrs[k]) + Size(attrs - {k})
    decreases |attrs|
  {
    var j :| j in attrs && Size(attrs) == AttrSize(j, attrs[j]) + Size(attrs - {j});
    if j != k {
      SizeWithout(attrs - {j}, k);
      SizeWithout(attrs - {k}, j);
      assert attrs - {j} - {k} == attrs - {k} - {j};
    }
  }

  lemma {:induction false} SizeIsOrderFree(attrs: CmdAttrs, order: seq<uint16>)
    requires IterationOrder(order, attrs)
    ensures SizeAlong(attrs, order) == Size(attrs)
    decreases |order|
  {
    if order == [] {
      assert attrs == map[];
    } else {
      var n := |order| - 1;
      var k := order[n];
      var less := attrs - {k};
      SizeWithout(attrs, k);
      assert order == order[..n] + [k];
      assert IterationOrder(order[..n], less);
      SizeIsOrderFree(less, order[..n]);
      SameSizeAlong(attrs, less, order[..n]);
    }
  }

  lemma {:induction false} SameSizeAlong(a: CmdAttrs, b: CmdAttrs, order: seq<uint16>)
    requires forall k <- order :: k in a && k in b && a[k] == b[k]
    ensures SizeAlong(a, order) == SizeAlong(b, order)
  {
    if order != [] {
      SameSizeAlong(a, b, order[..|order| - 1]);
    }
  }

  // The length field is 16 bits wide: a longer value is written whole under its length modulo 65536.
  function AttrBytes(k: uint16, v: seq<byte>): seq<byte> {
    PutUint16(k) + PutUint16(|v| % 0x1_0000) + v
  }

  function FieldBytes(attrs: CmdAttrs, order: seq<uint16>): seq<byte>
    requires forall k <- order :: k in attrs
  {
    if order == [] then []
    else
      var n := |order| - 1;
      FieldBytes(attrs, order[..n]) + if order[n] == ATTR_DATA then [] else AttrBytes(order[n], attrs[order[n]])
  }

  function DataBytes(attrs: CmdAttrs): seq<byte> {
    if ATTR_DATA in attrs then PutUint16(ATTR_DATA) + attrs[ATTR_DATA] else []
  }

  function EncodedBytes(attrs: CmdAttrs, order: seq<uint16>): seq<byte>
    requires forall k <- order :: k in attrs
  {
    FieldBytes(attrs, order) + DataBytes(attrs)
  }

  method Encode(attrs: CmdAttrs, order: seq<uint16>) returns (buf: seq<byte>)
    requires IterationOrder(order, attrs)
    ensures buf == EncodedBytes(attrs, order)
    ensures |buf| == Size(attrs)
  {
    hide AttrBytes, FieldBytes, PutUint16;
    buf := [];
    assert FieldBytes(attrs, []) == [] by { NoFields(attrs); }
    for i := 0 to |order|
      invariant buf == FieldBytes(attrs, order[..i])
    {
      var k := order[i];
      NextField(attrs, order, i);
      if k == ATTR_DATA {
        continue;
      }
      buf := buf + PutUint16(k);
      buf := buf + PutUint16(|attrs[k]| % 0x1_0000);
      buf := buf + attrs[k];
    }
    assert order[..|order|] == order;
    if ATTR_DATA in attrs {
      buf := buf + PutUint16(ATTR_DATA);
      buf := buf + attrs[ATTR_DATA];
    }
    EncodedSize(attrs, order);
  }

  lemma {:induction false} NoFields(attrs: CmdAttrs)
    ensures FieldBytes(attrs, []) == []
  {
  }

  lemma {:induction false} NextField(attrs: CmdAttrs, order: seq<uint16>, i: nat)
    requires i < |order| && forall k <- order :: k in attrs
    ensures var k, done := order[i], FieldBytes(attrs, order[..i]);
            FieldBytes(attrs, order[..i + 1]) ==
            if k == ATTR_DATA then done
            else done + PutUint16(k) + PutUint16(|attrs[k]| % 0x1_0000) + attrs[k]
  {
    hide PutUint16;
    var k, done := order[i], FieldBytes(attrs, order[..i]);
    assert order[..i + 1][..i] == order[..i] && order[..i + 1][i] == k;
    assert done + [] == done;
    assert done + AttrBytes(k, attrs[k]) == done + PutUint16(k) + PutUint16(|attrs[k]| % 0x1_0000) + attrs[k];
  }

  lemma {:induction false} EncodedSize(attrs: CmdAttrs, order: seq<uint16>)
    requires IterationOrder(order, attrs)
    ensures |EncodedBytes(attrs, order)| == Size(attrs)
  {
    SizeIsOrderFree(attrs, order);
    FieldsSize(attrs, order);
  }

  lemma {:induction false} FieldsSize(attrs: CmdAttrs, order: seq<uint16>)
    requires forall i, j | 0 <= i < j < |order| :: order[i] != order[j]
    requires forall k <- order :: k in attrs
    ensures |FieldBytes(attrs, order)| + (if ATTR_DATA in order then 2 + |attrs[ATTR_DATA]| else 0)
            == SizeAlong(attrs, order)
  {
    if order != [] {
      var n := |order| - 1;
      assert order == order[..n] + [order[n]];
      FieldsSize(attrs, order[..n]);
    }
  }

  // ---- decoding

  datatype ScanError = EOF | UnexpectedEOF | InvalidMagic | InvalidVersion | InvalidChecksum | IndexOutOfRange

  datatype Decoded = Attrs(attrs: CmdAttrs) | Malformed(error: ScanError)

  // The attributes read from data on top of those already read.
  function Decode(data: seq<byte>, attrs: CmdAttrs): Decoded
    decreases |data|
  {
    if data == [] then Attrs(attrs)
    else if |data| == 1 then Malformed(UnexpectedEOF)
    else
      var k := GetUint16(data);
      if k == ATTR_DATA then Attrs(attrs[k := data[2..]])
      else if |data| == 2 then Malformed(EOF)
      else if |data| == 3 then Malformed(UnexpectedEOF)
      else
        var n := GetUint16(data[2..]);
        if |data| < 4 + n then Malformed(IndexOutOfRange)
        else Decode(data[4 + n..], attrs[k := data[4..4 + n]])
  }

  // What the format can carry: 16-bit lengths for all values but DATA, a 32-bit length for the whole.
  ghost predicate Fits(attrs: CmdAttrs) {
    && (forall k <- attrs :: k != ATTR_DATA ==> |attrs[k]| < 0x1_0000)
    && Size(attrs) < 0x1_0000_0000
  }

  lemma {:induction false} DecodeOne(k: uint16, v: seq<byte>, rest: seq<byte>, attrs: CmdAttrs)
    requires k != ATTR_DATA && |v| < 0x1_0000
    ensures Decode(AttrBytes(k, v) + rest, attrs) == Decode(rest, attrs[k := v])
  {
    hide PutUint16, GetUint16;
    var all := AttrBytes(k, v) + rest;
    assert all == PutUint16(k) + (PutUint16(|v|) + v + rest);
    assert all[2..] == PutUint16(|v|) + (v + rest);
    Uint16RoundTrip(k, PutUint16(|v|) + v + rest);
    Uint16RoundTrip(|v|, v + rest);
    assert all[4..4 + |v|] == v && all[4 + |v|..] == rest;
  }

  ghost function Fields(attrs: CmdAttrs, order: seq<uint16>): CmdAttrs {
    map k | k in order && k in attrs && k != ATTR_DATA :: attrs[k]
  }

  lemma {:induction false} DecodeFields(attrs: CmdAttrs, order: seq<uint16>, rest: seq<byte>)
    requires forall k <- order :: k in attrs && (k != ATTR_DATA ==> |attrs[k]| < 0x1_0000)
    ensures Decode(FieldBytes(attrs, order) + rest, map[]) == Decode(rest, Fields(attrs, order))
    decreases |order|
  {
    hide AttrBytes, Decode;
    if order == [] {
      assert FieldBytes(attrs, order) + rest == rest;
      assert Fields(attrs, order) == map[];
    } else {
      var n := |order| - 1;
      var k := order[n];
      assert order == order[..n] + [k];
      if k == ATTR_DATA {
        assert FieldBytes(attrs, order) + rest == FieldBytes(attrs, order[..n]) + rest;
        assert Fields(attrs, order) == Fields(attrs, order[..n]);
        DecodeFields(attrs, order[..n], rest);
      } else {
        var here := AttrBytes(k, attrs[k]);
        assert FieldBytes(attrs, order) + rest == FieldBytes(attrs, order[..n]) + (here + rest);
        assert Fields(attrs, order) == Fields(attrs, order[..n])[k := attrs[k]];
        DecodeFields(attrs, order[..n], here + rest);
        DecodeOne(k, attrs[k], rest, Fields(attrs, order[..n]));
      }
    }
  }

  // Whatever order the map was written in, reading it back gives the map.
  lemma DecodeEncoded(attrs: CmdAttrs, order: seq<uint16>)
    requires IterationOrder(order, attrs)
    requires forall k <- attrs :: k != ATTR_DATA ==> |attrs[k]| < 0x1_0000
    ensures Decode(EncodedBytes(attrs, order), map[]) == Attrs(attrs)
  {
    hide PutUint16, GetUint16, FieldBytes;
    DecodeFields(attrs, order, DataBytes(attrs));
    var fields := Fields(attrs, order);
    if ATTR_DATA in attrs {
      var data := attrs[ATTR_DATA];
      Uint16RoundTrip(ATTR_DATA, data);
      assert (PutUint16(ATTR_DATA) + data)[2..] == data;
      assert attrs == fields[ATTR_DATA := data];
    } else {
      assert attrs == fields;
    }
  }

  lemma SizeInsert(attrs: CmdAttrs, k: uint16, v: seq<byte>)
    ensures Size(attrs[k := v]) <= Size(attrs) + AttrSize(k, v)
  {
    SizeWithout(attrs[k := v], k);
    if k in attrs {
      SizeWithout(attrs, k);
      assert attrs[k := v] - {k} == attrs - {k};
    } else {
      assert attrs[k := v] - {k} == attrs;
    }
  }

  // Nothing is decoded that the bytes could not hold.
  lemma {:induction false} DecodedFits(data: seq<byte>, attrs: CmdAttrs)
    requires forall k <- attrs :: k != ATTR_DATA ==> |attrs[k]| < 0x1_0000
    requires Decode(data, attrs).Attrs?
    ensures var m := Decode(data, attrs).attrs;
            && Size(m) <= Size(attrs) + |data|
            && forall k <- m :: k != ATTR_DATA ==> |m[k]| < 0x1_0000
    decreases |data|
  {
    hide GetUint16;
    if data != [] {
      var k := GetUint16(data);
      if k == ATTR_DATA {
        SizeInsert(attrs, k, data[2..]);
      } else {
        var n := GetUint16(data[2..]);
        SizeInsert(attrs, k, data[4..4 + n]);
        DecodedFits(data[4 + n..], attrs[k := data[4..4 + n]]);
      }
    }
  }
}
