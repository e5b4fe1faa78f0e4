/** Where two send streams part: the offset at which a transfer between them can resume. */
module Diff {
  import opened Burst
  import opened Commands
  import opened Crc32c
  import opened LittleEndian
  import opened Streams
  import opened StreamTheorems
  import opened Wrappers

  // Subvol and Snapshot commands carry fresh UUIDs, so they match by kind; others by type, checksum and length.
  predicate Matches(a: CmdHeader, b: CmdHeader) {
    || (a.cmd == b.cmd && (a.cmd == CMD_SUBVOL || a.cmd == CMD_SNAPSHOT))
    || (a.cmd == b.cmd && a.crc == b.crc && a.len == b.len)
  }

  function CommonPrefix(a: Delivered, b: Delivered): (n: nat)
    ensures n <= |a| && n <= |b|
  {
    if a == [] || b == [] || !Matches(a[0].0, b[0].0) then 0 else 1 + CommonPrefix(a[1..], b[1..])
  }

  // The two streams agree on their first n commands.
  ghost predicate AgreeOn(a: Delivered, b: Delivered, n: nat) {
    n <= |a| && n <= |b| && forall i | 0 <= i < n :: Matches(a[i].0, b[i].0)
  }

  lemma {:induction false} CommonPrefixIsLongest(a: Delivered, b: Delivered, n: nat)
    ensures AgreeOn(a, b, n) <==> n <= CommonPrefix(a, b)
  {
    hide Matches;
    if n > 0 {
      assert AgreeOn(a, b, n) ==> a != [] && b != [] && Matches(a[0].0, b[0].0);
      if a != [] && b != [] && Matches(a[0].0, b[0].0) {
        CommonPrefixIsLongest(a[1..], b[1..], n - 1);
        if AgreeOn(a[1..], b[1..], n - 1) {
          forall i | 0 <= i < n ensures Matches(a[i].0, b[i].0) {
            if i > 0 {
              assert Matches(a[1..][i - 1].0, b[1..][i - 1].0);
            }
          }
        }
        if AgreeOn(a, b, n) {
          assert AgreeOn(a[1..], b[1..], n - 1);
        }
      }
    }
  }

  // The offset in plain terms: the number of commands, from the first, that have one type and are Subvol (1) or
  // Snapshot (2), or have one checksum and length; up to the end of a stream or the first pair that does not.
  lemma {:induction false} OffsetExactly(a: Delivered, b: Delivered, n: nat)
    ensures n == CommonPrefix(a, b) <==>
            && n <= |a| && n <= |b|
            && (forall i | 0 <= i < n ::
                  && a[i].0.cmd == b[i].0.cmd
                  && (a[i].0.cmd == 1 || a[i].0.cmd == 2 || (a[i].0.crc == b[i].0.crc && a[i].0.len == b[i].0.len)))
            && (n < |a| && n < |b| ==>
                  !(a[n].0.cmd == b[n].0.cmd
                    && (a[n].0.cmd == 1 || a[n].0.cmd == 2
                        || (a[n].0.crc == b[n].0.crc && a[n].0.len == b[n].0.len))))
  {
    hide CommonPrefix;
    CommonPrefixIsLongest(a, b, n);
    CommonPrefixIsLongest(a, b, n + 1);
  }

  // Two written streams that differ at one command by damage within 32 consecutive bits of its data part there at the
  // latest, unless the command is a Subvol or a Snapshot.
  lemma {:induction false} DamageEndsPrefix(ws: seq<Written>, vs: seq<Written>, i: nat)
    requires AllValid(ws) && AllFit(ws) && AllValid(vs) && AllFit(vs) && i < |ws| && i < |vs|
    requires ws[i].Valid() && vs[i].Valid() && DifferByBurst(ws[i].Data(), vs[i].Data())
    requires ws[i].cmd != 1 && ws[i].cmd != 2
    ensures CommonPrefix(ScanAll(Start(StreamBytes(ws), false)).0, ScanAll(Start(StreamBytes(vs), false)).0) <= i
  {
    hide CommonPrefix, ScanAll, StreamBytes, Written.Data, Expected;
    RoundTrip(ws, false);
    RoundTrip(vs, false);
    ExpectedAt(ws, i);
    ExpectedAt(vs, i);
    var a, b := Expected(ws), Expected(vs);
    OffsetExactly(a, b, CommonPrefix(a, b));
    if ws[i].cmd == vs[i].cmd {
      HeadersDiffer(ws[i], vs[i]);
    }
    HeaderCommand(ws[i]);
    HeaderCommand(vs[i]);
  }

  lemma HeadersDiffer(w: Written, v: Written)
    requires w.Valid() && v.Valid() && w.cmd == v.cmd && DifferByBurst(w.Data(), v.Data())
    ensures w.Header().crc != v.Header().crc
  {
    hide Pack, Checksum, EncodedBytes;
    var h := CmdHeader(Wrap32(|w.Data()|), w.cmd, 0);
    assert h.(crc := 0) == h;
    ChecksumConcat(0, Pack(h), w.Data());
    ChecksumConcat(0, Pack(h), v.Data());
    BurstsAreDetected(Checksum(0, Pack(h)), w.Data(), v.Data());
  }

  lemma {:induction false} CommonPrefixSymmetric(a: Delivered, b: Delivered)
    ensures CommonPrefix(a, b) == CommonPrefix(b, a)
  {
    if a != [] && b != [] {
      CommonPrefixSymmetric(a[1..], b[1..]);
    }
  }

  method FindDiffOffset(streamA: seq<byte>, streamB: seq<byte>) returns (offset: nat, err: Option<ScanError>)
    ensures var (a, endA) := ScanAll(Start(streamA, false));
            var (b, endB) := ScanAll(Start(streamB, false));
            && offset == CommonPrefix(a, b)
            && err == if offset == |a| then endA.scanErr else if offset == |b| then endB.scanErr else None
  {
    hide ScanAll, ScanStep, CommonPrefix, Matches;
    var scanA := new Scanner(streamA, false);
    var scanB := new Scanner(streamB, false);
    ghost var a, endA := ScanAll(scanA.State()).0, ScanAll(scanA.State()).1;
    ghost var b, endB := ScanAll(scanB.State()).0, ScanAll(scanB.State()).1;
    offset := 0;
    while true
      invariant offset <= |a| && offset <= |b|
      invariant ScanAll(scanA.State()) == (a[offset..], endA)
      invariant ScanAll(scanB.State()) == (b[offset..], endB)
      invariant CommonPrefix(a, b) == offset + CommonPrefix(a[offset..], b[offset..])
      decreases |a| - offset
    {
      AfterScan(scanA.State());
      AfterScan(scanB.State());
      UnfoldCommonPrefix(a[offset..], b[offset..]);
      var moreA := scanA.Scan();
      if !moreA {
        break;
      }
      var moreB := scanB.Scan();
      if !moreB {
        return offset, scanB.scanErr;
      }
      assert a[offset..][1..] == a[offset + 1..] && b[offset..][1..] == b[offset + 1..];
      assert a[offset] == (scanA.curHdr, scanA.curAttrs) && b[offset] == (scanB.curHdr, scanB.curAttrs);
      if !Matches(scanA.curHdr, scanB.curHdr) {
        return offset, None;
      }
      offset := offset + 1;
    }
    err := scanA.scanErr;
  }

  lemma {:induction false} UnfoldCommonPrefix(a: Delivered, b: Delivered)
    ensures CommonPrefix(a, b) ==
            if a == [] || b == [] || !Matches(a[0].0, b[0].0) then 0 else 1 + CommonPrefix(a[1..], b[1..])
  {
  }
}
