/**
  The directory receiver's progress file: a decimal number, written over the old content without truncating it.
  */
module OffsetFile {
  import opened Wrappers

  // Written when a subvolume is complete: the largest 64-bit number but one.
  const FINISHED: nat := 0xFFFF_FFFF_FFFF_FFFE

  function Digit(n: nat): char
    requires n < 10
  {
    "0123456789"[n]
  }

  function Decimal(n: nat): (s: string)
    ensures s != []
  {
    if n < 10 then [Digit(n)] else Decimal(n / 10) + [Digit(n % 10)]
  }

  // Ten digits, highest first.
  lemma DecimalExample()
    ensures Decimal(9876543210) == "9876543210"
  {
    assert Decimal(987) == "987";
    assert Decimal(987654) == "987654";
    assert Decimal(987654321) == "987654321";
  }

  predicate IsDigit(c: char) { '0' <= c <= '9' }

  // The number at the start of the text; none if it does not start with a digit.
  function ParsePrefix(s: string): (r: (nat, nat))
    ensures r.1 <= |s|
  {
    if s == [] then (0, 0)
    else
      var (v, n) := ParsePrefix(s[..|s| - 1]);
      var c := s[|s| - 1];
      if n == |s| - 1 && IsDigit(c) then (10 * v + (c as nat - '0' as nat), n + 1) else (v, n)
  }

  datatype Scanned = Number(n: nat) | NoNumber

  function Scan(s: string): Scanned {
    if ParsePrefix(s).1 == 0 then NoNumber else Number(ParsePrefix(s).0)
  }

  // Writing at the start of a file leaves what lies beyond the new text.
  function Overwrite(content: string, text: string): string {
    if |content| <= |text| then text else text + content[|text|..]
  }

  lemma {:induction false} ParseDecimal(n: nat)
    ensures ParsePrefix(Decimal(n)) == (n, |Decimal(n)|)
  {
    if n < 10 {
      assert Decimal(n)[..0] == [];
      DigitValue(n);
    } else {
      ParseDecimal(n / 10);
      DigitValue(n % 10);
      assert Decimal(n)[..|Decimal(n)| - 1] == Decimal(n / 10);
    }
  }

  lemma DigitValue(n: nat)
    requires n < 10
    ensures IsDigit(Digit(n)) && Digit(n) as nat - '0' as nat == n
  {
  }

  // What was written is read back.
  lemma {:induction false} ScanDecimal(n: nat)
    ensures Scan(Decimal(n)) == Number(n)
  {
    ParseDecimal(n);
  }

  // Reading stops at the first character that is no digit.
  lemma {:induction false} ScanStops(s: string, c: char, rest: string)
    requires !('0' <= c <= '9')
    ensures Scan(s + [c] + rest) == Scan(s)
  {
    ParseStops(s, c, rest);
  }

  lemma {:induction false} ParseStops(s: string, c: char, rest: string)
    requires !('0' <= c <= '9')
    ensures ParsePrefix(s + [c] + rest) == ParsePrefix(s)
    decreases |rest|
  {
    var all := s + [c] + rest;
    if rest == [] {
      assert all[..|all| - 1] == s;
    } else {
      assert all[..|all| - 1] == s + [c] + rest[..|rest| - 1];
      ParseStops(s, c, rest[..|rest| - 1]);
    }
  }

  lemma {:induction false} DecimalGrows(a: nat, b: nat)
    requires a <= b
    ensures |Decimal(a)| <= |Decimal(b)|
  {
    if a >= 10 {
      DecimalGrows(a / 10, b / 10);
    }
  }

  // Not truncating does no harm exactly when the new number has at least as many digits.
  lemma {:induction false} OverwriteExactly(a: nat, b: nat)
    ensures Overwrite(Decimal(a), Decimal(b)) == Decimal(b) <==> |Decimal(a)| <= |Decimal(b)|
  {
  }

  // Offsets never shrink, so it does none.
  lemma {:induction false} OverwriteLarger(a: nat, b: nat)
    requires a <= b
    ensures Overwrite(Decimal(a), Decimal(b)) == Decimal(b)
  {
    DecimalGrows(a, b);
    OverwriteExactly(a, b);
  }

  // With a shorter number it would.
  lemma OverwriteSmallerExample()
    ensures Overwrite(Decimal(10), Decimal(9)) == "90"
  {
    assert Decimal(10) == Decimal(1) + [Digit(0)] == "10";
    assert Decimal(9) == "9";
  }

  // The receiver's state and its disk. `ran` logs the command indices executed, over all runs; `hasDir` tells whether
  // the directory for the file is there; `fuel` is the number of effects on disk left before this run dies; `refused`
  // holds the commands whose operation the filesystem will not do in this run.
  datatype DirState = DirState(currentOffset: nat, file: Option<string>, ran: seq<nat>, hasDir: bool,
                               fuel: nat, refused: set<nat>)

  // Runs a command's filesystem operation.
  function Execute(d: DirState, offset: nat): (DirState, bool) {
    if d.fuel == 0 || offset in d.refused then (d, false)
    else (d.(ran := d.ran + [offset], fuel := d.fuel - 1), true)
  }

  // Subvol and Snapshot: read the recorded offset, if there is one. Only Subvol makes the directory first.
  function OpenSubvolume(d: DirState, offset: nat, makeDir: bool): (DirState, bool) {
    var (d1, ok) := Execute(d, offset);
    if !ok then (d1, false)
    else
      var d2 := d1.(hasDir := d1.hasDir || makeDir);
      if d2.file == None then (d2, true)
      else
        match Scan(d2.file.value)
        case NoNumber => (d2, false)
        case Number(n) => (d2.(currentOffset := n), true)
  }

  // Creates the file if need be, then writes the number: two effects.
  function WriteOffset(d: DirState, n: nat): (DirState, bool) {
    var (d1, ok) := CreateFile(d);
    if !ok || d1.fuel == 0 then (d1, false)
    else (d1.(file := Some(Overwrite(d1.file.value, Decimal(n))), fuel := d1.fuel - 1), true)
  }

  function CreateFile(d: DirState): (r: (DirState, bool))
    ensures r.1 ==> r.0.file != None
  {
    if d.file != None then (d, true)
    else if d.fuel == 0 || !d.hasDir then (d, false)
    else (d.(file := Some(""), fuel := d.fuel - 1), true)
  }

  // A number is written over the start of the file, which keeps its length if it is longer.
  lemma {:induction false} WrittenInPlace(d: DirState, n: nat)
    requires d.fuel > 0 && d.file.Some? && |Decimal(n)| <= |d.file.value|
    ensures var (d', ok) := WriteOffset(d, n);
            && ok && d'.file.Some? && |d'.file.value| == |d.file.value|
            && d'.file.value[..|Decimal(n)|] == Decimal(n)
            && d'.file.value[|Decimal(n)|..] == d.file.value[|Decimal(n)|..]
  {
  }
}
