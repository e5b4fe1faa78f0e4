/** From the bytes of a stream to the receiver's calls: interrupting a transfer at any byte and resuming it. */
module EndToEnd {
  import opened Crc32c
  import opened Receive
  import opened Resume
  import opened Streams
  import opened StreamTheorems
  import opened Wrappers

  // The commands handed to the Writer, as the receiver's loop sees them.
  function Sent(ws: seq<Written>): (r: seq<Command>)
    ensures |r| == |ws|
  {
    seq(|ws|, i requires 0 <= i < |ws| => Command.Command(ws[i].cmd, ws[i].attrs))
  }

  lemma {:induction false} DeliveredIsSent(ws: seq<Written>)
    requires AllValid(ws)
    ensures CommandsOf(Expected(ws)) == Sent(ws)
  {
    hide Written.Header;
    forall i | 0 <= i < |ws| ensures CommandsOf(Expected(ws))[i] == Sent(ws)[i] {
      ExpectedAt(ws, i);
      assert ws[i] in ws;
      HeaderCommand(ws[i]);
    }
  }

  // A run over the bytes of a stream, into a receiver that records its calls.
  function Transfer(o: Options, bytes: seq<byte>, ignoreChecksums: bool): Ctx {
    var (d, end) := ScanAll(Start(bytes, ignoreChecksums));
    Run(o, StartCtx(Tracing([])), CommandsOf(d), end.scanErr)
  }

  // The number of commands that arrive whole with the first n bytes of a stream.
  function Arrived(ws: seq<Written>, n: nat): (k: nat)
    requires AllValid(ws)
    ensures k <= |ws|
  {
    if n < 17 then 0 else WholeCommands(ws, n - 17)
  }

  lemma ScanPart(ws: seq<Written>, n: nat, ignore: bool)
    requires AllValid(ws) && AllFit(ws) && n <= |StreamBytes(ws)| && !HasEnd(Sent(ws)[..Arrived(ws, n)])
    ensures var (d, end) := ScanAll(Start(StreamBytes(ws)[..n], ignore));
            CommandsOf(d) == Sent(ws)[..Arrived(ws, n)] && end.scanErr != None
  {
    hide ScanAll, StreamBytes, Written.Header, Body, WholeCommands, Expected, CommandsOf;
    TruncatedStream(ws, n, ignore);
    var k := Arrived(ws, n);
    DeliveredIsSent(ws[..k]);
    assert Sent(ws[..k]) == Sent(ws)[..k];
    if k > 0 {
      assert Sent(ws)[..k][k - 1].cmd == ws[k - 1].cmd;
      assert Sent(ws)[..k][k - 1] in Sent(ws)[..k];
      assert ws[..k][k - 1] == ws[k - 1] && ws[k - 1] in ws;
      HeaderCommand(ws[k - 1]);
    }
    if n < 17 {
      assert ws[..0] == [];
      assert CommandsOf([]) == [] by { NoneDelivered(); }
    }
  }

  lemma NoneDelivered()
    ensures CommandsOf([]) == []
  {
  }

  // A transfer broken off after any number of bytes, resumed at the number of commands that had arrived, makes the
  // calls of an undisturbed transfer, as long as no END had arrived.
  lemma InterruptedTransfer(ws: seq<Written>, n: nat, honorEnd: bool, maxErrors: int, ignore: bool)
    requires AllValid(ws) && AllFit(ws) && n <= |StreamBytes(ws)|
    requires AllWellFormed(Sent(ws)) && !HasEnd(Sent(ws)[..Arrived(ws, n)])
    ensures var whole := Transfer(Options(0, honorEnd, maxErrors), StreamBytes(ws), ignore);
            var part := Transfer(Options(0, honorEnd, maxErrors), StreamBytes(ws)[..n], ignore);
            var rest := Transfer(Options(Arrived(ws, n), honorEnd, maxErrors), StreamBytes(ws), ignore);
            Trace(whole) == Trace(part) + Trace(rest) && whole.status == rest.status
  {
    hide ScanAll, StreamBytes, Arrived, Expected, Run, AllWellFormed, HasEnd;
    ScanPart(ws, n, ignore);
    RoundTrip(ws, ignore);
    DeliveredIsSent(ws);
    var (d, end) := ScanAll(Start(StreamBytes(ws)[..n], ignore));
    var (d', end') := ScanAll(Start(StreamBytes(ws), ignore));
    ResumeEquivalence(honorEnd, maxErrors, Sent(ws), Arrived(ws, n), end'.scanErr, end.scanErr.value);
  }
}
