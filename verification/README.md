# btrsync: a verified model

btrsync sends btrfs snapshots as send streams, receives them, prunes old snapshots and indexes subvolumes. This
project models the five parts of it that hold real algorithms and proves what they keep over unbounded inputs and
whole runs. `dafny verify dfyconfig.toml` checks all of it.

- **The send stream** (`Crc32c.dfy`, `CrcTheory.dfy`, `SendStream.dfy`, `Stream.dfy`, `Diff.dfy`). The table-driven
  command checksum is proved equal to a bit-serial shift register, and the register to be the remainder of dividing
  by the Castagnoli polynomial (section 12.1 of RFC 3720) over the two-element field; every damage inside 32
  consecutive bits is detected, and 32 is the limit. Writer and Scanner are classes; what a scan of a written, a
  truncated or a damaged stream delivers is proved for all streams, attribute maps and iteration orders.
- **Receiving** (`OffsetFile.dfy`, `Receive.dfy`, `Resume.dfy`, `Handlers.dfy`, `EndToEnd.dfy`, `CrashSafe.dfy`). The command loop is
  a class that updates its offset, current subvolume and error count. Its calls are proved to be bracketed per
  subvolume; an interrupted run and a run from its offset make the calls of one full run, and exactly when they do
  is stated; the directory receiver's offset file is proved sound over any number of crashes and resumes, down to
  its decimal digits being overwritten without truncation.
- **Retention** (`Retention.dfy`, `RetentionTheorems.dfy`). One prune is a class method over a list, a clock reading
  and a disk whose deletions may fail. Coverage, optimality, a bound on survivors, idempotence, and stability over
  runs of prunes with an advancing clock.
- **The tree walk and the subvolume index** (`TreeWalk.dfy`, `SubvolumeTree.dfy`, `WalkedIndex.dfy`,
  `Descendants.dfy`). The paging cursor with its carries against an ordered store that answers with pages of any size;
  the pointer tree as a class with a footprint, proved against a tree on values, and that against a map, also when the
  walk itself builds it; the three traversals; the filter below one subvolume.
- **The concurrent queue** (`Queue.dfy`, `QueueTheorems.dfy`). Runner, workers, pushing clients and a waiter as
  interleaved steps; an invariant of every interleaving; when `Wait` returns and when it cannot.

`Wrappers.dfy` holds the option type.

## What the code does that its documentation does not say

Each of these is a theorem below; the model follows the code.

- A value of 65536 bytes or more is written whole under a 16-bit length that wraps, so the stream does not come back;
  `StreamTheorems.RoundTripExactly` says the limits are exact.
- A stream that breaks off right before a command's attribute bytes looks like one that ended: after an END command
  no error is reported (`StreamTheorems.TruncatedStream`).
- Resuming a complete stream with `FromOffset` is equivalent to one full run exactly when the skipped part holds no END
  that is honoured, and no other END without an opening after it (`Resume.ResumeExactly`).
- Decoding an integer attribute that is too short panics, in every handler; an id of the wrong length or a time that is
  too short is an error that counts against the budget (`Receive.ReceiveCtx.ProcessOperation`); a run panics exactly
  when such a command comes before an honoured END and before the budget is reached (`Resume.PanicsExactly`).
- The directory receiver supports neither clones nor verity, and does not make the offset directory for a snapshot.
  Some runs finish a stream exactly when its commands decode, none is a clone or verity command, and it opens with
  Subvol or finds the directory (`CrashSafe.FinishableExactly`; `CrashSafe.CloneNeverFinishes` is a witness).
- A resume executes the last recorded command again. Where the filesystem will not do that, as for a second mkfifo,
  mknod, symlink, link, rename or unlink, every later run ends there (`CrashSafe.RepeatRefused`).
- A receiver that dies between creating the offset file and writing to it leaves an empty file, on which every later
  run stops at its first command (`CrashSafe.CrashAfterCreate`). These are all: a run left alone finishes exactly when
  no command stands in its way like this (`CrashSafe.FinishesExactly`).
- `insertRoot` goes on to the right subtree after it has descended into a left one. `RBTree.RBNode.InsertRoot` says
  what comes of it for every id, `Trees.InsertCorrectExactly` for which ids the result is a search tree; ids above all
  stored ones, which both callers supply, are among them.
- `FilterFromRoot` can lose descendants: it finds them all if and only if each one below the root's children has the
  root in the tree, and the root and its own parent, which must name a parent itself, at smaller ids
  (`Descendants.FilterCorrectExactly`).
- A function pushed to the queue before `Wait` is called can be lost: exactly when the runner has found the queue empty
  before the push and not yet tried the lock when `Wait` takes it (`QueueTheorems.LostExactly`).
- The queue goes on after an error: after at most n pushes a function can be started after a failure exactly when one
  of the first n - 1 functions fails (`QueueTheorems.ContinuesExactly`).
- `Wait` can get where it never returns exactly when more functions fail than `concurrency + 1`
  (`QueueTheorems.NeverReturnsExactly`).

## Model

| member | source | states |
|---|---|---|
| Register.StepLinear | pkg/sendstream/crc32.go:49-55 | the shift register behind the checksum is linear over xor, one shift at a time |
| Register.FeedLinear | pkg/sendstream/crc32.go:49-55 | feeding the xor of two messages of one length from the xor of two seeds gives the xor of the two registers |
| Register.FeedConcat | pkg/sendstream/crc32.go:49-55 | feeding two messages one after the other is feeding their concatenation |
| Register.FeedInjective | pkg/sendstream/crc32.go:49-55 | for a fixed message different seeds give different registers |
| Register.FeedSurjective | pkg/sendstream/crc32.go:49-55 | and every register is reached, so a fixed message is a bijection of the seed |
| Register.RegStep | pkg/sendstream/crc32.go:57-122 | one shift in terms of the 32 bits: all move down, and the reflected polynomial 0x82F63B78 is added when the lowest was set |
| Crc32c.TableIsEightSteps | pkg/sendstream/crc32.go:57-122 | every one of the 256 table words is eight shifts of its index |
| Crc32c.TableStep | pkg/sendstream/crc32.go:51-53 | a byte looked up in the table does to the register what eight bit-serial shifts do |
| Crc32c.FeedByte | pkg/sendstream/crc32.go:51-53 | eight message bits, least significant first, are the byte added to the register and eight shifts |
| Crc32c.ChecksumConcat | pkg/sendstream/crc32.go:49-55 | the checksum of a concatenation continues from the checksum of its first part |
| Crc32c.BtrfsCrc32c | pkg/sendstream/crc32.go:49-55 | the byte loop returns the bit-serial checksum, for every seed and every data |
| Burst.ZeroBack | pkg/sendstream/crc32.go:24-55 | a register that k further bits bring to zero has its bits k and up clear |
| Burst.WindowSurvives | pkg/sendstream/crc32.go:24-55 | at most 32 bits of which the first is set never bring the register to zero |
| Burst.BurstSurvives | pkg/sendstream/crc32.go:24-55 | nor does a difference whose set bits lie less than 32 apart, anywhere in a message of any length |
| Burst.DataBitsInjective | pkg/sendstream/crc32.go:49-55 | messages with the same bits are the same messages |
| Burst.BurstsAreDetected | pkg/sendstream/crc32.go:24-55 | two different messages of one length whose differing bits lie inside 32 consecutive ones have different checksums, from any seed |
| Burst.GeneratorIsNotDetected | pkg/sendstream/crc32.go:24-55 | 32 is the limit: two messages that differ by the 33 bits of the generator, at any place, have the same checksum |
| Gf2.GeneratorTerms | pkg/sendstream/crc32.go:57-122 | the polynomial behind the table is the Castagnoli polynomial, exponent by exponent |
| Gf2.FeedDivides | pkg/sendstream/crc32.go:49-55 | feeding n bits divides: seed times x^n plus message times x^32 is a multiple of the generator plus the new register |
| Gf2.RemainderUnique | pkg/sendstream/crc32.go:49-55 | remainders of degree below 32 are unique |
| Gf2.ChecksumIsRemainder | pkg/sendstream/crc32.go:49-55 | a word is the checksum of a message if and only if it is the remainder of the message times x^32 |
| LittleEndian.Uint16RoundTrip | pkg/sendstream/scanner.go:151-166 | a 16-bit number is read back from the front of any bytes it was written before |
| LittleEndian.Uint32RoundTrip | pkg/sendstream/scanner.go:130-136 | likewise for 32 bits |
| LittleEndian.WordRoundTrip | pkg/sendstream/scanner.go:130-136 | likewise for the checksum word |
| Commands.UnpackPack | pkg/sendstream/commands.go:175-179 | the packed ten-byte header reads back as the header it was, whatever follows |
| Commands.CalculateCrc32 | pkg/sendstream/crc32.go:38-47 | the bit-serial checksum, with seed 0, of the packed header followed by the data |
| Commands.ValidateCrc32 | pkg/sendstream/crc32.go:24-36 | accepts exactly the commands whose Crc field is the checksum of the header with that field cleared and the data |
| Commands.BinarySize | pkg/sendstream/commands.go:431-445 | in any iteration order, the encoded size of the map modulo 2^32 |
| Commands.SizeIsOrderFree | pkg/sendstream/commands.go:431-445 | summing along any order of the map gives the one size of the map |
| Commands.Encode | pkg/sendstream/commands.go:448-475 | the fields in iteration order with their lengths, DATA last and without one; in every order as long as the map's size says |
| Commands.EncodedSize | pkg/sendstream/commands.go:431-475 | the size that is announced is the number of bytes that are written |
| Commands.DecodeEncoded | pkg/sendstream/scanner.go:150-171 | whatever order a map was written in, decoding gives the map, if all values but DATA are under 65536 bytes |
| Commands.DecodedFits | pkg/sendstream/scanner.go:150-171 | no bytes decode to a map larger than they are or with a field value of 65536 bytes |
| Streams.Writer.constructor | pkg/sendstream/writer.go:34-36 | nothing written, header not sent |
| Streams.Writer.SendHeader | pkg/sendstream/writer.go:40-52 | the first call writes magic and version; later ones fail and write nothing |
| Streams.Writer.WriteCommand | pkg/sendstream/writer.go:57-82 | appends the stream header if it was not sent, then the command: header with true length and checksum, then its data |
| Streams.Writer.End | pkg/sendstream/writer.go:88-95 | appends an END command without attributes, after the stream header if that was not sent |
| Streams.Scanner.constructor | pkg/sendstream/scanner.go:40-42 | the state a scan starts in |
| Streams.Scanner.Scan | pkg/sendstream/scanner.go:50-78 | one step of the specified scan: sticky error, header once, current command kept on failure, EOF forgiven after END |
| Streams.Scanner.ReadStreamHeader | pkg/sendstream/scanner.go:115-128 | 17 bytes, a wrong magic or version is an error but counts as parsed, too few bytes do not |
| Streams.Scanner.ReadNextCommand | pkg/sendstream/scanner.go:106-149 | header, data and, unless ignored, checksum; each error case with what was consumed |
| Streams.Scanner.DecodeAttributes | pkg/sendstream/scanner.go:150-171 | the loop over the attribute bytes decodes by the recursive definition, error cases included |
| StreamTheorems.WriteAll | pkg/sendstream/writer.go:57-82 | a Writer given a list of commands has written one stream header and the commands' bytes in order |
| StreamTheorems.FailedScan | pkg/sendstream/scanner.go:50-78 | a Scan that fails keeps the current command; an error stays and every later Scan fails with it; the header counts as parsed as soon as its 17 bytes were there |
| StreamTheorems.ReadWritten | pkg/sendstream/scanner.go:106-172 | a written command that fits the format is read back exactly and what follows it is left alone |
| StreamTheorems.ReadBackFits | pkg/sendstream/scanner.go:138-172 | whatever is read back fits the format's length fields |
| StreamTheorems.WholeCommandsIsLargest | pkg/sendstream/scanner.go:50-78 | the number of commands wholly contained in a prefix is the largest k whose bytes fit |
| StreamTheorems.ReadTruncated | pkg/sendstream/scanner.go:130-144 | a command cut anywhere is an error: EOF at its start or right after its header, unexpected EOF elsewhere |
| StreamTheorems.ScanBodyPrefix | pkg/sendstream/scanner.go:50-78 | scanning on from any state delivers the whole commands of a cut body, in order, then the error the place of the cut calls for |
| StreamTheorems.TruncatedStream | pkg/sendstream/scanner.go:50-172 | the first n bytes of a written stream deliver exactly the commands wholly inside them, in order, none partial or invented; the final error is stated for every n |
| StreamTheorems.RoundTrip | pkg/sendstream/scanner.go:50-172 | scanning what was written gives exactly the commands, headers and maps, and ends without error if and only if the last command was END |
| StreamTheorems.RoundTripExactly | pkg/sendstream/commands.go:431-475 | a stream comes back as written if and only if every value but DATA is under 65536 bytes and every command under 2^32 |
| StreamTheorems.DamageIsDetected | pkg/sendstream/crc32.go:24-36 | if a command passes the check, no damage within 32 consecutive bits of what the checksum covers does |
| StreamTheorems.DamagedCommandIsReported | pkg/sendstream/scanner.go:138-149 | a written command with its type or data damaged so is reported as a checksum error, whatever follows it |
| StreamTheorems.HeaderExactly | pkg/sendstream/scanner.go:115-128 | of any input of 17 bytes or more: if the first 13 are not "btrfs-stream" and a zero byte nothing is delivered and the magic is the error; else, if the next four are not 2, 0, 0, 0, nothing is delivered and the version is; else what follows is scanned |
| StreamTheorems.HeaderLayout | pkg/sendstream/commands.go:175-179 | the ten header bytes, place by place: length, command and checksum, each lowest byte first |
| StreamTheorems.AttributeLayout | pkg/sendstream/commands.go:448-475 | the bytes of one attribute, place by place: type and, unless the type is 19, length modulo 65536, each lowest byte first, then the value |
| StreamTheorems.DecodeEnds | pkg/sendstream/scanner.go:150-171 | where attribute decoding ends, on the bytes: a type cut short, type 19 with the rest as its value, a length missing or cut short, a value beyond the end |
| StreamTheorems.IgnoredChecksums | pkg/sendstream/scanner.go:138-149 | with checksums ignored no command fails for its checksum; with checking, a command is read the same or fails for it |
| Diff.CommonPrefixIsLongest | pkg/receive/diff.go:96-115 | two streams agree on their first n commands if and only if n is at most the common prefix |
| Diff.CommonPrefixSymmetric | pkg/receive/diff.go:93-120 | the offset is the same with the streams swapped |
| Diff.FindDiffOffset | pkg/receive/diff.go:93-120 | the loop over two scanners returns the length of the longest common command prefix, and the error of the stream that ended first |
| Diff.OffsetExactly | pkg/receive/diff.go:96-115 | before the offset the two streams agree on the command, and on checksum and length unless it is 1 or 2; at the offset one of them has ended or they do not |
| Diff.DamageEndsPrefix | pkg/receive/diff.go:96-115 | if the data of command i of two written streams differ within 32 consecutive bits, the offset is at most i, unless it is a Subvol or Snapshot |
| OffsetFile.ScanDecimal | pkg/receive/receivers/directory/directory.go:75-96 | a number written in decimal is read back |
| OffsetFile.ScanStops | pkg/receive/receivers/directory/directory.go:92-96 | reading stops at the first character that is no digit |
| OffsetFile.DecimalExample | pkg/receive/receivers/directory/directory.go:75 | the digits are those of base ten, highest first: 9876543210 |
| OffsetFile.OverwriteExactly | pkg/receive/receivers/directory/directory.go:69-75 | writing a number over another without truncating leaves just the new number if and only if it has at least as many digits |
| OffsetFile.OverwriteLarger | pkg/receive/receivers/directory/directory.go:69-75 | a number at least as large does, so offsets that never shrink are recorded right |
| OffsetFile.WrittenInPlace | pkg/receive/receivers/directory/directory.go:69-75 | a number is written over the start of the file and what lies beyond it stays |
| Receive.StepsConcat | pkg/receive/receive.go:67-154 | the loop over a concatenation is the loop over the second part from where the first left off |
| Receive.StepsEnded | pkg/receive/receive.go:67-154 | a run that has returned does nothing more |
| Receive.ReceiveCtx.constructor | pkg/receive/receive.go:39-58 | offset 0, no subvolume, no errors |
| Receive.ReceiveCtx.ChargeIt | pkg/receive/receive.go:130-137 | counts an error that is not a skip, and ends the run when the budget is reached |
| Receive.ReceiveCtx.ProcessOpenCommand | pkg/receive/send_ops.go:59-122 | subvol and snapshot in place: attributes first, then the open subvolume is finished, then the new one becomes current and is opened, with each failure's partial effects |
| Receive.DecodeNeeds | pkg/receive/send_ops.go:59-460 | decoding succeeds if and only if every integer, id and time that a handler decodes has its length |
| Receive.ReceiveCtx.ProcessOperation | pkg/receive/send_ops.go:124-460 | the other handlers in place: attributes first, then decoding in the handler's order, where a short integer panics and a bad id or time is an error, then one call of the receiver |
| Handlers.AcceptedExactly | pkg/receive/send_ops.go:59-460 | against a table written on raw numbers: a command is accepted if and only if its number has a handler and its attributes are there with the lengths listed for it; it panics if and only if a short integer is met first |
| Handlers.OpenedSubvolume | pkg/receive/send_ops.go:65-86 | an accepted command 1 or 2 makes current, and opens, the subvolume with the path of attribute 15, the UUID of 1 and the transaction id in the first eight bytes of 2 |
| Handlers.RejectedOpen | pkg/receive/send_ops.go:59-110 | a rejected one without its attributes leaves the open subvolume as it is; with them, but with an id that does not decode, it has finished it and left none open |
| Handlers.UnfinishedStaysOpen | pkg/receive/send_ops.go:65-70 | if the open subvolume cannot be finished it stays open, the new one is not opened, and the error counts |
| Handlers.CoveredCommand | pkg/receive/receive.go:95-111 | where the directory receiver's record lies ahead, any command, END too, only moves the offset |
| Handlers.SkippedSubvolume | pkg/receive/receive.go:73-93 | while seeking it makes that subvolume current without a call |
| Handlers.SkippedDefects | pkg/receive/receive.go:73-88 | while seeking, a transaction id under eight bytes panics, and with a sound one a UUID that is not 16 bytes ends the run |
| Receive.ReceiveCtx.ProcessCommand | pkg/receive/receive.go:73-154 | one turn of the loop in place is one step of the specification: seeking, pre-op, dispatch, END, budget, post-op, offset |
| Receive.ReceiveCtx.ProcessSendStream | pkg/receive/receive.go:67-166 | the loop over the scanner is the specified run over the commands the stream delivers, its error and the last finish included |
| Resume.StepMakesCalls | pkg/receive/receive.go:112-154 | what one well-formed command makes the receiver see: an END, an opening with the finish before it, or one operation, each with the current subvolume |
| Resume.StepsMakeCalls | pkg/receive/receive.go:67-154 | the loop over well-formed commands makes exactly the calls of an independent definition by recursion on the commands |
| Resume.SkipSteps | pkg/receive/receive.go:73-93 | seeking calls nothing and leaves the last opened subvolume current |
| Resume.ThreeRuns | pkg/receive/receive.go:67-166 | the calls of the full, the cut and the resumed run, in terms of the two parts of the stream |
| Resume.ResumeEquivalence | pkg/receive/receive.go:73-154 | with no END before offset k, the calls of a run cut after k commands and of one from offset k are those of one full run, each with the same current subvolume, and the outcome is the same |
| Resume.ResumeExactly | pkg/receive/receive.go:73-154 | for a complete stream that starts by opening a subvolume this holds if and only if the skipped part has no honoured END, or every END not honoured in it is followed there by an opening |
| Resume.BracketedBalance | pkg/receive/send_ops.go:65-84 | in a bracketed trace the finished subvolumes are the opened ones, each once, in order |
| Resume.CallsBracketed | pkg/receive/send_ops.go:59-122 | the calls up to an honoured END are groups of one opening, operations on that subvolume, one finish |
| Resume.SubvolumeBracketing | pkg/receive/receive.go:112-166 | a run of a stream with an END that starts by opening ends without error, its calls are bracketed, and opened and finished are exactly the subvolumes named before the END |
| Resume.StepCounts | pkg/receive/receive.go:101-137 | unless decoding panics, a command is counted as an error if and only if its handler is missing, lacks an attribute or cannot decode an id or time; what then becomes of the run |
| Resume.ErrorBudget | pkg/receive/receive.go:101-137 | what becomes of a run of any commands, from the commands alone: it panics, the rejected command that reaches the budget ends it, an honoured END does, or it goes on with the exact count; a budget of zero acts like the documented default of one |
| Resume.PanicsExactly | pkg/receive/receive.go:73-137 | a run panics if and only if some command has an integer cut short, with no honoured END and fewer rejected commands than the budget, or none, before it |
| EndToEnd.ScanPart | pkg/sendstream/scanner.go:50-78 | a broken-off stream gives the receiver exactly the commands that arrived whole, then an error |
| EndToEnd.InterruptedTransfer | pkg/receive/receive.go:67-154 | a transfer broken off after any number of bytes and resumed at the number of commands that had arrived makes the calls of an undisturbed one |
| CrashSafe.FirstCommand | pkg/receive/receivers/directory/directory.go:57-115 | opening the subvolume from any sound disk, with a crash at any effect, makes progress or fails on a sound disk; it gets through exactly when it decodes, is not refused, any record can be read, and a first record has a directory, which only Subvol makes |
| CrashSafe.OperationCommand | pkg/receive/receivers/directory/directory.go:57-77 | an operation strictly below the record is skipped; else it is executed before its index is recorded, with a crash possible in between; it fails, recording nothing, exactly when it does not decode, the receiver does not support it or the filesystem refuses it |
| CrashSafe.EndCommand | pkg/receive/receivers/directory/directory.go:285-294 | END marks the subvolume finished, or is itself skipped when it was |
| CrashSafe.RunAdvances | pkg/receive/receive.go:67-166 | one run from a sound disk, received and living for however long, ends with a sound disk, a record no smaller, and re-executed nothing below the record but command 0 |
| CrashSafe.CrashSafety | pkg/receive/receivers/directory/directory.go:57-115 | over any crashes and resumes the record never goes back, all commands up to it were executed, the finished mark 2^64-2 means all were, and the next run executes only command 0 and commands from the record on |
| CrashSafe.BlockedRun | pkg/receive/receivers/directory/directory.go:57-115 | a run gets past no command that does not get through and never records it, however long it lives |
| CrashSafe.FinishesExactly | pkg/receive/receivers/directory/directory.go:57-115 | from any sound disk, a run that receives everything and lives long enough finishes if and only if the file is not empty, a first record has a directory, command 0 decodes and is not refused, and so does and is every command from the record on, none of them a clone or verity command |
| CrashSafe.NeverPast | pkg/receive/receivers/directory/directory.go:211-261 | whatever the runs, a command that does not decode, a clone, a verity command, or a snapshot without the offset directory is never recorded |
| CrashSafe.FinishableExactly | pkg/receive/receivers/directory/directory.go:79-115 | some runs finish a stream if and only if all commands before END decode, none is a clone or verity command, and it opens with Subvol or the offset directory is there |
| CrashSafe.CloneNeverFinishes | pkg/receive/receivers/directory/directory.go:211-213 | a concrete well-formed stream with a clone in it, which no runs ever finish |
| CrashSafe.RecordsLast | pkg/receive/receivers/directory/directory.go:65-77 | a run cut off after k+1 commands leaves the index of the last one as the record |
| CrashSafe.RepeatRefused | pkg/receive/receivers/directory/directory.go:57-63 | resumes execute that last recorded command again, so if the filesystem will not do it twice, the record never moves again |
| CrashSafe.EmptyFileStops | pkg/receive/receivers/directory/directory.go:93-95 | with an empty offset file the run fails and the file stays empty |
| CrashSafe.CrashAfterCreate | pkg/receive/receivers/directory/directory.go:69-75 | a crash between creating the file and writing to it leaves it empty, for every stream whose first command decodes and has its directory |
| Retention.SortSnapshots | pkg/cmd/snaputil/snaputil.go:38-45 | ascending by creation time and a permutation; equal times in no particular order |
| Retention.ToTimedChunks | pkg/cmd/snapmanager/snapmanager.go:204-225 | the loop cuts some ascending order of its input into the chunks of the recursive definition |
| Retention.ChunkingInvariant | pkg/cmd/snapmanager/snapmanager.go:209-223 | chunk heads and the rest make up the list, heads are more than an interval apart, and every other snapshot lies at most an interval after a head |
| Retention.AttemptDeletesOnlyPlanned | pkg/cmd/snapmanager/snapmanager.go:168-180 | wherever deletion fails, only planned snapshots are gone; if nothing fails, all of them are |
| Retention.AttemptSucceeds | pkg/cmd/snapmanager/snapmanager.go:168-180 | distinct snapshots that are present and can be deleted all are |
| Retention.SnapManager.PruneSnapshots | pkg/cmd/snapmanager/snapmanager.go:118-182 | deletes the plan in order up to the first failure, for some ascending order of the band, and drops the expired ones from the list once all of them are deleted |
| Retention.SnapManager.DeleteExpired | pkg/cmd/snapmanager/snapmanager.go:125-137 | deletes the expired ones in order up to the first failure, and returns the others |
| Retention.SnapManager.SelectInBand | pkg/cmd/snapmanager/snapmanager.go:146-155 | the listed snapshots strictly between the two periods, in order |
| Retention.SnapManager.DeleteTails | pkg/cmd/snapmanager/snapmanager.go:168-181 | deletes all but the first of each chunk, in order, up to the first failure |
| RetentionTheorems.NoZeroTime | pkg/cmd/snapmanager/snapmanager.go:213-215 | with a clock past 1970, saturating differences keep the zero time out of the band, so "not set yet" is never mistaken |
| RetentionTheorems.BandSplit | pkg/cmd/snapmanager/snapmanager.go:161-180 | the band splits into kept and deleted, kept ones are pairwise more than an interval apart and cover every deleted one |
| RetentionTheorems.Survivors | pkg/cmd/snapmanager/snapmanager.go:118-182 | exactly the unexpired ones survive, and of those in the band the kept ones; with a retention of zero all do |
| RetentionTheorems.PlanCarriedOut | pkg/cmd/snapmanager/snapmanager.go:118-182 | on a disk that holds the snapshots and gives them up the prune succeeds and leaves exactly the survivors |
| RetentionTheorems.NothingTooOld | pkg/cmd/snapmanager/snapmanager.go:125-137 | in plain ages: no survivor is older than the retention, unless that is the largest duration there is |
| RetentionTheorems.BandThinned | pkg/cmd/snapmanager/snapmanager.go:144-180 | any two survivors with ages strictly between the two periods are more than one interval apart |
| RetentionTheorems.DeletedForAReason | pkg/cmd/snapmanager/snapmanager.go:118-180 | what is deleted was older than the retention, or strictly between the periods with an interval set; with a retention of zero nothing is |
| RetentionTheorems.ListedNext | pkg/cmd/snapmanager/snapmanager.go:125-137 | the list kept for the next prune holds exactly the snapshots not older than the retention, those pruned from the band included |
| RetentionTheorems.YoungSurvive | pkg/cmd/snapmanager/snapmanager.go:149-154 | nothing at most as old as both periods is deleted |
| RetentionTheorems.DeletedAreCovered | pkg/cmd/snapmanager/snapmanager.go:161-180 | every snapshot deleted from the band has a surviving one in the band at most one interval older |
| RetentionTheorems.BandDifference | pkg/cmd/config/config.go:391-397 | with the interval below the retention, as configuration demands, a saturated difference never counts as covered |
| RetentionTheorems.KeptIsSmallest | pkg/cmd/snapmanager/snapmanager.go:204-225 | no set that covers the band is smaller than what is kept of it |
| RetentionTheorems.SurvivorBound | pkg/cmd/snapmanager/snapmanager.go:126-179 | for k snapshots kept in the band, (k-1) intervals are less than retention minus minimum retention |
| RetentionTheorems.PruningIsIdempotent | pkg/cmd/snapmanager/snapmanager.go:118-182 | pruning what is left at the same instant, listed and sorted in any way, deletes nothing |
| RetentionTheorems.ResultBounds | pkg/cmd/snapmanager/snapmanager.go:118-182 | a prune, however far it got, leaves at least the survivors of a complete one and nothing new |
| RetentionTheorems.SettledStays | pkg/cmd/snapmanager/snapmanager.go:118-182 | a snapshot that no older one young enough covers keeps that property through one more prune with younger snapshots added, even one that stops midway |
| RetentionTheorems.SettledOverRun | pkg/cmd/snapmanager/snapmanager.go:118-182 | so from any state such a snapshot survives every run of prunes, complete or not, until its age exceeds the retention |
| RetentionTheorems.RetentionIsStable | pkg/cmd/snapmanager/snapmanager.go:118-182 | a snapshot that survives one complete prune while in the band survives every later prune of any run, complete or stopped midway, until its age exceeds the retention |
| TreeWalk.CursorAdvances | pkg/btrfs/btrfs_tree_walk.go:88-97 | the next cursor is after the last item if and only if the object id itself does not wrap around |
| TreeWalk.GoesOnInBounds | pkg/btrfs/btrfs_tree_walk.go:88-97 | the walk goes on only to objects in bounds |
| TreeWalk.WrapStartsOver | pkg/btrfs/btrfs_tree_walk.go:88-97 | where the object id wraps around the walk goes on from a cursor before everything in range |
| TreeWalk.CarrySkipsNothing | pkg/btrfs/btrfs_tree_walk.go:88-97 | every key in range between the last item and the next cursor, or after the last item when the walk ends, has a type outside the bounds |
| TreeWalk.VisitPage | pkg/btrfs/btrfs_tree_walk.go:61-87 | what was visited and a page together are in order, in range, and leave nothing out up to the page's end |
| TreeWalk.AfterPage | pkg/btrfs/btrfs_tree_walk.go:84-97 | after a page the cursor has moved forward and has passed only items outside the type bounds |
| TreeWalk.CallOnPage | pkg/btrfs/btrfs_tree_walk.go:61-87 | the callback runs on a page's items in turn, each with the last error, up to the first that stops the walk or the first reference item that does not decode, which is not called |
| TreeWalk.Walk | pkg/btrfs/btrfs_tree_walk.go:46-101 | a walk that is not stopped terminates and calls back for every item in the bounds exactly once, in strictly ascending key order, each call with the result of the one before; a stopped or failed one has left out nothing in the bounds up to the last item it visited, stopped at the first stop, and failed at the first reference that does not decode, the next item after those visited |
| RootInfos.MergeByField | pkg/btrfs/btrfs_rb_tree.go:121-184 | an update keeps the id and replaces exactly the fields it sets, for each of the nineteen |
| RootInfos.FoldIsLastSet | pkg/btrfs/subvolume_root_tree.go:50-100 | the index has a record for exactly the objects with a root item or backref, and each field is the last one set |
| RootInfos.OnlyRoot | pkg/btrfs/subvolume_root_tree.go:60-76 | the only root item of an object gives its record, field by field, the uuid, parent and received UUIDs, flags, generations, three times, offset and item reference of the item |
| RootInfos.OnlyBackref | pkg/btrfs/subvolume_root_tree.go:85-93 | the only backref of an object gives its record the parent, directory, name and reference of the item |
| Trees.SearchTreeAscends | pkg/btrfs/btrfs_rb_tree.go:244-269 | a tree is a search tree if and only if its in-order list ascends strictly |
| Trees.PreOrderRebuilds | pkg/btrfs/btrfs_rb_tree.go:201-219 | a search tree is built again by placing its records, in pre-order, at the bottom of an empty one |
| Trees.PreOrderLeftFirst | pkg/btrfs/btrfs_rb_tree.go:201-219 | and of the orders that do this, pre-order is one that goes left first: no smaller record comes after a larger one has followed |
| Trees.PostOrderMirrored | pkg/btrfs/btrfs_rb_tree.go:228-242 | post-order is the pre-order of the mirrored tree, backwards |
| Trees.LookupFinds | pkg/btrfs/btrfs_rb_tree.go:98-119 | in a search tree lookup finds the record with the id if there is one |
| Trees.InsertCorrectExactly | pkg/btrfs/btrfs_rb_tree.go:83-96 | inserting a new id as the code does leaves a search tree if and only if the descent never meets an existing left subtree on its left turn |
| Trees.LargestInsertsOnce | pkg/btrfs/btrfs_rb_tree.go:83-96 | an id above all stored ones never does |
| Trees.InsertLargest | pkg/btrfs/btrfs_rb_tree.go:83-96 | and such an insert appends to the in-order list |
| Trees.InsertLookup | pkg/btrfs/btrfs_rb_tree.go:75-119 | after a correct insert, lookup finds the new record and all others as before |
| Trees.UpdateCorrect | pkg/btrfs/btrfs_rb_tree.go:121-184 | an update keeps the search tree and its ids and changes one lookup, to the merged record |
| Trees.BuildStep | pkg/btrfs/subvolume_root_tree.go:77-97 | update-or-insert, in ascending order, keeps tree and map in agreement |
| Trees.VisitConcat | pkg/btrfs/btrfs_rb_tree.go:194-269 | visiting two lists is visiting one, then, unless it stopped, the other with the last result |
| Trees.VisitNext | pkg/btrfs/btrfs_rb_tree.go:186-219 | each call gets the state and the error of the call before it, and there is none after a stop |
| Trees.VisitStopsOnce | pkg/btrfs/btrfs_rb_tree.go:186-192 | the calls made are those of a prefix: all, or up to the first stop and none after it |
| RBTree.RBNode.InsertRoot | pkg/btrfs/btrfs_rb_tree.go:83-96 | on any pointer tree and for any id, adds the one node and gives the inserted value tree; no node is shared afterwards if and only if the descent met no existing left subtree on a left turn |
| RBTree.RBNode.LookupRoot | pkg/btrfs/btrfs_rb_tree.go:105-119 | returns the node of the tree that holds the record the value tree's lookup gives, or null if there is none |
| RBTree.RBNode.UpdateRoot | pkg/btrfs/btrfs_rb_tree.go:121-184 | changes the one record in place, no node added or lost, and says whether there was one |
| RBTree.RBNode.PreOrderIterate | pkg/btrfs/btrfs_rb_tree.go:201-219 | calls along the pre-order list, each result passed to the next call, none after a stop |
| RBTree.RBNode.PostOrderIterate | pkg/btrfs/btrfs_rb_tree.go:228-242 | the same along the post-order list |
| RBTree.RBNode.InOrderIterate | pkg/btrfs/btrfs_rb_tree.go:251-269 | the same along the in-order list |
| RBTree.RBRoot.InsertRoot | pkg/btrfs/btrfs_rb_tree.go:75-81 | the same with a fresh node, which becomes the root of an empty tree |
| RBTree.RBRoot.LookupRoot | pkg/btrfs/btrfs_rb_tree.go:98-103 | the value tree's lookup, on an empty tree too |
| RBTree.RBRoot.UpdateRoot | pkg/btrfs/btrfs_rb_tree.go:121-184 | the value tree's update, on an empty tree too |
| RBTree.BuildRBTree | pkg/btrfs/subvolume_root_tree.go:49-103 | from any ascending items builds a valid pointer tree that looks up exactly the folded map; fails if and only if some item cannot be decoded |
| WalkedIndex.WalkedItemsAscend | pkg/btrfs/subvolume_root_tree.go:50-53 | decoded in the order in which the walk visits, items come in the order the build relies on |
| WalkedIndex.CallsIndex | pkg/btrfs/subvolume_root_tree.go:50-100 | the build's callback along any ascending items: no error if and only if all decode, and then the tree represents the folded map |
| WalkedIndex.FoldWanted | pkg/btrfs/subvolume_root_tree.go:37-48 | items in key range but outside the search bounds leave the index as it is |
| WalkedIndex.WalkIndex | pkg/btrfs/subvolume_root_tree.go:37-103 | the paged walk with the build's callback never stops early and breaks off only at an undecodable reference in key range; when it finishes it reports an error if and only if an item in bounds cannot be decoded, and else the tree represents the fold of exactly the store's items in bounds |
| WalkedIndex.IndexedRoot | pkg/btrfs/subvolume_root_tree.go:55-80 | of the index of a store: the only item of type 132 of an object from the given root up to 2^64-256 is looked up with each field of its decoded body and of its key |
| WalkedIndex.IndexedBackref | pkg/btrfs/subvolume_root_tree.go:81-97 | likewise the only item of type 144, with the parent from its key and the directory and name from its body |
| WalkedIndex.IndexedOnly | pkg/btrfs/subvolume_root_tree.go:37-100 | an id is in the index if and only if it lies in these bounds and the store has an item of type 132 or 144 for it that decodes |
| WalkedIndex.FailsExactly | pkg/btrfs/subvolume_root_tree.go:54-84 | the build fails if and only if the store has an item of type 132 or 144 in these bounds that does not decode |
| Descendants.FilterFromRoot | pkg/btrfs/btrfs_rb_tree.go:271-298 | for any search tree and root, a new valid tree whose in-order list is the kept part of the old one's |
| Descendants.ParentReachesRoot | pkg/btrfs/btrfs_rb_tree.go:281-294 | the ancestor loop terminates and says yes exactly when the root is in the tree kept so far and so is the parent, naming a parent itself |
| Descendants.KeptClimbs | pkg/btrfs/btrfs_rb_tree.go:271-298 | kept records come from the list in order, and each but the root and its children has a kept, linked parent with a smaller id |
| Descendants.KeptExactly | pkg/btrfs/btrfs_rb_tree.go:271-298 | for every ascending list: kept are the root, its children, and records whose linked parent and the root come before them and are kept |
| Descendants.FilterCorrectExactly | pkg/btrfs/btrfs_rb_tree.go:271-298 | for every ascending list, what is kept are exactly the records whose chain of parents reaches the root, if and only if all those below the root's children have the root in the list, the root and their parent at smaller ids, and a parent that names one itself |
| Descendants.KeptAreDescendants | pkg/btrfs/btrfs_rb_tree.go:271-298 | with the root present and parents' ids below their children's, kept are exactly the records whose chain of parents reaches the root |
| Descendants.GrandchildLostWithoutRoot | pkg/btrfs/btrfs_rb_tree.go:281-294 | without the root in the tree a grandchild is lost |
| Descendants.ForwardReferenceLost | pkg/btrfs/btrfs_rb_tree.go:281-294 | a record whose parent has a larger id is lost |
| Queue.InvStep | pkg/cmd/queue/queue.go:79-139 | every step of runner, worker, client or waiter keeps the invariant: order of the queue, counts, locks, phases, errors |
| Queue.ReachableInv | pkg/cmd/queue/queue.go:57-139 | the invariant holds in every state of every interleaving |
| QueueTheorems.ExactlyOnePlace | pkg/cmd/queue/queue.go:79-139 | every pushed function is in exactly one of queued, in progress, done, and nothing else is anywhere |
| QueueTheorems.StartsInOrder | pkg/cmd/queue/queue.go:107-125 | functions start in the order they were pushed, one per step and at most once |
| QueueTheorems.ConcurrencyBound | pkg/cmd/queue/queue.go:104-119 | no more functions are in flight than the concurrency allows |
| QueueTheorems.Exclusive | pkg/cmd/queue/queue.go:79-139 | in every interleaving at most one of runner and workers is in a section under the queue's mutex, no push gets in meanwhile, and while the runner holds the lock it tried Wait has to wait |
| QueueTheorems.CancelledMeansFinished | pkg/cmd/queue/queue.go:102-134 | when the queue is cancelled every started function has finished, and those never started are exactly the ones pushed after the runner last saw an empty queue |
| QueueTheorems.WaitResult | pkg/cmd/queue/queue.go:90-99 | Wait returns an error only of a function that failed, and nil only when the queue was cancelled |
| QueueTheorems.WaitReturnsFirst | pkg/cmd/queue/queue.go:85-99 | an error that Wait returns is the one that was reported first |
| QueueTheorems.PushBeforeWaitCanBeLost | pkg/cmd/queue/queue.go:105-135 | a function pushed before Wait is called can stay queued forever while Wait returns nil |
| QueueTheorems.LostExactly | pkg/cmd/queue/queue.go:101-135 | in every run from the moment Wait takes its lock to the end, a function pushed by then is never run if and only if the runner had found the queue empty before that push and not yet tried the lock |
| QueueTheorems.ContinuesAfterError | pkg/cmd/queue/queue.go:77-83 | a function starts after an earlier one has failed |
| QueueTheorems.ContinuesExactly | pkg/cmd/queue/queue.go:101-125 | with at most n pushes the runner can be about to start a function after a failure was reported if and only if one of the first n - 1 functions fails |
| QueueTheorems.BlockedStays | pkg/cmd/queue/queue.go:90-99 | once Wait is called with the error buffer full and a worker at it, no step ever frees it |
| QueueTheorems.TooManyErrorsCanBlock | pkg/cmd/queue/queue.go:72-123 | one failing function more than the buffer holds can get Wait into that state |
| QueueTheorems.RoomToReport | pkg/cmd/queue/queue.go:72-123 | with no more failing functions than the buffer holds, a worker always finds room |
| QueueTheorems.SomethingCanMove | pkg/cmd/queue/queue.go:90-139 | then, while Wait has not returned, some step makes progress |
| QueueTheorems.ProgressDecreases | pkg/cmd/queue/queue.go:90-139 | and once Wait was called every progress step brings the queue nearer to its end |
| QueueTheorems.WaitReturns | pkg/cmd/queue/queue.go:90-99 | so every run that goes on as long as it can is finite and ends with Wait returned |
| QueueTheorems.WaitBlocksExactly | pkg/cmd/queue/queue.go:72-123 | after at most n pushes Wait can be caught at a full error buffer if and only if more than concurrency + 1 of the first n functions fail |
| QueueTheorems.NeverReturnsExactly | pkg/cmd/queue/queue.go:72-123 | after at most n pushes there is a state in which Wait was called and from which no steps lead to its return, if and only if more than concurrency + 1 of the first n functions fail |

## Left out

- ioctls, opening files, SSH, FUSE, the command line and configuration resolution: interfaces to the outside. The
  kernel's tree search is an ordered list that answers with any non-empty part of what is in range.
- Compression and `EncodedWrite` decompression, and the bodies of the filesystem operations: one abstract operation
  stands for each. Which of them the filesystem refuses in a run is a parameter of the theorems on crashes.
- The other `Get*`, `Set*` and `New*Command` members: easy members that add nothing.
- Errors of the writer's sink and of the reader other than an end of input.
- Commands.Encode: sequences stand for the buffer; the buffer's own write errors, which cannot happen, are dropped.
- Streams.Scanner.DecodeAttributes: a length that points beyond the command is an error result; in the program the
  slice expression panics there.
- Streams.Scanner.ReadNextCommand: the exported `ReadHeader` and `ReadCommand` used on their own, outside `Scan`, are
  not modelled separately.
- Receive.ReceiveCtx.ProcessOperation: decompressing an encoded write, forced or because the receiver does not support
  encoded writes, is part of the receiver's one abstract operation.
- Receive.ReceiveCtx.ProcessSendStream: contexts cancelled from outside, deadlines and logging are left out; offsets
  and error counts are unbounded numbers.
- CrashSafe.CrashSafety: one subvolume per stream, as the receiver tracks one offset at a time; END honoured and no
  error tolerated, as the tool sets it. A single write of the digits is one effect, so a torn write is not modelled.
  Opening a snapshot counts as an executed command although the directory receiver does no work for it. Failures to
  open or write the offset file for other reasons than a missing directory count as the run's death.
- OffsetFile.ScanDecimal: numbers of any size; the program's are below 2^64.
- `FindPathDiffOffset`: whether its offsets fit a stream with data depends on the kernel.
- Diff.FindDiffOffset: the line printed for each pair of commands is left out.
- Retention.SnapManager.PruneSnapshots: one clock reading per prune; the program reads the clock for each snapshot.
- Retention.SortSnapshots: the library's sort is replaced by an insertion sort; only its contract is used.
- RetentionTheorems.RetentionIsStable: the first prune is a complete one; from any other state
  `RetentionTheorems.SettledOverRun` says the same of the snapshots that no older one young enough covers.
- TreeWalk.Walk: for stores that hold no key in range after which the object id wraps around; from such a key the walk
  starts over, as `TreeWalk.WrapStartsOver` states. Transaction id bounds, undecodable search headers, the trimming
  of names from references, and references whose name is longer than the item, on which the program panics, are left
  out.
- RBTree.RBNode.InsertRoot: into a tree without shared nodes; a further insert after one that shared a node is left
  out.
- RBTree.RBRoot.InsertRoot: as for the node.
- RBTree.RBNode.UpdateRoot: the descent of `LookupRoot` is written out in it, so that the record is changed in place.
- Descendants.FilterFromRoot: records are values, so that the filtered tree shares its records with the old one and
  takes over their back pointers is not captured.
- `resolveFullPaths`: path joining over subvolumes.
- Queue.ReachableInv: one waiter; the concurrency is a number, so the value -1 for "no limit" is left out. Data races
  on the slice header and the ten milliseconds of jitter are left out.
- QueueTheorems.WaitReturns: under a scheduler that keeps taking steps that change something; the runner's polling
  while no slot is free changes nothing.
