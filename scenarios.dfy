/**
 * Concrete cases of the logger. Three lemmas frame concrete byte streams.
 * The methods drive a fresh `Logger` through Start, Stop, the worker and
 * single passes, each stated with the flag, file, display or buffer values
 * it leaves; which of these each one states is in its own contract.
 */
module Scenarios {
  import opened Wrappers
  import opened Framing
  import opened RecordLog
  import opened Machine
  import opened Capture

  /** A log file name and port settings that the user has chosen. */
  const FILE_NAME: string := "log.csv"
  const BAUD: Option<string> := Some("9600")
  const PORT: Option<string> := Some("COM3")

  /** "abc", CR, "de": one completed line and two pending bytes. */
  lemma OneLineThenTail()
    ensures Lines([97, 98, 99, CR, 100, 101]) == [[97, 98, 99]]
    ensures Pending([97, 98, 99, CR, 100, 101]) == [100, 101]
  {
    var segs: seq<seq<byte>> := [[97, 98, 99]];
    assert JoinLines(segs[1..]) == [];
    assert JoinLines(segs) + [100, 101] == [97, 98, 99, CR, 100, 101];
    LinesOfJoin(segs, [100, 101]);
    DropLFMembers(segs[0]);
    DropLFMembers([100, 101]);
  }

  /** A single byte followed by CR is one line holding that byte. */
  lemma OneByteLine(b: byte)
    requires b != CR && b != LF
    ensures Lines([b, CR]) == [[b]]
  {
    var segs: seq<seq<byte>> := [[b]];
    assert JoinLines(segs[1..]) == [];
    assert JoinLines(segs) + [] == [b, CR];
    LinesOfJoin(segs, []);
    DropLFMembers(segs[0]);
  }

  /** The file content written for the feed `bs` when every line of it is written. */
  lemma FeedWrites(bs: seq<byte>, stamp: seq<byte>, line: seq<byte>)
    requires Lines(bs) == [line]
    ensures FailAt(Feed(bs, stamp)) == |Feed(bs, stamp)|
    ensures Flatten(Records(Feed(bs, stamp)[..FailAt(Feed(bs, stamp))])) == Record(stamp, line)
    ensures Shown(Feed(bs, stamp)[..|bs|]) == [Line(Record(stamp, line))]
  {
    var ts := Feed(bs, stamp);
    FeedRecords(bs, stamp);
    assert ts[..FailAt(ts)] == ts;
    assert ts[..|bs|] == ts;
    assert Records(ts) == [Record(stamp, line)];
    assert Flatten([Record(stamp, line)]) == [] + Record(stamp, line);
  }

  /**
   * Start, one completed line and two more bytes, then Stop: the worker's
   * next flag check ends the session, the file holds exactly the one record
   * and the unterminated bytes are never written.
   */
  method StopDiscardsTail(stamp: seq<byte>) returns (file: seq<byte>, dropped: seq<byte>, exit: bool)
    ensures file == stamp + [97, 98, 99, LF]
    ensures dropped == [100, 101]
    ensures exit
  {
    var log := new Logger([]);
    var spawned := log.Start(FILE_NAME, BAUD, PORT);
    var bs: seq<byte> := [97, 98, 99, CR, 100, 101];
    var ticks := Feed(bs, stamp);
    OneLineThenTail();
    FeedRecords(bs, stamp);
    FeedWrites(bs, stamp, [97, 98, 99]);
    var n := log.Worker(true, true, ticks);
    dropped := log.outBuf;
    log.Stop();
    exit := log.Step(Tick(Some(102), stamp, true));
    file := log.file;
  }

  /**
   * Two sessions against the same file, each completing one line: the first
   * worker's next flag check after Stop ends it before the second Start, and
   * the file keeps its earlier content and gains the two records in session
   * order.
   */
  method TwoSessionsAppend(existing: seq<byte>, stamp1: seq<byte>, stamp2: seq<byte>) returns (firstEnded: bool, file: seq<byte>)
    ensures firstEnded
    ensures file == existing + Record(stamp1, [97]) + Record(stamp2, [98])
  {
    var log := new Logger(existing);
    var spawned := log.Start(FILE_NAME, BAUD, PORT);
    OneByteLine(97);
    FeedWrites([97, CR], stamp1, [97]);
    var n := log.Worker(true, true, Feed([97, CR], stamp1));
    log.Stop();
    firstEnded := log.Step(Tick(Some(99), stamp1, true));
    spawned := log.Start(FILE_NAME, BAUD, PORT);
    OneByteLine(98);
    FeedWrites([98, CR], stamp2, [98]);
    n := log.Worker(true, true, Feed([98, CR], stamp2));
    file := log.file;
  }

  /**
   * The serial port cannot be opened: the display shows the open error,
   * the flag is cleared and the file is left exactly as it was.
   */
  method SerialOpenFails(existing: seq<byte>, stamp: seq<byte>) returns (file: seq<byte>, running: int, display: seq<Output>)
    ensures file == existing && running == 0 && display == [Message(SERIAL_OPEN_ERROR)]
  {
    var log := new Logger(existing);
    var spawned := log.Start(FILE_NAME, BAUD, PORT);
    var n := log.Worker(false, true, Feed([97, CR], stamp));
    file, running, display := log.file, log.running, log.display;
  }

  /**
   * The first write fails: its record is still shown, the flag is cleared,
   * the loop ends at the next check, and the later line is never read.
   */
  method WriteFailureEndsSession(existing: seq<byte>, stamp: seq<byte>) returns (file: seq<byte>, running: int, display: seq<Output>, consumed: nat)
    ensures file == existing && running == 0
    ensures display == [Line(Record(stamp, [97]))]
    ensures consumed == 2
  {
    var log := new Logger(existing);
    var spawned := log.Start(FILE_NAME, BAUD, PORT);
    var ticks := [Tick(Some(97), stamp, true), Tick(Some(CR), stamp, false), Tick(Some(98), stamp, true), Tick(Some(CR), stamp, true)];
    var first := [Tick(Some(97), stamp, true), Tick(Some(CR), stamp, false)];
    assert FailAt(ticks) == 1 by {
      assert ticks[1..][1..] == ticks[2..];
    }
    assert ticks[..2] == first;
    assert ticks[..1] == [Tick(Some(97), stamp, true)];
    assert first == [first[0]] + [first[1]];
    assert ReadBytes(first) == [97, CR] by {
      assert first[..1] == [first[0]] && first[..1][..0] == [];
    }
    OneByteLine(97);
    ReadOne([Tick(Some(97), stamp, true)], first[1]);
    assert ReadBytes([Tick(Some(97), stamp, true)]) == [97] by {
      assert [Tick(Some(97), stamp, true)][..0] == [];
    }
    assert Records([Tick(Some(97), stamp, true)]) == [] by {
      LinesCount([97]);
    }
    assert Stamps(first) == [stamp] by {
      assert first[..1] == [first[0]] && first[..1][..0] == [];
    }
    assert Shown(first) == [Line(Record(stamp, [97]))];
    assert Flatten(Records([Tick(Some(97), stamp, true)])) == [];
    consumed := log.Worker(true, true, ticks);
    file, running, display := log.file, log.running, log.display;
  }

  /**
   * Start with a file name but no port selected: the flag is set even
   * though no worker is spawned; Stop then clears it, and a second Stop
   * changes nothing.
   */
  method StartWithoutPort() returns (afterStart: int, spawned: bool, afterStop: int, afterSecondStop: int)
    ensures afterStart == 1 && !spawned
    ensures afterStop == 0 && afterSecondStop == 0
  {
    var log := new Logger([]);
    spawned := log.Start(FILE_NAME, BAUD, None);
    afterStart := log.running;
    log.Stop();
    afterStop := log.running;
    log.Stop();
    afterSecondStop := log.running;
  }

  /** Start without a file name does nothing, whatever else is selected. */
  method StartWithoutFileName(existing: seq<byte>) returns (running: int, spawned: bool, file: seq<byte>)
    ensures running == 0 && !spawned && file == existing
  {
    var log := new Logger(existing);
    spawned := log.Start("", BAUD, PORT);
    running, file := log.running, log.file;
  }
}
