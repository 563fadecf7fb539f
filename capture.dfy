/**
 * The capture controller and worker: the run flag that `Start` sets and
 * `Stop` clears, and the worker that opens the port and the file and then
 * loops, framing bytes into timestamped records that it shows on the
 * display and appends to the file.
 *
 * The worker's closure-local buffers and file handle are fields of one
 * `Logger` object together with the shared flag; the file is its content,
 * which the worker only ever extends. The worker's environment (serial
 * reads, clock, write outcomes) arrives as one `Tick` per pass of the loop.
 */
module Capture {
  import opened Wrappers
  import opened Framing
  import opened RecordLog
  import opened Machine

  class Logger {
    /** The shared run flag: 1 while the session should go on, 0 to end it. */
    var running: int
    /** The line being accumulated. */
    var outBuf: seq<byte>
    /** The record being assembled while a carriage return is handled. */
    var finalBuf: seq<byte>
    /** The content of the output file, opened for appending. */
    var file: seq<byte>
    /** Everything appended to the display terminal, in order. */
    var display: seq<Output>

    /** The flag only ever holds 0 or 1; no record is half-assembled between passes. */
    ghost predicate Valid()
      reads this
    {
      (running == 0 || running == 1) && finalBuf == []
    }

    /** The worker's observable state. */
    function Snapshot(): State
      reads this
    {
      State(running, outBuf, file, display)
    }

    /** A stopped logger whose output file already holds `existing`. */
    constructor (existing: seq<byte>)
      ensures Valid()
      ensures running == 0 && outBuf == [] && file == existing && display == []
    {
      running := 0;
      outBuf := [];
      finalBuf := [];
      file := existing;
      display := [];
    }

    /**
     * The Start button. Without a file name nothing happens. Otherwise the
     * flag is set to 1 whatever it was (there is no guard against a second
     * start), and only then are the port and baud selections looked at: a
     * worker is spawned only when both are present.
     */
    method Start(fileName: string, comSettings: Option<string>, comPort: Option<string>) returns (spawned: bool)
      requires Valid()
      modifies this`running
      ensures Valid()
      ensures fileName == [] ==> !spawned && running == old(running)
      ensures fileName != [] ==> running == 1 && spawned == (comSettings.Some? && comPort.Some?)
    {
      if fileName == [] {
        return false;
      }
      running := 1;
      spawned := comSettings.Some? && comPort.Some?;
    }

    /** The Stop button: clears the flag whatever its value. */
    method Stop()
      requires Valid()
      modifies this`running
      ensures Valid()
      ensures running == 0
    {
      running := 0;
    }

    /**
     * The worker's start: fresh buffers, then the serial port and the file
     * are opened. A failure of either is reported on the display and clears
     * the flag; the file is never written here.
     */
    method Open(serialOk: bool, fileOk: bool) returns (ok: bool)
      requires Valid()
      modifies this
      ensures Valid()
      ensures outBuf == [] && file == old(file)
      ensures ok == (serialOk && fileOk)
      ensures ok ==> running == old(running) && display == old(display)
      ensures !serialOk ==> running == 0 && display == old(display) + [Message(SERIAL_OPEN_ERROR)]
      ensures serialOk && !fileOk ==> running == 0 && display == old(display) + [Message(FILE_OPEN_ERROR)]
    {
      outBuf := [];
      finalBuf := [];
      if !serialOk {
        display := display + [Message(SERIAL_OPEN_ERROR)];
        running := 0;
        return false;
      }
      if !fileOk {
        display := display + [Message(FILE_OPEN_ERROR)];
        running := 0;
        return false;
      }
      ok := true;
    }

    /**
     * One pass of the worker loop. A cleared flag ends the loop before
     * anything is read (`exit`). Otherwise a failed read changes nothing; a
     * carriage return shows the record on the display, appends it to the file
     * and empties both buffers, a failed write clearing the flag instead of
     * extending the file; a line feed changes nothing; any other byte is
     * appended to the line being accumulated.
     */
    method Step(t: Tick) returns (exit: bool)
      requires Valid()
      modifies this
      ensures Valid()
      ensures exit <==> old(running) == 0
      ensures exit || t.read.None? || t.read == Some(LF) ==> unchanged(this)
      ensures !exit && Completes(t) ==>
        && display == old(display) + [Line(Record(t.stamp, old(outBuf)))]
        && file == (if t.writeOk then old(file) + Record(t.stamp, old(outBuf)) else old(file))
        && running == (if t.writeOk then 1 else 0)
        && outBuf == [] && finalBuf == []
      ensures !exit && t.read.Some? && t.read.value != CR && t.read.value != LF ==>
        && outBuf == old(outBuf) + [t.read.value]
        && file == old(file) && display == old(display) && running == old(running)
      ensures !exit ==> Snapshot() == Pass(old(Snapshot()), t)
    {
      if running == 0 {
        return true;
      }
      exit := false;
      match t.read
      case None =>
      case Some(b) =>
        if b == CR {
          ghost var line := outBuf;
          finalBuf := finalBuf + t.stamp;
          finalBuf, outBuf := finalBuf + outBuf, [];
          finalBuf := finalBuf + [LF];
          assert finalBuf == Record(t.stamp, line);
          display := display + [Line(finalBuf)];
          if !t.writeOk {
            running := 0;
          } else {
            file := file + finalBuf;
          }
          outBuf := [];
          finalBuf := [];
        } else if b == LF {
        } else {
          outBuf := outBuf + [b];
        }
    }

    /**
     * The worker loop over the passes `ticks`, entered with an empty line
     * buffer: its new state is `Exec` of the old. From a cleared flag it
     * ends at once and changes nothing; from a set flag it ends as
     * `Described` says: every pass up to and including the first failed
     * write is run, the file gains exactly the records completed before it,
     * the display every record completed up to it, and the line buffer holds
     * the framer's pending bytes, or nothing after a failed write.
     */
    method Run(ticks: seq<Tick>) returns (consumed: nat)
      requires Valid() && outBuf == []
      modifies this
      ensures Valid()
      ensures Snapshot() == Exec(old(Snapshot()), ticks) && consumed == Consumed(old(Snapshot()), ticks)
      ensures old(running) == 0 ==> consumed == 0 && Snapshot() == old(Snapshot())
      ensures old(running) == 1 ==> Described(old(Snapshot()), ticks, Snapshot(), consumed)
    {
      ghost var s0 := Snapshot();
      assert s0.running == old(running);
      consumed := 0;
      assert ticks[..0] == [];
      while consumed < |ticks|
        invariant Valid()
        invariant consumed <= |ticks|
        invariant Snapshot() == Exec(s0, ticks[..consumed])
        invariant consumed == Consumed(s0, ticks[..consumed])
      {
        ghost var before := ticks[..consumed];
        var exit := Step(ticks[consumed]);
        if exit {
          assert before + ticks[consumed..] == ticks;
          ExecHalted(s0, before, ticks[consumed..]);
          break;
        }
        ExecSnoc(s0, before, ticks[consumed]);
        assert ticks[..consumed + 1] == before + [ticks[consumed]];
        consumed := consumed + 1;
      }
      if consumed == |ticks| {
        assert ticks[..consumed] == ticks;
      }
      if s0.running == 1 {
        ExecMeaning(s0, ticks);
      } else {
        ExecStopped(s0, ticks);
      }
    }

    /**
     * The whole worker thread: open, then loop over `ticks`. An open
     * failure ends the session with its message and a cleared flag and
     * leaves the file as it was.
     */
    method Worker(serialOk: bool, fileOk: bool, ticks: seq<Tick>) returns (consumed: nat)
      requires Valid()
      modifies this
      ensures Valid()
      ensures !serialOk ==>
        consumed == 0 && running == 0 && file == old(file) && display == old(display) + [Message(SERIAL_OPEN_ERROR)]
      ensures serialOk && !fileOk ==>
        consumed == 0 && running == 0 && file == old(file) && display == old(display) + [Message(FILE_OPEN_ERROR)]
      ensures serialOk && fileOk && old(running) == 0 ==>
        consumed == 0 && running == 0 && file == old(file) && display == old(display)
      ensures serialOk && fileOk && old(running) == 1 ==>
        Described(old(Snapshot()).(outBuf := []), ticks, Snapshot(), consumed)
    {
      var ok := Open(serialOk, fileOk);
      if !ok {
        return 0;
      }
      consumed := Run(ticks);
    }
  }
}
