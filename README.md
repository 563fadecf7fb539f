# Serial port data logger: capture engine

A Dafny model of the capture engine of `arduino_datalogger`, a desktop tool. The tool reads a
byte stream from a serial port, cuts it into lines, prefixes each line with
a timestamp and appends it to a CSV file and to an on-screen terminal.

The engine has two parts, and both are modelled here:

- **The worker loop.** At the top of every pass it checks the shared run flag and leaves when
  the flag is 0. Otherwise it reads one byte. A failed or timed-out read changes nothing.
  - A carriage return (13) completes a line. The record is the timestamp, the accumulated
    line and a line feed. It is shown on the display and appended to the file. A failed
    write clears the flag. Both buffers are emptied either way.
  - A line feed (10) is dropped.
  - Any other byte is appended to the line buffer.
- **The run-flag protocol.** The Start button, with a file name chosen, sets the flag to 1. Only
  then does it look at the port and baud selections, and it spawns a worker only when both
  are present. The Stop button clears the flag. The worker clears the flag itself when the
  serial port or the file cannot be opened, or when a write fails.

Modules:

- `Framing`: a reference definition of the framer on a whole byte stream. `Lines` gives the
  completed lines and `Pending` the unterminated tail. Both split at the first carriage
  return and are independent of the byte-at-a-time loop. `FeedExtends` ties the two together
  one byte at a time.
- `RecordLog`: what a sequence of loop passes (`Tick`s) produces.
  - A `Tick` bundles the three environment answers for one pass: the read outcome, the
    clock's timestamp and the write outcome.
  - `Records` lists, in arrival order, the records the passes complete.
  - `FailAt` gives the first pass whose write fails.
- `Machine`: the worker loop as a pure function of its inputs (`Pass`, `Exec`, `Consumed`).
  `Pass` is the function form of `Capture.Logger.Step` and `Exec` that of `Capture.Logger.Run`.
  `ExecMeaning` states what a whole session does in terms of the reference definition.
- `Capture`: the `Logger` class. Its fields are the run flag, the two buffers, the file
  content and the display. Its methods are `Start`, `Stop`, `Open`, `Step`, `Run` and
  `Worker`. `Start`, `Stop` and `Open` state their effect on the fields directly. `Step`,
  `Run` and `Worker` are proved against `Machine` (`Pass`, `Exec` and `Described`).
- `Scenarios`: three lemmas that frame concrete byte streams (`OneLineThenTail`,
  `OneByteLine`, `FeedWrites`), and methods that drive a fresh `Logger` through Start, Stop,
  the worker and single passes. Each method states some of the flag, file, display or
  buffer values it leaves; its row below says which.

Behaviour of the code that a reader might not expect:

- `start` has no guard against a second start. It sets the flag to 1 whatever it was.
- The flag is set before the port and baud selections are checked. A Start without a port
  leaves the flag at 1 with no worker running.
- A read error is not fatal. It is ignored just like a timeout.
- There is no `status` operation.

## Model

| member | source | states |
|---|---|---|
| Framing.DropLFMembers | src/main.rs:194-197 | a byte is kept by the line-feed filter exactly when it was read and is not a line feed; the filter never lengthens a line and leaves a line without line feeds unchanged |
| Framing.DropLFAppend | src/main.rs:194-197 | dropping line feeds byte by byte is the same over a whole stream as over its parts, so the order of kept bytes is preserved |
| Framing.FirstCR | src/main.rs:170 | the first carriage return lies within the stream, and the index is the stream's end when there is none |
| Framing.FirstCRIsFirst | src/main.rs:170 | no carriage return comes before the one found, so a line ends at the first carriage return after it starts |
| Framing.LinesClean | src/main.rs:168-197 | no completed line contains a carriage return or a line feed |
| Framing.PendingClean | src/main.rs:194-197 | the bytes still buffered after the last carriage return contain neither a carriage return nor a line feed |
| Framing.LinesCount | src/main.rs:170-193 | the number of completed lines equals the number of carriage returns in the stream |
| Framing.FeedExtends | src/main.rs:168-198 | one byte fed to the framer: a carriage return adds the buffered line as a new completed line and empties the buffer; a line feed changes nothing; any other byte is appended to the buffer and completes nothing |
| Framing.SplitFirst | src/main.rs:170-192 | a stream that starts with a segment free of carriage returns followed by one carriage return has that segment (line feeds removed) as its first line, and the rest is framed on its own |
| Framing.LinesOfJoin | src/main.rs:166-198 | in a stream of segments each ended by a carriage return, the k-th line is the k-th segment with its line feeds removed, there are exactly as many lines as segments, and the unterminated rest, line feeds removed, is what stays buffered |
| Framing.SegmentsJoin | src/main.rs:168-197 | every byte stream is its carriage-return-terminated segments, in order, followed by its unterminated rest |
| Framing.SegmentsFree | src/main.rs:170 | no segment and not the rest contains a carriage return, so the segments are exactly the bytes between consecutive carriage returns |
| Framing.LinesOfStream | src/main.rs:166-198 | for any byte stream: one completed line per segment, the k-th line is the bytes between the (k-1)-th and the k-th carriage return with line feeds removed, and what stays buffered is the bytes after the last carriage return with line feeds removed |
| Framing.CrLfExample | src/main.rs:166-198 | "abc", CR, "def", LF, CR frames into the lines "abc" and "def" and leaves nothing buffered |
| RecordLog.StampsCount | src/main.rs:170-175 | one timestamp is taken per carriage return read |
| RecordLog.StampsMatchLines | src/main.rs:170-179 | there are as many timestamps as completed lines, so each record pairs one of each |
| RecordLog.RecordsCount | src/main.rs:170-180 | there are exactly as many records, and as many timestamps, as carriage returns read; a second clause restates the record layout for callers |
| RecordLog.FailAt | src/main.rs:186-188 | the index found is the first pass that completes a line and fails to write it; no earlier pass fails a write |
| RecordLog.ExtendOne | src/main.rs:170-192 | one more pass adds one record, and one display entry, exactly when it reads a carriage return; that record is its timestamp, the line buffered before it and a line feed |
| RecordLog.RecordsPrefix | src/main.rs:178-186 | records once completed never change: later passes only append records after them, in arrival order |
| RecordLog.NoRecordWithoutCR | src/main.rs:194-197 | passes that read no carriage return add no record and no display entry |
| RecordLog.FeedRecords | src/main.rs:166-198 | when every read and write succeeds, all bytes are read, no write fails, and the k-th record is the timestamp, the k-th line of the stream and a line feed |
| Machine.LiveQuiet | src/main.rs:194-197 | a pass that reads no carriage return keeps the session running, and the file and the display unchanged |
| Machine.LiveWritten | src/main.rs:170-192 | a pass that completes a line and writes it appends its record to the file and to the display, keeps the flag set and empties the line buffer |
| Machine.LiveFailed | src/main.rs:183-192 | a pass whose write fails still shows its record, leaves the file as it was, clears the flag and empties the line buffer |
| Machine.DescribedHalted | src/main.rs:186-188 | after the first failed write, later passes add nothing to the file or the display |
| Machine.ExecMeaning | src/main.rs:158-200 | a session entered with the flag set runs every pass up to and including the first failed write and is then ended by the next flag check; the file is its earlier content followed by exactly the records completed before that write, in arrival order; the display shows every record up to it; the line buffer holds the bytes after the last carriage return, or nothing after a failed write |
| Machine.ExecStopped | src/main.rs:160-164 | a loop entered with the flag cleared performs no pass and changes nothing |
| Machine.ExecHalted | src/main.rs:158-164 | once the flag is cleared, no later pass is performed or changes anything |
| Capture.Logger.constructor | src/main.rs:16 | the flag starts at 0, with nothing buffered or displayed and the file holding its earlier content |
| Capture.Logger.Start | src/main.rs:99-123 | with no file name nothing changes and no worker is spawned; otherwise the flag becomes 1 whatever it was, and a worker is spawned exactly when both a baud rate and a port are selected |
| Capture.Logger.Stop | src/main.rs:205-212 | the flag becomes 0 whatever it was, so a second Stop changes nothing |
| Capture.Logger.Open | src/main.rs:127-154 | the worker starts with empty buffers; a serial-port or file open failure shows its own message and clears the flag; the file is never written; success changes neither the flag nor the display |
| Capture.Logger.Step | src/main.rs:158-198 | a cleared flag ends the loop with nothing read; a failed read and a line feed change nothing; a carriage return shows timestamp + line + line feed, appends exactly that to the file after its old content, or clears the flag if the write fails, and leaves both buffers empty; any other byte is appended to the line buffer and nothing is written; the new state is one `Machine.Pass` |
| Capture.Logger.Run | src/main.rs:158-200 | the loop over the passes ends in `Machine.Exec` of the old state; from a cleared flag it performs nothing; from a set flag it ends as `Machine.ExecMeaning` describes |
| Capture.Logger.Worker | src/main.rs:126-200 | an open failure shows its message, clears the flag, performs no pass and leaves the file unchanged; otherwise the session runs as `Machine.ExecMeaning` describes, starting from an empty line buffer |
| Scenarios.OneLineThenTail | src/main.rs:166-198 | "abc", CR, "de" yields the line "abc" and leaves "de" buffered |
| Scenarios.OneByteLine | src/main.rs:166-198 | one byte other than CR and LF, then CR, is one line holding that byte |
| Scenarios.FeedWrites | src/main.rs:166-198 | a feed whose one line is written produces exactly one record, in the file and on the display |
| Scenarios.StopDiscardsTail | src/main.rs:158-198 | after Start, one line, two more bytes and Stop, the next flag check ends the loop; the file holds just the one record and the two buffered bytes are never written |
| Scenarios.TwoSessionsAppend | src/main.rs:142-154 | after Stop the first worker's next flag check ends it before the second Start; the two sessions keep the file's earlier content and append their records in session order |
| Scenarios.SerialOpenFails | src/main.rs:133-140 | a serial open failure shows its message, clears the flag and leaves the file unchanged |
| Scenarios.WriteFailureEndsSession | src/main.rs:183-188 | a failed first write still shows its record, clears the flag and ends the loop at the next check, so the later line is never read and the file is unchanged |
| Scenarios.StartWithoutPort | src/main.rs:107-123 | Start with a file name but no port sets the flag without spawning a worker; Stop clears it, and a second Stop changes nothing |
| Scenarios.StartWithoutFileName | src/main.rs:99-102 | Start without a file name leaves the flag at 0, spawns no worker and leaves the file as it was |

## Left out

- The FLTK window, the terminal widget, the buttons, the message channel and the file chooser (src/main.rs:14-86, 214-231) are user interface. The terminal is modelled as the list of entries appended to it.
- Button activation and deactivation (src/main.rs:104-105, 161-162, 207-208) are user-interface side effects and are not modelled.
- `thread::spawn` and the `RwLock` around the flag are not modelled as concurrency. The flag is a plain field that is read and written in sequence. A Stop between two passes is modelled by calling `Stop` before the next `Step`.
- A second Start while a worker runs spawns a second worker in the source. The model has one `Logger` and cannot express two workers racing on one file.
- The clock and its `%Y-%m-%d,%H:%M:%S,` formatting (src/main.rs:172-175) are an external library. The timestamp bytes are an input of each pass, of any length, and nothing is assumed about their order over time.
- Port enumeration and port opening, and opening the file in append and create mode, are foreign calls. Their success is a boolean input. A missing file and an empty file are both the empty byte sequence.
- The panic on a baud value that is not a number (src/main.rs:121) is not modelled: the baud text is only tested for presence.
- A read that returns `Ok(0)` leaves the port buffer untouched, and the source then frames the byte held from the previous pass again (byte 0 on the first pass). The model represents such a read as a successful read of that stale byte. It does not tell it apart from a fresh byte, so a carriage return followed by an `Ok(0)` read gives a second, empty record.
- The panic when a record is not valid UTF-8 (src/main.rs:183) is not modelled: the display accepts any bytes.
- Capture.Logger.Step: a failed `write_all` leaves the file unchanged in the model. A prefix of the record that the operating system may already have written before the error is not modelled.
- Capture.Logger.Run: the source's loop is unbounded. The model runs it over a finite sequence of passes, so a session the user never stops is described by each of its finite prefixes.
- The line buffer grows without bound in the source when no carriage return arrives. The model has unbounded sequences and places no limit on it either.
