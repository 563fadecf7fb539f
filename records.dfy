/**
 * What the capture worker's loop sees and produces, as functions of the
 * inputs it is given, one `Tick` per pass of the loop.
 *
 * A record is the timestamp prefix, the completed line and a line feed.
 * `Records(ts)` lists the records that the passes `ts` complete, in arrival
 * order: the k-th one carries the timestamp of the k-th pass that read a
 * carriage return and the k-th line of the bytes read (`Framing.Lines`).
 */
module RecordLog {
  import opened Wrappers
  import opened Framing

  /**
   * The environment's answers to one pass of the worker loop: the outcome of
   * the one-byte serial read (`None` for a failed or timed-out read; a read
   * that succeeds without filling the buffer is `Some` of the byte the buffer
   * still holds from before), the clock's formatted timestamp and whether
   * the file write succeeded. The last two are consulted only when the byte
   * read is a carriage return.
   */
  datatype Tick = Tick(read: Option<byte>, stamp: seq<byte>, writeOk: bool)

  /** What the worker appends to the display terminal. */
  datatype Output = Message(text: string) | Line(bytes: seq<byte>)

  const SERIAL_OPEN_ERROR: string := "Serial Port Open Error"
  const FILE_OPEN_ERROR: string := "File Open Error"

  /** The pass reads a carriage return, so it completes a record. */
  predicate Completes(t: Tick) {
    t.read == Some(CR)
  }

  /** The pass completes a record and then fails to write it. */
  predicate WriteFails(t: Tick) {
    Completes(t) && !t.writeOk
  }

  /** The record for one completed line. */
  function Record(stamp: seq<byte>, line: seq<byte>): seq<byte> {
    stamp + line + [LF]
  }

  /** The bytes that the passes `ts` read successfully, in order. */
  function ReadBytes(ts: seq<Tick>): (bs: seq<byte>)
    ensures |bs| <= |ts|
  {
    if ts == [] then []
    else ReadBytes(ts[..|ts| - 1]) + (if ts[|ts| - 1].read.Some? then [ts[|ts| - 1].read.value] else [])
  }

  /** The timestamps taken by the passes that read a carriage return, in order. */
  function Stamps(ts: seq<Tick>): seq<seq<byte>> {
    if ts == [] then []
    else Stamps(ts[..|ts| - 1]) + (if Completes(ts[|ts| - 1]) then [ts[|ts| - 1].stamp] else [])
  }

  /** One timestamp per carriage return read. */
  lemma {:induction false} StampsCount(ts: seq<Tick>)
    ensures |Stamps(ts)| == multiset(ReadBytes(ts))[CR]
    decreases |ts|
  {
    if ts != [] {
      var init, t := ts[..|ts| - 1], ts[|ts| - 1];
      StampsCount(init);
      var tail := if t.read.Some? then [t.read.value] else [];
      assert ReadBytes(ts) == ReadBytes(init) + tail;
      assert multiset(ReadBytes(ts)) == multiset(ReadBytes(init)) + multiset(tail);
    }
  }

  /** There is one timestamp for each completed line. */
  lemma {:induction false} StampsMatchLines(ts: seq<Tick>)
    ensures |Stamps(ts)| == |Lines(ReadBytes(ts))|
    decreases |ts|
  {
    if ts != [] {
      var init, t := ts[..|ts| - 1], ts[|ts| - 1];
      assert ts == init + [t];
      StampsMatchLines(init);
      ReadOne(init, t);
      LinesOne(init, t);
    }
  }

  /** The k-th timestamp paired with the k-th line, as records. */
  function Zip(stamps: seq<seq<byte>>, lines: seq<seq<byte>>): (rs: seq<seq<byte>>)
    requires |stamps| == |lines|
  {
    seq(|lines|, k requires 0 <= k < |lines| => Record(stamps[k], lines[k]))
  }

  /** The records completed by the passes `ts`, in arrival order. */
  function Records(ts: seq<Tick>): seq<seq<byte>> {
    StampsMatchLines(ts);
    Zip(Stamps(ts), Lines(ReadBytes(ts)))
  }

  /**
   * One record per carriage return read; the k-th is the k-th timestamp,
   * the k-th line and a line feed.
   */
  lemma RecordsCount(ts: seq<Tick>)
    ensures |Records(ts)| == |Stamps(ts)| == multiset(ReadBytes(ts))[CR]
    ensures forall k :: 0 <= k < |Records(ts)| ==> Records(ts)[k] == Stamps(ts)[k] + Lines(ReadBytes(ts))[k] + [LF]
  {
    StampsCount(ts);
    LinesCount(ReadBytes(ts));
  }

  /** Display entries for the records `rs`, one each. */
  function AsShown(rs: seq<seq<byte>>): seq<Output> {
    seq(|rs|, k requires 0 <= k < |rs| => Line(rs[k]))
  }

  /** The display entries for the records completed by `ts`. */
  function Shown(ts: seq<Tick>): seq<Output> {
    AsShown(Records(ts))
  }

  /** The bytes of the records `rs` written one after the other. */
  function Flatten(rs: seq<seq<byte>>): seq<byte> {
    if rs == [] then [] else Flatten(rs[..|rs| - 1]) + rs[|rs| - 1]
  }

  /** Index of the first pass whose write fails, or `|ts|` when none does. */
  function FailAt(ts: seq<Tick>): (h: nat)
    ensures h <= |ts|
    ensures h < |ts| ==> WriteFails(ts[h])
    ensures forall j :: 0 <= j < h ==> !WriteFails(ts[j])
  {
    if ts == [] then 0
    else if WriteFails(ts[0]) then 0
    else 1 + FailAt(ts[1..])
  }

  /** Writing one more record appends exactly its bytes. */
  lemma FlattenSnoc(rs: seq<seq<byte>>, r: seq<byte>)
    ensures Flatten(rs + [r]) == Flatten(rs) + r
  {
    assert (rs + [r])[..|rs|] == rs;
  }

  /**
   * One more pass: the bytes read grow by the byte it read, if any, and the
   * timestamps grow by its own exactly when it reads a carriage return.
   */
  lemma ReadOne(ts: seq<Tick>, t: Tick)
    ensures ReadBytes(ts + [t]) == ReadBytes(ts) + (if t.read.Some? then [t.read.value] else [])
    ensures Stamps(ts + [t]) == Stamps(ts) + (if Completes(t) then [t.stamp] else [])
  {
    assert (ts + [t])[..|ts|] == ts;
  }

  lemma ZipSnoc(stamps: seq<seq<byte>>, lines: seq<seq<byte>>, stamp: seq<byte>, line: seq<byte>)
    requires |stamps| == |lines|
    ensures Zip(stamps + [stamp], lines + [line]) == Zip(stamps, lines) + [Record(stamp, line)]
  {
  }

  lemma AsShownSnoc(rs: seq<seq<byte>>, r: seq<byte>)
    ensures AsShown(rs + [r]) == AsShown(rs) + [Line(r)]
  {
  }

  /** One more pass: the lines read grow as the framer's one-byte step says. */
  lemma LinesOne(ts: seq<Tick>, t: Tick)
    ensures Lines(ReadBytes(ts + [t])) == if Completes(t) then Lines(ReadBytes(ts)) + [Pending(ReadBytes(ts))] else Lines(ReadBytes(ts))
    ensures Pending(ReadBytes(ts + [t])) == if t.read.None? then Pending(ReadBytes(ts)) else if t.read.value == CR then [] else if t.read.value == LF then Pending(ReadBytes(ts)) else Pending(ReadBytes(ts)) + [t.read.value]
  {
    ReadOne(ts, t);
    var bs := ReadBytes(ts);
    if t.read.Some? {
      var b := t.read.value;
      assert ReadBytes(ts + [t]) == bs + [b];
      FeedExtends(bs, b);
      assert Completes(t) <==> b == CR;
    } else {
      assert ReadBytes(ts + [t]) == bs;
    }
  }

  /**
   * One more pass: the records grow by one record exactly when it reads a
   * carriage return; that record is its timestamp, the line pending before
   * it and a line feed, and the display shows it.
   */
  lemma ExtendOne(ts: seq<Tick>, t: Tick)
    ensures Records(ts + [t]) == if Completes(t) then Records(ts) + [Record(t.stamp, Pending(ReadBytes(ts)))] else Records(ts)
    ensures Shown(ts + [t]) == if Completes(t) then Shown(ts) + [Line(Record(t.stamp, Pending(ReadBytes(ts))))] else Shown(ts)
  {
    ReadOne(ts, t);
    LinesOne(ts, t);
    StampsMatchLines(ts);
    var bs := ReadBytes(ts);
    if Completes(t) {
      ZipSnoc(Stamps(ts), Lines(bs), t.stamp, Pending(bs));
      AsShownSnoc(Records(ts), Record(t.stamp, Pending(bs)));
    }
  }

  /**
   * Records once completed never change: the records of a run are a prefix
   * of the records of any longer run, so later records are appended after
   * them in arrival order.
   */
  lemma {:induction false} RecordsPrefix(ts: seq<Tick>, more: seq<Tick>)
    ensures |Records(ts)| <= |Records(ts + more)|
    ensures Records(ts) == Records(ts + more)[..|Records(ts)|]
    decreases |more|
  {
    if more == [] {
      assert ts + more == ts;
    } else {
      var init := more[..|more| - 1];
      var t := more[|more| - 1];
      assert ts + more == (ts + init) + [t];
      RecordsPrefix(ts, init);
      ExtendOne(ts + init, t);
    }
  }

  /**
   * Passes that read no carriage return complete no record: bytes read after
   * the last carriage return are never part of a record.
   */
  lemma {:induction false} NoRecordWithoutCR(ts: seq<Tick>, more: seq<Tick>)
    requires forall j :: 0 <= j < |more| ==> !Completes(more[j])
    ensures Records(ts + more) == Records(ts)
    ensures Shown(ts + more) == Shown(ts)
    decreases |more|
  {
    if more == [] {
      assert ts + more == ts;
    } else {
      var init := more[..|more| - 1];
      var t := more[|more| - 1];
      assert ts + more == (ts + init) + [t];
      NoRecordWithoutCR(ts, init);
      ExtendOne(ts + init, t);
    }
  }

  /** Passes that each read one byte of `bs`, with clock `stamp` and writes that succeed. */
  function Feed(bs: seq<byte>, stamp: seq<byte>): (ts: seq<Tick>)
    ensures |ts| == |bs|
    ensures forall k :: 0 <= k < |bs| ==> ts[k] == Tick(Some(bs[k]), stamp, true)
  {
    seq(|bs|, k requires 0 <= k < |bs| => Tick(Some(bs[k]), stamp, true))
  }

  /**
   * Feeding the bytes `bs` with successful reads and writes: everything is
   * read, no write fails, and the k-th record is the clock's stamp, the k-th
   * line of `bs` and a line feed.
   */
  lemma {:induction false} FeedRecords(bs: seq<byte>, stamp: seq<byte>)
    ensures ReadBytes(Feed(bs, stamp)) == bs
    ensures FailAt(Feed(bs, stamp)) == |bs|
    ensures |Records(Feed(bs, stamp))| == |Lines(bs)|
    ensures forall k :: 0 <= k < |Lines(bs)| ==> Records(Feed(bs, stamp))[k] == Record(stamp, Lines(bs)[k])
    decreases |bs|
  {
    var ts := Feed(bs, stamp);
    if bs != [] {
      var init := bs[..|bs| - 1];
      FeedRecords(init, stamp);
      assert ts[..|ts| - 1] == Feed(init, stamp);
      ReadOne(Feed(init, stamp), ts[|ts| - 1]);
      assert ts == Feed(init, stamp) + [ts[|ts| - 1]];
    }
    StampsOfFeed(bs, stamp);
    StampsMatchLines(ts);
  }

  /** Every timestamp of a feed is the clock's one stamp. */
  lemma {:induction false} StampsOfFeed(bs: seq<byte>, stamp: seq<byte>)
    ensures forall k :: 0 <= k < |Stamps(Feed(bs, stamp))| ==> Stamps(Feed(bs, stamp))[k] == stamp
    decreases |bs|
  {
    if bs != [] {
      var init := bs[..|bs| - 1];
      var ts := Feed(bs, stamp);
      assert ts[..|ts| - 1] == Feed(init, stamp);
      StampsOfFeed(init, stamp);
    }
  }
}
