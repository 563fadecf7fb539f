/**
 * The line framer of the capture worker, as a reference definition.
 *
 * A byte stream is cut at every carriage return (13); line feeds (10) are
 * dropped; every other byte is kept. `Lines(s)` is the list of completed
 * lines of `s` and `Pending(s)` what is left after the last carriage return.
 * Both are defined by splitting at the FIRST carriage return, that is from
 * the front of the stream, independently of the byte-at-a-time machine that
 * the worker runs; `FeedExtends` proves that the machine's one-byte step
 * agrees with them.
 */
module Framing {

  type byte = x: int | 0 <= x < 256

  /** Carriage return: ends a line. */
  const CR: byte := 13
  /** Line feed: discarded. */
  const LF: byte := 10

  /** `s` with every line feed removed and nothing else changed. */
  function DropLF(s: seq<byte>): seq<byte> {
    if s == [] then []
    else (if s[0] == LF then [] else [s[0]]) + DropLF(s[1..])
  }

  /** Index of the first carriage return of `s`, or `|s|` when there is none. */
  function FirstCR(s: seq<byte>): (i: nat)
    ensures i <= |s|
    ensures i < |s| ==> s[i] == CR
  {
    if s == [] then 0
    else if s[0] == CR then 0
    else 1 + FirstCR(s[1..])
  }

  /** No carriage return comes before the first one. */
  lemma {:induction false} FirstCRIsFirst(s: seq<byte>)
    ensures CR !in s[..FirstCR(s)]
    decreases |s|
  {
    if s != [] && s[0] != CR {
      FirstCRIsFirst(s[1..]);
      var j := FirstCR(s);
      assert s[..j] == [s[0]] + s[1..][..j - 1];
    }
  }

  /** The completed lines of `s`: one per carriage return, without CR or LF. */
  function Lines(s: seq<byte>): seq<seq<byte>>
    decreases |s|
  {
    var i := FirstCR(s);
    if i == |s| then [] else [DropLF(s[..i])] + Lines(s[i + 1..])
  }

  /** No completed line holds a carriage return or a line feed. */
  lemma {:induction false} LinesClean(s: seq<byte>)
    ensures forall k :: 0 <= k < |Lines(s)| ==> CR !in Lines(s)[k] && LF !in Lines(s)[k]
    decreases |s|
  {
    var i := FirstCR(s);
    if i < |s| {
      FirstCRIsFirst(s);
      DropLFMembers(s[..i]);
      LinesClean(s[i + 1..]);
    }
  }

  /** There are exactly as many lines as carriage returns. */
  lemma {:induction false} LinesCount(s: seq<byte>)
    ensures |Lines(s)| == multiset(s)[CR]
    decreases |s|
  {
    var i := FirstCR(s);
    FirstCRIsFirst(s);
    if i == |s| {
      assert s[..i] == s;
      assert multiset(s)[CR] == 0;
    } else {
      assert multiset(s[..i])[CR] == 0;
      assert s == s[..i] + [s[i]] + s[i + 1..];
      assert multiset(s) == multiset(s[..i]) + multiset{CR} + multiset(s[i + 1..]) by {
        calc {
          multiset(s);
          multiset(s[..i] + [s[i]] + s[i + 1..]);
          multiset(s[..i]) + multiset([s[i]]) + multiset(s[i + 1..]);
        }
      }
      LinesCount(s[i + 1..]);
    }
  }

  /** The bytes after the last carriage return of `s`, without line feeds. */
  function Pending(s: seq<byte>): seq<byte>
    decreases |s|
  {
    var i := FirstCR(s);
    if i == |s| then DropLF(s) else Pending(s[i + 1..])
  }

  /** The pending bytes hold neither a carriage return nor a line feed. */
  lemma {:induction false} PendingClean(s: seq<byte>)
    ensures CR !in Pending(s) && LF !in Pending(s)
    decreases |s|
  {
    var i := FirstCR(s);
    if i == |s| {
      FirstCRIsFirst(s);
      assert s[..i] == s;
      DropLFMembers(s);
    } else {
      PendingClean(s[i + 1..]);
    }
  }

  /**
   * A byte is in `DropLF(s)` exactly when it is in `s` and is not a line
   * feed; nothing is added, and a stream without line feeds is unchanged.
   */
  lemma {:induction false} DropLFMembers(s: seq<byte>)
    ensures |DropLF(s)| <= |s|
    ensures forall b :: b in DropLF(s) <==> b in s && b != LF
    ensures LF !in s ==> DropLF(s) == s
    decreases |s|
  {
    if s != [] {
      DropLFMembers(s[1..]);
      assert s == [s[0]] + s[1..];
    }
  }

  /** Removing line feeds distributes over concatenation. */
  lemma {:induction false} DropLFAppend(s: seq<byte>, t: seq<byte>)
    ensures DropLF(s + t) == DropLF(s) + DropLF(t)
    decreases |s|
  {
    if s == [] {
      assert s + t == t;
    } else {
      var head := if s[0] == LF then [] else [s[0]];
      assert (s + t)[0] == s[0];
      assert (s + t)[1..] == s[1..] + t;
      assert DropLF(s + t) == head + DropLF(s[1..] + t);
      DropLFAppend(s[1..], t);
      assert DropLF(s) == head + DropLF(s[1..]);
      assert head + (DropLF(s[1..]) + DropLF(t)) == (head + DropLF(s[1..])) + DropLF(t);
    }
  }

  /** The first carriage return of `s + t` is that of `s`, or else that of `t`. */
  lemma {:induction false} FirstCRAppend(s: seq<byte>, t: seq<byte>)
    ensures FirstCR(s + t) == if FirstCR(s) < |s| then FirstCR(s) else |s| + FirstCR(t)
    decreases |s|
  {
    if s == [] {
      assert s + t == t;
    } else if s[0] != CR {
      assert (s + t)[1..] == s[1..] + t;
      FirstCRAppend(s[1..], t);
    }
  }

  /**
   * Feeding one byte to the framer: a carriage return completes the pending
   * line, a line feed changes nothing, any other byte is appended to the
   * pending line.
   */
  lemma {:induction false} FeedExtends(s: seq<byte>, b: byte)
    ensures Lines(s + [b]) == if b == CR then Lines(s) + [Pending(s)] else Lines(s)
    ensures Pending(s + [b]) == if b == CR then [] else if b == LF then Pending(s) else Pending(s) + [b]
    decreases |s|
  {
    var i := FirstCR(s);
    FirstCRAppend(s, [b]);
    if i == |s| {
      DropLFAppend(s, [b]);
      assert DropLF([b]) == if b == LF then [] else [b];
      if b == CR {
        assert (s + [b])[..i] == s;
        assert (s + [b])[i + 1..] == [];
      }
    } else {
      assert (s + [b])[..i] == s[..i];
      assert (s + [b])[i + 1..] == s[i + 1..] + [b];
      FeedExtends(s[i + 1..], b);
    }
  }

  /** Each segment followed by a carriage return, all concatenated. */
  function JoinLines(segs: seq<seq<byte>>): seq<byte> {
    if segs == [] then [] else segs[0] + [CR] + JoinLines(segs[1..])
  }

  /** A stream without carriage returns has its first one at its end. */
  lemma {:induction false} FirstCRAbsent(s: seq<byte>)
    requires CR !in s
    ensures FirstCR(s) == |s|
    decreases |s|
  {
    if s != [] {
      assert s == [s[0]] + s[1..];
      FirstCRAbsent(s[1..]);
    }
  }

  /**
   * A segment without carriage returns, one carriage return and a tail: the
   * segment, without line feeds, is the first line, and the tail is framed
   * on its own.
   */
  lemma SplitFirst(seg: seq<byte>, tail: seq<byte>)
    requires CR !in seg
    ensures Lines(seg + [CR] + tail) == [DropLF(seg)] + Lines(tail)
    ensures Pending(seg + [CR] + tail) == Pending(tail)
  {
    var s := seg + [CR] + tail;
    assert s == seg + ([CR] + tail);
    FirstCRAppend(seg, [CR] + tail);
    FirstCRAbsent(seg);
    assert s[..|seg|] == seg;
    assert s[|seg| + 1..] == tail;
  }

  /**
   * A stream made of segments without carriage returns, each terminated by
   * one, followed by an unterminated rest: its k-th line is the k-th segment
   * with line feeds removed, and its pending bytes are the rest with line
   * feeds removed.
   */
  lemma {:induction false} LinesOfJoin(segs: seq<seq<byte>>, rest: seq<byte>)
    requires forall k :: 0 <= k < |segs| ==> CR !in segs[k]
    requires CR !in rest
    ensures |Lines(JoinLines(segs) + rest)| == |segs|
    ensures forall k :: 0 <= k < |segs| ==> Lines(JoinLines(segs) + rest)[k] == DropLF(segs[k])
    ensures Pending(JoinLines(segs) + rest) == DropLF(rest)
    decreases |segs|
  {
    if segs == [] {
      assert JoinLines(segs) + rest == rest;
      FirstCRAbsent(rest);
    } else {
      var tail := JoinLines(segs[1..]) + rest;
      assert JoinLines(segs) + rest == segs[0] + [CR] + tail;
      SplitFirst(segs[0], tail);
      LinesOfJoin(segs[1..], rest);
    }
  }

  /**
   * `s` cut at its carriage returns: the segments that each carriage return
   * ends, in order, and the unterminated rest after the last one.
   */
  function Segments(s: seq<byte>): (seq<seq<byte>>, seq<byte>)
    decreases |s|
  {
    var i := FirstCR(s);
    if i == |s| then ([], s)
    else
      var r := Segments(s[i + 1..]);
      ([s[..i]] + r.0, r.1)
  }

  /** Joining one more segment in front. */
  lemma JoinCons(seg: seq<byte>, segs: seq<seq<byte>>, rest: seq<byte>)
    ensures JoinLines([seg] + segs) + rest == seg + [CR] + (JoinLines(segs) + rest)
  {
    assert ([seg] + segs)[1..] == segs;
  }

  /** Every stream is its segments, each followed by a carriage return, and then its rest. */
  lemma {:induction false} SegmentsJoin(s: seq<byte>)
    ensures JoinLines(Segments(s).0) + Segments(s).1 == s
    decreases |s|
  {
    var i := FirstCR(s);
    if i < |s| {
      var r := Segments(s[i + 1..]);
      calc {
        JoinLines(Segments(s).0) + Segments(s).1;
        JoinLines([s[..i]] + r.0) + r.1;
        { JoinCons(s[..i], r.0, r.1); }
        s[..i] + [CR] + (JoinLines(r.0) + r.1);
        { SegmentsJoin(s[i + 1..]); }
        s[..i] + [CR] + s[i + 1..];
        { assert s[i] == CR; }
        s;
      }
    }
  }

  /** Neither the segments of a stream nor its rest hold a carriage return. */
  lemma {:induction false} SegmentsFree(s: seq<byte>)
    ensures forall k :: 0 <= k < |Segments(s).0| ==> CR !in Segments(s).0[k]
    ensures CR !in Segments(s).1
    decreases |s|
  {
    var i := FirstCR(s);
    FirstCRIsFirst(s);
    if i == |s| {
      assert s[..i] == s;
    } else {
      var r := Segments(s[i + 1..]);
      SegmentsFree(s[i + 1..]);
      var segs := [s[..i]] + r.0;
      assert Segments(s) == (segs, r.1);
      assert forall k :: 1 <= k < |segs| ==> segs[k] == r.0[k - 1];
    }
  }

  /**
   * The framing of any stream: there is one line per segment, the k-th line
   * is the bytes between the (k-1)-th and the k-th carriage return with line
   * feeds removed, and what stays pending is the rest with line feeds removed.
   */
  lemma {:induction false} LinesOfStream(s: seq<byte>)
    ensures |Lines(s)| == |Segments(s).0|
    ensures forall k :: 0 <= k < |Lines(s)| ==> Lines(s)[k] == DropLF(Segments(s).0[k])
    ensures Pending(s) == DropLF(Segments(s).1)
  {
    SegmentsJoin(s);
    SegmentsFree(s);
    LinesOfJoin(Segments(s).0, Segments(s).1);
  }

  /**
   * "abc", CR, "def", LF, CR frames into the two lines "abc" and "def": the
   * line feed before the second carriage return is dropped.
   */
  lemma CrLfExample()
    ensures Lines([97, 98, 99, CR, 100, 101, 102, LF, CR]) == [[97, 98, 99], [100, 101, 102]]
    ensures Pending([97, 98, 99, CR, 100, 101, 102, LF, CR]) == []
  {
    var segs: seq<seq<byte>> := [[97, 98, 99], [100, 101, 102, LF]];
    var s: seq<byte> := [97, 98, 99, CR, 100, 101, 102, LF, CR];
    JoinExample();
    assert JoinLines(segs) + [] == s;
    LinesOfJoin(segs, []);
    DropLFExample();
    assert DropLF(segs[0]) == [97, 98, 99];
  }

  lemma JoinExample()
    ensures JoinLines([[97, 98, 99], [100, 101, 102, LF]]) == [97, 98, 99, CR, 100, 101, 102, LF, CR]
  {
    var segs: seq<seq<byte>> := [[97, 98, 99], [100, 101, 102, LF]];
    assert segs[1..][1..] == [];
    assert JoinLines(segs[1..]) == [100, 101, 102, LF, CR];
  }

  lemma DropLFExample()
    ensures DropLF([100, 101, 102, LF]) == [100, 101, 102]
  {
    DropLFAppend([100, 101, 102], [LF]);
    assert [100, 101, 102] + [LF] == [100, 101, 102, LF];
  }
}
