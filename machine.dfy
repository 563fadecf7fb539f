/**
 * The worker loop as a function of its inputs: `Pass` is one pass with the
 * flag set, `Exec` the loop over a sequence of passes, stopping at the
 * first flag check that finds the flag cleared. `ExecMeaning` states what a
 * session does in terms of the framer's reference definition: the file
 * gains exactly the records completed before the first failed write, the
 * display every record completed up to it.
 */
module Machine {
  import opened Wrappers
  import opened Framing
  import opened RecordLog

  /** The worker's observable state between passes. */
  datatype State = State(running: int, outBuf: seq<byte>, file: seq<byte>, display: seq<Output>)

  /** One pass of the loop when the flag check found it set. */
  function Pass(s: State, t: Tick): State {
    match t.read
    case None => s
    case Some(b) =>
      if b == CR then
        var rec := Record(t.stamp, s.outBuf);
        s.(outBuf := [],
           display := s.display + [Line(rec)],
           file := if t.writeOk then s.file + rec else s.file,
           running := if t.writeOk then s.running else 0)
      else if b == LF then s
      else s.(outBuf := s.outBuf + [b])
  }

  /** The loop over `ts`: each pass first checks the flag and ends the loop if it is 0. */
  function Exec(s: State, ts: seq<Tick>): State {
    if ts == [] then s
    else
      var s' := Exec(s, ts[..|ts| - 1]);
      if s'.running == 0 then s' else Pass(s', ts[|ts| - 1])
  }

  /** How many of the passes `ts` the loop performs. */
  function Consumed(s: State, ts: seq<Tick>): nat {
    if ts == [] then 0
    else
      var n := Consumed(s, ts[..|ts| - 1]);
      if Exec(s, ts[..|ts| - 1]).running == 0 then n else n + 1
  }

  lemma ConcatAssoc<T>(a: seq<T>, b: seq<T>, c: seq<T>)
    ensures a + b + c == a + (b + c)
  {
  }

  /** The first failed write of `ts + [t]`. */
  lemma {:induction false} FailAtSnoc(ts: seq<Tick>, t: Tick)
    ensures FailAt(ts + [t]) == if FailAt(ts) < |ts| then FailAt(ts) else if WriteFails(t) then |ts| else |ts| + 1
    decreases |ts|
  {
    if ts == [] {
      assert ts + [t] == [t];
      assert [t][1..] == [];
    } else {
      assert (ts + [t])[0] == ts[0];
      assert (ts + [t])[1..] == ts[1..] + [t];
      FailAtSnoc(ts[1..], t);
    }
  }

  /** The state a session's loop ends in, given by the reference functions. */
  ghost predicate Described(s0: State, ts: seq<Tick>, s: State, n: nat) {
    var h := FailAt(ts);
    && n == (if h < |ts| then h + 1 else |ts|)
    && s.running == (if h < |ts| then 0 else 1)
    && s.file == s0.file + Flatten(Records(ts[..h]))
    && s.display == s0.display + Shown(ts[..n])
    && s.outBuf == (if h < |ts| then [] else Pending(ReadBytes(ts)))
  }

  /** Unfolding the loop by its last pass. */
  lemma ExecSnoc(s0: State, ts: seq<Tick>, t: Tick)
    ensures Exec(s0, ts + [t]) == if Exec(s0, ts).running == 0 then Exec(s0, ts) else Pass(Exec(s0, ts), t)
    ensures Consumed(s0, ts + [t]) == if Exec(s0, ts).running == 0 then Consumed(s0, ts) else Consumed(s0, ts) + 1
  {
    assert (ts + [t])[..|ts|] == ts;
  }

  /** After the failed write the state stays described by the same reference values. */
  lemma DescribedHalted(s0: State, ts: seq<Tick>, t: Tick, s: State, n: nat)
    requires Described(s0, ts, s, n) && FailAt(ts) < |ts|
    ensures Described(s0, ts + [t], s, n)
  {
    FailAtSnoc(ts, t);
    var h := FailAt(ts);
    assert (ts + [t])[..h] == ts[..h];
    assert (ts + [t])[..n] == ts[..n];
  }

  /** The reference values of a session that has not yet failed a write. */
  lemma LiveFacts(s0: State, ts: seq<Tick>, s: State, n: nat)
    requires Described(s0, ts, s, n) && FailAt(ts) == |ts|
    ensures n == |ts| && s.running == 1 && s.outBuf == Pending(ReadBytes(ts))
    ensures s.file == s0.file + Flatten(Records(ts))
    ensures s.display == s0.display + Shown(ts)
  {
    assert ts[..|ts|] == ts;
  }

  /** A pass that completes no record. */
  lemma LiveQuiet(s0: State, ts: seq<Tick>, t: Tick, s: State, n: nat)
    requires Described(s0, ts, s, n) && FailAt(ts) == |ts| && !Completes(t)
    ensures Described(s0, ts + [t], Pass(s, t), n + 1)
  {
    FailAtSnoc(ts, t);
    LiveFacts(s0, ts, s, n);
    var ts', s' := ts + [t], Pass(s, t);
    assert ts'[..|ts'|] == ts';
    LinesOne(ts, t);
    ExtendOne(ts, t);
    assert FailAt(ts') == |ts'|;
    assert s'.running == 1 && s'.file == s.file && s'.display == s.display;
    assert s'.outBuf == Pending(ReadBytes(ts'));
  }

  /** A pass that completes a record and writes it. */
  lemma LiveWritten(s0: State, ts: seq<Tick>, t: Tick, s: State, n: nat)
    requires Described(s0, ts, s, n) && FailAt(ts) == |ts| && Completes(t) && t.writeOk
    ensures Described(s0, ts + [t], Pass(s, t), n + 1)
  {
    FailAtSnoc(ts, t);
    LiveFacts(s0, ts, s, n);
    var ts', s' := ts + [t], Pass(s, t);
    assert ts'[..|ts'|] == ts';
    var rec := Record(t.stamp, Pending(ReadBytes(ts)));
    LinesOne(ts, t);
    ExtendOne(ts, t);
    FlattenSnoc(Records(ts), rec);
    ConcatAssoc(s0.display, Shown(ts), [Line(rec)]);
    ConcatAssoc(s0.file, Flatten(Records(ts)), rec);
  }

  /** A pass that completes a record and fails to write it. */
  lemma LiveFailed(s0: State, ts: seq<Tick>, t: Tick, s: State, n: nat)
    requires Described(s0, ts, s, n) && FailAt(ts) == |ts| && WriteFails(t)
    ensures Described(s0, ts + [t], Pass(s, t), n + 1)
  {
    FailAtSnoc(ts, t);
    LiveFacts(s0, ts, s, n);
    var ts' := ts + [t];
    assert ts'[..|ts|] == ts && ts'[..|ts'|] == ts';
    var rec := Record(t.stamp, Pending(ReadBytes(ts)));
    ExtendOne(ts, t);
    ConcatAssoc(s0.display, Shown(ts), [Line(rec)]);
  }

  /**
   * A session entered with the flag set and an empty line buffer: the loop
   * runs every pass up to and including the first failed write and stops
   * at the next flag check; the file gains exactly the records completed
   * before the failed write, appended after its earlier content in arrival
   * order; the display shows every record completed up to it; the line
   * buffer holds the bytes pending after the last carriage return.
   */
  lemma {:induction false} ExecMeaning(s0: State, ts: seq<Tick>)
    requires s0.running == 1 && s0.outBuf == []
    ensures Described(s0, ts, Exec(s0, ts), Consumed(s0, ts))
    decreases |ts|
  {
    if ts == [] {
      assert ReadBytes([]) == [] && Records([]) == [] && Shown([]) == [];
      assert Pending([]) == [] && Flatten([]) == [];
    } else {
      var init, t := ts[..|ts| - 1], ts[|ts| - 1];
      assert ts == init + [t];
      ExecMeaning(s0, init);
      ExecSnoc(s0, init, t);
      var s, n := Exec(s0, init), Consumed(s0, init);
      if FailAt(init) < |init| {
        DescribedHalted(s0, init, t, s, n);
      } else if !Completes(t) {
        LiveQuiet(s0, init, t, s, n);
      } else if t.writeOk {
        LiveWritten(s0, init, t, s, n);
      } else {
        LiveFailed(s0, init, t, s, n);
      }
    }
  }

  /** A loop that finds the flag cleared performs no pass and changes nothing. */
  lemma {:induction false} ExecStopped(s0: State, ts: seq<Tick>)
    requires s0.running == 0
    ensures Exec(s0, ts) == s0 && Consumed(s0, ts) == 0
    decreases |ts|
  {
    if ts != [] {
      ExecStopped(s0, ts[..|ts| - 1]);
    }
  }

  /** Once the loop has stopped, later passes change nothing. */
  lemma {:induction false} ExecHalted(s0: State, ts: seq<Tick>, more: seq<Tick>)
    requires Exec(s0, ts).running == 0
    ensures Exec(s0, ts + more) == Exec(s0, ts)
    ensures Consumed(s0, ts + more) == Consumed(s0, ts)
    decreases |more|
  {
    if more == [] {
      assert ts + more == ts;
    } else {
      var init := more[..|more| - 1];
      assert (ts + more)[..|ts + more| - 1] == ts + init;
      ExecHalted(s0, ts, init);
    }
  }
}
