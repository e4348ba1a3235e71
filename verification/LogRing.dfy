/**
 The log ring (`components/provisioning/log_ring.c`): a fixed buffer and a count of
 bytes ever written, against the unbounded history of what was written.
 */
module LogRing {
  import opened Bits

  const RING_SZ: nat := 12288

  /** What one write adds to the history: of an over-long line, only the tail. */
  function Kept(data: seq<byte>): (d: seq<byte>)
    ensures |d| <= |data| && |d| == (if |data| < 12288 then |data| else 12288) && d == data[|data| - |d|..]
  {
    if |data| > RING_SZ then data[|data| - RING_SZ..] else data
  }

  /** Where a read asked to begin at `from` does begin. */
  function Start(head: nat, from: nat, cap: nat): (s: nat)
    ensures s <= head && head - s <= cap && head - s <= RING_SZ
    ensures s >= from || from > head
    ensures from <= s ==> s == from || head - s == cap || head - s == RING_SZ
  {
    var oldest := if head > RING_SZ then head - RING_SZ else 0;
    var f := if from < oldest then oldest else from;
    var g := if f > head then head else f;
    if head - g > cap then head - cap else g
  }

  /** The offset `i` bytes past the one of `at`. */
  lemma Around(at: nat, i: nat)
    requires i <= RING_SZ
    ensures (at + i) % RING_SZ == var off := at % RING_SZ; if off + i < RING_SZ then off + i else off + i - RING_SZ
  {
    var q, off := at / RING_SZ, at % RING_SZ;
    if off + i < RING_SZ {
      Remainder(q, off + i);
    } else {
      Remainder(q + 1, off + i - RING_SZ);
    }
  }

  lemma Remainder(q: nat, r: nat)
    requires r < RING_SZ
    ensures (q * RING_SZ + r) % RING_SZ == r
  {
  }

  /** The last bytes of the history are in the buffer, each at its place. */
  ghost predicate Holds(buf: seq<byte>, hist: seq<byte>)
    requires |buf| == RING_SZ
  {
    forall k: nat | k < |hist| <= k + RING_SZ :: buf[k % RING_SZ] == hist[k]
  }

  class Ring {
    const buf: array<byte>
    var head: nat
    ghost var history: seq<byte>

    ghost predicate Valid()
      reads this, buf
    {
      buf.Length == RING_SZ && head == |history| && Holds(buf[..], history)
    }

    constructor ()
      ensures Valid() && history == [] && fresh(buf)
    {
      buf := new byte[RING_SZ](_ => 0);
      head, history := 0, [];
    }

    /** `memcpy` into the buffer. */
    method CopyIn(off: nat, data: seq<byte>)
      requires buf.Length == RING_SZ && off + |data| <= RING_SZ
      modifies buf
      ensures forall k: nat | k < RING_SZ :: buf[k] == if off <= k < off + |data| then data[k - off] else old(buf[k])
    {
      for i := 0 to |data|
        invariant forall k: nat | k < RING_SZ :: buf[k] == if off <= k < off + i then data[k - off] else old(buf[k])
      {
        buf[off + i] := data[i];
      }
    }

    /** `ring_write`. */
    method Write(data: seq<byte>)
      requires Valid()
      modifies this, buf
      ensures Valid() && history == old(history) + Kept(data)
    {
      if |data| == 0 {
        return;
      }
      var d := if |data| > RING_SZ then data[|data| - RING_SZ..] else data;
      var off := head % RING_SZ;
      var first := if RING_SZ - off > |d| then |d| else RING_SZ - off;
      ghost var was := buf[..];
      CopyIn(off, d[..first]);
      if |d| > first {
        CopyIn(0, d[first..]);
      }
      WrapsAround(was, buf[..], history, d);
      head := head + |d|;
      history := history + d;
    }

    /** `log_ring_read`. */
    method Read(from: nat, cap: nat) returns (out: seq<byte>, next: nat)
      requires Valid()
      ensures next == head && out == history[Start(head, from, cap)..]
    {
      var oldest := if head > RING_SZ then head - RING_SZ else 0;
      var f := from;
      if f < oldest {
        f := oldest;
      }
      if f > head {
        f := head;
      }
      var avail := head - f;
      if avail > cap {
        avail := cap;
        f := head - avail;
      }
      var off := f % RING_SZ;
      var first := if RING_SZ - off > avail then avail else RING_SZ - off;
      out := buf[off..off + first];
      if avail > first {
        out := out + buf[..avail - first];
      }
      next := f + avail;
      ReadsBack(buf[..], history, f, out);
    }
  }

  /** A read gives the newest bytes: all since `from`, or as many as there is room for, or as the ring holds. */
  lemma LastOnes(hist: seq<byte>, from: nat, cap: nat)
    ensures var out := hist[Start(|hist|, from, cap)..];
            if from > |hist| then out == []
            else
              && |out| <= |hist| - from && |out| <= cap && |out| <= 12288 && out == hist[|hist| - |out|..]
              && (|out| == |hist| - from || |out| == cap || |out| == 12288)
  {
  }

  /** The two copies of a write, as one. */
  lemma WrapsAround(was: seq<byte>, now: seq<byte>, hist: seq<byte>, d: seq<byte>)
    requires |was| == |now| == RING_SZ && 0 < |d| <= RING_SZ && Holds(was, hist)
    requires var off := |hist| % RING_SZ;
             forall k: nat | k < RING_SZ ::
               now[k] == if off <= k < off + |d| then d[k - off] else if k + RING_SZ < off + |d| then d[k + RING_SZ - off] else was[k]
    ensures Holds(now, hist + d)
  {
    var off := |hist| % RING_SZ;
    forall k: nat | k < |hist + d| <= k + RING_SZ
      ensures now[k % RING_SZ] == (hist + d)[k]
    {
      if k >= |hist| {
        Around(|hist|, k - |hist|);
      } else {
        assert was[k % RING_SZ] == hist[k];
        Around(k, |hist| - k);
      }
    }
  }

  /** The two copies of a read, as one. */
  lemma ReadsBack(buf: seq<byte>, hist: seq<byte>, f: nat, out: seq<byte>)
    requires |buf| == RING_SZ && Holds(buf, hist) && f <= |hist| <= f + RING_SZ && |out| == |hist| - f
    requires var off := f % RING_SZ;
             forall i: nat | i < |out| :: out[i] == buf[if off + i < RING_SZ then off + i else off + i - RING_SZ]
    ensures out == hist[f..]
  {
    forall i: nat | i < |out|
      ensures out[i] == hist[f..][i]
    {
      Around(f, i);
      assert buf[(f + i) % RING_SZ] == hist[f + i];
    }
  }

  // ---------------------------------------------------------------------
  // A reader that keeps asking for what is new
  // ---------------------------------------------------------------------

  datatype Event = Wrote(data: seq<byte>) | Polled(cap: nat)

  /** History, the reader's next position and all it has been given. */
  datatype Tail = Tail(hist: seq<byte>, next: nat, got: seq<byte>)

  function Step(t: Tail, e: Event): (r: Tail)
  {
    match e
    case Wrote(data) => t.(hist := t.hist + Kept(data))
    case Polled(cap) => Tail(t.hist, |t.hist|, t.got + t.hist[Start(|t.hist|, t.next, cap)..])
  }

  /** A poll that can carry everything since the last one. */
  predicate Fits(t: Tail, e: Event)
  {
    e.Polled? ==> |t.hist| - t.next <= e.cap && |t.hist| - t.next <= RING_SZ
  }

  ghost predicate Follows(ts: seq<Tail>, ev: seq<Event>, i: nat)
    requires i < |ev| < |ts|
  {
    ts[i + 1] == Step(ts[i], ev[i])
  }

  /** A reader that starts at the current head. */
  ghost predicate IsRun(ts: seq<Tail>, ev: seq<Event>)
  {
    && |ts| == |ev| + 1 && ts[0].next == |ts[0].hist| && ts[0].got == []
    && forall i: nat | i < |ev| :: Follows(ts, ev, i)
  }

  /** All polls among the first `n` events fit. */
  ghost predicate AllFit(ts: seq<Tail>, ev: seq<Event>, n: nat)
    requires n <= |ev| < |ts|
  {
    forall i: nat | i < n :: Fits(ts[i], ev[i])
  }

  /** What the reader should have: the history from where it started. */
  ghost predicate Exact(ts: seq<Tail>, n: nat)
    requires n < |ts|
  {
    |ts[0].hist| <= ts[n].next <= |ts[n].hist| && ts[n].got == ts[n].hist[|ts[0].hist|..ts[n].next]
  }

  lemma {:induction false} HistoryGrows(ts: seq<Tail>, ev: seq<Event>, n: nat)
    requires IsRun(ts, ev) && n <= |ev|
    ensures |ts[0].hist| <= ts[n].next <= |ts[n].hist| && |ts[n].got| <= ts[n].next - |ts[0].hist|
    ensures AllFit(ts, ev, n) <==> |ts[n].got| == ts[n].next - |ts[0].hist|
  {
    if n > 0 {
      HistoryGrows(ts, ev, n - 1);
      assert Follows(ts, ev, n - 1);
      assert AllFit(ts, ev, n) <==> AllFit(ts, ev, n - 1) && Fits(ts[n - 1], ev[n - 1]);
    }
  }

  lemma PollIsExact(hist: seq<byte>, base: nat, next: nat)
    requires base <= next <= |hist|
    ensures hist[base..next] + hist[next..] == hist[base..]
  {
  }

  lemma {:induction false} FittingIsExact(ts: seq<Tail>, ev: seq<Event>, n: nat)
    requires IsRun(ts, ev) && n <= |ev| && AllFit(ts, ev, n)
    ensures Exact(ts, n)
  {
    if n > 0 {
      var t, base := ts[n - 1], |ts[0].hist|;
      FittingIsExact(ts, ev, n - 1);
      assert Follows(ts, ev, n - 1);
      match ev[n - 1] {
        case Wrote(data) => assert (t.hist + Kept(data))[base..t.next] == t.hist[base..t.next];
        case Polled(cap) =>
          assert Fits(t, ev[n - 1]);
          PollIsExact(t.hist, base, t.next);
      }
    }
  }

  /** The pieces join up to the exact history, no gap and no repeat, iff every poll came in time and had room. */
  lemma ExactIffAllFit(ts: seq<Tail>, ev: seq<Event>, n: nat)
    requires IsRun(ts, ev) && n <= |ev|
    ensures Exact(ts, n) <==> AllFit(ts, ev, n)
  {
    HistoryGrows(ts, ev, n);
    if AllFit(ts, ev, n) {
      FittingIsExact(ts, ev, n);
    }
  }
}
