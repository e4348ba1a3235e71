/**
 Reassembly while the keys are being agreed: the framing itself changes under way, and a
 notification that looks like a plaintext key-exchange message bypasses the buffer.
 */
module SessionHandshake {
  import opened Bits
  import opened Crc
  import opened Framing
  import opened Session
  import opened SessionStreams
  import opened SessionKeys

  // ---------------------------------------------------------------------
  // Draining can stop anywhere and go on
  // ---------------------------------------------------------------------

  /** Every complete frame found while draining can be unwrapped. */
  predicate DrainsClean(c: Crypto, e: Env, s: Sess)
    requires Laws(c)
    decreases |s.rest|
  {
    var need := FramedLen(s.hs.haveSecure, s.rest);
    need == 0 || |s.rest| < need ||
    match Unwrap(c, s.hs.haveSecure, Key(s.hs), s.hs.unsecureIv, s.rest[..need])
    case None => false
    case Some(plain) => DrainsClean(c, e, Inner(c, e, s.(rest := s.rest[need..]), plain))
  }

  /** In the buffer every frame can: one that fits is never too long to unwrap. */
  lemma {:induction false} BufferDrainsClean(c: Crypto, e: Env, s: Sess)
    requires Laws(c) && |s.rest| <= RX_MAX
    ensures DrainsClean(c, e, s)
    decreases |s.rest|
  {
    var need := FramedLen(s.hs.haveSecure, s.rest);
    if need != 0 && need <= |s.rest| {
      var inner := Unwrap(c, s.hs.haveSecure, Key(s.hs), s.hs.unsecureIv, s.rest[..need]);
      FitsUnwraps(c, s.hs.haveSecure, Key(s.hs), s.hs.unsecureIv, s.rest[..need]);
      BufferDrainsClean(c, e, Inner(c, e, s.(rest := s.rest[need..]), inner.value));
    }
  }

  lemma FitsUnwraps(c: Crypto, secure: bool, key: seq<byte>, iv: Block, f: seq<byte>)
    requires Laws(c) && FramedLen(secure, f) == |f| && 2 <= |f| <= RX_MAX
    ensures Unwrap(c, secure, key, iv, f).Some?
  {
  }

  lemma FramedStable(secure: bool, a: seq<byte>, b: seq<byte>)
    ensures FramedLen(secure, a) > 0 ==> FramedLen(secure, a + b) == FramedLen(secure, a)
  {
  }

  /** More bytes behind a complete frame change nothing about its being cut off. */
  lemma OneOff(c: Crypto, e: Env, s: Sess, more: seq<byte>, plain: seq<byte>) returns (t: Sess)
    requires Laws(c) && 0 < FramedLen(s.hs.haveSecure, s.rest) <= |s.rest|
    requires Unwrap(c, s.hs.haveSecure, Key(s.hs), s.hs.unsecureIv, s.rest[..FramedLen(s.hs.haveSecure, s.rest)]) == Some(plain)
    ensures |t.rest| < |s.rest| && Drain(c, e, s) == Drain(c, e, t) && DrainsClean(c, e, s) == DrainsClean(c, e, t)
    ensures Drain(c, e, s.(rest := s.rest + more)) == Drain(c, e, t.(rest := t.rest + more))
    ensures DrainsClean(c, e, s.(rest := s.rest + more)) == DrainsClean(c, e, t.(rest := t.rest + more))
  {
    var need := FramedLen(s.hs.haveSecure, s.rest);
    t := Inner(c, e, s.(rest := s.rest[need..]), plain);
    FramedStable(s.hs.haveSecure, s.rest, more);
    assert (s.rest + more)[..need] == s.rest[..need];
    assert (s.rest + more)[need..] == s.rest[need..] + more;
    assert Inner(c, e, s.(rest := s.rest[need..] + more), plain) == t.(rest := t.rest + more);
  }

  lemma {:induction false} DrainResumes(c: Crypto, e: Env, s: Sess, more: seq<byte>)
    requires Laws(c) && DrainsClean(c, e, s.(rest := s.rest + more))
    ensures var t := Drain(c, e, s);
            Drain(c, e, s.(rest := s.rest + more)) == Drain(c, e, t.(rest := t.rest + more)) &&
            DrainsClean(c, e, t.(rest := t.rest + more))
    decreases |s.rest|
  {
    var need := FramedLen(s.hs.haveSecure, s.rest);
    if need != 0 && need <= |s.rest| {
      FramedStable(s.hs.haveSecure, s.rest, more);
      assert (s.rest + more)[..need] == s.rest[..need];
      var t := OneOff(c, e, s, more, Unwrap(c, s.hs.haveSecure, Key(s.hs), s.hs.unsecureIv, s.rest[..need]).value);
      DrainResumes(c, e, t, more);
    }
  }

  lemma {:induction false} DrainKeepsLink(c: Crypto, e: Env, s: Sess)
    requires Laws(c) && !s.hs.plain && s.hs.haveUnsecure
    ensures var t := Drain(c, e, s); !t.hs.plain && t.hs.haveUnsecure && (s.hs.haveSecure ==> t.hs.haveSecure)
    decreases |s.rest|
  {
    var need := FramedLen(s.hs.haveSecure, s.rest);
    if need != 0 && need <= |s.rest| {
      var inner := Unwrap(c, s.hs.haveSecure, Key(s.hs), s.hs.unsecureIv, s.rest[..need]);
      if inner.Some? {
        KexKeepsKey(c, e, s.hs, inner.value);
        DrainKeepsLink(c, e, Inner(c, e, s.(rest := s.rest[need..]), inner.value));
      }
    }
  }

  /** Notification `i` goes into the buffer: it fits, and is not taken for a plaintext key-exchange message. */
  ghost predicate Buffered(c: Crypto, e: Env, s: Sess, chunks: seq<seq<byte>>, i: nat)
    requires Laws(c) && i < |chunks|
  {
    var t := Drain(c, e, s.(rest := Concat(chunks[..i])));
    |t.rest| + |chunks[i]| <= RX_MAX && (t.hs.haveSecure || !IsKex(chunks[i]))
  }

  /** More bytes behind a stream drain cleanly if the stream does and what it leaves does with them. */
  lemma {:induction false} CleanJoins(c: Crypto, e: Env, s: Sess, more: seq<byte>)
    requires Laws(c) && DrainsClean(c, e, s)
    requires var t := Drain(c, e, s); DrainsClean(c, e, t.(rest := t.rest + more))
    ensures DrainsClean(c, e, s.(rest := s.rest + more))
    decreases |s.rest|
  {
    var need := FramedLen(s.hs.haveSecure, s.rest);
    if need != 0 && need <= |s.rest| {
      var t := OneOff(c, e, s, more, Unwrap(c, s.hs.haveSecure, Key(s.hs), s.hs.unsecureIv, s.rest[..need]).value);
      CleanJoins(c, e, t, more);
    }
  }

  /** A stream that passes through the buffer in pieces drains cleanly: no frame that fits is too long to unwrap. */
  lemma {:induction false} BufferedIsClean(c: Crypto, e: Env, s: Sess, chunks: seq<seq<byte>>)
    requires Laws(c) && s.rest == [] && forall i: nat | i < |chunks| :: Buffered(c, e, s, chunks, i)
    ensures DrainsClean(c, e, s.(rest := Concat(chunks)))
  {
    if chunks != [] {
      var n := |chunks| - 1;
      var whole := s.(rest := Concat(chunks[..n]));
      var less := BufferedBefore(c, e, s, chunks);
      BufferedIsClean(c, e, s, chunks[..n]);
      assert Buffered(c, e, s, chunks, n);
      var t := Drain(c, e, whole);
      BufferDrainsClean(c, e, t.(rest := t.rest + chunks[n]));
      CleanJoins(c, e, whole, chunks[n]);
    }
  }

  lemma BufferedBefore(c: Crypto, e: Env, s: Sess, chunks: seq<seq<byte>>) returns (less: seq<seq<byte>>)
    requires Laws(c) && chunks != [] && forall i: nat | i < |chunks| :: Buffered(c, e, s, chunks, i)
    ensures less == chunks[..|chunks| - 1] && forall i: nat | i < |less| :: Buffered(c, e, s, less, i)
  {
    less := chunks[..|chunks| - 1];
    forall i: nat | i < |less| ensures Buffered(c, e, s, less, i) {
      assert Buffered(c, e, s, chunks, i) && less[..i] == chunks[..i];
    }
  }

  /**
   From any point between frames, before, during or after the switch to the session key: a stream
   whose notifications all go into the buffer is handled as one whole, however it is cut.
   */
  lemma {:induction false} StreamIsWhole(c: Crypto, e: Env, es: seq<Env>, s: Sess, chunks: seq<seq<byte>>)
    requires Laws(c) && |es| == |chunks| && (forall i | 0 <= i < |es| :: es[i] == e)
    requires !s.hs.plain && s.hs.haveUnsecure && s.rest == []
    requires forall i: nat | i < |chunks| :: Buffered(c, e, s, chunks, i)
    ensures FeedMany(c, es, s, chunks) == Drain(c, e, s.(rest := Concat(chunks)))
  {
    if chunks != [] {
      var n := |chunks| - 1;
      var whole := s.(rest := Concat(chunks[..n]));
      var less := BufferedBefore(c, e, s, chunks);
      StreamIsWhole(c, e, es[..n], s, chunks[..n]);
      assert Buffered(c, e, s, chunks, n);
      DrainKeepsLink(c, e, whole);
      FeedLast(c, es, s, chunks);
      BufferedIsClean(c, e, s, chunks);
      DrainResumes(c, e, whole, chunks[n]);
    }
  }

  // ---------------------------------------------------------------------
  // One frame of the handshake
  // ---------------------------------------------------------------------

  /** The handshake key is there, the session key is not, and the buffer is empty. */
  predicate Exchanging(s: Sess)
  {
    !s.hs.plain && s.hs.haveUnsecure && !s.hs.haveSecure && s.rest == []
  }

  /** A frame under the handshake key, cut into pieces. */
  predicate CutFrame(w: seq<byte>, chunks: seq<seq<byte>>)
  {
    && FramedLen(false, w) == |w| <= RX_MAX && |w| >= 2 && Concat(chunks) == w
    && forall i | 0 <= i < |chunks| :: chunks[i] != []
  }

  /** The first pieces are a start of the frame, and all of it only when there are no more. */
  lemma {:induction false} StartOfFrame(chunks: seq<seq<byte>>, i: nat)
    requires i <= |chunks| && forall k | 0 <= k < |chunks| :: chunks[k] != []
    ensures var p, w := Concat(chunks[..i]), Concat(chunks);
            |p| <= |w| && w[..|p|] == p && (i < |chunks| ==> |p| < |w|) && |p| >= i
  {
    var n := |chunks| - 1;
    if i <= n {
      StartOfFrame(chunks[..n], i);
      assert chunks[..n][..i] == chunks[..i];
    } else {
      assert chunks[..i] == chunks;
      if n >= 0 {
        StartOfFrame(chunks[..n], n);
        assert chunks[..n][..n] == chunks[..n];
      }
    }
  }

  /** A buffer that starts like a frame but is shorter is left alone. */
  lemma TooShort(c: Crypto, e: Env, u: Sess, w: seq<byte>)
    requires Laws(c) && !u.hs.haveSecure && FramedLen(false, w) == |w| && |u.rest| < |w|
    requires |u.rest| >= 2 ==> |w| >= 2 && u.rest[..2] == w[..2]
    ensures Drain(c, e, u) == u
  {
    if |u.rest| >= 2 {
      assert u.rest[0] == u.rest[..2][0] && u.rest[1] == u.rest[..2][1] && w[0] == w[..2][0] && w[1] == w[..2][1];
    }
  }

  /** A frame that fits the buffer does not begin like a key-exchange message, and no start of it does. */
  lemma NotKex(w: seq<byte>, n: nat)
    requires FramedLen(false, w) == |w| <= RX_MAX && n <= |w|
    ensures !IsKex(w[..n])
  {
  }

  /** One notification further. */
  lemma OneFurther(c: Crypto, es: seq<Env>, s: Sess, chunks: seq<seq<byte>>, n: nat)
    requires Laws(c) && |es| == |chunks| && n < |chunks|
    ensures FeedMany(c, es[..n + 1], s, chunks[..n + 1]) == FeedBytes(c, es[n], FeedMany(c, es[..n], s, chunks[..n]), chunks[n])
  {
    assert chunks[..n + 1][..n] == chunks[..n] && es[..n + 1][..n] == es[..n];
    FeedLast(c, es[..n + 1], s, chunks[..n + 1]);
  }

  ghost predicate FedAt(c: Crypto, es: seq<Env>, chunks: seq<seq<byte>>, ts: seq<Sess>, k: nat)
    requires Laws(c) && k < |es| == |chunks| < |ts|
  {
    ts[k + 1] == FeedBytes(c, es[k], ts[k], chunks[k])
  }

  /** The states a session goes through with these notifications. */
  ghost predicate GoesThrough(c: Crypto, es: seq<Env>, s: Sess, chunks: seq<seq<byte>>, ts: seq<Sess>)
    requires Laws(c)
  {
    && |es| == |chunks| && |ts| == |chunks| + 1 && ts[0] == s
    && forall k: nat | k < |chunks| :: FedAt(c, es, chunks, ts, k)
  }

  lemma StatesOf(c: Crypto, es: seq<Env>, s: Sess, chunks: seq<seq<byte>>) returns (ts: seq<Sess>)
    requires Laws(c) && |es| == |chunks|
    ensures GoesThrough(c, es, s, chunks, ts) && ts[|chunks|] == FeedMany(c, es, s, chunks)
  {
    ts := seq(|chunks| + 1, k requires 0 <= k <= |chunks| && |es| == |chunks| && Laws(c) => FeedMany(c, es[..k], s, chunks[..k]));
    assert chunks[..|chunks|] == chunks && es[..|es|] == es && chunks[..0] == [];
    forall k: nat | k < |chunks|
      ensures FedAt(c, es, chunks, ts, k)
    {
      OneFurther(c, es, s, chunks, k);
    }
  }

  /** The session is in the handshake, and a frame of it comes in pieces. */
  ghost predicate Receives(c: Crypto, es: seq<Env>, s: Sess, w: seq<byte>, chunks: seq<seq<byte>>, ts: seq<Sess>)
    requires Laws(c)
  {
    GoesThrough(c, es, s, chunks, ts) && Exchanging(s) && CutFrame(w, chunks)
  }

  lemma {:induction false} StillGathering(c: Crypto, es: seq<Env>, s: Sess, w: seq<byte>, chunks: seq<seq<byte>>,
                                          ts: seq<Sess>, i: nat)
    requires Laws(c) && Receives(c, es, s, w, chunks, ts) && i < |chunks|
    requires forall k | 1 <= k < i :: !IsKex(chunks[k])
    ensures ts[i] == s.(rest := Concat(chunks[..i]))
  {
    if i > 0 {
      StillGathering(c, es, s, w, chunks, ts, i - 1);
      assert FedAt(c, es, chunks, ts, i - 1);
      GatherOne(c, es[i - 1], s, w, chunks, i - 1);
    } else {
      assert chunks[..0] == [];
    }
  }

  lemma OnePieceMore(chunks: seq<seq<byte>>, n: nat)
    requires n < |chunks|
    ensures Concat(chunks[..n + 1]) == Concat(chunks[..n]) + chunks[n]
    ensures n == 0 ==> Concat(chunks[..1]) == chunks[0]
  {
    assert chunks[..n + 1] == chunks[..n] + [chunks[n]];
    ConcatSnoc(chunks[..n], chunks[n]);
    if n == 0 {
      assert chunks[..0] == [] && Concat(chunks[..0]) == [];
    }
  }

  lemma GatherOne(c: Crypto, e: Env, s: Sess, w: seq<byte>, chunks: seq<seq<byte>>, n: nat)
    requires Laws(c) && Exchanging(s) && CutFrame(w, chunks) && n < |chunks| - 1 && (n > 0 ==> !IsKex(chunks[n]))
    ensures FeedBytes(c, e, s.(rest := Concat(chunks[..n])), chunks[n]) == s.(rest := Concat(chunks[..n + 1]))
  {
    var t := s.(rest := Concat(chunks[..n + 1]));
    OnePieceMore(chunks, n);
    StartOfFrame(chunks, n + 1);
    NotKex(w, |t.rest|);
    TooShort(c, e, t, w);
  }

  lemma WholeFrame(c: Crypto, e: Env, s: Sess, w: seq<byte>, plain: seq<byte>)
    requires Laws(c) && Exchanging(s) && FramedLen(false, w) == |w| >= 2
    requires Unwrap(c, false, s.hs.unsecureKey, s.hs.unsecureIv, w) == Some(plain)
    ensures Drain(c, e, s.(rest := w)) == Inner(c, e, s, plain)
  {
    assert w[..|w|] == w && w[|w|..] == [];
    assert Inner(c, e, s.(rest := []), plain).rest == [];
  }

  lemma LastPiece(c: Crypto, e: Env, s: Sess, w: seq<byte>, plain: seq<byte>, chunks: seq<seq<byte>>)
    requires Laws(c) && Exchanging(s) && CutFrame(w, chunks) && chunks != []
    requires Unwrap(c, false, s.hs.unsecureKey, s.hs.unsecureIv, w) == Some(plain)
    requires |chunks| > 1 ==> !IsKex(chunks[|chunks| - 1])
    ensures FeedBytes(c, e, s.(rest := Concat(chunks[..|chunks| - 1])), chunks[|chunks| - 1]) == Inner(c, e, s, plain)
  {
    var n := |chunks| - 1;
    OnePieceMore(chunks, n);
    assert chunks[..n + 1] == chunks;
    NotKex(w, |w|);
    assert w[..|w|] == w;
    WholeFrame(c, e, s, w, plain);
  }

  // ---------------------------------------------------------------------
  // A piece that bypasses the buffer
  // ---------------------------------------------------------------------

  /** Bytes it takes, at the least, to carry the frames handled so far. */
  function Load(seen: seq<Seen>): (n: nat)
  {
    if seen == [] then 0 else Load(seen[..|seen| - 1]) + 2 + Padded(|seen[|seen| - 1].frame|)
  }

  /** ... and to hold what is in the buffer besides. */
  function Held(s: Sess): (n: nat)
  {
    Load(s.seen) + |s.rest|
  }

  lemma LoadSnoc(seen: seq<Seen>, x: Seen)
    ensures Load(seen + [x]) == Load(seen) + 2 + Padded(|x.frame|)
  {
    assert (seen + [x])[..|seen|] == seen;
  }

  lemma InnerHolds(c: Crypto, e: Env, s: Sess, need: nat, plain: seq<byte>)
    requires Laws(c) && 0 < need == FramedLen(s.hs.haveSecure, s.rest) <= |s.rest|
    requires Unwrap(c, s.hs.haveSecure, Key(s.hs), s.hs.unsecureIv, s.rest[..need]) == Some(plain)
    ensures var t := Inner(c, e, s.(rest := s.rest[need..]), plain); Held(t) <= Held(s) && |t.rest| < |s.rest|
  {
    UnwrapLength(c, s.hs.haveSecure, Key(s.hs), s.hs.unsecureIv, s.rest[..need]);
    LoadSnoc(s.seen, Seen(s.pendingAddr, plain));
  }

  /** Draining makes no frames out of fewer bytes than they take. */
  lemma {:induction false} DrainHolds(c: Crypto, e: Env, s: Sess)
    requires Laws(c)
    ensures Held(Drain(c, e, s)) <= Held(s)
    decreases |s.rest|
  {
    var need := FramedLen(s.hs.haveSecure, s.rest);
    if need != 0 && need <= |s.rest| {
      var inner := Unwrap(c, s.hs.haveSecure, Key(s.hs), s.hs.unsecureIv, s.rest[..need]);
      if inner.Some? {
        InnerHolds(c, e, s, need, inner.value);
        DrainHolds(c, e, Inner(c, e, s.(rest := s.rest[need..]), inner.value));
      }
    }
  }

  lemma FeedHolds(c: Crypto, e: Env, s: Sess, data: seq<byte>)
    requires Laws(c) && !s.hs.plain
    ensures !FeedBytes(c, e, s, data).hs.plain
    ensures Held(FeedBytes(c, e, s, data)) <= Held(s) + if !s.hs.haveSecure && IsKex(data) then 0 else |data|
  {
    KexKeepsKey(c, e, s.hs, data);
    if |s.rest| + |data| <= RX_MAX {
      DrainHolds(c, e, s.(rest := s.rest + data));
      DrainKeepsPlain(c, e, s.(rest := s.rest + data));
    }
  }

  lemma {:induction false} DrainKeepsPlain(c: Crypto, e: Env, s: Sess)
    requires Laws(c)
    ensures Drain(c, e, s).hs.plain == s.hs.plain
    decreases |s.rest|
  {
    var need := FramedLen(s.hs.haveSecure, s.rest);
    if need != 0 && need <= |s.rest| {
      var inner := Unwrap(c, s.hs.haveSecure, Key(s.hs), s.hs.unsecureIv, s.rest[..need]);
      if inner.Some? {
        KexKeepsKey(c, e, s.hs, inner.value);
        DrainKeepsPlain(c, e, Inner(c, e, s.(rest := s.rest[need..]), inner.value));
      }
    }
  }

  /** Bytes in the first `m` notifications. */
  function Bytes(chunks: seq<seq<byte>>, m: nat): (n: nat)
    requires m <= |chunks|
  {
    if m == 0 then 0 else Bytes(chunks, m - 1) + |chunks[m - 1]|
  }

  lemma {:induction false} BytesAre(chunks: seq<seq<byte>>, m: nat)
    requires m <= |chunks|
    ensures Bytes(chunks, m) == |Concat(chunks[..m])| <= |Concat(chunks)|
  {
    if m > 0 {
      BytesAre(chunks, m - 1);
      PartsAddUp(chunks, m - 1);
      OnePieceMore(chunks, m - 1);
    }
  }

  /** Piece `i` is the first to be taken for a plaintext key-exchange message. */
  ghost predicate Loses(c: Crypto, es: seq<Env>, s: Sess, w: seq<byte>, chunks: seq<seq<byte>>, ts: seq<Sess>, i: nat)
    requires Laws(c)
  {
    && Receives(c, es, s, w, chunks, ts) && 1 <= i < |chunks| && IsKex(chunks[i])
    && forall k | 1 <= k < i :: !IsKex(chunks[k])
  }

  lemma ShortAt(c: Crypto, es: seq<Env>, s: Sess, w: seq<byte>, chunks: seq<seq<byte>>, ts: seq<Sess>, i: nat)
    requires Laws(c) && Loses(c, es, s, w, chunks, ts, i)
    ensures !ts[i + 1].hs.plain && Held(ts[i + 1]) < Load(s.seen) + Bytes(chunks, i + 1)
  {
    StillGathering(c, es, s, w, chunks, ts, i);
    BytesAre(chunks, i);
    assert FedAt(c, es, chunks, ts, i);
    FeedHolds(c, es[i], ts[i], chunks[i]);
  }

  /** From the lost piece `i` on, there are fewer bytes about than have come in. */
  lemma {:induction false} FallsShort(c: Crypto, es: seq<Env>, s: Sess, w: seq<byte>, chunks: seq<seq<byte>>,
                                      ts: seq<Sess>, i: nat, m: nat)
    requires Laws(c) && Loses(c, es, s, w, chunks, ts, i) && i < m <= |chunks|
    ensures !ts[m].hs.plain && Held(ts[m]) < Load(s.seen) + Bytes(chunks, m)
  {
    if m == i + 1 {
      ShortAt(c, es, s, w, chunks, ts, i);
    } else {
      FallsShort(c, es, s, w, chunks, ts, i, m - 1);
      assert FedAt(c, es, chunks, ts, m - 1);
      FeedHolds(c, es[m - 1], ts[m - 1], chunks[m - 1]);
    }
  }

  /** What is left of a frame that has lost a piece: its start, and too few bytes ever to be whole. */
  predicate Crippled(t: Sess, w: seq<byte>, n: nat)
  {
    && !t.hs.plain && t.hs.haveUnsecure && 2 <= |t.rest| < n <= |w| && t.rest[..2] == w[..2]
  }

  lemma CrippledStays(c: Crypto, e: Env, t: Sess, w: seq<byte>, n: nat, data: seq<byte>)
    requires Laws(c) && FramedLen(false, w) == |w| <= RX_MAX && Crippled(t, w, n) && n + |data| <= |w|
    ensures Crippled(FeedBytes(c, e, t, data), w, n + |data|)
  {
    if !t.hs.haveSecure && IsKex(data) {
      KexKeepsKey(c, e, t.hs, data);
    } else {
      var u := t.(rest := t.rest + data);
      assert u.rest[..2] == t.rest[..2];
      StaysShort(c, e, u, w);
    }
  }

  /** Under the session key a frame of the same length bytes is longer still. */
  lemma StaysShort(c: Crypto, e: Env, u: Sess, w: seq<byte>)
    requires Laws(c) && FramedLen(false, w) == |w| && 2 <= |u.rest| < |w| && u.rest[..2] == w[..2]
    ensures Drain(c, e, u) == u
  {
    assert u.rest[0] == u.rest[..2][0] && u.rest[1] == u.rest[..2][1] && w[0] == w[..2][0] && w[1] == w[..2][1];
  }

  /** What a lost piece leaves of the part gathered before it. */
  lemma FirstLoss(c: Crypto, e: Env, t: Sess, w: seq<byte>, n: nat, data: seq<byte>)
    requires Laws(c) && !t.hs.plain && t.hs.haveUnsecure && !t.hs.haveSecure && IsKex(data)
    requires 2 <= |t.rest| < n <= |w| && t.rest == w[..|t.rest|]
    ensures Crippled(FeedBytes(c, e, t, data), w, n)
  {
    KexKeepsKey(c, e, t.hs, data);
    assert w[..|t.rest|][..2] == w[..2];
  }

  lemma LossAt(c: Crypto, es: seq<Env>, s: Sess, w: seq<byte>, chunks: seq<seq<byte>>, ts: seq<Sess>, i: nat)
    requires Laws(c) && Loses(c, es, s, w, chunks, ts, i) && Bytes(chunks, i) >= 2
    ensures Crippled(ts[i + 1], w, Bytes(chunks, i + 1))
  {
    StillGathering(c, es, s, w, chunks, ts, i);
    BytesAre(chunks, i);
    BytesAre(chunks, i + 1);
    StartOfFrame(chunks, i);
    assert FedAt(c, es, chunks, ts, i);
    FirstLoss(c, es[i], ts[i], w, Bytes(chunks, i + 1), chunks[i]);
  }

  /** If the length bytes came before the lost piece `i`, the frame never gets whole. */
  lemma {:induction false} NeverWhole(c: Crypto, es: seq<Env>, s: Sess, w: seq<byte>, chunks: seq<seq<byte>>,
                                      ts: seq<Sess>, i: nat, m: nat)
    requires Laws(c) && Loses(c, es, s, w, chunks, ts, i) && Bytes(chunks, i) >= 2 && i < m <= |chunks|
    ensures Crippled(ts[m], w, Bytes(chunks, m))
  {
    if m == i + 1 {
      LossAt(c, es, s, w, chunks, ts, i);
    } else {
      NeverWhole(c, es, s, w, chunks, ts, i, m - 1);
      BytesAre(chunks, m);
      assert FedAt(c, es, chunks, ts, m - 1);
      CrippledStays(c, es[m - 1], ts[m - 1], w, Bytes(chunks, m - 1), chunks[m - 1]);
    }
  }

  /** A key-exchange message no unit sends: its length is 42 or 298 bytes. */
  predicate Malformed(plain: seq<byte>)
  {
    IsKex(plain) && |plain| % 256 == 0x2A
  }

  /** Such a message is ignored or fails the session. */
  lemma MalformedLeadsNowhere(c: Crypto, e: Env, h: Hs, plain: seq<byte>)
    requires Malformed(plain)
    ensures HandleKex(c, e, h, plain) in [h, h.(state := Failed)]
  {
  }

  /** Only behind a first piece of a single byte, and only if the length is 42 or 298, can the second piece be lost. */
  lemma EarlyLoss(w: seq<byte>, chunks: seq<seq<byte>>)
    requires CutFrame(w, chunks) && |chunks| > 1 && IsKex(chunks[1]) && |chunks[0]| == 1
    ensures w[1] == 0x2A
  {
    StartOfFrame(chunks, 2);
    OnePieceMore(chunks, 0);
    OnePieceMore(chunks, 1);
    var p := Concat(chunks[..2]);
    assert p[1] == chunks[1][0] && w[..|p|][1] == w[1];
  }

  /** A register response that has lost a piece is not handled as one: there are not bytes enough. */
  lemma ResponseLost(c: Crypto, e: Env, s: Sess, t: Sess, plain: seq<byte>)
    requires Exchanging(s) && !IsKex(plain) && Held(t) < Load(s.seen) + 2 + Padded(|plain|)
    ensures t != Inner(c, e, s, plain)
  {
    LoadSnoc(s.seen, Seen(s.pendingAddr, plain));
  }

  lemma FrameSize(c: Crypto, key: seq<byte>, iv: Block, w: seq<byte>, plain: seq<byte>)
    requires Laws(c) && FramedLen(false, w) == |w| >= 2 && Unwrap(c, false, key, iv, w) == Some(plain)
    ensures |w| == 2 + Padded(|plain|) && |plain| == 256 * (w[0] as int) + w[1]
  {
    UnwrapLength(c, false, key, iv, w);
  }

  /** The length bytes come before any piece that can be lost, but for malformed messages. */
  lemma LengthComesFirst(w: seq<byte>, plain: seq<byte>, chunks: seq<seq<byte>>, i: nat)
    requires CutFrame(w, chunks) && |plain| == 256 * (w[0] as int) + w[1] && 1 <= i < |chunks| && IsKex(chunks[i])
    requires IsKex(plain) && !(Malformed(plain) && |chunks[0]| == 1)
    ensures Bytes(chunks, i) >= 2
  {
    BytesAre(chunks, i);
    StartOfFrame(chunks, i);
    if i == 1 && |chunks[0]| == 1 {
      EarlyLoss(w, chunks);
      assert false;
    }
    OnePieceMore(chunks, 0);
  }

  lemma LossTells(c: Crypto, es: seq<Env>, s: Sess, w: seq<byte>, plain: seq<byte>, chunks: seq<seq<byte>>,
                  ts: seq<Sess>, i: nat)
    requires Laws(c) && Loses(c, es, s, w, chunks, ts, i) && !(Malformed(plain) && |chunks[0]| == 1)
    requires Unwrap(c, false, s.hs.unsecureKey, s.hs.unsecureIv, w) == Some(plain)
    ensures ts[|chunks|] != Inner(c, es[|es| - 1], s, plain)
  {
    FrameSize(c, s.hs.unsecureKey, s.hs.unsecureIv, w, plain);
    if IsKex(plain) {
      LengthComesFirst(w, plain, chunks, i);
      NeverWhole(c, es, s, w, chunks, ts, i, |chunks|);
    } else {
      FallsShort(c, es, s, w, chunks, ts, i, |chunks|);
      BytesAre(chunks, |chunks|);
      assert chunks[..|chunks|] == chunks;
      ResponseLost(c, es[|es| - 1], s, ts[|chunks|], plain);
    }
  }

  /**
   A frame of the handshake, cut anywhere, is handled if no later piece happens to begin like a plaintext
   key-exchange message, and only then, but for messages that lead nowhere behind a first piece of one byte.
   */
  lemma HandshakeFrameIff(c: Crypto, es: seq<Env>, s: Sess, w: seq<byte>, plain: seq<byte>, chunks: seq<seq<byte>>)
    requires Laws(c) && |es| == |chunks| && Exchanging(s) && CutFrame(w, chunks) && chunks != []
    requires Unwrap(c, false, s.hs.unsecureKey, s.hs.unsecureIv, w) == Some(plain)
    ensures (forall k | 1 <= k < |chunks| :: !IsKex(chunks[k])) ==> FeedMany(c, es, s, chunks) == Inner(c, es[|es| - 1], s, plain)
    ensures FeedMany(c, es, s, chunks) == Inner(c, es[|es| - 1], s, plain) && !(Malformed(plain) && |chunks[0]| == 1) ==>
              forall k | 1 <= k < |chunks| :: !IsKex(chunks[k])
  {
    var ts := StatesOf(c, es, s, chunks);
    var n := |chunks| - 1;
    if forall k | 1 <= k < |chunks| :: !IsKex(chunks[k]) {
      StillGathering(c, es, s, w, chunks, ts, n);
      assert FedAt(c, es, chunks, ts, n);
      LastPiece(c, es[n], s, w, plain, chunks);
    } else if !(Malformed(plain) && |chunks[0]| == 1) {
      var i := FirstKex(chunks);
      LossTells(c, es, s, w, plain, chunks, ts, i);
    }
  }

  /** A frame of sixteen encrypted bytes that happen to begin 2A 2A. */
  const UNLUCKY: seq<byte> := [0, 16] + UNLUCKY_TAIL
  const UNLUCKY_TAIL: seq<byte> := [0x2A, 0x2A] + Zeros(14)

  lemma UnluckyFrame(c: Crypto, key: seq<byte>, iv: Block) returns (plain: seq<byte>)
    requires Laws(c)
    ensures |UNLUCKY| == 18 && FramedLen(false, UNLUCKY) == 18 && IsKex(UNLUCKY_TAIL)
    ensures Unwrap(c, false, key, iv, UNLUCKY) == Some(plain) && |plain| == 16
  {
    assert UNLUCKY[2..] == UNLUCKY_TAIL;
    assert UNLUCKY[0] == 0 && UNLUCKY[1] == 16;
    plain := Unwrap(c, false, key, iv, UNLUCKY).value;
  }

  lemma UnluckyCuts()
    requires |UNLUCKY| == 18 && FramedLen(false, UNLUCKY) == 18 && UNLUCKY_TAIL != []
    ensures CutFrame(UNLUCKY, [UNLUCKY]) && CutFrame(UNLUCKY, [[0, 16], UNLUCKY_TAIL])
  {
    var chunks := [[0, 16], UNLUCKY_TAIL];
    OneFrame(UNLUCKY);
    OnePieceMore(chunks, 0);
    OnePieceMore(chunks, 1);
    assert chunks[..2] == chunks;
  }

  /** In one piece that frame is handled; if the link delivers the length bytes on their own, it is not. */
  lemma PieceIsLost(c: Crypto, e: Env, s: Sess) returns (plain: seq<byte>)
    requires Laws(c) && Exchanging(s)
    ensures Unwrap(c, false, s.hs.unsecureKey, s.hs.unsecureIv, UNLUCKY) == Some(plain)
    ensures FeedMany(c, [e], s, [UNLUCKY]) == Inner(c, e, s, plain)
    ensures FeedMany(c, [e, e], s, [[0, 16], UNLUCKY_TAIL]) != Inner(c, e, s, plain)
  {
    plain := UnluckyFrame(c, s.hs.unsecureKey, s.hs.unsecureIv);
    UnluckyCuts();
    HandshakeFrameIff(c, [e], s, UNLUCKY, plain, [UNLUCKY]);
    HandshakeFrameIff(c, [e, e], s, UNLUCKY, plain, [[0, 16], UNLUCKY_TAIL]);
  }

  lemma FirstKex(chunks: seq<seq<byte>>) returns (i: nat)
    requires exists k :: 1 <= k < |chunks| && IsKex(chunks[k])
    ensures 1 <= i < |chunks| && IsKex(chunks[i]) && forall k | 1 <= k < i :: !IsKex(chunks[k])
  {
    i := 1;
    while !IsKex(chunks[i])
      invariant 1 <= i < |chunks| && forall k | 1 <= k < i :: !IsKex(chunks[k])
      invariant exists k :: i <= k < |chunks| && IsKex(chunks[k])
      decreases |chunks| - i
    {
      i := i + 1;
    }
  }

  // ---------------------------------------------------------------------
  // A handshake from beginning to end
  // ---------------------------------------------------------------------

  lemma BodyOf(body: seq<byte>)
    requires body != []
    ensures KexBody(BuildKex(body)) == Some(body) && IsKex(BuildKex(body))
  {
    var f := BuildKex(body);
    assert f[2..|f| - 2] == body && f[|f| - 2..] == HexSum(body);
  }

  /** The unit's three messages. */
  function ChallengeFrame(ch: seq<byte>): (f: seq<byte>)
  {
    BuildKex([0x01, 0x04] + ch)
  }

  function PeerKeyFrame(pub: Point, sig: Point): (f: seq<byte>)
  {
    BuildKex([0x04, 0x80] + pub + sig)
  }

  function AcceptedFrame(): (f: seq<byte>)
  {
    BuildKex([0x06, 0x01, 0x00])
  }

  /** How the unit wraps a message under the handshake key. */
  function UnderHandshakeKey(c: Crypto, ch: seq<byte>, f: seq<byte>): (w: Option<seq<byte>>)
    requires |ch| == 4
  {
    var iv := ChallengeIv(c, ch);
    Wrap(c, XorBytes(iv, LOCAL_AES_KEY), Some(iv), Zeros(4), f, RX_MAX)
  }

  lemma Challenged(c: Crypto, e: Env, s: Sess, ch: seq<byte>)
    requires Laws(c) && |ch| == 4 && e.txOk && s == NewSession()
    ensures var t := FeedBytes(c, e, s, ChallengeFrame(ch));
            && Exchanging(t) && t.hs.state == Challenge && t.hs.kp.None? && t.hs.reply == []
            && t.hs.unsecureIv == ChallengeIv(c, ch) && t.hs.unsecureKey == XorBytes(ChallengeIv(c, ch), LOCAL_AES_KEY)
  {
    BodyOf([0x01, 0x04] + ch);
    assert ([0x01, 0x04] + ch)[2..] == ch;
  }

  /** A wrapped message of the handshake, cut without a misleading piece, is handled as the message. */
  lemma MessageArrives(c: Crypto, es: seq<Env>, s: Sess, ch: seq<byte>, f: seq<byte>, chunks: seq<seq<byte>>)
    requires Laws(c) && |es| == |chunks| && |ch| == 4 && Exchanging(s) && IsKex(f)
    requires s.hs.unsecureIv == ChallengeIv(c, ch) && s.hs.unsecureKey == XorBytes(ChallengeIv(c, ch), LOCAL_AES_KEY)
    requires UnderHandshakeKey(c, ch, f).Some? && CutFrame(UnderHandshakeKey(c, ch, f).value, chunks)
    requires forall k | 1 <= k < |chunks| :: !IsKex(chunks[k])
    ensures FeedMany(c, es, s, chunks) == s.(hs := HandleKex(c, es[|es| - 1], s.hs, f))
  {
    var w := UnderHandshakeKey(c, ch, f).value;
    UnwrapUndoesWrap(c, s.hs.unsecureKey, Some(s.hs.unsecureIv), s.hs.unsecureIv, Zeros(4), f);
    HandshakeFrameIff(c, es, s, w, f, chunks);
  }

  lemma PeerKeyTaken(c: Crypto, e: Env, h: Hs, d: nat, sig: Point)
    requires Laws(c) && e.txOk && h.kp.None? && h.reply == [] && c.verify(c.public(d) + h.unsecureIv, sig)
    ensures var t := HandleKex(c, e, h, PeerKeyFrame(c.public(d), sig));
            t == h.(state := Pubkey, kp := Some(e.newKey), peerPub := c.public(d), reply := t.reply, sent := t.sent)
  {
    var pub := c.public(d);
    var body := [0x04, 0x80] + pub + sig;
    BodyOf(body);
    assert body[2..] == pub + sig && (pub + sig)[..64] == pub && (pub + sig)[64..] == sig;
  }

  lemma Accepted(c: Crypto, e: Env, h: Hs, k: Key32)
    requires h.kp.Some? && c.shared(h.kp.value, h.peerPub) == Some(k)
    ensures HandleKex(c, e, h, AcceptedFrame()) == h.(secureKey := k, haveSecure := true, state := Ready)
  {
    BodyOf([0x06, 0x01, 0x00]);
    assert [0x06, 0x01, 0x00][2..] == [0x00];
  }

  /**
   From a new session: the unit's challenge, its signed key and its acceptance, the last two wrapped and cut
   up, leave the session ready under the very secret the unit derives from our public key.
   */
  lemma HandshakeReachesTheSecret(c: Crypto, e: Env, es1: seq<Env>, es2: seq<Env>, d: nat, ch: seq<byte>, sig: Point,
                                  key: seq<seq<byte>>, done: seq<seq<byte>>)
    requires Laws(c) && |ch| == 4 && |es1| == |key| && |es2| == |done| && e.txOk
    requires UnderHandshakeKey(c, ch, PeerKeyFrame(c.public(d), sig)).Some? && UnderHandshakeKey(c, ch, AcceptedFrame()).Some?
    requires CutFrame(UnderHandshakeKey(c, ch, PeerKeyFrame(c.public(d), sig)).value, key)
    requires CutFrame(UnderHandshakeKey(c, ch, AcceptedFrame()).value, done)
    requires forall k | 1 <= k < |key| :: !IsKex(key[k])
    requires forall k | 1 <= k < |done| :: !IsKex(done[k])
    requires c.verify(c.public(d) + ChallengeIv(c, ch), sig)
    requires es1[|es1| - 1].txOk && c.shared(es1[|es1| - 1].newKey, c.public(d)).Some?
    ensures var s1 := FeedBytes(c, e, NewSession(), ChallengeFrame(ch));
            var s2 := FeedMany(c, es1, s1, key);
            var s3 := FeedMany(c, es2, s2, done);
            && IsReady(s3.hs) && !s3.hs.plain && SecuredIdle(s3)
            && c.shared(d, c.public(es1[|es1| - 1].newKey)) == Some(s3.hs.secureKey)
  {
    var kp := es1[|es1| - 1].newKey;
    var s1 := FeedBytes(c, e, NewSession(), ChallengeFrame(ch));
    Challenged(c, e, NewSession(), ch);
    BodyOf([0x04, 0x80] + c.public(d) + sig);
    MessageArrives(c, es1, s1, ch, PeerKeyFrame(c.public(d), sig), key);
    PeerKeyTaken(c, es1[|es1| - 1], s1.hs, d, sig);
    var s2 := FeedMany(c, es1, s1, key);
    BodyOf([0x06, 0x01, 0x00]);
    MessageArrives(c, es2, s2, ch, AcceptedFrame(), done);
    Accepted(c, es2[|es2| - 1], s2.hs, c.shared(kp, c.public(d)).value);
  }
}
