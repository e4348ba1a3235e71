/**
 What holds over whole conversations: a session is never both plain and secured, and
 both ends agree on a key.
 */
module SessionKeys {
  import opened Bits
  import opened Crc
  import opened Framing
  import opened Session
  import opened SessionStreams

  // ---------------------------------------------------------------------
  // Never both plain and secured
  // ---------------------------------------------------------------------

  datatype Op = FeedOp(e: Env, data: seq<byte>) | ResetOp | UsePlainOp
              | RequestOp(e: Env, fn: byte, addr: word, value: word)

  function Apply(c: Crypto, s: Sess, op: Op): (r: Sess)
    requires Laws(c) && (op.RequestOp? ==> EnvOk(op.e))
  {
    match op
    case FeedOp(e, data) => FeedBytes(c, e, s, data)
    case ResetOp => Reset(s)
    case UsePlainOp => UsePlain(s)
    case RequestOp(e, fn, addr, value) => SendRequest(c, e, s, fn, addr, value)
  }

  ghost predicate OneMode(s: Sess)
  {
    && !(s.hs.plain && s.hs.haveSecure)
    && (s.hs.haveSecure ==> s.hs.state != Idle)
    && |s.rest| <= RX_MAX
  }

  lemma KexKeepsMode(c: Crypto, e: Env, h: Hs, f: seq<byte>)
    requires h.haveSecure ==> h.state != Idle
    ensures var r := HandleKex(c, e, h, f);
            r.plain == h.plain && (r.haveSecure ==> r.state != Idle) && (h.state != Idle ==> r.state != Idle)
  {
  }

  lemma {:induction false} DrainKeepsMode(c: Crypto, e: Env, s: Sess)
    requires Laws(c) && OneMode(s) && !s.hs.plain
    ensures OneMode(Drain(c, e, s))
    decreases |s.rest|
  {
    var need := FramedLen(s.hs.haveSecure, s.rest);
    if need != 0 && need <= |s.rest| {
      var inner := Unwrap(c, s.hs.haveSecure, Key(s.hs), s.hs.unsecureIv, s.rest[..need]);
      if inner.Some? {
        var s1 := s.(rest := s.rest[need..]);
        KexKeepsMode(c, e, s1.hs, inner.value);
        DrainKeepsMode(c, e, Inner(c, e, s1, inner.value));
      }
    }
  }

  lemma StepKeepsOneMode(c: Crypto, s: Sess, op: Op)
    requires Laws(c) && OneMode(s) && (op.RequestOp? ==> EnvOk(op.e))
    ensures OneMode(Apply(c, s, op))
  {
    if op.FeedOp? {
      if s.hs.plain {
        if |s.rest| + |op.data| <= RX_MAX {
          DrainPlainIsParse(s.(rest := s.rest + op.data));
          ParseConserves(PlainRule, s.rest + op.data);
        }
      } else {
        KexKeepsMode(c, op.e, s.hs, op.data);
        if |s.rest| + |op.data| <= RX_MAX {
          DrainKeepsMode(c, op.e, s.(rest := s.rest + op.data));
        }
      }
    }
  }

  predicate OpOk(op: Op)
  {
    op.RequestOp? ==> EnvOk(op.e)
  }

  ghost predicate Steps(c: Crypto, ss: seq<Sess>, ops: seq<Op>, i: nat)
    requires Laws(c) && i < |ops| < |ss|
  {
    OpOk(ops[i]) && ss[i + 1] == Apply(c, ss[i], ops[i])
  }

  /** Calls in any order, with any bytes, from a new session. */
  ghost predicate IsRun(c: Crypto, ss: seq<Sess>, ops: seq<Op>)
    requires Laws(c)
  {
    |ss| == |ops| + 1 && ss[0] == NewSession() && forall i: nat | i < |ops| :: Steps(c, ss, ops, i)
  }

  /** No run brings a session into both modes, and the buffer never holds too much. */
  lemma {:induction false} AlwaysOneMode(c: Crypto, ss: seq<Sess>, ops: seq<Op>, n: nat)
    requires Laws(c) && IsRun(c, ss, ops) && n <= |ops|
    ensures OneMode(ss[n])
  {
    if n > 0 {
      AlwaysOneMode(c, ss, ops, n - 1);
      assert Steps(c, ss, ops, n - 1);
      StepKeepsOneMode(c, ss[n - 1], ops[n - 1]);
    }
  }

  // ---------------------------------------------------------------------
  // Key agreement
  // ---------------------------------------------------------------------

  /** Message `f` is as a unit with private key `d` sends it under challenge `ch`: its key comes after the challenge. */
  ghost predicate FromUnit(c: Crypto, d: nat, ch: seq<byte>, h: Hs, f: seq<byte>)
  {
    match KexBody(f)
    case None => true
    case Some(body) =>
      && (body[0] == 1 && |body| == 6 ==> body[2..] == ch)
      && (body[0] == 4 && |body| == 130 ==> h.haveUnsecure && body[2..66] == c.public(d))
  }

  function ReplyFor(c: Crypto, kp: nat, ch: seq<byte>): (w: Option<seq<byte>>)
    requires |ch| == 4
  {
    var iv := ChallengeIv(c, ch);
    Wrap(c, XorBytes(iv, LOCAL_AES_KEY), Some(iv), Zeros(4), PubkeyFrame(c, kp, iv), RX_MAX)
  }

  /** How the unit reads our key out of a reply: it derives the same handshake key from its own challenge. */
  function UnitReads(c: Crypto, ch: seq<byte>, w: seq<byte>): (pub: Option<Point>)
    requires Laws(c) && |ch| == 4 && |w| >= 2
  {
    var iv := ChallengeIv(c, ch);
    match Unwrap(c, false, XorBytes(iv, LOCAL_AES_KEY), iv, w)
    case None => None
    case Some(frame) =>
      if !IsKex(frame) then None
      else match KexBody(frame)
           case None => None
           case Some(body) =>
             if |body| == 130 && body[0] == 0x05 && body[1] == 0x80 then Some(body[2..66]) else None
  }

  lemma UnitReadsOurKey(c: Crypto, kp: nat, ch: seq<byte>)
    requires Laws(c) && |ch| == 4
    ensures var w := ReplyFor(c, kp, ch);
            w.Some? && |w.value| >= 2 && UnitReads(c, ch, w.value) == Some(c.public(kp))
  {
    var iv := ChallengeIv(c, ch);
    var key := XorBytes(iv, LOCAL_AES_KEY);
    var pub := c.public(kp);
    var frame := PubkeyFrame(c, kp, iv);
    UnwrapUndoesWrap(c, key, Some(iv), iv, Zeros(4), frame);
    var body := [0x05, 0x80] + pub + c.sign(pub + iv);
    assert frame[2..|frame| - 2] == body && frame[|frame| - 2..] == HexSum(body);
    assert body[2..66] == pub;
  }

  /** All that holds between two resets of a conversation with one unit under one challenge. */
  ghost predicate Agreed(c: Crypto, d: nat, ch: seq<byte>, h: Hs)
    requires |ch| == 4
  {
    && (h.haveUnsecure ==> h.unsecureIv == ChallengeIv(c, ch) && h.unsecureKey == XorBytes(ChallengeIv(c, ch), LOCAL_AES_KEY))
    && (h.kp.Some? ==> h.peerPub == c.public(d))
    && (h.reply != [] ==> h.kp.Some? && ReplyFor(c, h.kp.value, ch) == Some(h.reply))
    && (forall i | 0 <= i < |h.sent| && h.sent[i].PubkeyReply? ::
          h.kp.Some? && ReplyFor(c, h.kp.value, ch) == Some(h.sent[i].bytes))
    && (h.haveSecure ==> h.kp.Some? && c.shared(h.kp.value, c.public(d)) == Some(h.secureKey))
  }

  lemma ChallengeKeepsAgreement(c: Crypto, e: Env, h: Hs, d: nat, ch: seq<byte>)
    requires |ch| == 4 && Agreed(c, d, ch, h)
    ensures Agreed(c, d, ch, OnChallenge(c, e, h, ch))
  {
    var r := OnChallenge(c, e, h, ch);
    assert forall i | 0 <= i < |h.sent| :: r.sent[i] == h.sent[i];
  }

  lemma PeerKeyKeepsAgreement(c: Crypto, e: Env, h: Hs, d: nat, ch: seq<byte>, data: seq<byte>)
    requires |ch| == 4 && Agreed(c, d, ch, h) && h.haveUnsecure
    requires |data| == 128 && data[..64] == c.public(d)
    ensures Agreed(c, d, ch, OnPeerPubkey(c, e, h, data))
  {
    var r := OnPeerPubkey(c, e, h, data);
    assert forall i | 0 <= i < |h.sent| :: r.sent[i] == h.sent[i];
  }

  lemma MessageKeepsAgreement(c: Crypto, e: Env, h: Hs, d: nat, ch: seq<byte>, f: seq<byte>)
    requires |ch| == 4 && Agreed(c, d, ch, h) && FromUnit(c, d, ch, h, f)
    ensures Agreed(c, d, ch, HandleKex(c, e, h, f))
  {
    match KexBody(f) {
      case None =>
      case Some(body) =>
        if body[0] == 1 && |body| == 6 {
          ChallengeKeepsAgreement(c, e, h, d, ch);
        } else if body[0] == 4 && |body| == 130 {
          assert body[2..][..64] == body[2..66];
          PeerKeyKeepsAgreement(c, e, h, d, ch, body[2..]);
        }
    }
  }

  // ---------------------------------------------------------------------
  // Over whole runs
  // ---------------------------------------------------------------------

  /** Every key-exchange message found while draining is as the unit sends it. */
  ghost predicate DrainsFromUnit(c: Crypto, e: Env, s: Sess, d: nat, ch: seq<byte>)
    requires Laws(c) && |ch| == 4
    decreases |s.rest|
  {
    var need := FramedLen(s.hs.haveSecure, s.rest);
    need == 0 || |s.rest| < need ||
    match Unwrap(c, s.hs.haveSecure, Key(s.hs), s.hs.unsecureIv, s.rest[..need])
    case None => true
    case Some(plain) =>
      (IsKex(plain) ==> FromUnit(c, d, ch, s.hs, plain)) && DrainsFromUnit(c, e, Inner(c, e, s.(rest := s.rest[need..]), plain), d, ch)
  }

  /** ... and so with every one a call handles, in the clear or decrypted. */
  ghost predicate OpFromUnit(c: Crypto, s: Sess, op: Op, d: nat, ch: seq<byte>)
    requires Laws(c) && |ch| == 4
  {
    op.FeedOp? && !s.hs.plain ==>
      if !s.hs.haveSecure && IsKex(op.data) then FromUnit(c, d, ch, s.hs, op.data)
      else s.hs.haveUnsecure && |s.rest| + |op.data| <= RX_MAX ==> DrainsFromUnit(c, op.e, s.(rest := s.rest + op.data), d, ch)
  }

  lemma {:induction false} DrainKeepsAgreed(c: Crypto, e: Env, s: Sess, d: nat, ch: seq<byte>)
    requires Laws(c) && |ch| == 4 && Agreed(c, d, ch, s.hs) && DrainsFromUnit(c, e, s, d, ch)
    ensures Agreed(c, d, ch, Drain(c, e, s).hs)
    decreases |s.rest|
  {
    var need := FramedLen(s.hs.haveSecure, s.rest);
    if need != 0 && need <= |s.rest| {
      var inner := Unwrap(c, s.hs.haveSecure, Key(s.hs), s.hs.unsecureIv, s.rest[..need]);
      if inner.Some? {
        var t := Inner(c, e, s.(rest := s.rest[need..]), inner.value);
        if IsKex(inner.value) {
          MessageKeepsAgreement(c, e, s.hs, d, ch, inner.value);
        }
        DrainKeepsAgreed(c, e, t, d, ch);
      }
    }
  }

  lemma RequestKeepsAgreed(c: Crypto, e: Env, h: Hs, tx: Tx, d: nat, ch: seq<byte>)
    requires |ch| == 4 && Agreed(c, d, ch, h) && tx.Request?
    ensures Agreed(c, d, ch, Transmit(h, e, tx))
  {
    var r := Transmit(h, e, tx);
    assert forall i | 0 <= i < |r.sent| && r.sent[i].PubkeyReply? :: i < |h.sent| && r.sent[i] == h.sent[i];
  }

  lemma PlainSendsAgreed(c: Crypto, e: Env, s: Sess, fn: byte, addr: word, value: word, d: nat, ch: seq<byte>)
    requires |ch| == 4 && Agreed(c, d, ch, s.hs) && EnvOk(e)
    ensures Agreed(c, d, ch, SendRequest(c, e, s, fn, addr, value).hs)
  {
    if IsReady(s.hs) {
      var cmd := Command(fn, addr, value);
      var w := Wrap(c, s.hs.secureKey, None, e.seed, cmd, RX_MAX);
      RequestKeepsAgreed(c, e, s.hs, Request(if s.hs.plain then cmd else if w.Some? then w.value else []), d, ch);
    }
  }

  lemma OpKeepsAgreed(c: Crypto, s: Sess, op: Op, d: nat, ch: seq<byte>)
    requires Laws(c) && |ch| == 4 && Agreed(c, d, ch, s.hs) && OpOk(op) && OpFromUnit(c, s, op, d, ch)
    ensures Agreed(c, d, ch, Apply(c, s, op).hs)
  {
    match op {
      case FeedOp(e, data) =>
        if s.hs.plain {
          if |s.rest| + |data| <= RX_MAX {
            DrainPlainIsParse(s.(rest := s.rest + data));
          }
        } else if !s.hs.haveSecure && IsKex(data) {
          MessageKeepsAgreement(c, e, s.hs, d, ch, data);
        } else if s.hs.haveUnsecure && |s.rest| + |data| <= RX_MAX {
          DrainKeepsAgreed(c, e, s.(rest := s.rest + data), d, ch);
        }
      case RequestOp(e, fn, addr, value) => PlainSendsAgreed(c, e, s, fn, addr, value, d, ch);
      case _ =>
    }
  }

  /** A conversation begins with a new session or a reset. */
  predicate Begins(ops: seq<Op>, a: nat)
    requires a <= |ops|
  {
    a == 0 || ops[a - 1].ResetOp?
  }

  /** The unit with private key `d` speaks under challenge `ch` from `a` up to `n`. */
  ghost predicate Converses(c: Crypto, ss: seq<Sess>, ops: seq<Op>, a: nat, n: nat, d: nat, ch: seq<byte>)
    requires Laws(c) && |ch| == 4 && n <= |ops| < |ss|
  {
    forall m: nat | a <= m < n :: OpFromUnit(c, ss[m], ops[m], d, ch)
  }

  lemma {:induction false} StaysAgreed(c: Crypto, ss: seq<Sess>, ops: seq<Op>, a: nat, n: nat, d: nat, ch: seq<byte>)
    requires Laws(c) && |ch| == 4 && IsRun(c, ss, ops) && a <= n <= |ops|
    requires Begins(ops, a) && Converses(c, ss, ops, a, n, d, ch)
    ensures Agreed(c, d, ch, ss[n].hs)
  {
    if n > a {
      StaysAgreed(c, ss, ops, a, n - 1, d, ch);
      assert Steps(c, ss, ops, n - 1);
      OpKeepsAgreed(c, ss[n - 1], ops[n - 1], d, ch);
    } else if a > 0 {
      assert Steps(c, ss, ops, a - 1);
    }
  }

  /**
   In every run, however often the unit asks again, every reply of ours since the conversation began tells it
   one and the same key, and the secret it derives from any of them is the session key.
   */
  lemma KeyAgreement(c: Crypto, ss: seq<Sess>, ops: seq<Op>, a: nat, n: nat, d: nat, ch: seq<byte>, i: nat)
    requires Laws(c) && |ch| == 4 && IsRun(c, ss, ops) && a <= n <= |ops|
    requires Begins(ops, a) && Converses(c, ss, ops, a, n, d, ch)
    requires i < |ss[n].hs.sent| && ss[n].hs.sent[i].PubkeyReply?
    ensures var h, w := ss[n].hs, ss[n].hs.sent[i].bytes;
            && |w| >= 2 && h.kp.Some? && UnitReads(c, ch, w) == Some(c.public(h.kp.value))
            && (h.haveSecure ==> c.shared(d, UnitReads(c, ch, w).value) == Some(h.secureKey))
  {
    StaysAgreed(c, ss, ops, a, n, d, ch);
    UnitReadsOurKey(c, ss[n].hs.kp.value, ch);
  }

  lemma {:induction false} DrainKeepsOwnKey(c: Crypto, e: Env, s: Sess)
    requires Laws(c) && s.hs.kp.Some?
    ensures Drain(c, e, s).hs.kp == s.hs.kp
    decreases |s.rest|
  {
    var need := FramedLen(s.hs.haveSecure, s.rest);
    if need != 0 && need <= |s.rest| {
      var inner := Unwrap(c, s.hs.haveSecure, Key(s.hs), s.hs.unsecureIv, s.rest[..need]);
      if inner.Some? {
        KexKeepsOwnKey(c, e, s.hs, inner.value);
        DrainKeepsOwnKey(c, e, Inner(c, e, s.(rest := s.rest[need..]), inner.value));
      }
    }
  }

  lemma KexKeepsOwnKey(c: Crypto, e: Env, h: Hs, f: seq<byte>)
    requires h.kp.Some?
    ensures HandleKex(c, e, h, f).kp == h.kp
  {
  }

  lemma OpKeepsOwnKey(c: Crypto, s: Sess, op: Op)
    requires Laws(c) && s.hs.kp.Some? && OpOk(op) && !op.ResetOp?
    ensures Apply(c, s, op).hs.kp == s.hs.kp
  {
    if op.FeedOp? {
      if s.hs.plain {
        if |s.rest| + |op.data| <= RX_MAX {
          DrainPlainIsParse(s.(rest := s.rest + op.data));
        }
      } else if !s.hs.haveSecure && IsKex(op.data) {
        KexKeepsOwnKey(c, op.e, s.hs, op.data);
      } else if s.hs.haveUnsecure && |s.rest| + |op.data| <= RX_MAX {
        DrainKeepsOwnKey(c, op.e, s.(rest := s.rest + op.data));
      }
    }
  }

  /** Once chosen, our key stays until the next reset, whatever is called and whatever arrives. */
  lemma {:induction false} KeyIsKept(c: Crypto, ss: seq<Sess>, ops: seq<Op>, a: nat, n: nat)
    requires Laws(c) && IsRun(c, ss, ops) && a <= n <= |ops| && ss[a].hs.kp.Some?
    requires forall m: nat | a <= m < n :: !ops[m].ResetOp?
    ensures ss[n].hs.kp == ss[a].hs.kp
  {
    if n > a {
      KeyIsKept(c, ss, ops, a, n - 1);
      assert Steps(c, ss, ops, n - 1);
      OpKeepsOwnKey(c, ss[n - 1], ops[n - 1]);
    }
  }
}
