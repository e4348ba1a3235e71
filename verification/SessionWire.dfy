/**
 What goes over the link, byte by byte, and which callback a frame leads to: requests and
 their echoes, responses and what becomes of damaged ones, and the messages of the key exchange.
 */
module SessionWire {
  import opened Bits
  import opened Crc
  import opened Framing
  import opened Session
  import opened SessionStreams
  import opened SessionKeys
  import opened SessionHandshake

  // ---------------------------------------------------------------------
  // Which callback a frame leads to
  // ---------------------------------------------------------------------

  /** The CRC holds over the first `n` bytes, their trailer included. */
  predicate Sound(f: seq<byte>, n: nat)
  {
    2 <= n <= |f| && Crc16(f[..n]) == 0
  }

  lemma SoundIsOk(f: seq<byte>, n: nat)
    requires n + 2 <= |f|
    ensures CrcOk(f, n) <==> Sound(f, n + 2)
  {
    AcceptedIffZero(f, n);
  }

  /** Data are called back exactly for a read response that is all there and whose CRC holds. */
  lemma ValuesIff(pending: nat, f: seq<byte>, addr: nat, data: seq<byte>)
    ensures Values(addr, data) in Dispatch(pending, f) <==>
              && |f| >= 5 && f[1] == 0x03 && 5 + f[2] as int <= |f| && Sound(f, 5 + f[2] as int)
              && addr == pending && data == f[3..3 + f[2] as int]
  {
    if |f| >= 5 && 5 + f[2] as int <= |f| {
      SoundIsOk(f, 3 + f[2] as int);
    }
  }

  /** A write is confirmed exactly by an echo whose CRC holds; a broken echo, or the unit's refusal, says it failed. */
  lemma AckIff(pending: nat, f: seq<byte>, addr: nat, value: nat, ok: bool)
    ensures Ack(addr, value, ok) in Dispatch(pending, f) <==>
              && |f| >= 5
              && if ok then
                   && f[1] == 0x06 && |f| >= 8 && Sound(f, 8)
                   && addr == 256 * (f[2] as int) + f[3] && value == 256 * (f[4] as int) + f[5]
                 else
                   && (f[1] == 0x86 || (f[1] == 0x06 && !Sound(f, 8)))
                   && addr == pending && value == 0
    ensures |Dispatch(pending, f)| <= 1
  {
    if |f| >= 8 {
      SoundIsOk(f, 6);
    }
  }

  /** An exception is framed to its own five bytes; only that of a write is called back, as a failure. */
  lemma ExceptionIsHeard(id: byte, fn: byte, code: byte, addr: nat)
    requires fn >= 0x80
    ensures var f := WithCrc([id, fn, code]);
            && PlainRule(f) == |f| == 5
            && Dispatch(addr, f) == if fn == 0x86 then [Ack(addr, 0, false)] else []
  {
  }

  /** `g` is `f` altered within sixteen consecutive bits from bit `p` on, behind the three bytes of its head. */
  ghost predicate Altered(f: seq<byte>, g: seq<byte>, p: nat)
  {
    && |g| == |f| >= 3 && g[..3] == f[..3] && g != f
    && forall n | 0 <= n < |FrameBits(f)| && FrameBits(f)[n] != FrameBits(g)[n] :: p <= n < p + 16
  }

  lemma AlteredHead(f: seq<byte>, g: seq<byte>, p: nat)
    requires Altered(f, g, p)
    ensures g[0] == f[0] && g[1] == f[1] && g[2] == f[2]
  {
    assert g[0] == g[..3][0] && g[1] == g[..3][1] && g[2] == g[..3][2];
    assert f[0] == f[..3][0] && f[1] == f[..3][1] && f[2] == f[..3][2];
  }

  /** So altered, a response calls nothing back. */
  lemma AlteredIsDropped(id: byte, data: seq<byte>, g: seq<byte>, p: nat, addr: nat)
    requires |data| <= 255 && Altered(ReadResponse(id, data), g, p)
    ensures PlainRule(g) == |g| > 0 && Dispatch(addr, g) == []
  {
    var f := ReadResponse(id, data);
    AlteredHead(f, g, p);
    BuiltIsAccepted([id, 0x03, |data|] + data);
    if CrcOk(g, |g| - 2) {
      BurstsAreCaught(f, g, p);
      assert false;
    }
  }

  /** And so in either mode, however the altered response is cut: no data reach the poll loop. */
  lemma AlteredIsNotHeard(c: Crypto, es: seq<Env>, s: Sess, id: byte, data: seq<byte>, g: seq<byte>, p: nat,
                          chunks: seq<seq<byte>>)
    requires Laws(c) && |es| == |chunks| && Up(s) && Arrives(c, s.hs, g, chunks)
    requires |data| <= 255 && Altered(ReadResponse(id, data), g, p)
    ensures Callbacks(FeedMany(c, es, s, chunks).seen) == Callbacks(s.seen)
  {
    AlteredIsDropped(id, data, g, p, s.pendingAddr);
    AlteredHead(ReadResponse(id, data), g, p);
    FrameComesWhole(c, es, s, g, chunks);
  }

  // ---------------------------------------------------------------------
  // Requests
  // ---------------------------------------------------------------------

  /** What the other end of the link reads out of the bytes sent. */
  function ReadsAs(c: Crypto, h: Hs, w: seq<byte>): (f: Option<seq<byte>>)
    requires Laws(c)
  {
    if h.plain then Some(w) else if |w| < 2 then None else Unwrap(c, true, h.secureKey, h.unsecureIv, w)
  }

  /** Address 1, function, register and value, high bytes first, and a CRC that holds. */
  predicate IsRequest(f: seq<byte>, fn: byte, addr: word, value: word)
  {
    && |f| == 8 && f[0] == 1 && f[1] == fn && 256 * (f[2] as int) + f[3] == addr && 256 * (f[4] as int) + f[5] == value
    && Crc16(f) == 0
  }

  lemma CommandIsRequest(fn: byte, addr: word, value: word)
    ensures IsRequest(Command(fn, addr, value), fn, addr, value)
  {
    var body: seq<byte> := [0x01, fn, addr / 256, addr % 256, value / 256, value % 256];
    var f := Command(fn, addr, value);
    BuiltIsAccepted(body);
    AcceptedIffZero(f, 6);
    assert f[..8] == f;
  }

  lemma SameHead(f: seq<byte>, g: seq<byte>, fn: byte, addr: word, value: word)
    requires IsRequest(f, fn, addr, value) && IsRequest(g, fn, addr, value)
    ensures forall i | 0 <= i < 6 :: f[i] == g[i]
  {
    SameBytePair(f[2], f[3], g[2], g[3]);
    SameBytePair(f[4], f[5], g[4], g[5]);
  }

  lemma RequestIsSound(f: seq<byte>, fn: byte, addr: word, value: word)
    requires IsRequest(f, fn, addr, value)
    ensures |f| == 8 && CrcOk(f, 6)
  {
    assert f[..8] == f;
    AcceptedIffZero(f, 6);
  }

  lemma SameTrailer(f: seq<byte>, g: seq<byte>)
    requires |f| == |g| == 8 && CrcOk(f, 6) && CrcOk(g, 6) && forall i | 0 <= i < 6 :: f[i] == g[i]
    ensures f == g
  {
    assert f[..6] == g[..6];
    SameBytePair(f[7], f[6], g[7], g[6]);
  }

  /** Only one frame is a given request. */
  lemma OneRequest(f: seq<byte>, g: seq<byte>, fn: byte, addr: word, value: word)
    requires IsRequest(f, fn, addr, value) && IsRequest(g, fn, addr, value)
    ensures f == g
  {
    RequestIsSound(f, fn, addr, value);
    RequestIsSound(g, fn, addr, value);
    SameHead(f, g, fn, addr, value);
    SameTrailer(f, g);
  }

  lemma SameBytePair(a: byte, b: byte, x: byte, y: byte)
    requires 256 * (a as int) + b == 256 * (x as int) + y
    ensures a == x && b == y
  {
  }

  /** A ready session sends exactly one frame, which the unit reads as the very request; if nothing can be sent, nothing is. */
  lemma RequestGoesOut(c: Crypto, e: Env, s: Sess, fn: byte, addr: word, value: word)
    requires Laws(c) && EnvOk(e)
    ensures var t := SendRequest(c, e, s, fn, addr, value);
            if s.hs.state == Ready && (s.hs.plain || s.hs.haveSecure) then
              && t.pendingAddr == addr && t.rest == [] && t.seen == s.seen && t.hs == s.hs.(sent := t.hs.sent)
              && if e.txOk then
                   && |t.hs.sent| == |s.hs.sent| + 1 && t.hs.sent[..|s.hs.sent|] == s.hs.sent
                   && var last := t.hs.sent[|s.hs.sent|];
                      && last.Request? && ReadsAs(c, s.hs, last.bytes).Some?
                      && IsRequest(ReadsAs(c, s.hs, last.bytes).value, fn, addr, value)
                 else t.hs.sent == s.hs.sent
            else t == s
  {
    CommandIsRequest(fn, addr, value);
    if !s.hs.plain {
      UnwrapUndoesWrap(c, s.hs.secureKey, None, s.hs.unsecureIv, e.seed, Command(fn, addr, value));
    }
  }

  /** The unit's echo of the write just sent, however cut and in either mode, ends in one acknowledgement of that write. */
  lemma WriteIsConfirmed(c: Crypto, e: Env, es: seq<Env>, s: Sess, addr: word, value: word, echo: seq<byte>, chunks: seq<seq<byte>>)
    requires Laws(c) && EnvOk(e) && e.txOk && |es| == |chunks| && Up(s)
    requires var t := SendRequest(c, e, s, 6, addr, value);
             && |t.hs.sent| > 0 && ReadsAs(c, s.hs, t.hs.sent[|t.hs.sent| - 1].bytes) == Some(echo)
             && Arrives(c, t.hs, echo, chunks)
    ensures var t := SendRequest(c, e, s, 6, addr, value);
            var u := FeedMany(c, es, t, chunks);
            u.rest == [] && Callbacks(u.seen) == Callbacks(s.seen) + [Ack(addr, value, true)]
  {
    var t := SendRequest(c, e, s, 6, addr, value);
    RequestGoesOut(c, e, s, 6, addr, value);
    CommandIsRequest(6, addr, value);
    OneRequest(echo, Command(6, addr, value), 6, addr, value);
    EchoIsHeard(addr, addr, value);
    FrameComesWhole(c, es, t, echo, chunks);
  }

  /** Under the session key a frame is two bytes of length, four of seed, and the text, filled up with zeros, encrypted. */
  lemma WrappedIs(c: Crypto, key: seq<byte>, seed: seq<byte>, plain: seq<byte>)
    requires Laws(c) && |seed| == 4 && Wrap(c, key, None, seed, plain, RX_MAX).Some?
    ensures var w := Wrap(c, key, None, seed, plain, RX_MAX).value;
            && |w| >= 6 && 256 * (w[0] as int) + w[1] == |plain| && w[2..6] == seed
            && |plain| <= |w| - 6 < |plain| + 16 && (|w| - 6) % 16 == 0
            && w[6..] == c.encrypt(key, c.md5(seed), plain + Zeros(|w| - 6 - |plain|))
  {
  }

  // ---------------------------------------------------------------------
  // The messages of the key exchange
  // ---------------------------------------------------------------------

  /** A message: 2A 2A, its body, and the sum of the body's bytes, high byte first. */
  predicate IsMessage(f: seq<byte>, body: seq<byte>)
  {
    && |f| == |body| + 4 && f[..2] == [0x2A, 0x2A] && f[2..|body| + 2] == body
    && f[|body| + 2..] == [Sum(body) / 256 % 256, Sum(body) % 256]
  }

  lemma MessageIsBuilt(f: seq<byte>, body: seq<byte>)
    ensures IsMessage(f, body) <==> f == BuildKex(body)
  {
    var g := BuildKex(body);
    assert g[..2] == [0x2A, 0x2A] && g[2..|body| + 2] == body && g[|body| + 2..] == HexSum(body);
    if IsMessage(f, body) {
      assert f == f[..2] + f[2..|body| + 2] + f[|body| + 2..];
    }
  }

  /**
   A challenge `a b d d'` gives the handshake key: the digest of its bytes reversed, mixed with the local key;
   the reply is four bytes of that digest.
   */
  lemma ChallengeIsAnswered(c: Crypto, e: Env, h: Hs, f: seq<byte>, len: byte, ch: seq<byte>)
    requires |ch| == 4 && IsMessage(f, [0x01, len] + ch)
    ensures var r, iv := HandleKex(c, e, h, f), c.md5([ch[3], ch[2], ch[1], ch[0]]);
            && r.haveUnsecure && r.unsecureIv == iv && |r.unsecureKey| == 16
            && (forall i | 0 <= i < 16 :: r.unsecureKey[i] == Xor(iv[i], LOCAL_AES_KEY[i]))
            && r.plain == h.plain && r.haveSecure == h.haveSecure && r.kp == h.kp
            && if e.txOk then
                 && r.state == Challenge && |r.sent| == |h.sent| + 1 && r.sent[..|h.sent|] == h.sent
                 && r.sent[|h.sent|].ChallengeReply?
                 && IsMessage(r.sent[|h.sent|].bytes, [0x02, 0x04, iv[8], iv[9], iv[10], iv[11]])
               else r.state == Failed && r.sent == h.sent
  {
    var iv := c.md5([ch[3], ch[2], ch[1], ch[0]]);
    var body, reply := [0x01, len] + ch, [0x02, 0x04] + iv[8..12];
    MessageIsBuilt(f, body);
    BodyOf(body);
    assert body[2..] == ch;
    assert reply == [0x02, 0x04, iv[8], iv[9], iv[10], iv[11]];
    MessageIsBuilt(BuildKex(reply), reply);
  }

  /** The unit's key counts only if signed together with the digest of the challenge; unless it is one already answered. */
  lemma KeyIsTakenIff(c: Crypto, e: Env, h: Hs, f: seq<byte>, len: byte, pub: Point, sig: Point)
    requires IsMessage(f, [0x04, len] + pub + sig)
    ensures var r := HandleKex(c, e, h, f);
            if h.kp.Some? && h.reply != [] && h.peerPub == pub then
              r == h.(sent := h.sent + if e.txOk then [PubkeyReply(h.reply)] else [])
            else if c.verify(pub + h.unsecureIv, sig) then
              && r.peerPub == pub && r.kp == Some(if h.kp.Some? then h.kp.value else e.newKey)
              && r.sent == h.sent + (if e.txOk then [PubkeyReply(r.reply)] else [])
              && r.state == if e.txOk then Pubkey else Failed
            else r == h.(state := Failed)
  {
    var body := [0x04, len] + pub + sig;
    MessageIsBuilt(f, body);
    BodyOf(body);
    assert body[2..] == pub + sig && (pub + sig)[..64] == pub && (pub + sig)[64..] == sig;
  }

  /** The reply to it, under the handshake key, is our public key and our signature of it with that digest. */
  lemma ReplyIs(c: Crypto, e: Env, h: Hs)
    requires Laws(c) && h.kp.Some?
    ensures var r, pub := FreshReply(c, e, h), c.public(h.kp.value);
            && |r.reply| >= 2 && Unwrap(c, false, h.unsecureKey, h.unsecureIv, r.reply).Some?
            && IsMessage(Unwrap(c, false, h.unsecureKey, h.unsecureIv, r.reply).value,
                         [0x05, 0x80] + pub + c.sign(pub + h.unsecureIv))
  {
    var pub := c.public(h.kp.value);
    var frame := PubkeyFrame(c, h.kp.value, h.unsecureIv);
    UnwrapUndoesWrap(c, h.unsecureKey, Some(h.unsecureIv), h.unsecureIv, Zeros(4), frame);
    MessageIsBuilt(frame, [0x05, 0x80] + pub + c.sign(pub + h.unsecureIv));
  }

  /** Acceptance with code 0 gives the session key, if there is a key of ours to make it with; anything else fails the session. */
  lemma AcceptanceIs(c: Crypto, e: Env, h: Hs, f: seq<byte>, len: byte, data: seq<byte>)
    requires IsMessage(f, [0x06, len] + data)
    ensures var r := HandleKex(c, e, h, f);
            if data == [0] && h.kp.Some? && c.shared(h.kp.value, h.peerPub).Some? then
              r == h.(secureKey := c.shared(h.kp.value, h.peerPub).value, haveSecure := true, state := Ready)
            else r == h.(state := Failed)
  {
    var body := [0x06, len] + data;
    MessageIsBuilt(f, body);
    BodyOf(body);
    assert body[2..] == data;
  }

  /** A challenge that is not four bytes long, a key and signature not of 128, or a message cut off behind its kind, fails the session. */
  lemma WrongLengthFails(c: Crypto, e: Env, h: Hs, f: seq<byte>, body: seq<byte>)
    requires IsMessage(f, body) && body != []
    requires (body[0] == 0x01 && |body| != 6) || (body[0] == 0x04 && |body| != 130) || (body[0] == 0x06 && |body| == 1)
    ensures HandleKex(c, e, h, f) == h.(state := Failed)
  {
    MessageIsBuilt(f, body);
    BodyOf(body);
  }

  /** A message whose sum is wrong, or that is of no known kind, changes nothing. */
  lemma OthersAreIgnored(c: Crypto, e: Env, h: Hs, f: seq<byte>)
    requires forall body: seq<byte> | IsMessage(f, body) :: body == [] || body[0] !in {0x01, 0x04, 0x06}
    requires IsKex(f)
    ensures HandleKex(c, e, h, f) == h
  {
    if |f| >= 5 {
      var body := f[2..|f| - 2];
      assert f[..2] == [0x2A, 0x2A];
      assert IsMessage(f, body) <==> HexSum(body) == f[|f| - 2..];
    }
  }

  // ---------------------------------------------------------------------
  // No session key without a signature
  // ---------------------------------------------------------------------

  /** Some signature of the key, together with some challenge's digest, has been found good. */
  ghost predicate Vouched(c: Crypto, pub: Point)
  {
    exists iv: Block, sig: Point :: c.verify(pub + iv, sig)
  }

  /** Keys are made only with a peer whose key is vouched for. */
  ghost predicate Trusts(c: Crypto, h: Hs)
  {
    && (h.kp.Some? ==> Vouched(c, h.peerPub))
    && (h.haveSecure ==> h.kp.Some? && exists pub: Point :: Vouched(c, pub) && c.shared(h.kp.value, pub) == Some(h.secureKey))
  }

  lemma MessageKeepsTrust(c: Crypto, e: Env, h: Hs, f: seq<byte>)
    requires Trusts(c, h)
    ensures Trusts(c, HandleKex(c, e, h, f))
  {
    match KexBody(f) {
      case None =>
      case Some(body) =>
        if body[0] == 4 && |body| == 130 {
          PeerKeepsTrust(c, e, h, body[2..]);
        } else if body[0] == 1 && |body| == 6 {
          ChallengeKeepsTrust(c, e, h, body[2..]);
        } else if body[0] == 6 && |body| >= 2 {
          AcceptKeepsTrust(c, h, body[2..]);
        }
    }
  }

  lemma ChallengeKeepsTrust(c: Crypto, e: Env, h: Hs, data: seq<byte>)
    requires Trusts(c, h)
    ensures Trusts(c, OnChallenge(c, e, h, data))
  {
  }

  lemma AcceptKeepsTrust(c: Crypto, h: Hs, data: seq<byte>)
    requires Trusts(c, h)
    ensures Trusts(c, OnPubkeyAccepted(c, h, data))
  {
  }

  lemma PeerKeepsTrust(c: Crypto, e: Env, h: Hs, data: seq<byte>)
    requires Trusts(c, h) && |data| == 128
    ensures Trusts(c, OnPeerPubkey(c, e, h, data))
  {
    var pub, sig := data[..64], data[64..];
    assert c.verify(pub + h.unsecureIv, sig) ==> Vouched(c, pub);
  }

  lemma {:induction false} DrainKeepsTrust(c: Crypto, e: Env, s: Sess)
    requires Laws(c) && Trusts(c, s.hs)
    ensures Trusts(c, Drain(c, e, s).hs)
    decreases |s.rest|
  {
    var need := FramedLen(s.hs.haveSecure, s.rest);
    if need != 0 && need <= |s.rest| {
      var inner := Unwrap(c, s.hs.haveSecure, Key(s.hs), s.hs.unsecureIv, s.rest[..need]);
      if inner.Some? {
        MessageKeepsTrust(c, e, s.hs, inner.value);
        DrainKeepsTrust(c, e, Inner(c, e, s.(rest := s.rest[need..]), inner.value));
      }
    }
  }

  lemma OpKeepsTrust(c: Crypto, s: Sess, op: Op)
    requires Laws(c) && Trusts(c, s.hs) && OpOk(op)
    ensures Trusts(c, Apply(c, s, op).hs)
  {
    match op {
      case FeedOp(e, data) =>
        if s.hs.plain {
          if |s.rest| + |data| <= RX_MAX {
            DrainPlainIsParse(s.(rest := s.rest + data));
          }
        } else if !s.hs.haveSecure && IsKex(data) {
          MessageKeepsTrust(c, e, s.hs, data);
        } else if s.hs.haveUnsecure && |s.rest| + |data| <= RX_MAX {
          DrainKeepsTrust(c, e, s.(rest := s.rest + data));
        }
      case RequestOp(e, fn, addr, value) => RequestGoesOut(c, e, s, fn, addr, value);
      case _ =>
    }
  }

  /** In every run, whatever arrives, a session key is a secret shared with the holder of a key whose signature was good. */
  lemma {:induction false} KeyIsVouchedFor(c: Crypto, ss: seq<Sess>, ops: seq<Op>, n: nat)
    requires Laws(c) && IsRun(c, ss, ops) && n <= |ops|
    ensures Trusts(c, ss[n].hs)
  {
    if n > 0 {
      KeyIsVouchedFor(c, ss, ops, n - 1);
      assert Steps(c, ss, ops, n - 1);
      OpKeepsTrust(c, ss[n - 1], ops[n - 1]);
    }
  }

  /** After a reset nothing is left of keys and modes, and what has come in is forgotten. */
  lemma ResetForgets(s: Sess)
    ensures var n := NewSession();
            Reset(s) == n.(hs := n.hs.(unsecureIv := s.hs.unsecureIv, peerPub := s.hs.peerPub),
                           pendingAddr := s.pendingAddr, seen := s.seen)
    ensures Reset(s).hs.state == Idle && Reset(s).hs.kp.None? && !Reset(s).hs.haveSecure && !Reset(s).hs.plain && Reset(s).rest == []
  {
  }

  /** Bytes that are no key-exchange message are ignored until a challenge has come; ones that do not fit empty the buffer. */
  lemma OutOfPlace(c: Crypto, e: Env, s: Sess, data: seq<byte>)
    requires Laws(c) && (s.hs.plain || s.hs.haveSecure || !IsKex(data))
    ensures !s.hs.plain && !s.hs.haveUnsecure ==> FeedBytes(c, e, s, data) == s
    ensures (s.hs.plain || s.hs.haveUnsecure) && |s.rest| + |data| > 512 ==> FeedBytes(c, e, s, data) == s.(rest := [])
  {
  }
}
