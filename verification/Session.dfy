/**
 The BLUETTI session layer (`components/bluetti_ble/bt_session.c`): the "2a2a" key
 exchange, the AES wrapper, and register requests and responses over it.

 The ciphers, digests and signatures are parameters (`Crypto`) with the laws one
 relies on.  The functions say what each call makes of the session's state; the
 class `BtSession` does it on the session's own fields and its 512-byte buffer.
 */
module Session {
  import opened Bits
  import opened Crc
  import opened Framing

  datatype Option<+T> = None | Some(value: T)

  const RX_MAX: nat := 512

  function Zeros(n: nat): (z: seq<byte>)
    ensures |z| == n
  {
    seq(n, _ => 0)
  }

  type Block = s: seq<byte> | |s| == 16 witness Zeros(16)
  type Key32 = s: seq<byte> | |s| == 32 witness Zeros(32)
  type Point = s: seq<byte> | |s| == 64 witness Zeros(64)

  /** Private keys are numbers; everything else is bytes. */
  datatype Crypto = Crypto(
    encrypt: (seq<byte>, Block, seq<byte>) -> seq<byte>,
    decrypt: (seq<byte>, Block, seq<byte>) -> seq<byte>,
    md5: seq<byte> -> Block,
    verify: (seq<byte>, Point) -> bool,
    sign: seq<byte> -> Point,
    public: nat -> Point,
    shared: (nat, Point) -> Option<Key32>)

  /** Decryption undoes encryption of whole blocks, and both ends of a key exchange reach one secret. */
  ghost predicate Laws(c: Crypto)
  {
    && (forall k: seq<byte>, iv: Block, p: seq<byte> | |p| % 16 == 0 ::
          |c.encrypt(k, iv, p)| == |p| && c.decrypt(k, iv, c.encrypt(k, iv, p)) == p)
    && (forall k: seq<byte>, iv: Block, x: seq<byte> | |x| % 16 == 0 :: |c.decrypt(k, iv, x)| == |x|)
    && (forall a: nat, b: nat :: c.shared(a, c.public(b)) == c.shared(b, c.public(a)))
  }

  /** The laws ask nothing impossible. */
  lemma LawsCanHold() returns (c: Crypto)
    ensures Laws(c)
  {
    c := Crypto((k: seq<byte>, iv: Block, p: seq<byte>) => p, (k: seq<byte>, iv: Block, x: seq<byte>) => x,
                (s: seq<byte>) => Zeros(16), (m: seq<byte>, p: Point) => true, (m: seq<byte>) => Zeros(64),
                (a: nat) => Zeros(64), (a: nat, p: Point) => Some(Zeros(32)));
  }

  // ---------------------------------------------------------------------
  // AES wrapper
  // ---------------------------------------------------------------------

  function Padded(n: nat): (p: nat)
    ensures n <= p < n + 16 && p % 16 == 0
  {
    (n + 15) / 16 * 16
  }

  /** `aes_wrap`: big-endian plaintext length, the IV seed unless an IV is given, the padded ciphertext. */
  function Wrap(c: Crypto, key: seq<byte>, iv: Option<Block>, seed: seq<byte>, plain: seq<byte>, outSz: nat): (r: Option<seq<byte>>)
    requires |seed| == 4
  {
    var header := if iv.Some? then 2 else 6;
    var padded := Padded(|plain|);
    if header + padded > outSz || padded > RX_MAX then None
    else
      var block := plain + Zeros(padded - |plain|);
      Some(match iv
           case Some(v) => [|plain| / 256, |plain| % 256] + c.encrypt(key, v, block)
           case None => [|plain| / 256, |plain| % 256] + seed + c.encrypt(key, c.md5(seed), block))
  }

  /** `framed_len`: wire length of the frame a buffer starts, 0 if more is needed to tell. */
  function FramedLen(secure: bool, buf: seq<byte>): (n: nat)
  {
    var header := if secure then 6 else 2;
    if |buf| < header then 0 else header + Padded(256 * (buf[0] as int) + buf[1])
  }

  function SecureRule(buf: seq<byte>): (n: nat)
  {
    FramedLen(true, buf)
  }

  /** `aes_unwrap` with the given key; the IV comes from the frame once the session is secure. */
  function Unwrap(c: Crypto, secure: bool, key: seq<byte>, iv: Block, f: seq<byte>): (r: Option<seq<byte>>)
    requires Laws(c) && |f| >= 2
  {
    var plainLen := 256 * (f[0] as int) + f[1];
    if secure && |f| < 6 then None
    else
      var ct := if secure then f[6..] else f[2..];
      if |ct| % 16 != 0 || plainLen > |ct| || plainLen > RX_MAX || |ct| > RX_MAX then None
      else Some(c.decrypt(key, if secure then c.md5(f[2..6]) else iv, ct)[..plainLen])
  }

  // ---------------------------------------------------------------------
  // Key exchange
  // ---------------------------------------------------------------------

  const LOCAL_AES_KEY: Block :=
    [0x45, 0x9F, 0xC5, 0x35, 0x80, 0x89, 0x41, 0xF1, 0x70, 0x91, 0xE0, 0x99, 0x3E, 0xE3, 0xE9, 0x3D]

  datatype SessState = Idle | Challenge | Pubkey | Ready | Failed

  /** What went out, by kind. */
  datatype Tx = ChallengeReply(bytes: seq<byte>) | PubkeyReply(bytes: seq<byte>) | Request(bytes: seq<byte>)

  /** The negotiated state; `sent` lists what has gone out since the last reset. */
  datatype Hs = Hs(state: SessState, plain: bool,
                   haveUnsecure: bool, unsecureKey: seq<byte>, unsecureIv: Block,
                   haveSecure: bool, secureKey: seq<byte>,
                   peerPub: Point, kp: Option<nat>, reply: seq<byte>, sent: seq<Tx>)

  /** Outside influence on one call: whether writes get through, and the random draws. */
  datatype Env = Env(txOk: bool, newKey: nat, seed: seq<byte>)

  predicate EnvOk(e: Env)
  {
    |e.seed| == 4
  }

  function XorBytes(a: Block, b: Block): (r: Block)
  {
    seq(16, i requires 0 <= i < 16 => XorByte(a[i], b[i]))
  }

  function XorByte(a: byte, b: byte): (r: byte)
  {
    WordIsPow();
    XorBound(a, b, BYTE_BITS);
    Xor(a, b)
  }

  function Sum(s: seq<byte>): (n: nat)
  {
    if s == [] then 0 else Sum(s[..|s| - 1]) + s[|s| - 1]
  }

  /** The frame checksum: a plain byte sum, big-endian. */
  function HexSum(s: seq<byte>): (r: seq<byte>)
    ensures |r| == 2
  {
    [Sum(s) / 256 % 256, Sum(s) % 256]
  }

  function BuildKex(body: seq<byte>): (f: seq<byte>)
  {
    [0x2A, 0x2A] + body + HexSum(body)
  }

  predicate IsKex(f: seq<byte>)
  {
    |f| >= 2 && f[0] == 0x2A && f[1] == 0x2A
  }

  /** The body of a frame whose checksum holds. */
  function KexBody(f: seq<byte>): (r: Option<seq<byte>>)
  {
    if |f| < 5 then None
    else
      var body := f[2..|f| - 2];
      if HexSum(body) != f[|f| - 2..] then None else Some(body)
  }

  function ChallengeIv(c: Crypto, data: seq<byte>): (iv: Block)
    requires |data| == 4
  {
    c.md5([data[3], data[2], data[1], data[0]])
  }

  function Transmit(h: Hs, e: Env, tx: Tx): (r: Hs)
  {
    if e.txOk then h.(sent := h.sent + [tx]) else h
  }

  function OnChallenge(c: Crypto, e: Env, h: Hs, data: seq<byte>): (r: Hs)
  {
    if |data| != 4 then h.(state := Failed)
    else
      var iv := ChallengeIv(c, data);
      var h1 := h.(unsecureIv := iv, unsecureKey := XorBytes(iv, LOCAL_AES_KEY), haveUnsecure := true);
      var frame := BuildKex([0x02, 0x04] + iv[8..12]);
      Transmit(h1, e, ChallengeReply(frame)).(state := if e.txOk then Challenge else Failed)
  }

  /** Our public key, signed, as a key-exchange frame. */
  function PubkeyFrame(c: Crypto, kp: nat, iv: Block): (f: seq<byte>)
    ensures |f| == 134
  {
    var pub := c.public(kp);
    BuildKex([0x05, 0x80] + pub + c.sign(pub + iv))
  }

  function OnPeerPubkey(c: Crypto, e: Env, h: Hs, data: seq<byte>): (r: Hs)
  {
    if |data| != 128 then h.(state := Failed)
    else if h.kp.Some? && h.reply != [] && h.peerPub == data[..64] then
      Transmit(h, e, PubkeyReply(h.reply))
    else if !c.verify(data[..64] + h.unsecureIv, data[64..]) then h.(state := Failed)
    else FreshReply(c, e, h.(peerPub := data[..64], kp := Some(if h.kp.Some? then h.kp.value else e.newKey)))
  }

  /** Builds, caches and sends our signed public key under the handshake key. */
  function FreshReply(c: Crypto, e: Env, h: Hs): (r: Hs)
    requires h.kp.Some?
  {
    match Wrap(c, h.unsecureKey, Some(h.unsecureIv), Zeros(4), PubkeyFrame(c, h.kp.value, h.unsecureIv), RX_MAX)
    case None => h.(state := Failed)
    case Some(w) =>
      Transmit(h.(reply := w), e, PubkeyReply(w)).(state := if e.txOk then Pubkey else Failed)
  }

  function OnPubkeyAccepted(c: Crypto, h: Hs, data: seq<byte>): (r: Hs)
  {
    if |data| != 1 || data[0] != 0 || h.kp.None? then h.(state := Failed)
    else match c.shared(h.kp.value, h.peerPub)
         case None => h.(state := Failed)
         case Some(k) => h.(secureKey := k, haveSecure := true, state := Ready)
  }

  /** `handle_kex`: a body of one byte has no room for its length byte, which every handler rejects. */
  function HandleKex(c: Crypto, e: Env, h: Hs, f: seq<byte>): (r: Hs)
  {
    match KexBody(f)
    case None => h
    case Some(body) =>
      if body[0] !in {1, 4, 6} then h
      else if |body| < 2 then h.(state := Failed)
      else if body[0] == 1 then OnChallenge(c, e, h, body[2..])
      else if body[0] == 4 then OnPeerPubkey(c, e, h, body[2..])
      else OnPubkeyAccepted(c, h, body[2..])
  }

  // ---------------------------------------------------------------------
  // Registers
  // ---------------------------------------------------------------------

  datatype Callback = Values(addr: nat, data: seq<byte>) | Ack(addr: nat, value: nat, ok: bool)

  function Word(hi: byte, lo: byte): (w: word)
  {
    256 * (hi as int) + lo
  }

  /** `handle_modbus`: what a frame makes of the request in flight. */
  function Dispatch(pendingAddr: nat, f: seq<byte>): (r: seq<Callback>)
  {
    if |f| < 5 then []
    else if f[1] == 0x06 || f[1] == 0x86 then
      if f[1] == 0x06 && |f| >= 8 && CrcOk(f, 6) then [Ack(Word(f[2], f[3]), Word(f[4], f[5]), true)]
      else [Ack(pendingAddr, 0, false)]
    else if f[1] != 0x03 then []
    else if 3 + f[2] as int + 2 > |f| then []
    else if !CrcOk(f, 3 + f[2] as int) then []
    else [Values(pendingAddr, f[3..3 + f[2] as int])]
  }

  /** A frame handed to `handle_modbus`, with the address of the request then in flight. */
  datatype Seen = Seen(addr: nat, frame: seq<byte>)

  function Tagged(addr: nat, fs: seq<seq<byte>>): (r: seq<Seen>)
  {
    seq(|fs|, i requires 0 <= i < |fs| => Seen(addr, fs[i]))
  }

  /** The callbacks all handled frames have led to, in order. */
  function Callbacks(seen: seq<Seen>): (r: seq<Callback>)
  {
    if seen == [] then []
    else
      var n := |seen| - 1;
      Callbacks(seen[..n]) + Dispatch(seen[n].addr, seen[n].frame)
  }

  /** Framing of an unencrypted stream: write echo, exception, or a byte-counted read response. */
  function PlainRule(buf: seq<byte>): (n: nat)
  {
    if |buf| < 3 then 0
    else if buf[1] == 0x06 then 8
    else if buf[1] >= 0x80 then 5
    else 3 + buf[2] as int + 2
  }

  function Command(fn: byte, addr: word, value: word): (f: seq<byte>)
  {
    WithCrc([0x01, fn, addr / 256, addr % 256, value / 256, value % 256])
  }

  // ---------------------------------------------------------------------
  // The session
  // ---------------------------------------------------------------------

  /** `rest` is what the buffer holds; `seen` lists the frames handled so far. */
  datatype Sess = Sess(hs: Hs, rest: seq<byte>, pendingAddr: nat, seen: seq<Seen>)

  /** A session just made. */
  function NewSession(): (s: Sess)
  {
    Sess(Hs(Idle, false, false, Zeros(16), Zeros(16), false, Zeros(32), Zeros(64), None, [], []), [], 0, [])
  }

  predicate IsReady(h: Hs)
  {
    h.state == Ready && (h.haveSecure || h.plain)
  }

  function Reset(s: Sess): (r: Sess)
  {
    s.(hs := s.hs.(kp := None, state := Idle, plain := false, haveUnsecure := false, haveSecure := false,
                   reply := [], secureKey := Zeros(32), unsecureKey := Zeros(16), sent := []),
       rest := [])
  }

  function UsePlain(s: Sess): (r: Sess)
  {
    if s.hs.state != Idle then s else s.(hs := s.hs.(plain := true, state := Ready), rest := [])
  }

  /** A request goes out as it is, or wrapped under the session key. */
  function SentOut(c: Crypto, e: Env, h: Hs, cmd: seq<byte>): (r: Hs)
    requires EnvOk(e)
  {
    if h.plain then Transmit(h, e, Request(cmd))
    else match Wrap(c, h.secureKey, None, e.seed, cmd, RX_MAX)
         case None => h
         case Some(w) => Transmit(h, e, Request(w))
  }

  /** A read (`fn` 3) or write (`fn` 6) request: remembered, and sent plain or wrapped. */
  function SendRequest(c: Crypto, e: Env, s: Sess, fn: byte, addr: word, value: word): (r: Sess)
    requires EnvOk(e)
  {
    if !IsReady(s.hs) then s
    else
      var cmd := Command(fn, addr, value);
      s.(pendingAddr := addr, rest := [], hs := SentOut(c, e, s.hs, cmd))
  }

  function Inner(c: Crypto, e: Env, s: Sess, plain: seq<byte>): (r: Sess)
  {
    if IsKex(plain) then s.(hs := HandleKex(c, e, s.hs, plain))
    else s.(seen := s.seen + [Seen(s.pendingAddr, plain)])
  }

  function Key(h: Hs): (k: seq<byte>)
  {
    if h.haveSecure then h.secureKey else h.unsecureKey
  }

  /** Cut off and handle every complete encrypted frame; each pass consumes at least a header. */
  function Drain(c: Crypto, e: Env, s: Sess): (r: Sess)
    requires Laws(c)
    decreases |s.rest|
  {
    var need := FramedLen(s.hs.haveSecure, s.rest);
    if need == 0 || |s.rest| < need then s
    else match Unwrap(c, s.hs.haveSecure, Key(s.hs), s.hs.unsecureIv, s.rest[..need])
         case None => s.(rest := [])
         case Some(plain) => Drain(c, e, Inner(c, e, s.(rest := s.rest[need..]), plain))
  }

  /** The unencrypted loop: cut off and handle every complete frame in `rest`. */
  function DrainPlain(s: Sess): (r: Sess)
    decreases |s.rest|
  {
    var need := PlainRule(s.rest);
    if need == 0 || |s.rest| < need then s
    else DrainPlain(s.(rest := s.rest[need..], seen := s.seen + [Seen(s.pendingAddr, s.rest[..need])]))
  }

  /** `bt_session_feed`. */
  function FeedBytes(c: Crypto, e: Env, s: Sess, data: seq<byte>): (r: Sess)
    requires Laws(c)
  {
    if s.hs.plain then
      if |s.rest| + |data| > RX_MAX then s.(rest := []) else DrainPlain(s.(rest := s.rest + data))
    else if !s.hs.haveSecure && IsKex(data) then s.(hs := HandleKex(c, e, s.hs, data))
    else if !s.hs.haveUnsecure then s
    else if |s.rest| + |data| > RX_MAX then s.(rest := [])
    else Drain(c, e, s.(rest := s.rest + data))
  }
}
