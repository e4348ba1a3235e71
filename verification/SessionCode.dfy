/**
 The session object itself: the fields of `struct bt_session`, changed in place,
 with the receive buffer appended to and shifted down as the C code does.
 */
module SessionCode {
  import opened Bits
  import opened Crc
  import opened Framing
  import opened Session

  class BtSession {
    const c: Crypto
    var state: SessState
    var plain: bool
    var haveUnsecure: bool
    var unsecureKey: seq<byte>
    var unsecureIv: Block
    var haveSecure: bool
    var secureKey: seq<byte>
    var peerPub: Point
    var kp: Option<nat>
    var reply: seq<byte>
    const rx: array<byte>
    var rxLen: nat
    var pendingAddr: nat
    var calls: seq<Callback>
    ghost var sent: seq<Tx>
    ghost var seen: seq<Seen>

    ghost predicate Valid()
      reads this
    {
      rx.Length == RX_MAX && rxLen <= RX_MAX && calls == Callbacks(seen)
    }

    ghost function Handshake(): (h: Hs)
      reads this
    {
      Hs(state, plain, haveUnsecure, unsecureKey, unsecureIv, haveSecure, secureKey, peerPub, kp, reply, sent)
    }

    ghost function View(): (s: Sess)
      requires Valid()
      reads this, rx
    {
      Sess(Handshake(), rx[..rxLen], pendingAddr, seen)
    }

    /** `bt_session_new`. */
    constructor (c: Crypto)
      ensures Valid() && fresh(rx) && this.c == c
      ensures View() == NewSession()
    {
      this.c := c;
      state, plain, haveUnsecure, unsecureKey, unsecureIv := Idle, false, false, Zeros(16), Zeros(16);
      haveSecure, secureKey, peerPub, kp, reply := false, Zeros(32), Zeros(64), None, [];
      rx := new byte[RX_MAX](_ => 0);
      rxLen, pendingAddr, calls, sent, seen := 0, 0, [], [], [];
    }

    method ResetSession()
      requires Valid()
      modifies this
      ensures Valid() && View() == Reset(old(View()))
    {
      ghost var goal := Reset(View());
      kp := None;
      state, plain, haveUnsecure, haveSecure := Idle, false, false, false;
      rxLen, reply := 0, [];
      secureKey, unsecureKey := Zeros(32), Zeros(16);
      sent := [];
      assert state == goal.hs.state && kp == goal.hs.kp && reply == goal.hs.reply && sent == goal.hs.sent;
      assert secureKey == goal.hs.secureKey && unsecureKey == goal.hs.unsecureKey;
      assert unsecureIv == goal.hs.unsecureIv && peerPub == goal.hs.peerPub;
    }

    method UsePlainModbus()
      requires Valid()
      modifies this
      ensures Valid() && View() == UsePlain(old(View()))
    {
      if state != Idle {
        return;
      }
      plain, rxLen, state := true, 0, Ready;
    }

    method Send(e: Env, ghost tx: Tx) returns (ok: bool)
      modifies this`sent
      ensures ok == e.txOk && sent == old(sent) + (if e.txOk then [tx] else [])
    {
      ok := e.txOk;
      if ok {
        sent := sent + [tx];
      }
    }

    method HandleChallenge(e: Env, data: seq<byte>)
      modifies this`state, this`haveUnsecure, this`unsecureKey, this`unsecureIv, this`sent
      ensures Handshake() == OnChallenge(c, e, old(Handshake()), data)
    {
      if |data| != 4 {
        state := Failed;
        return;
      }
      unsecureIv := c.md5([data[3], data[2], data[1], data[0]]);
      unsecureKey := XorBytes(unsecureIv, LOCAL_AES_KEY);
      haveUnsecure := true;
      var frame := BuildKex([0x02, 0x04] + unsecureIv[8..12]);
      var ok := Send(e, ChallengeReply(frame));
      state := if ok then Challenge else Failed;
    }

    method HandlePeerPubkey(e: Env, data: seq<byte>)
      modifies this`state, this`peerPub, this`kp, this`reply, this`sent
      ensures Handshake() == OnPeerPubkey(c, e, old(Handshake()), data)
    {
      if |data| != 128 {
        state := Failed;
        return;
      }
      if kp.Some? && reply != [] && peerPub == data[..64] {
        var _ := Send(e, PubkeyReply(reply));
        return;
      }
      if !c.verify(data[..64] + unsecureIv, data[64..]) {
        state := Failed;
        return;
      }
      peerPub := data[..64];
      if kp.None? {
        kp := Some(e.newKey);
      }
      SendPubkey(e);
    }

    /** Our signed public key, wrapped, is 146 bytes: it always fits. */
    method SendPubkey(e: Env)
      requires kp.Some?
      modifies this`state, this`reply, this`sent
      ensures Handshake() == FreshReply(c, e, old(Handshake()))
    {
      var w := Wrap(c, unsecureKey, Some(unsecureIv), Zeros(4), PubkeyFrame(c, kp.value, unsecureIv), RX_MAX);
      reply := w.value;
      var ok := Send(e, PubkeyReply(reply));
      state := if ok then Pubkey else Failed;
    }

    method HandlePubkeyAccepted(data: seq<byte>)
      modifies this`state, this`secureKey, this`haveSecure
      ensures Handshake() == OnPubkeyAccepted(c, old(Handshake()), data)
    {
      if |data| != 1 || data[0] != 0 || kp.None? {
        state := Failed;
        return;
      }
      var k := c.shared(kp.value, peerPub);
      if k.None? {
        state := Failed;
        return;
      }
      secureKey, haveSecure, state := k.value, true, Ready;
    }

    method HandleKexFrame(e: Env, f: seq<byte>)
      modifies this`state, this`haveUnsecure, this`unsecureKey, this`unsecureIv, this`sent,
               this`peerPub, this`kp, this`reply, this`secureKey, this`haveSecure
      ensures Handshake() == HandleKex(c, e, old(Handshake()), f)
    {
      if |f| < 5 {
        return;
      }
      var body := f[2..|f| - 2];
      if HexSum(body) != f[|f| - 2..] {
        return;
      }
      var kind := body[0];
      if kind != 1 && kind != 4 && kind != 6 {
        return;
      }
      if |body| < 2 {
        state := Failed;
      } else if kind == 1 {
        HandleChallenge(e, body[2..]);
      } else if kind == 4 {
        HandlePeerPubkey(e, body[2..]);
      } else {
        HandlePubkeyAccepted(body[2..]);
      }
    }

    /** A request and its CRC. */
    method BuildCommand(fn: byte, addr: word, value: word) returns (cmd: seq<byte>)
      ensures cmd == Command(fn, addr, value)
    {
      var data: seq<byte> := [0x01, fn, addr / 256, addr % 256, value / 256, value % 256];
      var crc := ComputeCrc(data);
      cmd := data + [crc % 256, crc / 256];
    }

    /** `bt_session_read_regs` (`fn` 3) and `bt_session_write_reg` (`fn` 6). */
    method SendCommand(e: Env, fn: byte, addr: word, value: word) returns (ok: bool)
      requires Valid() && EnvOk(e)
      modifies this
      ensures Valid() && View() == SendRequest(c, e, old(View()), fn, addr, value)
      ensures ok <==> IsReady(old(Handshake())) && e.txOk
    {
      if state != Ready || !(haveSecure || plain) {
        return false;
      }
      var cmd := BuildCommand(fn, addr, value);
      pendingAddr, rxLen := addr, 0;
      ok := SendFrame(e, cmd);
    }

    /** Out with it as it is, or wrapped under the session key. */
    method SendFrame(e: Env, cmd: seq<byte>) returns (ok: bool)
      requires EnvOk(e)
      modifies this`sent
      ensures Handshake() == SentOut(c, e, old(Handshake()), cmd) && (|cmd| <= 496 ==> (ok <==> e.txOk))
    {
      if plain {
        ok := Send(e, Request(cmd));
        return;
      }
      var w := Wrap(c, secureKey, None, e.seed, cmd, RX_MAX);
      if w.None? {
        return false;
      }
      ok := Send(e, Request(w.value));
    }

    /** The callbacks made so far stay those of the frames seen so far. */
    method HandleModbus(f: seq<byte>)
      requires Valid()
      modifies this`seen, this`calls
      ensures Valid() && seen == old(seen) + [Seen(pendingAddr, f)]
    {
      var cb := Respond(f);
      calls := calls + cb;
      ghost var was := seen;
      seen := seen + [Seen(pendingAddr, f)];
      assert seen[..|was|] == was;
    }

    /** `handle_modbus`: the callback a frame leads to, if any. */
    method Respond(f: seq<byte>) returns (cb: seq<Callback>)
      ensures cb == Dispatch(pendingAddr, f)
    {
      cb := [];
      if |f| < 5 {
        return;
      }
      if f[1] == 0x06 || f[1] == 0x86 {
        var ok := f[1] == 0x06 && |f| >= 8;
        if ok {
          var crc := ComputeCrc(f[..6]);
          ok := crc == Word(f[7], f[6]);
        }
        cb := [Ack(if ok then Word(f[2], f[3]) else pendingAddr, if ok then Word(f[4], f[5]) else 0, ok)];
        return;
      }
      if f[1] != 0x03 {
        return;
      }
      var count := f[2] as int;
      if 3 + count + 2 > |f| {
        return;
      }
      var crc := ComputeCrc(f[..3 + count]);
      if crc == Word(f[3 + count + 1], f[3 + count]) {
        cb := [Values(pendingAddr, f[3..3 + count])];
      }
    }

    /** memcpy of a notification behind what the buffer holds. */
    method Append(data: seq<byte>)
      requires Valid() && rxLen + |data| <= RX_MAX
      modifies this`rxLen, rx
      ensures Valid() && rx[..rxLen] == old(rx[..rxLen]) + data
    {
      for i := 0 to |data|
        invariant rx[..rxLen + i] == old(rx[..rxLen]) + data[..i]
        modifies rx
      {
        rx[rxLen + i] := data[i];
        assert rx[..rxLen + i + 1] == rx[..rxLen + i] + [data[i]];
      }
      rxLen := rxLen + |data|;
    }

    /** memmove of what follows the first `n` bytes to the front. */
    method Consume(n: nat)
      requires Valid() && n <= rxLen
      modifies this`rxLen, rx
      ensures Valid() && rxLen == old(rxLen) - n && rx[..rxLen] == old(rx[..rxLen])[n..]
    {
      for i := 0 to rxLen - n
        invariant forall k | 0 <= k < i :: rx[k] == old(rx[k + n])
        invariant forall k | i <= k < rxLen :: rx[k] == old(rx[k])
        modifies rx
      {
        rx[i] := rx[i + n];
      }
      rxLen := rxLen - n;
    }

    /** How long the frame at the head of the buffer is, 0 if too little has come to tell. */
    method FrameAhead() returns (frame: nat)
      requires Valid()
      ensures frame == PlainRule(rx[..rxLen])
    {
      if rxLen < 3 {
        return 0;
      }
      return if rx[1] == 0x06 then 8 else if rx[1] >= 0x80 then 5 else 3 + rx[2] as int + 2;
    }

    /** One pass of the unencrypted loop. */
    method CutPlain() returns (more: bool)
      requires Valid()
      modifies this`rxLen, this`seen, this`calls, rx
      ensures Valid()
      ensures var now := old(rx[..rxLen]);
              var need := PlainRule(now);
              more == (need != 0 && need <= |now|) &&
              if !more then rx[..rxLen] == now && seen == old(seen)
              else && rx[..rxLen] == now[need..] && seen == old(seen) + [Seen(pendingAddr, now[..need])]
                   && rxLen < old(rxLen)
    {
      more := false;
      var frame := FrameAhead();
      if frame == 0 || rxLen < frame {
        return;
      }
      more := true;
      assert rx[..rxLen][..frame] == rx[..frame];
      HandleModbus(rx[..frame]);
      Consume(frame);
    }

    /** One pass of the encrypted loop. */
    method CutSecure(e: Env) returns (more: bool)
      requires Valid() && Laws(c)
      modifies this, rx
      ensures Valid()
      ensures Drain(c, e, View()) == Drain(c, e, old(View()))
      ensures if more then rxLen < old(rxLen) else View() == Drain(c, e, old(View()))
    {
      more := false;
      ghost var was := View();
      var need := FramedLen(haveSecure, rx[..rxLen]);
      if need == 0 || rxLen < need {
        return;
      }
      var f := rx[..rxLen][..need];
      var inner := Unwrap(c, haveSecure, if haveSecure then secureKey else unsecureKey, unsecureIv, f);
      if inner.None? {
        rxLen := 0;
        assert View() == was.(rest := []);
        return;
      }
      Consume(need);
      assert View() == was.(rest := was.rest[need..]);
      HandleInner(e, inner.value);
      more := rxLen != 0;
    }

    /** A decrypted frame is a key-exchange message or Modbus. */
    method HandleInner(e: Env, f: seq<byte>)
      requires Valid()
      modifies this
      ensures Valid() && rxLen == old(rxLen) && View() == Inner(c, e, old(View()), f)
    {
      if IsKex(f) {
        HandleKexFrame(e, f);
      } else {
        HandleModbus(f);
      }
    }

    /** What a pass of the unencrypted loop makes of the session. */
    static ghost function PlainPass(s: Sess): (t: Sess)
    {
      var need := PlainRule(s.rest);
      if need == 0 || |s.rest| < need then s
      else s.(rest := s.rest[need..], seen := s.seen + [Seen(s.pendingAddr, s.rest[..need])])
    }

    static lemma PassDrains(s: Sess)
      ensures DrainPlain(PlainPass(s)) == DrainPlain(s)
      ensures PlainRule(s.rest) == 0 || |s.rest| < PlainRule(s.rest) ==> DrainPlain(s) == s
    {
    }

    /** Everything complete is cut off the front of the buffer: unencrypted. */
    method CutAllPlain()
      requires Valid()
      modifies this`rxLen, this`seen, this`calls, rx
      ensures Valid() && View() == DrainPlain(old(View()))
    {
      ghost var goal := DrainPlain(View());
      var more := true;
      while more
        invariant Valid() && DrainPlain(View()) == goal
        invariant !more ==> View() == goal
        decreases more, rxLen
      {
        ghost var was := View();
        more := CutPlain();
        assert View() == PlainPass(was);
        PassDrains(was);
      }
    }

    /** The same, encrypted. */
    method CutAllSecure(e: Env)
      requires Valid() && Laws(c)
      modifies this, rx
      ensures Valid() && View() == Drain(c, e, old(View()))
    {
      ghost var goal := Drain(c, e, View());
      var more := true;
      while more
        invariant Valid() && Drain(c, e, View()) == goal
        invariant !more ==> View() == goal
        decreases more, rxLen
      {
        more := CutSecure(e);
      }
    }

    /** `bt_session_feed`. */
    method FeedData(e: Env, data: seq<byte>)
      requires Valid() && Laws(c)
      modifies this, rx
      ensures Valid() && View() == FeedBytes(c, e, old(View()), data)
    {
      if !plain {
        if !haveSecure && |data| >= 2 && data[0] == 0x2A && data[1] == 0x2A {
          HandleKexFrame(e, data);
          return;
        }
        if !haveUnsecure {
          return;
        }
      }
      if rxLen + |data| > RX_MAX {
        rxLen := 0;
        return;
      }
      Append(data);
      if plain {
        CutAllPlain();
      } else {
        CutAllSecure(e);
      }
    }
  }
}
