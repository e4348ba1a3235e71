/**
 What the session layer makes of byte streams: frames come out whatever the
 notifications' boundaries as long as the buffer holds, encrypted traffic arrives as
 it was sent, and a request's answer comes back under the address asked for.
 */
module SessionStreams {
  import opened Bits
  import opened Crc
  import opened Framing
  import opened Session

  /** Notifications in turn, each with its own surroundings. */
  function FeedMany(c: Crypto, es: seq<Env>, s: Sess, chunks: seq<seq<byte>>): (r: Sess)
    requires Laws(c) && |es| == |chunks|
  {
    if chunks == [] then s
    else
      var n := |chunks| - 1;
      FeedBytes(c, es[n], FeedMany(c, es[..n], s, chunks[..n]), chunks[n])
  }

  lemma FeedLast(c: Crypto, es: seq<Env>, s: Sess, chunks: seq<seq<byte>>)
    requires Laws(c) && |es| == |chunks| > 0
    ensures var n := |chunks| - 1; FeedMany(c, es, s, chunks) == FeedBytes(c, es[n], FeedMany(c, es[..n], s, chunks[..n]), chunks[n])
  {
  }

  // ---------------------------------------------------------------------
  // Unencrypted sessions
  // ---------------------------------------------------------------------

  lemma PlainRuleFits()
    ensures Stable(PlainRule) && Bounded(PlainRule, 260)
  {
  }

  lemma TaggedAppend(addr: nat, a: seq<seq<byte>>, b: seq<seq<byte>>)
    ensures Tagged(addr, a + b) == Tagged(addr, a) + Tagged(addr, b)
  {
  }

  lemma SeenAppend(base: seq<Seen>, addr: nat, a: seq<seq<byte>>, b: seq<seq<byte>>)
    ensures (base + Tagged(addr, a)) + Tagged(addr, b) == base + Tagged(addr, a + b)
  {
    TaggedAppend(addr, a, b);
  }

  lemma {:induction false} DrainPlainIsParse(s: Sess)
    ensures var p := Parse(PlainRule, s.rest);
            DrainPlain(s) == s.(rest := p.rest, seen := s.seen + Tagged(s.pendingAddr, p.frames))
    decreases |s.rest|
  {
    var need := PlainRule(s.rest);
    if need == 0 || |s.rest| < need {
      assert s.seen + Tagged(s.pendingAddr, []) == s.seen;
    } else {
      var f, t := s.rest[..need], s.rest[need..];
      var s1 := s.(rest := t, seen := s.seen + [Seen(s.pendingAddr, f)]);
      DrainPlainIsParse(s1);
      assert [Seen(s.pendingAddr, f)] == Tagged(s.pendingAddr, [f]);
      SeenAppend(s.seen, s.pendingAddr, [f], Parse(PlainRule, t).frames);
    }
  }

  /** What a session in plain mode has handled, and holds, is what the framing of its notifications gives. */
  lemma {:induction false} PlainIsFraming(c: Crypto, es: seq<Env>, s: Sess, chunks: seq<seq<byte>>)
    requires Laws(c) && |es| == |chunks| && s.hs.plain && s.rest == []
    ensures var p := FeedAll(PlainRule, RX_MAX, chunks);
            FeedMany(c, es, s, chunks) == s.(rest := p.rest, seen := s.seen + Tagged(s.pendingAddr, p.frames))
  {
    if chunks == [] {
      NoneSeen(s);
    } else {
      var n := |chunks| - 1;
      PlainIsFraming(c, es[..n], s, chunks[..n]);
      FeedLast(c, es, s, chunks);
      PlainStep(c, es[n], s, FeedAll(PlainRule, RX_MAX, chunks[..n]), chunks[n]);
    }
  }

  lemma NoneSeen(s: Sess)
    ensures s.seen + Tagged(s.pendingAddr, []) == s.seen
  {
  }

  lemma PlainStep(c: Crypto, e: Env, s: Sess, sofar: Parsed, chunk: seq<byte>)
    requires Laws(c) && s.hs.plain
    ensures var s1 := s.(rest := sofar.rest, seen := s.seen + Tagged(s.pendingAddr, sofar.frames));
            var step := Feed(PlainRule, RX_MAX, sofar.rest, chunk);
            FeedBytes(c, e, s1, chunk) ==
            s.(rest := step.rest, seen := s.seen + Tagged(s.pendingAddr, sofar.frames + step.frames))
  {
    var s1 := s.(rest := sofar.rest, seen := s.seen + Tagged(s.pendingAddr, sofar.frames));
    if |sofar.rest| + |chunk| > RX_MAX {
      assert sofar.frames + [] == sofar.frames;
    } else {
      DrainPlainIsParse(s1.(rest := sofar.rest + chunk));
      SeenAppend(s.seen, s.pendingAddr, sofar.frames, Parse(PlainRule, sofar.rest + chunk).frames);
    }
  }

  lemma SameSeen(base: seq<Seen>, addr: nat, a: seq<seq<byte>>, b: seq<seq<byte>>)
    requires base + Tagged(addr, a) == base + Tagged(addr, b)
    ensures a == b
  {
    var x, y := base + Tagged(addr, a), base + Tagged(addr, b);
    assert x[|base|..] == Tagged(addr, a) && y[|base|..] == Tagged(addr, b);
    forall i | 0 <= i < |a| ensures a[i] == b[i] {
      assert Tagged(addr, a)[i] == Tagged(addr, b)[i];
    }
  }

  /**
   After a request, the frames handled are those of the whole stream, and the buffer holds its tail,
   exactly when no notification meets a tail it does not fit behind.
   */
  lemma PlainFragmentationIff(c: Crypto, es: seq<Env>, s: Sess, chunks: seq<seq<byte>>)
    requires Laws(c) && |es| == |chunks| && s.hs.plain && s.rest == []
    ensures var p := Parse(PlainRule, Concat(chunks));
            FeedMany(c, es, s, chunks) == s.(rest := p.rest, seen := s.seen + Tagged(s.pendingAddr, p.frames))
            <==> NeverOverflows(PlainRule, RX_MAX, chunks)
  {
    PlainRuleFits();
    PlainIsFraming(c, es, s, chunks);
    FragmentationIff(PlainRule, RX_MAX, chunks);
    var p, q := FeedAll(PlainRule, RX_MAX, chunks), Parse(PlainRule, Concat(chunks));
    if s.seen + Tagged(s.pendingAddr, p.frames) == s.seen + Tagged(s.pendingAddr, q.frames) {
      SameSeen(s.seen, s.pendingAddr, p.frames, q.frames);
    }
  }

  /** Notifications of up to 253 bytes always fit, and the tail is at most 259 bytes long. */
  lemma PlainFragmentation(c: Crypto, es: seq<Env>, s: Sess, chunks: seq<seq<byte>>)
    requires Laws(c) && |es| == |chunks| && s.hs.plain && s.rest == []
    requires forall i | 0 <= i < |chunks| :: |chunks[i]| <= 253
    ensures var p := Parse(PlainRule, Concat(chunks));
            && FeedMany(c, es, s, chunks) == s.(rest := p.rest, seen := s.seen + Tagged(s.pendingAddr, p.frames))
            && |p.rest| <= 259
  {
    PlainRuleFits();
    RestIsShort(PlainRule, 260, Concat(chunks));
    ShortChunksFit(PlainRule, RX_MAX, 260, chunks);
    PlainFragmentationIff(c, es, s, chunks);
  }

  lemma FeedOne(c: Crypto, es: seq<Env>, s: Sess, chunks: seq<seq<byte>>)
    requires Laws(c) && |es| == |chunks| == 1
    ensures FeedMany(c, es, s, chunks) == FeedBytes(c, es[0], s, chunks[0])
  {
  }

  /** One byte more is too many: behind a 259-byte tail, 254 bytes that would complete a frame are thrown away. */
  lemma LongChunkIsDropped(c: Crypto, es: seq<Env>, s: Sess)
    requires Laws(c) && |es| == 2 && s.hs.plain && s.rest == []
    ensures var chunks: seq<seq<byte>> := [[1, 3, 255] + Zeros(256), Zeros(254)];
            && |chunks[1]| == 254
            && FeedMany(c, es, s, chunks) == s
            && Parse(PlainRule, Concat(chunks)).frames != []
  {
    var a: seq<byte>, b := [1, 3, 255] + Zeros(256), Zeros(254);
    var chunks := [a, b];
    FeedOne(c, es[..1], s, chunks[..1]);
    assert s.rest + a == a;
    DrainPlainIsParse(s.(rest := a));
    assert PlainRule(a) == 260;
    assert Tagged(s.pendingAddr, []) == [];
    assert FeedBytes(c, es[0], s, a) == s.(rest := a);
    assert Concat(chunks) == a + b by {
      assert chunks[..1] == [a];
      OneFrame(a);
    }
    assert PlainRule(a + b) == 260;
  }

  // ---------------------------------------------------------------------
  // Encrypted sessions
  // ---------------------------------------------------------------------

  lemma SecureRuleStable()
    ensures Stable(SecureRule)
  {
  }

  /** Unwrapping gives back what was wrapped, and the receiver finds the frame's end where it is. */
  lemma UnwrapUndoesWrap(c: Crypto, key: seq<byte>, iv: Option<Block>, anyIv: Block, seed: seq<byte>, plain: seq<byte>)
    requires Laws(c) && |seed| == 4
    requires Wrap(c, key, iv, seed, plain, RX_MAX).Some?
    ensures var w := Wrap(c, key, iv, seed, plain, RX_MAX).value;
            && 2 <= |w| <= RX_MAX && FramedLen(iv.None?, w) == |w|
            && Unwrap(c, iv.None?, key, if iv.Some? then iv.value else anyIv, w) == Some(plain)
            && !IsKex(w)
  {
    var w := Wrap(c, key, iv, seed, plain, RX_MAX).value;
    var block := plain + Zeros(Padded(|plain|) - |plain|);
    assert 256 * (w[0] as int) + w[1] == |plain|;
    assert block[..|plain|] == plain;
    if iv.Some? {
      assert w[2..] == c.encrypt(key, iv.value, block);
    } else {
      assert w[2..6] == seed;
      assert w[6..] == c.encrypt(key, c.md5(seed), block);
    }
  }

  /** A frame that decrypts, under the session key, to `plain`, which is no key-exchange message. */
  ghost predicate Carries(c: Crypto, h: Hs, f: seq<byte>, plain: seq<byte>)
    requires Laws(c)
  {
    && |f| >= 2 && SecureRule(f) == |f| && !IsKex(plain)
    && Unwrap(c, true, h.secureKey, h.unsecureIv, f) == Some(plain)
  }

  ghost predicate AllCarry(c: Crypto, h: Hs, fs: seq<seq<byte>>, ps: seq<seq<byte>>)
    requires Laws(c)
  {
    |fs| == |ps| && forall i | 0 <= i < |fs| :: Carries(c, h, fs[i], ps[i])
  }

  /** One frame off the front. */
  lemma DrainOne(c: Crypto, e: Env, s: Sess, plain: seq<byte>)
    requires Laws(c) && s.hs.haveSecure
    requires var need := SecureRule(s.rest); 0 < need <= |s.rest| && Carries(c, s.hs, s.rest[..need], plain)
    ensures var need := SecureRule(s.rest);
            Drain(c, e, s) == Drain(c, e, s.(rest := s.rest[need..], seen := s.seen + [Seen(s.pendingAddr, plain)]))
  {
  }

  lemma ParseOne(s: seq<byte>)
    requires 0 < SecureRule(s) <= |s|
    ensures var need, p := SecureRule(s), Parse(SecureRule, s);
            p.frames == [s[..need]] + Parse(SecureRule, s[need..]).frames && p.rest == Parse(SecureRule, s[need..]).rest
  {
  }

  lemma RestCarry(c: Crypto, h: Hs, f: seq<byte>, fs: seq<seq<byte>>, ps: seq<seq<byte>>)
    requires Laws(c) && AllCarry(c, h, [f] + fs, ps)
    ensures Carries(c, h, f, ps[0]) && AllCarry(c, h, fs, ps[1..])
  {
    assert Carries(c, h, ([f] + fs)[0], ps[0]);
    forall i | 0 <= i < |fs| ensures Carries(c, h, fs[i], ps[1..][i]) {
      assert Carries(c, h, ([f] + fs)[i + 1], ps[i + 1]);
    }
  }

  lemma {:induction false} DrainIsParse(c: Crypto, e: Env, s: Sess, ps: seq<seq<byte>>)
    requires Laws(c) && s.hs.haveSecure
    requires AllCarry(c, s.hs, Parse(SecureRule, s.rest).frames, ps)
    ensures Drain(c, e, s) == s.(rest := Parse(SecureRule, s.rest).rest, seen := s.seen + Tagged(s.pendingAddr, ps))
    decreases |s.rest|
  {
    var need := SecureRule(s.rest);
    if need == 0 || |s.rest| < need {
      NoneSeen(s);
    } else {
      var f, t := s.rest[..need], s.rest[need..];
      ParseOne(s.rest);
      RestCarry(c, s.hs, f, Parse(SecureRule, t).frames, ps);
      DrainOne(c, e, s, ps[0]);
      DrainIsParse(c, e, s.(rest := t, seen := s.seen + [Seen(s.pendingAddr, ps[0])]), ps[1..]);
      OneTagged(s.pendingAddr, ps[0]);
      SeenAppend(s.seen, s.pendingAddr, [ps[0]], ps[1..]);
      assert [ps[0]] + ps[1..] == ps;
    }
  }

  lemma OneTagged(addr: nat, f: seq<byte>)
    ensures Tagged(addr, [f]) == [Seen(addr, f)]
  {
  }

  /** A session that has its key, sitting between frames. */
  predicate SecuredIdle(s: Sess)
  {
    !s.hs.plain && s.hs.haveSecure && s.hs.haveUnsecure && s.rest == []
  }

  /** The plaintexts of a first part of the stream are the first plaintexts. */
  lemma FirstCarry(c: Crypto, h: Hs, whole: seq<byte>, last: seq<byte>, ps: seq<seq<byte>>) returns (j: nat)
    requires Laws(c) && AllCarry(c, h, Parse(SecureRule, whole + last).frames, ps)
    ensures j <= |ps| && AllCarry(c, h, Parse(SecureRule, whole).frames, ps[..j])
    ensures AllCarry(c, h, Parse(SecureRule, Parse(SecureRule, whole).rest + last).frames, ps[j..])
    ensures Parse(SecureRule, whole + last).rest == Parse(SecureRule, Parse(SecureRule, whole).rest + last).rest
  {
    SecureRuleStable();
    ParseResumes(SecureRule, whole, last);
    var a, b := Parse(SecureRule, whole).frames, Parse(SecureRule, Parse(SecureRule, whole).rest + last).frames;
    j := |a|;
    CarrySplit(c, h, a, b, ps);
  }

  lemma CarrySplit(c: Crypto, h: Hs, a: seq<seq<byte>>, b: seq<seq<byte>>, ps: seq<seq<byte>>)
    requires Laws(c) && AllCarry(c, h, a + b, ps)
    ensures AllCarry(c, h, a, ps[..|a|]) && AllCarry(c, h, b, ps[|a|..])
  {
    forall i | 0 <= i < |a| ensures Carries(c, h, a[i], ps[..|a|][i]) {
      assert Carries(c, h, (a + b)[i], ps[i]);
    }
    forall i | 0 <= i < |b| ensures Carries(c, h, b[i], ps[|a|..][i]) {
      assert Carries(c, h, (a + b)[|a| + i], ps[|a| + i]);
    }
  }

  /**
   Whatever frames arrive, cut up however the link likes, exactly their plaintexts come out, in order,
   as long as no notification meets a tail it does not fit behind.
   */
  lemma {:induction false} SecureFragmentation(c: Crypto, es: seq<Env>, s: Sess, ps: seq<seq<byte>>, chunks: seq<seq<byte>>)
    requires Laws(c) && |es| == |chunks| && SecuredIdle(s)
    requires AllCarry(c, s.hs, Parse(SecureRule, Concat(chunks)).frames, ps)
    requires NeverOverflows(SecureRule, RX_MAX, chunks)
    ensures FeedMany(c, es, s, chunks) ==
            s.(rest := Parse(SecureRule, Concat(chunks)).rest, seen := s.seen + Tagged(s.pendingAddr, ps))
  {
    if chunks == [] {
      NoneSeen(s);
    } else {
      var n := |chunks| - 1;
      var whole, last := Concat(chunks[..n]), chunks[n];
      OverflowsFirst(SecureRule, RX_MAX, chunks);
      var j := FirstCarry(c, s.hs, whole, last, ps);
      SecureFragmentation(c, es[..n], s, ps[..j], chunks[..n]);
      FeedLast(c, es, s, chunks);
      SecureStep(c, es[n], s, Parse(SecureRule, whole).rest, last, ps, j);
    }
  }

  lemma SecureStep(c: Crypto, e: Env, s: Sess, rest: seq<byte>, last: seq<byte>, ps: seq<seq<byte>>, j: nat)
    requires Laws(c) && SecuredIdle(s) && j <= |ps| && |rest| + |last| <= RX_MAX
    requires AllCarry(c, s.hs, Parse(SecureRule, rest + last).frames, ps[j..])
    ensures FeedBytes(c, e, s.(rest := rest, seen := s.seen + Tagged(s.pendingAddr, ps[..j])), last) ==
            s.(rest := Parse(SecureRule, rest + last).rest, seen := s.seen + Tagged(s.pendingAddr, ps))
  {
    var s1 := s.(rest := rest + last, seen := s.seen + Tagged(s.pendingAddr, ps[..j]));
    DrainIsParse(c, e, s1, ps[j..]);
    SeenAppend(s.seen, s.pendingAddr, ps[..j], ps[j..]);
    assert ps[..j] + ps[j..] == ps;
  }

  // ---------------------------------------------------------------------
  // ... and only then
  // ---------------------------------------------------------------------

  /** Bytes on the wire for the frames handled so far, had all come over the encrypted link. */
  function Wire(seen: seq<Seen>): (n: nat)
  {
    if seen == [] then 0 else Wire(seen[..|seen| - 1]) + 6 + Padded(|seen[|seen| - 1].frame|)
  }

  lemma WireSnoc(seen: seq<Seen>, x: Seen)
    ensures Wire(seen + [x]) == Wire(seen) + 6 + Padded(|x.frame|)
  {
    assert (seen + [x])[..|seen|] == seen;
  }

  lemma KexKeepsKey(c: Crypto, e: Env, h: Hs, f: seq<byte>)
    ensures h.haveSecure ==> HandleKex(c, e, h, f).haveSecure
    ensures HandleKex(c, e, h, f).plain == h.plain && (h.haveUnsecure ==> HandleKex(c, e, h, f).haveUnsecure)
  {
  }

  lemma UnwrapLength(c: Crypto, secure: bool, key: seq<byte>, iv: Block, f: seq<byte>)
    requires Laws(c) && |f| >= 2 && Unwrap(c, secure, key, iv, f).Some?
    ensures |Unwrap(c, secure, key, iv, f).value| == 256 * (f[0] as int) + f[1]
  {
  }

  /** Draining makes no frame out of fewer bytes than it takes on the wire. */
  lemma {:induction false} DrainSize(c: Crypto, e: Env, s: Sess)
    requires Laws(c) && s.hs.haveSecure && !s.hs.plain
    ensures var t := Drain(c, e, s);
            && Wire(t.seen) + |t.rest| <= Wire(s.seen) + |s.rest|
            && t.hs.haveSecure && !t.hs.plain && (s.hs.haveUnsecure ==> t.hs.haveUnsecure)
    decreases |s.rest|
  {
    var need := SecureRule(s.rest);
    if need != 0 && need <= |s.rest| {
      var inner := Unwrap(c, true, Key(s.hs), s.hs.unsecureIv, s.rest[..need]);
      if inner.Some? {
        InnerSize(c, e, s, need, inner.value);
        DrainSize(c, e, Inner(c, e, s.(rest := s.rest[need..]), inner.value));
      }
    }
  }

  lemma InnerSize(c: Crypto, e: Env, s: Sess, need: nat, plain: seq<byte>)
    requires Laws(c) && s.hs.haveSecure && !s.hs.plain && 0 < need == SecureRule(s.rest) <= |s.rest|
    requires Unwrap(c, true, Key(s.hs), s.hs.unsecureIv, s.rest[..need]) == Some(plain)
    ensures var t := Inner(c, e, s.(rest := s.rest[need..]), plain);
            && Wire(t.seen) + |t.rest| <= Wire(s.seen) + |s.rest| && |t.rest| < |s.rest|
            && t.hs.haveSecure && !t.hs.plain && (s.hs.haveUnsecure ==> t.hs.haveUnsecure)
  {
    UnwrapLength(c, true, Key(s.hs), s.hs.unsecureIv, s.rest[..need]);
    KexKeepsKey(c, e, s.hs, plain);
    WireSnoc(s.seen, Seen(s.pendingAddr, plain));
  }

  lemma FeedSizeSecure(c: Crypto, e: Env, s: Sess, data: seq<byte>)
    requires Laws(c) && s.hs.haveSecure && !s.hs.plain && s.hs.haveUnsecure
    ensures var t := FeedBytes(c, e, s, data);
            && Wire(t.seen) + |t.rest| <= Wire(s.seen) + |s.rest| + |data|
            && (|s.rest| + |data| > RX_MAX ==> Wire(t.seen) + |t.rest| < Wire(s.seen) + |s.rest| + |data|)
            && t.hs.haveSecure && !t.hs.plain && t.hs.haveUnsecure
  {
    if |s.rest| + |data| <= RX_MAX {
      DrainSize(c, e, s.(rest := s.rest + data));
    }
  }

  /** Over any notifications, the bytes accounted for never exceed those received, and fall short once one overflows. */
  lemma {:induction false} SecureAccounts(c: Crypto, es: seq<Env>, s: Sess, ps: seq<seq<byte>>, chunks: seq<seq<byte>>)
    requires Laws(c) && |es| == |chunks| && SecuredIdle(s)
    requires AllCarry(c, s.hs, Parse(SecureRule, Concat(chunks)).frames, ps)
    ensures var t := FeedMany(c, es, s, chunks);
            && Wire(t.seen) + |t.rest| <= Wire(s.seen) + |Concat(chunks)|
            && (!NeverOverflows(SecureRule, RX_MAX, chunks) ==> Wire(t.seen) + |t.rest| < Wire(s.seen) + |Concat(chunks)|)
            && t.hs.haveSecure && !t.hs.plain && t.hs.haveUnsecure
  {
    if chunks != [] {
      var n := |chunks| - 1;
      OverflowsFirst(SecureRule, RX_MAX, chunks);
      var j := FirstCarry(c, s.hs, Concat(chunks[..n]), chunks[n], ps);
      SecureAccounts(c, es[..n], s, ps[..j], chunks[..n]);
      FeedLast(c, es, s, chunks);
      FeedSizeSecure(c, es[n], FeedMany(c, es[..n], s, chunks[..n]), chunks[n]);
      if NeverOverflows(SecureRule, RX_MAX, chunks[..n]) {
        SecureFragmentation(c, es[..n], s, ps[..j], chunks[..n]);
      }
    }
  }

  /** Bytes on the wire of frames with these plaintexts. */
  function Total(ps: seq<seq<byte>>): (n: nat)
  {
    if ps == [] then 0 else Total(ps[..|ps| - 1]) + 6 + Padded(|ps[|ps| - 1]|)
  }

  lemma TaggedSnoc(base: seq<Seen>, addr: nat, ps: seq<seq<byte>>, p: seq<byte>)
    ensures base + Tagged(addr, ps + [p]) == (base + Tagged(addr, ps)) + [Seen(addr, p)]
  {
    TaggedAppend(addr, ps, [p]);
    OneTagged(addr, p);
  }

  lemma {:induction false} WireAdds(base: seq<Seen>, addr: nat, ps: seq<seq<byte>>)
    ensures Wire(base + Tagged(addr, ps)) == Wire(base) + Total(ps)
  {
    if ps == [] {
      assert base + Tagged(addr, ps) == base;
    } else {
      var n := |ps| - 1;
      WireAdds(base, addr, ps[..n]);
      TaggedSnoc(base, addr, ps[..n], ps[n]);
      assert ps == ps[..n] + [ps[n]];
      WireSnoc(base + Tagged(addr, ps[..n]), Seen(addr, ps[n]));
    }
  }

  lemma CarriedLength(c: Crypto, h: Hs, f: seq<byte>, plain: seq<byte>)
    requires Laws(c) && Carries(c, h, f, plain)
    ensures |f| == 6 + Padded(|plain|)
  {
    UnwrapLength(c, true, h.secureKey, h.unsecureIv, f);
  }

  lemma {:induction false} TotalIsLength(c: Crypto, h: Hs, fs: seq<seq<byte>>, ps: seq<seq<byte>>)
    requires Laws(c) && AllCarry(c, h, fs, ps)
    ensures Total(ps) == |Concat(fs)|
  {
    if fs != [] {
      var n := |fs| - 1;
      assert AllCarry(c, h, fs[..n], ps[..n]) by {
        forall i | 0 <= i < n ensures Carries(c, h, fs[..n][i], ps[..n][i]) {
          assert Carries(c, h, fs[i], ps[i]);
        }
      }
      TotalIsLength(c, h, fs[..n], ps[..n]);
      CarriedLength(c, h, fs[n], ps[n]);
    }
  }

  /** Over the encrypted link too, everything comes out as sent exactly when the buffer never overflows. */
  lemma SecureFragmentationIff(c: Crypto, es: seq<Env>, s: Sess, ps: seq<seq<byte>>, chunks: seq<seq<byte>>)
    requires Laws(c) && |es| == |chunks| && SecuredIdle(s)
    requires AllCarry(c, s.hs, Parse(SecureRule, Concat(chunks)).frames, ps)
    ensures FeedMany(c, es, s, chunks) ==
            s.(rest := Parse(SecureRule, Concat(chunks)).rest, seen := s.seen + Tagged(s.pendingAddr, ps))
            <==> NeverOverflows(SecureRule, RX_MAX, chunks)
  {
    if NeverOverflows(SecureRule, RX_MAX, chunks) {
      SecureFragmentation(c, es, s, ps, chunks);
    } else {
      var p := Parse(SecureRule, Concat(chunks));
      SecureAccounts(c, es, s, ps, chunks);
      TotalIsLength(c, s.hs, p.frames, ps);
      WireAdds(s.seen, s.pendingAddr, ps);
      ParseSize(SecureRule, Concat(chunks));
    }
  }

  /** The round trip: frames wrapped under the session key arrive as they were sent, if the buffer holds throughout. */
  lemma SecureRoundTrip(c: Crypto, es: seq<Env>, s: Sess, seeds: seq<seq<byte>>, ps: seq<seq<byte>>,
                        ws: seq<seq<byte>>, chunks: seq<seq<byte>>)
    requires Laws(c) && SecuredIdle(s) && |es| == |chunks| && |seeds| == |ps| == |ws|
    requires forall i | 0 <= i < |ps| ::
               |seeds[i]| == 4 && !IsKex(ps[i]) && Wrap(c, s.hs.secureKey, None, seeds[i], ps[i], RX_MAX) == Some(ws[i])
    requires Concat(chunks) == Concat(ws)
    ensures FeedMany(c, es, s, chunks) == s.(seen := s.seen + Tagged(s.pendingAddr, ps))
            <==> NeverOverflows(SecureRule, RX_MAX, chunks)
  {
    SecureRuleStable();
    forall i | 0 <= i < |ws| ensures Carries(c, s.hs, ws[i], ps[i]) {
      UnwrapUndoesWrap(c, s.hs.secureKey, None, s.hs.unsecureIv, seeds[i], ps[i]);
    }
    WholeFrames(SecureRule, ws);
    SecureFragmentationIff(c, es, s, ps, chunks);
  }

  lemma OneFrameArrives(c: Crypto, es: seq<Env>, s: Sess, plain: seq<byte>, chunks: seq<seq<byte>>)
    requires Laws(c) && SecuredIdle(s) && |es| == |chunks|
    requires Carries(c, s.hs, Concat(chunks), plain) && |Concat(chunks)| <= RX_MAX
    ensures FeedMany(c, es, s, chunks) == s.(seen := s.seen + Tagged(s.pendingAddr, [plain]))
  {
    var w := Concat(chunks);
    SecureRuleStable();
    OneFrame(w);
    WholeFrames(SecureRule, [w]);
    TotalFits(SecureRule, RX_MAX, chunks);
    SecureFragmentation(c, es, s, [plain], chunks);
  }

  /** One frame, cut up anyhow, always arrives. */
  lemma OneRoundTrip(c: Crypto, es: seq<Env>, s: Sess, seed: seq<byte>, plain: seq<byte>, chunks: seq<seq<byte>>)
    requires Laws(c) && SecuredIdle(s) && |es| == |chunks| && |seed| == 4 && !IsKex(plain)
    requires Wrap(c, s.hs.secureKey, None, seed, plain, RX_MAX) == Some(Concat(chunks))
    ensures FeedMany(c, es, s, chunks) == s.(seen := s.seen + Tagged(s.pendingAddr, [plain]))
  {
    UnwrapUndoesWrap(c, s.hs.secureKey, None, s.hs.unsecureIv, seed, plain);
    OneFrameArrives(c, es, s, plain, chunks);
  }

  /** Frames and notifications of up to 256 bytes always fit. */
  lemma ShortFramesFit(ws: seq<seq<byte>>, chunks: seq<seq<byte>>)
    requires Concat(chunks) == Concat(ws)
    requires forall i | 0 <= i < |ws| :: SecureRule(ws[i]) == |ws[i]| && 0 < |ws[i]| <= 256
    requires forall i | 0 <= i < |chunks| :: |chunks[i]| <= 256
    ensures NeverOverflows(SecureRule, RX_MAX, chunks)
  {
    SecureRuleStable();
    FramesFit(SecureRule, RX_MAX, ws, 256, chunks);
  }

  // ---------------------------------------------------------------------
  // Requests and responses
  // ---------------------------------------------------------------------

  /** A read response from unit `id`: byte count, data, CRC. */
  function ReadResponse(id: byte, data: seq<byte>): (f: seq<byte>)
    requires |data| <= 255
  {
    WithCrc([id, 0x03, |data|] + data)
  }

  lemma ResponseIsHeard(id: byte, addr: nat, data: seq<byte>)
    requires |data| <= 255
    ensures var f := ReadResponse(id, data);
            PlainRule(f) == |f| > 0 && !IsKex(f) && Dispatch(addr, f) == [Values(addr, data)]
  {
    var body := [id, 0x03, |data|] + data;
    BuiltIsAccepted(body);
    assert WithCrc(body)[3..3 + |data|] == data;
  }

  lemma EchoIsHeard(addr: nat, reg: word, value: word)
    ensures var f := Command(6, reg, value);
            PlainRule(f) == |f| == 8 && Dispatch(addr, f) == [Ack(reg, value, true)]
  {
    var body: seq<byte> := [0x01, 0x06, reg / 256, reg % 256, value / 256, value % 256];
    var f := WithCrc(body);
    BuiltIsAccepted(body);
    assert f[..6] == body;
    assert f[1] == 6 && Word(f[2], f[3]) == reg && Word(f[4], f[5]) == value;
  }

  lemma OneSeen(seen: seq<Seen>, addr: nat, f: seq<byte>)
    ensures Callbacks(seen + Tagged(addr, [f])) == Callbacks(seen) + Dispatch(addr, f)
  {
    OneTagged(addr, f);
    assert (seen + [Seen(addr, f)])[..|seen|] == seen;
  }

  /** The session is ready, between frames, in either mode. */
  predicate Up(s: Sess)
  {
    s.rest == [] && s.hs.state == Ready && (s.hs.plain || (s.hs.haveSecure && s.hs.haveUnsecure))
  }

  /** The unit has sent `f`, wrapped with some seed unless the link is plain, and these are its pieces. */
  ghost predicate Arrives(c: Crypto, h: Hs, f: seq<byte>, chunks: seq<seq<byte>>)
  {
    if h.plain then Concat(chunks) == f
    else exists seed: seq<byte> | |seed| == 4 :: Wrap(c, h.secureKey, None, seed, f, RX_MAX) == Some(Concat(chunks))
  }

  /** A frame, cut up anyhow, is handled once, under the address of the request last sent. */
  lemma FrameComesWhole(c: Crypto, es: seq<Env>, s: Sess, f: seq<byte>, chunks: seq<seq<byte>>)
    requires Laws(c) && |es| == |chunks| && Up(s) && Arrives(c, s.hs, f, chunks)
    requires PlainRule(f) == |f| > 0 && !IsKex(f)
    ensures var t := FeedMany(c, es, s, chunks);
            && t == s.(seen := s.seen + Tagged(s.pendingAddr, [f]))
            && Callbacks(t.seen) == Callbacks(s.seen) + Dispatch(s.pendingAddr, f)
  {
    if s.hs.plain {
      PlainRuleFits();
      TotalFits(PlainRule, RX_MAX, chunks);
      PlainFragmentationIff(c, es, s, chunks);
      OneFrame(f);
      WholeFrames(PlainRule, [f]);
    } else {
      var seed: seq<byte> :| |seed| == 4 && Wrap(c, s.hs.secureKey, None, seed, f, RX_MAX) == Some(Concat(chunks));
      OneRoundTrip(c, es, s, seed, f, chunks);
    }
    OneSeen(s.seen, s.pendingAddr, f);
  }

  /** Whatever way a response is cut up, its data are called back, under the address of the request last sent. */
  lemma AnswerIsHeard(c: Crypto, es: seq<Env>, s: Sess, id: byte, data: seq<byte>, chunks: seq<seq<byte>>)
    requires Laws(c) && |es| == |chunks| && Up(s) && |data| <= 255 && Arrives(c, s.hs, ReadResponse(id, data), chunks)
    ensures var t := FeedMany(c, es, s, chunks);
            && t.hs == s.hs && t.rest == [] && t.pendingAddr == s.pendingAddr
            && Callbacks(t.seen) == Callbacks(s.seen) + [Values(s.pendingAddr, data)]
  {
    ResponseIsHeard(id, s.pendingAddr, data);
    FrameComesWhole(c, es, s, ReadResponse(id, data), chunks);
  }

  lemma AskedState(c: Crypto, e: Env, s: Sess, fn: byte, addr: word, value: word)
    requires EnvOk(e) && IsReady(s.hs)
    ensures var t := SendRequest(c, e, s, fn, addr, value);
            && t.rest == [] && t.pendingAddr == addr && t.seen == s.seen && t.hs.state == s.hs.state
            && t.hs.plain == s.hs.plain && t.hs.haveSecure == s.hs.haveSecure && t.hs.haveUnsecure == s.hs.haveUnsecure
            && t.hs.secureKey == s.hs.secureKey
  {
  }

  /** Ask for registers; whatever way the unit's answer is cut up, its data come back under the address asked for. */
  lemma ReadAnswered(c: Crypto, e: Env, es: seq<Env>, s: Sess, addr: word, count: word, id: byte, data: seq<byte>,
                     chunks: seq<seq<byte>>)
    requires Laws(c) && EnvOk(e) && |es| == |chunks| && s.hs.plain && s.hs.state == Ready && |data| <= 255
    requires Concat(chunks) == ReadResponse(id, data)
    ensures var asked := SendRequest(c, e, s, 3, addr, count);
            var t := FeedMany(c, es, asked, chunks);
            t.rest == [] && Callbacks(t.seen) == Callbacks(s.seen) + [Values(addr, data)]
  {
    AskedState(c, e, s, 3, addr, count);
    AnswerIsHeard(c, es, SendRequest(c, e, s, 3, addr, count), id, data, chunks);
  }

  /** The same over the encrypted link, the unit wrapping its answer with any seed. */
  lemma SecureReadAnswered(c: Crypto, e: Env, es: seq<Env>, s: Sess, addr: word, count: word, id: byte, data: seq<byte>,
                           seed: seq<byte>, chunks: seq<seq<byte>>)
    requires Laws(c) && EnvOk(e) && |es| == |chunks| && |seed| == 4 && |data| <= 255
    requires !s.hs.plain && s.hs.haveSecure && s.hs.haveUnsecure && s.hs.state == Ready
    requires Wrap(c, s.hs.secureKey, None, seed, ReadResponse(id, data), RX_MAX) == Some(Concat(chunks))
    ensures var asked := SendRequest(c, e, s, 3, addr, count);
            var t := FeedMany(c, es, asked, chunks);
            t.rest == [] && Callbacks(t.seen) == Callbacks(s.seen) + [Values(addr, data)]
  {
    AskedState(c, e, s, 3, addr, count);
    AnswerIsHeard(c, es, SendRequest(c, e, s, 3, addr, count), id, data, chunks);
  }

  // ---------------------------------------------------------------------
  // Requests and answers over a whole conversation
  // ---------------------------------------------------------------------

  /** A read or a write is asked for, or the answer to the read of turn `of` comes in whole. */
  datatype Turn = Ask(e: Env, fn: byte, addr: word, value: word)
                | Answer(of: nat, id: byte, data: seq<byte>, es: seq<Env>, chunks: seq<seq<byte>>)

  ghost predicate Turns(c: Crypto, ss: seq<Sess>, xs: seq<Turn>, i: nat)
    requires Laws(c) && i < |xs| < |ss|
  {
    match xs[i]
    case Ask(e, fn, addr, value) => EnvOk(e) && ss[i + 1] == SendRequest(c, e, ss[i], fn, addr, value)
    case Answer(of, id, data, es, chunks) =>
      && of < i && xs[of].Ask? && xs[of].fn == 3 && |data| <= 255 && |es| == |chunks|
      && Arrives(c, ss[i].hs, ReadResponse(id, data), chunks) && ss[i + 1] == FeedMany(c, es, ss[i], chunks)
  }

  /** Requests and answers in any order and number, late, repeated or never, on a link that is up. */
  ghost predicate IsTalk(c: Crypto, ss: seq<Sess>, xs: seq<Turn>)
    requires Laws(c)
  {
    |ss| == |xs| + 1 && Up(ss[0]) && forall i: nat | i < |xs| :: Turns(c, ss, xs, i)
  }

  /** The request of turn `k` is the last one sent before turn `n`. */
  predicate LastAsk(xs: seq<Turn>, n: nat, k: nat)
    requires n <= |xs|
  {
    k < n && xs[k].Ask? && forall m | k < m < n :: !xs[m].Ask?
  }

  lemma TurnKeepsUp(c: Crypto, ss: seq<Sess>, xs: seq<Turn>, i: nat)
    requires Laws(c) && IsTalk(c, ss, xs) && i < |xs| && Up(ss[i])
    ensures Up(ss[i + 1]) && ss[i + 1].pendingAddr == if xs[i].Ask? then xs[i].addr else ss[i].pendingAddr
    ensures Callbacks(ss[i + 1].seen) ==
            Callbacks(ss[i].seen) + if xs[i].Ask? then [] else [Values(ss[i].pendingAddr, xs[i].data)]
  {
    assert Turns(c, ss, xs, i);
    match xs[i] {
      case Ask(e, fn, addr, value) => AskedState(c, e, ss[i], fn, addr, value);
      case Answer(_, id, data, es, chunks) => AnswerIsHeard(c, es, ss[i], id, data, chunks);
    }
  }

  lemma {:induction false} LastAskIsPending(c: Crypto, ss: seq<Sess>, xs: seq<Turn>, n: nat)
    requires Laws(c) && IsTalk(c, ss, xs) && n <= |xs|
    ensures Up(ss[n]) && forall k: nat | LastAsk(xs, n, k) :: ss[n].pendingAddr == xs[k].addr
  {
    if n > 0 {
      LastAskIsPending(c, ss, xs, n - 1);
      TurnKeepsUp(c, ss, xs, n - 1);
      forall k: nat | LastAsk(xs, n, k)
        ensures ss[n].pendingAddr == xs[k].addr
      {
        assert k < n - 1 ==> LastAsk(xs, n - 1, k);
      }
    }
  }

  /** The answer of turn `i` is called back as the answer to its own request, and nothing else is. */
  predicate Labelled(ss: seq<Sess>, xs: seq<Turn>, i: nat)
    requires i < |xs| < |ss| && xs[i].Answer? && xs[i].of < i && xs[xs[i].of].Ask?
  {
    Callbacks(ss[i + 1].seen) == Callbacks(ss[i].seen) + [Values(xs[xs[i].of].addr, xs[i].data)]
  }

  lemma AnswersAnAsk(c: Crypto, ss: seq<Sess>, xs: seq<Turn>, i: nat)
    requires Laws(c) && IsTalk(c, ss, xs) && i < |xs| && xs[i].Answer?
    ensures xs[i].of < i && xs[xs[i].of].Ask?
  {
    assert Turns(c, ss, xs, i);
  }

  lemma SomeLastAsk(xs: seq<Turn>, n: nat, a: nat) returns (k: nat)
    requires a < n <= |xs| && xs[a].Ask?
    ensures a <= k && LastAsk(xs, n, k)
  {
    k := n - 1;
    while !xs[k].Ask?
      invariant a <= k < n && forall m | k < m < n :: !xs[m].Ask?
      decreases k
    {
      k := k - 1;
    }
  }

  /**
   An answer is reported under the address it was asked for exactly when the request last sent asked for the same
   address; so with different addresses in between, exactly when no request has been sent since its own.
   */
  lemma LabelledIff(c: Crypto, ss: seq<Sess>, xs: seq<Turn>, i: nat)
    requires Laws(c) && IsTalk(c, ss, xs) && i < |xs| && xs[i].Answer?
    ensures xs[i].of < i && xs[xs[i].of].Ask?
    ensures Labelled(ss, xs, i) <==> forall k: nat | LastAsk(xs, i, k) :: xs[k].addr == xs[xs[i].of].addr
    ensures (forall k | xs[i].of < k < i && xs[k].Ask? :: xs[k].addr != xs[xs[i].of].addr) ==>
              (Labelled(ss, xs, i) <==> forall k | xs[i].of < k < i :: !xs[k].Ask?)
  {
    AnswersAnAsk(c, ss, xs, i);
    var a := xs[i].of;
    var k := SomeLastAsk(xs, i, a);
    LastAskIsPending(c, ss, xs, i);
    TurnKeepsUp(c, ss, xs, i);
    SameLabel(Callbacks(ss[i].seen), xs[k].addr, xs[a].addr, xs[i].data);
    forall m: nat | LastAsk(xs, i, m) ensures m == k {
    }
  }

  lemma SameLabel(before: seq<Callback>, a: nat, b: nat, data: seq<byte>)
    ensures before + [Values(a, data)] == before + [Values(b, data)] <==> a == b
  {
    assert (before + [Values(a, data)])[|before|] == Values(a, data);
    assert (before + [Values(b, data)])[|before|] == Values(b, data);
  }

  /** Two requests in a row, then the answer to the first: its data are reported under the second address. */
  lemma LateAnswerIsMislabelled(c: Crypto, e: Env, es: seq<Env>, s: Sess, first: word, second: word, count: word,
                                id: byte, data: seq<byte>, chunks: seq<seq<byte>>)
    requires Laws(c) && EnvOk(e) && Up(s) && s.hs.plain && |es| == |chunks| && |data| <= 255
    requires Concat(chunks) == ReadResponse(id, data)
    ensures var asked := SendRequest(c, e, SendRequest(c, e, s, 3, first, count), 3, second, count);
            Callbacks(FeedMany(c, es, asked, chunks).seen) == Callbacks(s.seen) + [Values(second, data)]
  {
    AskedState(c, e, s, 3, first, count);
    var one := SendRequest(c, e, s, 3, first, count);
    AskedState(c, e, one, 3, second, count);
    AnswerIsHeard(c, es, SendRequest(c, e, one, 3, second, count), id, data, chunks);
  }
}
