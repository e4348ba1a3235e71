/**
 Reassembling frames from a byte stream, as both receive paths of
 `components/bluetti_ble/bt_session.c` do it: append each notification to what is
 left over, cut off every complete frame, keep the tail.

 A framing rule tells the wire length of the frame a buffer starts with, or 0
 while too little has arrived to tell.  The theorems hold for any rule that does
 not change its mind as more bytes arrive.
 */
module Framing {
  import opened Bits

  type Rule = seq<byte> -> nat

  datatype Parsed = Parsed(frames: seq<seq<byte>>, rest: seq<byte>)

  ghost predicate Stable(rule: Rule)
  {
    forall p, q :: rule(p) > 0 ==> rule(p + q) == rule(p)
  }

  /** A buffer without a complete frame is shorter than `max`. */
  ghost predicate Bounded(rule: Rule, max: nat)
  {
    forall s :: rule(s) == 0 || |s| < rule(s) ==> |s| < max
  }

  /** The frames a whole stream holds, and its unfinished tail. */
  function Parse(rule: Rule, s: seq<byte>): (r: Parsed)
    decreases |s|
  {
    var need := rule(s);
    if need == 0 || |s| < need then Parsed([], s)
    else
      var more := Parse(rule, s[need..]);
      Parsed([s[..need]] + more.frames, more.rest)
  }

  function Concat(parts: seq<seq<byte>>): (s: seq<byte>)
  {
    if parts == [] then [] else Concat(parts[..|parts| - 1]) + parts[|parts| - 1]
  }

  lemma ConcatSnoc(parts: seq<seq<byte>>, f: seq<byte>)
    ensures Concat(parts + [f]) == Concat(parts) + f
  {
    assert (parts + [f])[..|parts|] == parts;
  }

  lemma Join(a: seq<byte>, b: seq<byte>, c: seq<byte>)
    ensures (a + b) + c == a + (b + c)
  {
  }

  lemma {:induction false} ConcatAppend(a: seq<seq<byte>>, b: seq<seq<byte>>)
    ensures Concat(a + b) == Concat(a) + Concat(b)
  {
    if b == [] {
      assert a + b == a;
    } else {
      var less, f := b[..|b| - 1], b[|b| - 1];
      ConcatAppend(a, less);
      assert a + b == (a + less) + [f];
      ConcatSnoc(a + less, f);
      Join(Concat(a), Concat(less), f);
    }
  }

  lemma OneFrame(f: seq<byte>)
    ensures Concat([f]) == f
  {
    ConcatSnoc([], f);
    assert [] + [f] == [f];
  }

  lemma ConcatCons(f: seq<byte>, fs: seq<seq<byte>>)
    ensures Concat([f] + fs) == f + Concat(fs)
  {
    ConcatAppend([f], fs);
    OneFrame(f);
  }

  /** One notification against what was left over; a buffer of `cap` bytes that would overflow is emptied. */
  function Feed(rule: Rule, cap: nat, rest: seq<byte>, chunk: seq<byte>): (r: Parsed)
  {
    if |rest| + |chunk| > cap then Parsed([], []) else Parse(rule, rest + chunk)
  }

  /** All notifications in turn, from an empty buffer. */
  function FeedAll(rule: Rule, cap: nat, chunks: seq<seq<byte>>): (r: Parsed)
  {
    if chunks == [] then Parsed([], [])
    else
      var n := |chunks| - 1;
      var sofar := FeedAll(rule, cap, chunks[..n]);
      var step := Feed(rule, cap, sofar.rest, chunks[n]);
      Parsed(sofar.frames + step.frames, step.rest)
  }

  /** Parsing can stop anywhere and go on with the tail. */
  lemma {:induction false} ParseResumes(rule: Rule, s: seq<byte>, t: seq<byte>)
    requires Stable(rule)
    ensures var a := Parse(rule, s);
            var b := Parse(rule, a.rest + t);
            Parse(rule, s + t) == Parsed(a.frames + b.frames, b.rest)
    decreases |s|
  {
    var need := rule(s);
    if need != 0 && need <= |s| {
      var a := Parse(rule, s[need..]);
      ParseResumes(rule, s[need..], t);
      ParseCons(rule, s, t, need);
      Regroup(s[..need], a.frames, Parse(rule, a.rest + t).frames);
    } else {
      var b := Parse(rule, s + t);
      assert [] + b.frames == b.frames;
    }
  }

  /** The first frame of a stream stays the first when the stream goes on. */
  lemma ParseCons(rule: Rule, s: seq<byte>, t: seq<byte>, need: nat)
    requires Stable(rule) && 0 < need == rule(s) <= |s|
    ensures var more := Parse(rule, s[need..] + t); Parse(rule, s + t) == Parsed([s[..need]] + more.frames, more.rest)
  {
    assert rule(s + t) == need;
    assert (s + t)[..need] == s[..need];
    assert (s + t)[need..] == s[need..] + t;
  }

  lemma Regroup(f: seq<byte>, a: seq<seq<byte>>, b: seq<seq<byte>>)
    ensures ([f] + a) + b == [f] + (a + b)
  {
  }

  /** No byte is lost, duplicated or reordered: frames and tail are the stream. */
  lemma {:induction false} ParseConserves(rule: Rule, s: seq<byte>)
    ensures var p := Parse(rule, s); Concat(p.frames) + p.rest == s
    decreases |s|
  {
    var need := rule(s);
    if need != 0 && need <= |s| {
      ParseConserves(rule, s[need..]);
      var more := Parse(rule, s[need..]);
      ConcatCons(s[..need], more.frames);
      Join(s[..need], Concat(more.frames), more.rest);
      assert s == s[..need] + s[need..];
    } else {
      assert Concat([]) + s == s;
    }
  }

  lemma {:induction false} RestIsShort(rule: Rule, max: nat, s: seq<byte>)
    requires Bounded(rule, max)
    ensures |Parse(rule, s).rest| < max
    decreases |s|
  {
    var need := rule(s);
    if need != 0 && need <= |s| {
      RestIsShort(rule, max, s[need..]);
    }
  }

  /** No notification meets a tail it does not fit behind. */
  ghost predicate NeverOverflows(rule: Rule, cap: nat, chunks: seq<seq<byte>>)
  {
    forall i | 0 <= i < |chunks| :: |Parse(rule, Concat(chunks[..i])).rest| + |chunks[i]| <= cap
  }

  lemma OverflowsFirst(rule: Rule, cap: nat, chunks: seq<seq<byte>>)
    requires chunks != []
    ensures var n := |chunks| - 1;
            NeverOverflows(rule, cap, chunks) <==>
            NeverOverflows(rule, cap, chunks[..n]) && |Parse(rule, Concat(chunks[..n])).rest| + |chunks[n]| <= cap
  {
    var n := |chunks| - 1;
    assert forall i | 0 <= i < n :: chunks[..n][..i] == chunks[..i];
    if NeverOverflows(rule, cap, chunks[..n]) && |Parse(rule, Concat(chunks[..n])).rest| + |chunks[n]| <= cap {
      forall i | 0 <= i < |chunks| ensures |Parse(rule, Concat(chunks[..i])).rest| + |chunks[i]| <= cap {
        if i < n {
          assert chunks[..n][i] == chunks[i] && chunks[..n][..i] == chunks[..i];
        }
      }
    }
    if NeverOverflows(rule, cap, chunks) {
      forall i | 0 <= i < n ensures |Parse(rule, Concat(chunks[..n][..i])).rest| + |chunks[..n][i]| <= cap {
        assert chunks[..n][i] == chunks[i] && chunks[..n][..i] == chunks[..i];
      }
    }
  }

  lemma {:induction false} FragmentationDoesNotMatter(rule: Rule, cap: nat, chunks: seq<seq<byte>>)
    requires Stable(rule) && NeverOverflows(rule, cap, chunks)
    ensures FeedAll(rule, cap, chunks) == Parse(rule, Concat(chunks))
  {
    if chunks != [] {
      var n := |chunks| - 1;
      OverflowsFirst(rule, cap, chunks);
      FragmentationDoesNotMatter(rule, cap, chunks[..n]);
      ParseResumes(rule, Concat(chunks[..n]), chunks[n]);
    }
  }

  /** The bytes accounted for. */
  function Size(p: Parsed): (n: nat)
  {
    |Concat(p.frames)| + |p.rest|
  }

  lemma ParseSize(rule: Rule, s: seq<byte>)
    ensures Size(Parse(rule, s)) == |s|
  {
    ParseConserves(rule, s);
  }

  lemma FeedSize(rule: Rule, cap: nat, sofar: Parsed, chunk: seq<byte>)
    ensures var step := Feed(rule, cap, sofar.rest, chunk);
            Size(Parsed(sofar.frames + step.frames, step.rest)) ==
            if |sofar.rest| + |chunk| > cap then Size(sofar) - |sofar.rest| else Size(sofar) + |chunk|
  {
    var step := Feed(rule, cap, sofar.rest, chunk);
    ConcatAppend(sofar.frames, step.frames);
    if |sofar.rest| + |chunk| <= cap {
      ParseSize(rule, sofar.rest + chunk);
    }
  }

  /** Every byte is accounted for exactly when the buffer never overflows. */
  lemma {:induction false} AccountedIff(rule: Rule, cap: nat, chunks: seq<seq<byte>>)
    requires Stable(rule)
    ensures Size(FeedAll(rule, cap, chunks)) <= |Concat(chunks)|
    ensures Size(FeedAll(rule, cap, chunks)) == |Concat(chunks)| <==> NeverOverflows(rule, cap, chunks)
  {
    if chunks != [] {
      var n := |chunks| - 1;
      AccountedIff(rule, cap, chunks[..n]);
      OverflowsFirst(rule, cap, chunks);
      FeedSize(rule, cap, FeedAll(rule, cap, chunks[..n]), chunks[n]);
      if NeverOverflows(rule, cap, chunks[..n]) {
        FragmentationDoesNotMatter(rule, cap, chunks[..n]);
      }
    }
  }

  /** The frames and the tail are those of the whole stream exactly when the buffer never overflows. */
  lemma FragmentationIff(rule: Rule, cap: nat, chunks: seq<seq<byte>>)
    requires Stable(rule)
    ensures FeedAll(rule, cap, chunks) == Parse(rule, Concat(chunks)) <==> NeverOverflows(rule, cap, chunks)
  {
    AccountedIff(rule, cap, chunks);
    ParseSize(rule, Concat(chunks));
    if NeverOverflows(rule, cap, chunks) {
      FragmentationDoesNotMatter(rule, cap, chunks);
    }
  }

  /** Tails shorter than `max` leave room for any notification of up to `cap + 1 - max` bytes. */
  lemma ShortChunksFit(rule: Rule, cap: nat, max: nat, chunks: seq<seq<byte>>)
    requires Bounded(rule, max)
    requires forall i | 0 <= i < |chunks| :: max - 1 + |chunks[i]| <= cap
    ensures NeverOverflows(rule, cap, chunks)
  {
    forall i | 0 <= i < |chunks| ensures |Parse(rule, Concat(chunks[..i])).rest| + |chunks[i]| <= cap {
      RestIsShort(rule, max, Concat(chunks[..i]));
    }
  }

  /** A stream made of whole frames parses back into exactly them. */
  lemma {:induction false} WholeFrames(rule: Rule, fs: seq<seq<byte>>)
    requires Stable(rule)
    requires forall i | 0 <= i < |fs| :: rule(fs[i]) == |fs[i]| > 0
    ensures Parse(rule, Concat(fs)) == Parsed(fs, [])
  {
    if fs != [] {
      var s, n := Concat(fs), |fs[0]|;
      assert fs == [fs[0]] + fs[1..];
      ConcatCons(fs[0], fs[1..]);
      WholeFrames(rule, fs[1..]);
      assert s[..n] == fs[0] && s[n..] == Concat(fs[1..]);
      assert rule(s) == n;
    }
  }

  // ---------------------------------------------------------------------
  // What always fits
  // ---------------------------------------------------------------------

  lemma {:induction false} RestIsPart(rule: Rule, s: seq<byte>)
    ensures |Parse(rule, s).rest| <= |s|
    decreases |s|
  {
    var need := rule(s);
    if need != 0 && need <= |s| {
      RestIsPart(rule, s[need..]);
    }
  }

  lemma {:induction false} PartsAddUp(chunks: seq<seq<byte>>, i: nat)
    requires i < |chunks|
    ensures |Concat(chunks[..i])| + |chunks[i]| <= |Concat(chunks)|
  {
    var n := |chunks| - 1;
    if i < n {
      PartsAddUp(chunks[..n], i);
      assert chunks[..n][..i] == chunks[..i];
    }
  }

  /** A whole stream no longer than the buffer fits however it is cut. */
  lemma TotalFits(rule: Rule, cap: nat, chunks: seq<seq<byte>>)
    requires |Concat(chunks)| <= cap
    ensures NeverOverflows(rule, cap, chunks)
  {
    forall i | 0 <= i < |chunks| ensures |Parse(rule, Concat(chunks[..i])).rest| + |chunks[i]| <= cap {
      RestIsPart(rule, Concat(chunks[..i]));
      PartsAddUp(chunks, i);
    }
  }

  lemma CancelPrefix(a: seq<byte>, x: seq<byte>, y: seq<byte>)
    requires a + x == a + y
    ensures x == y
  {
    assert x == (a + x)[|a|..] && y == (a + y)[|a|..];
  }

  /** The frames of a first part are the first frames, and what follows them is the other frames. */
  lemma FirstFrames(rule: Rule, fs: seq<seq<byte>>, part: seq<byte>, more: seq<byte>)
    requires Stable(rule) && part + more == Concat(fs)
    requires forall i | 0 <= i < |fs| :: rule(fs[i]) == |fs[i]| > 0
    ensures var p := Parse(rule, part);
            && |p.frames| <= |fs| && p.frames == fs[..|p.frames|]
            && p.rest + more == Concat(fs[|p.frames|..])
  {
    var p := Parse(rule, part);
    ParseResumes(rule, part, more);
    WholeFrames(rule, fs);
    StartOf(p.frames, Parse(rule, p.rest + more).frames, fs);
    ParseConserves(rule, part);
    OtherFrames(fs, |p.frames|, part, p.rest, more);
  }

  lemma StartOf(a: seq<seq<byte>>, b: seq<seq<byte>>, fs: seq<seq<byte>>)
    requires a + b == fs
    ensures |a| <= |fs| && a == fs[..|a|]
  {
  }

  lemma OtherFrames(fs: seq<seq<byte>>, k: nat, part: seq<byte>, rest: seq<byte>, more: seq<byte>)
    requires k <= |fs| && part + more == Concat(fs) && part == Concat(fs[..k]) + rest
    ensures rest + more == Concat(fs[k..])
  {
    SplitAt(fs, k);
    Join(Concat(fs[..k]), rest, more);
    CancelPrefix(Concat(fs[..k]), Concat(fs[k..]), rest + more);
  }

  /** An unfinished tail at the head of a stream of whole frames is shorter than the first of them. */
  lemma TailIsShorter(rule: Rule, fs: seq<seq<byte>>, tail: seq<byte>, more: seq<byte>)
    requires Stable(rule) && fs != [] && tail + more == Concat(fs) && rule(fs[0]) == |fs[0]| > 0
    requires rule(tail) == 0 || |tail| < rule(tail)
    ensures |tail| < |fs[0]|
  {
    assert fs == [fs[0]] + fs[1..];
    ConcatCons(fs[0], fs[1..]);
    RuleOfStart(rule, fs[0], Concat(fs[1..]), tail, more);
  }

  lemma RuleOfStart(rule: Rule, f: seq<byte>, x: seq<byte>, tail: seq<byte>, more: seq<byte>)
    requires Stable(rule) && rule(f) > 0 && tail + more == f + x
    ensures |tail| >= |f| ==> rule(tail) == rule(f)
  {
    if |tail| >= |f| {
      assert tail[..|f|] == (tail + more)[..|f|] == f;
      assert tail == f + tail[|f|..];
    }
  }

  /** Any first part of a stream of whole frames parses into some of them, plus less than the next one. */
  lemma PartOfWholeFrames(rule: Rule, fs: seq<seq<byte>>, part: seq<byte>, more: seq<byte>) returns (k: nat)
    requires Stable(rule) && part + more == Concat(fs)
    requires forall i | 0 <= i < |fs| :: rule(fs[i]) == |fs[i]| > 0
    ensures k <= |fs| && Parse(rule, part).frames == fs[..k]
    ensures k < |fs| ==> |Parse(rule, part).rest| < |fs[k]|
    ensures k == |fs| ==> Parse(rule, part).rest == [] && more == []
  {
    FirstFrames(rule, fs, part, more);
    RestIsUnfinished(rule, part);
    k := |Parse(rule, part).frames|;
    if k < |fs| {
      TailIsShorter(rule, fs[k..], Parse(rule, part).rest, more);
    } else {
      assert |Concat(fs[k..])| == 0;
    }
  }

  lemma {:induction false} RestIsUnfinished(rule: Rule, s: seq<byte>)
    ensures var r := Parse(rule, s).rest; rule(r) == 0 || |r| < rule(r)
    decreases |s|
  {
    var need := rule(s);
    if need != 0 && need <= |s| {
      RestIsUnfinished(rule, s[need..]);
    }
  }

  lemma {:induction false} SplitAt(chunks: seq<seq<byte>>, i: nat)
    requires i <= |chunks|
    ensures Concat(chunks) == Concat(chunks[..i]) + Concat(chunks[i..])
  {
    ConcatAppend(chunks[..i], chunks[i..]);
    assert chunks == chunks[..i] + chunks[i..];
  }

  /** Whole frames of up to `maxFrame` bytes leave tails shorter than that. */
  lemma FramesFit(rule: Rule, cap: nat, fs: seq<seq<byte>>, maxFrame: nat, chunks: seq<seq<byte>>)
    requires Stable(rule) && Concat(chunks) == Concat(fs)
    requires forall i | 0 <= i < |fs| :: rule(fs[i]) == |fs[i]| > 0 && |fs[i]| <= maxFrame
    requires forall i | 0 <= i < |chunks| :: maxFrame - 1 + |chunks[i]| <= cap
    requires maxFrame > 0
    ensures NeverOverflows(rule, cap, chunks)
  {
    forall i | 0 <= i < |chunks| ensures |Parse(rule, Concat(chunks[..i])).rest| + |chunks[i]| <= cap {
      SplitAt(chunks, i);
      var k := PartOfWholeFrames(rule, fs, Concat(chunks[..i]), Concat(chunks[i..]));
    }
  }
}
