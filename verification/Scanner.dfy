/**
 The release scanner (`components/ota_github/ota_github.c`): a rolling match of one
 literal over a response that arrives in pieces, against plain left-to-right search.
 */
module Scanner {
  const NEEDLE: string := "\"tag_name\":\""
  const VAL_MAX: nat := 15

  /** The match after one more character; 12 once the whole literal has been seen. */
  function Advance(m: nat, c: char): (r: nat)
    requires m <= 12
    ensures r <= 12
  {
    if m == 12 then 12
    else if c == NEEDLE[m] then m + 1
    else if c == NEEDLE[0] then 1
    else 0
  }

  /** The match over `t[s..i]`, begun with nothing seen. */
  function Match(t: string, s: nat, i: nat): (m: nat)
    requires s <= i <= |t|
    ensures m <= 12
    decreases i
  {
    if i == s then 0 else Advance(Match(t, s, i - 1), t[i - 1])
  }

  predicate Occurs(t: string, p: nat)
  {
    p + 12 <= |t| && t[p..p + 12] == NEEDLE
  }

  /** The literal up to its second quote: the part that a further quote makes look like a match. */
  predicate Block(t: string, p: nat)
  {
    p + 9 <= |t| && t[p..p + 9] == NEEDLE[..9]
  }

  /** How many such blocks stand back to back right before `p`, none of them starting before `s`. */
  function Chain(t: string, s: nat, p: nat): (n: nat)
    decreases p
  {
    if s + 9 <= p && Block(t, p - 9) then 1 + Chain(t, s, p - 9) else 0
  }

  /** An occurrence the rolling match sees. */
  predicate Seen(t: string, s: nat, p: nat)
  {
    s <= p && Occurs(t, p) && Chain(t, s, p) % 2 == 0
  }

  // ---------------------------------------------------------------------
  // What the rolling match finds
  // ---------------------------------------------------------------------

  /** The match always is a piece of the literal that ends here. */
  lemma {:induction false} MatchIsReal(t: string, s: nat, i: nat)
    requires s <= i <= |t|
    ensures var m := Match(t, s, i); m < 12 ==> s + m <= i && t[i - m..i] == NEEDLE[..m]
  {
    if i > s {
      MatchIsReal(t, s, i - 1);
      if Match(t, s, i - 1) < 12 {
        AdvanceIsReal(t, s, i, Match(t, s, i - 1));
      }
    }
  }

  lemma AdvanceIsReal(t: string, s: nat, i: nat, m: nat)
    requires s < i <= |t| && m < 12 && s + m <= i - 1 && t[i - 1 - m..i - 1] == NEEDLE[..m]
    ensures var k := Advance(m, t[i - 1]); k < 12 ==> s + k <= i && t[i - k..i] == NEEDLE[..k]
  {
    var k := Advance(m, t[i - 1]);
    if k == m + 1 && k < 12 {
      OneFurther(t, i, m);
    } else if k == 1 {
      assert t[i - 1..i - 1] == NEEDLE[..0];
      OneFurther(t, i, 0);
    }
  }

  lemma OneFurther(t: string, i: nat, m: nat)
    requires 0 < i <= |t| && m < 12 && m < i && t[i - 1] == NEEDLE[m] && t[i - 1 - m..i - 1] == NEEDLE[..m]
    ensures t[i - (m + 1)..i] == NEEDLE[..m + 1]
  {
    assert t[i - (m + 1)..i] == t[i - 1 - m..i - 1] + [t[i - 1]];
    assert NEEDLE[..m + 1] == NEEDLE[..m] + [NEEDLE[m]];
  }

  /** From a fresh start at `p`, the literal is followed as far as the text goes along. */
  lemma {:induction false} Climb(t: string, s: nat, p: nat, k: nat)
    requires s <= p && 1 <= k <= 12 && p + k <= |t| && t[p..p + k] == NEEDLE[..k]
    requires Match(t, s, p + 1) == 1
    ensures Match(t, s, p + k) == k
  {
    if k > 1 {
      OneLess(t, p, k);
      Climb(t, s, p, k - 1);
    }
  }

  lemma OneLess(t: string, p: nat, k: nat)
    requires 1 <= k <= 12 && p + k <= |t| && t[p..p + k] == NEEDLE[..k]
    ensures t[p..p + k - 1] == NEEDLE[..k - 1] && t[p + k - 1] == NEEDLE[k - 1]
  {
    var a, b := t[p..p + k], NEEDLE[..k];
    assert t[p + k - 1] == a[k - 1] && NEEDLE[k - 1] == b[k - 1];
    assert t[p..p + k - 1] == a[..k - 1];
    assert NEEDLE[..k - 1] == b[..k - 1];
  }

  /** A block met with nine characters already matched derails the match at its second character. */
  lemma {:induction false} Derailed(t: string, s: nat, p: nat, k: nat)
    requires s <= p && Block(t, p) && Match(t, s, p) == 9 && 2 <= k <= 9
    ensures Match(t, s, p + k) == 0
  {
    assert t[p + k - 1] == t[p..p + 9][k - 1] == NEEDLE[k - 1];
    if k == 2 {
      assert t[p] == t[p..p + 9][0] == NEEDLE[0];
      assert Match(t, s, p + 1) == 10;
    } else {
      Derailed(t, s, p, k - 1);
    }
  }

  lemma {:induction false} StaysDone(t: string, s: nat, i: nat, j: nat)
    requires s <= i <= j <= |t| && Match(t, s, i) == 12
    ensures Match(t, s, j) == 12
  {
    if i < j {
      StaysDone(t, s, i, j - 1);
    }
  }

  /** At a quote, the match is nine characters in exactly after an odd chain of blocks. */
  lemma {:induction false} NineIffOdd(t: string, s: nat, p: nat)
    requires s <= p <= |t| && Match(t, s, p) < 12
    ensures Match(t, s, p) == 9 <==> Chain(t, s, p) % 2 == 1
    decreases p
  {
    MatchIsReal(t, s, p);
    if s + 9 <= p && Block(t, p - 9) {
      var q := p - 9;
      if Match(t, s, q) == 12 {
        StaysDone(t, s, q, p);
      }
      NineIffOdd(t, s, q);
      assert t[q] == t[q..q + 9][0] == NEEDLE[0];
      if Match(t, s, q) == 9 {
        Derailed(t, s, q, 9);
      } else {
        if Match(t, s, q) == 11 {
          StaysDone(t, s, q + 1, p);
        }
        FreshStart(t, s, q);
        Climb(t, s, q, 9);
      }
    }
  }

  /** A quote begins the literal anew unless it is one the match was waiting for. */
  lemma FreshStart(t: string, s: nat, p: nat)
    requires s <= p < |t| && t[p] == NEEDLE[0] && Match(t, s, p) < 12 && Match(t, s, p) != 9 && Match(t, s, p) != 11
    ensures Match(t, s, p + 1) == 1
  {
  }

  /** The match ends at `i` only where an occurrence it sees ends. */
  lemma FoundIsSeen(t: string, s: nat, i: nat)
    requires s < i <= |t| && Match(t, s, i) == 12 && Match(t, s, i - 1) < 12
    ensures i >= s + 12 && Seen(t, s, i - 12)
  {
    MatchIsReal(t, s, i - 1);
    assert Match(t, s, i - 1) == 11 && t[i - 1] == NEEDLE[11];
    var p: nat := i - 12;
    assert t[p..i] == t[p..i - 1] + [t[i - 1]];
    assert NEEDLE == NEEDLE[..11] + [NEEDLE[11]];
    assert Occurs(t, p);
    NotDone(t, s, p, i - 1);
    NineIffOdd(t, s, p);
    if Match(t, s, p) == 9 {
      assert Block(t, p) by {
        assert t[p..p + 9] == t[p..p + 12][..9];
      }
      Derailed(t, s, p, 9);
      assert false;
    }
  }

  lemma NotDone(t: string, s: nat, i: nat, j: nat)
    requires s <= i <= j <= |t| && Match(t, s, j) < 12
    ensures Match(t, s, i) < 12
  {
    if Match(t, s, i) == 12 {
      StaysDone(t, s, i, j);
    }
  }

  /** An occurrence it sees is found, unless something was found earlier. */
  lemma SeenIsFound(t: string, s: nat, p: nat)
    requires Seen(t, s, p) && Match(t, s, p + 11) < 12
    ensures Match(t, s, p + 12) == 12
  {
    NotDone(t, s, p, p + 11);
    NotDone(t, s, p + 1, p + 11);
    NineIffOdd(t, s, p);
    assert t[p] == t[p..p + 12][0] == NEEDLE[0];
    FreshStart(t, s, p);
    assert t[p..p + 12] == NEEDLE[..12];
    Climb(t, s, p, 12);
  }

  /** The search from `s` is over at `i` iff an occurrence it sees has ended by then. */
  lemma {:induction false} DoneIffSeen(t: string, s: nat, i: nat)
    requires s <= i <= |t|
    ensures Match(t, s, i) == 12 <==> exists p: nat | p + 12 <= i :: Seen(t, s, p)
  {
    if i > s {
      DoneIffSeen(t, s, i - 1);
      if Match(t, s, i) == 12 && Match(t, s, i - 1) < 12 {
        FoundIsSeen(t, s, i);
      }
      forall p: nat | p + 12 <= i && Seen(t, s, p)
        ensures Match(t, s, i) == 12
      {
        if p + 12 == i && Match(t, s, i - 1) < 12 {
          SeenIsFound(t, s, p);
        }
      }
    }
  }

  // ---------------------------------------------------------------------
  // Extraction: what a plain search finds, and what the rolling one does
  // ---------------------------------------------------------------------

  /** `plain` asks for every occurrence, otherwise only for those the rolling match sees. */
  predicate Hit(t: string, s: nat, p: nat, plain: bool)
  {
    s <= p && if plain then Occurs(t, p) else Seen(t, s, p)
  }

  /** The first hit at or after `i` in a search begun at `s`; the end of the text if there is none. */
  function NextHit(t: string, s: nat, i: nat, plain: bool): (p: nat)
    ensures p <= |t| && (i <= |t| ==> i <= p) && (p < |t| ==> p + 12 <= |t|)
    decreases |t| - i
  {
    if i >= |t| then |t| else if Hit(t, s, i, plain) then i else NextHit(t, s, i + 1, plain)
  }

  lemma {:induction false} NextHitIsFirst(t: string, s: nat, i: nat, plain: bool)
    requires s <= i <= |t|
    ensures var p := NextHit(t, s, i, plain);
            (p < |t| ==> Hit(t, s, p, plain)) && forall q: nat | i <= q < p :: !Hit(t, s, q, plain)
    decreases |t| - i
  {
    if i < |t| && !Hit(t, s, i, plain) {
      NextHitIsFirst(t, s, i + 1, plain);
    }
  }

  /** The next quote at or after `i`; the end of the text if there is none. */
  function Close(t: string, i: nat): (e: nat)
    requires i <= |t|
    ensures i <= e <= |t|
    decreases |t| - i
  {
    if i == |t| || t[i] == '"' then i else Close(t, i + 1)
  }

  lemma {:induction false} CloseIsFirst(t: string, i: nat)
    requires i <= |t|
    ensures var e := Close(t, i); (e < |t| ==> t[e] == '"') && forall k: nat | i <= k < e :: t[k] != '"'
    decreases |t| - i
  {
    if i < |t| && t[i] != '"' {
      CloseIsFirst(t, i + 1);
    }
  }

  function Trunc(v: string): (r: string)
  {
    if |v| <= VAL_MAX then v else v[..VAL_MAX]
  }

  /** A tag without its leading v. */
  function Strip(v: string): (r: string)
  {
    if v != "" && (v[0] == 'v' || v[0] == 'V') then v[1..] else v
  }

  /** Where a search stops: at a hit, with the value after it; `end` is its closing quote, or the end of the text. */
  datatype Stop = Stop(at: nat, end: nat, value: string)

  function StopAt(t: string, p: nat): (f: Stop)
    requires p < |t| ==> p + 12 <= |t|
  {
    if p >= |t| then Stop(|t|, |t|, "")
    else var e := Close(t, p + 12); Stop(p, e, Trunc(t[p + 12..e]))
  }

  /** A search begun at `s`: the plain one, and the rolling one. */
  function Plain(t: string): (find: nat -> Stop)
  {
    (s: nat) => StopAt(t, NextHit(t, s, s, true))
  }

  function Rolling(t: string): (find: nat -> Stop)
  {
    (s: nat) => StopAt(t, NextHit(t, s, s, false))
  }

  /** The values found in `n` characters, with the search begun again after each closing quote. */
  function Extract(n: nat, find: nat -> Stop, s: nat): (vs: seq<string>)
    decreases n - s
  {
    var f := find(s);
    if s <= f.at <= f.end < n then [Strip(f.value)] + Extract(n, find, f.end + 1) else []
  }

  // ---------------------------------------------------------------------
  // The scanner as steps
  // ---------------------------------------------------------------------

  datatype Scan = Scan(matched: nat, capturing: bool, val: string, out: seq<string>)

  predicate ScanOk(s: Scan)
  {
    s.matched < 12 && |s.val| <= VAL_MAX
  }

  const IDLE: Scan := Scan(0, false, "", [])

  /** Keep a value if there is still room for it. */
  function Keep(out: seq<string>, v: string, max: nat): (r: seq<string>)
  {
    if |out| < max then out + [Strip(v)] else out
  }

  /** `scan_byte`. */
  function Feed(s: Scan, c: char, max: nat): (r: Scan)
    requires ScanOk(s)
    ensures ScanOk(r)
  {
    if s.capturing then
      if c == '"' then Scan(s.matched, false, "", Keep(s.out, s.val, max))
      else if |s.val| < VAL_MAX then s.(val := s.val + [c])
      else s
    else
      var m := Advance(s.matched, c);
      if m == 12 then Scan(0, true, "", s.out) else s.(matched := m)
  }

  function FeedFrom(s: Scan, t: string, i: nat, max: nat): (r: Scan)
    requires ScanOk(s) && i <= |t|
    ensures ScanOk(r)
    decreases |t| - i
  {
    if i == |t| then s else FeedFrom(Feed(s, t[i], max), t, i + 1, max)
  }

  lemma {:induction false} Searching(t: string, s: nat, i: nat, out: seq<string>, max: nat)
    requires s <= i <= |t| && Match(t, s, i) < 12
    ensures FeedFrom(Scan(0, false, "", out), t, s, max) == FeedFrom(Scan(Match(t, s, i), false, "", out), t, i, max)
  {
    if i > s {
      NotDone(t, s, i - 1, i);
      Searching(t, s, i - 1, out, max);
    }
  }

  lemma TruncSnoc(v: string, c: char)
    ensures Trunc(v + [c]) == if |Trunc(v)| < VAL_MAX then Trunc(v) + [c] else Trunc(v)
  {
  }

  lemma {:induction false} Capturing(t: string, q: nat, j: nat, out: seq<string>, max: nat)
    requires q <= j <= |t| && forall k: nat | q <= k < j :: t[k] != '"'
    ensures FeedFrom(Scan(0, true, "", out), t, q, max) == FeedFrom(Scan(0, true, Trunc(t[q..j]), out), t, j, max)
  {
    if j > q {
      Capturing(t, q, j - 1, out, max);
      assert t[q..j] == t[q..j - 1] + [t[j - 1]];
      TruncSnoc(t[q..j - 1], t[j - 1]);
    }
  }

  /** Scanning from `s` with nothing matched gathers the value of `f`, if it has one. */
  ghost predicate ScansTo(t: string, f: Stop, s: nat, out: seq<string>, max: nat)
    requires s <= |t|
  {
    var r := FeedFrom(Scan(0, false, "", out), t, s, max);
    if s <= f.at <= f.end < |t|
    then r.out == FeedFrom(Scan(0, false, "", Keep(out, f.value, max)), t, f.end + 1, max).out
    else r.out == out
  }

  /** The search ends right after the first occurrence it sees. */
  lemma SearchEnds(t: string, s: nat, out: seq<string>, max: nat)
    requires s <= |t|
    ensures var p := NextHit(t, s, s, false);
            var r := FeedFrom(Scan(0, false, "", out), t, s, max);
            if p < |t| then r == FeedFrom(Scan(0, true, "", out), t, p + 12, max)
            else r.out == out
  {
    var p := NextHit(t, s, s, false);
    if p < |t| {
      HitBy(t, s, p);
      Searching(t, s, p + 11, out, max);
    } else {
      NoHitBy(t, s);
      Searching(t, s, |t|, out, max);
    }
  }

  /** The rolling match is done with the last character of the first occurrence it sees, and not before. */
  lemma HitBy(t: string, s: nat, p: nat)
    requires s <= |t| && p == NextHit(t, s, s, false) < |t|
    ensures Match(t, s, p + 11) == 11 && Match(t, s, p + 12) == 12
  {
    NextHitIsFirst(t, s, s, false);
    assert forall q: nat | q < p && Seen(t, s, q) :: Hit(t, s, q, false);
    DoneIffSeen(t, s, p + 11);
    DoneIffSeen(t, s, p + 12);
  }

  lemma NoHitBy(t: string, s: nat)
    requires s <= |t| && NextHit(t, s, s, false) == |t|
    ensures Match(t, s, |t|) < 12
  {
    NextHitIsFirst(t, s, s, false);
    assert forall q: nat | q < |t| && Seen(t, s, q) :: Hit(t, s, q, false);
    DoneIffSeen(t, s, |t|);
  }

  lemma CaptureEnds(t: string, p: nat, out: seq<string>, max: nat)
    requires p + 12 <= |t|
    ensures var e := Close(t, p + 12);
            var r := FeedFrom(Scan(0, true, "", out), t, p + 12, max);
            if e == |t| then r.out == out
            else r == FeedFrom(Scan(0, false, "", Keep(out, Trunc(t[p + 12..e]), max)), t, e + 1, max)
  {
    CloseIsFirst(t, p + 12);
    Capturing(t, p + 12, Close(t, p + 12), out, max);
  }

  lemma RollingScans(t: string, s: nat, out: seq<string>, max: nat)
    requires s <= |t|
    ensures ScansTo(t, Rolling(t)(s), s, out, max)
  {
    var p := NextHit(t, s, s, false);
    if p < |t| {
      HitScans(t, p, s, out, max);
    } else {
      SearchEnds(t, s, out, max);
    }
  }

  lemma HitScans(t: string, p: nat, s: nat, out: seq<string>, max: nat)
    requires s <= |t| && p == NextHit(t, s, s, false) < |t|
    ensures ScansTo(t, StopAt(t, p), s, out, max)
  {
    SearchEnds(t, s, out, max);
    CaptureEnds(t, p, out, max);
  }

  function Take(vs: seq<string>, n: int): (r: seq<string>)
  {
    if n <= 0 then [] else if |vs| <= n then vs else vs[..n]
  }

  /** What scanning from `s` gathers is what the extraction from there gives. */
  ghost predicate GathersFrom(t: string, find: nat -> Stop, s: nat, out: seq<string>, max: nat)
    requires s <= |t|
  {
    FeedFrom(Scan(0, false, "", out), t, s, max).out == out + Take(Extract(|t|, find, s), max - |out|)
  }

  lemma GathersNone(t: string, find: nat -> Stop, s: nat, out: seq<string>, max: nat)
    requires s <= |t| && ScansTo(t, find(s), s, out, max) && !(s <= find(s).at <= find(s).end < |t|)
    ensures GathersFrom(t, find, s, out, max)
  {
    assert Extract(|t|, find, s) == [];
    assert out + [] == out;
  }

  lemma GathersOne(t: string, find: nat -> Stop, s: nat, out: seq<string>, max: nat)
    requires s <= |t| && ScansTo(t, find(s), s, out, max) && s <= find(s).at <= find(s).end < |t|
    requires GathersFrom(t, find, find(s).end + 1, Keep(out, find(s).value, max), max)
    ensures GathersFrom(t, find, s, out, max)
  {
    TakeOne(out, Strip(find(s).value), Extract(|t|, find, find(s).end + 1), max);
  }

  lemma {:induction false} Gathers(t: string, find: nat -> Stop, s: nat, out: seq<string>, max: nat)
    requires s <= |t|
    requires forall k: nat, o | k <= |t| :: ScansTo(t, find(k), k, o, max)
    ensures GathersFrom(t, find, s, out, max)
    decreases |t| - s
  {
    var f := find(s);
    assert ScansTo(t, find(s), s, out, max);
    if s <= f.at <= f.end < |t| {
      Gathers(t, find, f.end + 1, Keep(out, f.value, max), max);
      GathersOne(t, find, s, out, max);
    } else {
      GathersNone(t, find, s, out, max);
    }
  }

  /** The scanner gathers the first values of the extraction by occurrences it sees. */
  lemma ScanIsExtract(t: string, max: nat)
    ensures FeedFrom(IDLE, t, 0, max).out == Take(Extract(|t|, Rolling(t), 0), max)
  {
    forall k: nat, o | k <= |t|
      ensures ScansTo(t, Rolling(t)(k), k, o, max)
    {
      RollingScans(t, k, o, max);
    }
    Gathers(t, Rolling(t), 0, [], max);
  }

  lemma TakeOne(out: seq<string>, v: string, rest: seq<string>, max: nat)
    ensures out + Take([v] + rest, max - |out|) ==
            var kept := if |out| < max then out + [v] else out; kept + Take(rest, max - |kept|)
  {
  }

  // ---------------------------------------------------------------------
  // Against a plain search
  // ---------------------------------------------------------------------

  /** The search from `s` finds what a plain one finds iff an even chain of blocks leads up to the first occurrence. */
  lemma SameHitIff(t: string, s: nat)
    requires s <= |t|
    ensures var p := NextHit(t, s, s, true);
            NextHit(t, s, s, false) == p <==> p == |t| || Chain(t, s, p) % 2 == 0
  {
    var p, r := NextHit(t, s, s, true), NextHit(t, s, s, false);
    NextHitIsFirst(t, s, s, true);
    NextHitIsFirst(t, s, s, false);
    assert r < |t| ==> Hit(t, s, r, true);
    assert p < |t| && Chain(t, s, p) % 2 == 0 ==> Hit(t, s, p, false);
  }

  lemma Later(v: string, rest: seq<string>, k: nat)
    requires k <= |rest|
    ensures ([v] + rest)[k] == if k == 0 then v else rest[k - 1]
  {
  }

  lemma {:induction false} ValueAt(n: nat, find: nat -> Stop, s: nat, k: nat) returns (from: nat)
    requires s <= n && k < |Extract(n, find, s)|
    ensures s <= from <= find(from).at <= find(from).end < n && Extract(n, find, s)[k] == Strip(find(from).value)
    decreases n - s
  {
    from := s;
    var f := find(s);
    Later(Strip(f.value), Extract(n, find, f.end + 1), k);
    if k > 0 {
      from := ValueAt(n, find, f.end + 1, k - 1);
    }
  }

  /** `v` is a tag as the scanner keeps it: cut to fifteen characters, then without a leading v. */
  predicate IsTag(v: string, raw: string)
  {
    var cut := if |raw| > 15 then raw[..15] else raw;
    v == if |cut| > 0 && (cut[0] == 'v' || cut[0] == 'V') then cut[1..] else cut
  }

  lemma TagIs(raw: string)
    ensures IsTag(Strip(Trunc(raw)), raw)
  {
  }

  /** The literal in full. */
  lemma LiteralIs(t: string, p: nat)
    requires Occurs(t, p)
    ensures t[p..p + 12] == "\"tag_name\":\""
  {
  }

  /** Every value the scanner gathers is what stands between an occurrence of the literal and the next quote. */
  lemma ValuesAreReal(t: string, max: nat, k: nat) returns (p: nat, e: nat)
    requires k < |FeedFrom(IDLE, t, 0, max).out|
    ensures p + 12 <= e < |t| && t[p..p + 12] == "\"tag_name\":\"" && t[e] == '"' && forall i | p + 12 <= i < e :: t[i] != '"'
    ensures IsTag(FeedFrom(IDLE, t, 0, max).out[k], t[p + 12..e])
  {
    ScanIsExtract(t, max);
    var from := ValueAt(|t|, Rolling(t), 0, k);
    p := StopIsReal(t, from);
    e := Close(t, p + 12);
    CloseIsFirst(t, p + 12);
    LiteralIs(t, p);
    TagIs(t[p + 12..e]);
  }

  lemma StopIsReal(t: string, from: nat) returns (p: nat)
    requires from <= |t| && from <= Rolling(t)(from).at <= Rolling(t)(from).end < |t|
    ensures Occurs(t, p) && Close(t, p + 12) < |t| && Rolling(t)(from).value == Trunc(t[p + 12..Close(t, p + 12)])
  {
    NextHitIsFirst(t, from, from, false);
    p := NextHit(t, from, from, false);
  }

  lemma {:induction false} FeedShift(s: Scan, t: string, i: nat, u: string, max: nat)
    requires ScanOk(s) && i <= |t| && u == t[i..]
    ensures FeedFrom(s, t, i, max) == FeedFrom(s, u, 0, max)
    decreases |t| - i
  {
    if i < |t| {
      assert u[1..] == t[i + 1..] && u[0] == t[i];
      FeedShift(Feed(s, t[i], max), t, i + 1, u[1..], max);
      FeedShift(Feed(s, t[i], max), u, 1, u[1..], max);
    }
  }

  /** A value already found takes one of the places and changes nothing else. */
  lemma {:induction false} FoundBefore(s: Scan, x: string, t: string, i: nat, max: nat)
    requires ScanOk(s) && i <= |t| && max > 0
    ensures FeedFrom(s.(out := [x] + s.out), t, i, max).out == [x] + FeedFrom(s, t, i, max - 1).out
    decreases |t| - i
  {
    if i < |t| {
      var next := Feed(s, t[i], max - 1);
      KeptBehind(s, x, t[i], max);
      FoundBefore(next, x, t, i + 1, max);
    }
  }

  lemma KeptBehind(s: Scan, x: string, c: char, max: nat)
    requires ScanOk(s) && max > 0
    ensures var next := Feed(s, c, max - 1); Feed(s.(out := [x] + s.out), c, max) == next.(out := [x] + next.out)
  {
    assert ([x] + s.out) + [Strip(s.val)] == [x] + (s.out + [Strip(s.val)]);
  }

  lemma NothingKept(s: Scan, c: char)
    requires ScanOk(s)
    ensures Feed(s, c, 0).out == s.out
  {
  }

  lemma {:induction false} NoRoom(s: Scan, t: string, i: nat)
    requires ScanOk(s) && i <= |t|
    ensures FeedFrom(s, t, i, 0).out == s.out
    decreases |t| - i
  {
    if i < |t| {
      NothingKept(s, t[i]);
      NoRoom(Feed(s, t[i], 0), t, i + 1);
    }
  }

  /** The parts of a text: what comes first, the literal, the value, its closing quote, and what follows. */
  predicate Parted(t: string, gap: string, raw: string, rest: string)
  {
    t == gap + NEEDLE + raw + "\"" + rest && forall i | 0 <= i < |raw| :: raw[i] != '"'
  }

  lemma Middle(t: string, a: string, m: string, b: string)
    requires t == a + m + b
    ensures |t| == |a| + |m| + |b| && t[|a|..|a| + |m|] == m && t[|a| + |m|..] == b
  {
  }

  lemma PartsStand(t: string, gap: string, raw: string, rest: string)
    requires Parted(t, gap, raw, rest)
    ensures |gap| + 12 + |raw| < |t| && Occurs(t, |gap|) && t[|gap| + 12..|gap| + 12 + |raw|] == raw
    ensures t[|gap| + 12 + |raw|] == '"' && t[|gap| + 12 + |raw| + 1..] == rest
  {
    var tail := "\"" + rest;
    Join4(gap, NEEDLE, raw, "\"", rest);
    assert t == gap + NEEDLE + (raw + tail);
    Middle(t, gap, NEEDLE, raw + tail);
    Middle(t, gap + NEEDLE, raw, tail);
    Middle(t, gap + NEEDLE + raw, "\"", rest);
  }

  lemma Join4(a: string, b: string, c: string, d: string, e: string)
    ensures a + b + c + d + e == a + b + (c + (d + e)) == a + b + c + (d + e)
  {
  }

  /** The value ends where its first quote is. */
  lemma ClosesAt(t: string, q: nat, raw: string)
    requires q + |raw| < |t| && t[q..q + |raw|] == raw && t[q + |raw|] == '"' && forall i | 0 <= i < |raw| :: raw[i] != '"'
    ensures Close(t, q) == q + |raw|
  {
    CloseIsFirst(t, q);
    forall i | q <= i < q + |raw| ensures t[i] != '"' {
      assert t[i] == t[q..q + |raw|][i - q];
    }
  }

  /** The first occurrence in sight is where the parts say. */
  lemma FirstInSight(t: string, p: nat)
    requires Occurs(t, p) && Chain(t, 0, p) % 2 == 0 && forall q: nat | q < p :: !Occurs(t, q)
    ensures NextHit(t, 0, 0, false) == p
  {
    NextHitIsFirst(t, 0, 0, false);
    assert Hit(t, 0, p, false);
    var h := NextHit(t, 0, 0, false);
    assert h < |t| ==> Hit(t, 0, h, false);
  }

  /**
   The scanner takes the value behind the first occurrence of the literal, as long as there is room, and goes on with
   what follows its closing quote as if it were a text of its own.
   */
  lemma FirstTagThenRest(t: string, gap: string, raw: string, rest: string, max: nat) returns (v: string)
    requires Parted(t, gap, raw, rest)
    requires (forall p: nat | p < |gap| :: !Occurs(t, p)) && Chain(t, 0, |gap|) % 2 == 0
    ensures IsTag(v, raw)
    ensures FeedFrom(IDLE, t, 0, max).out == if max == 0 then [] else [v] + FeedFrom(IDLE, rest, 0, max - 1).out
  {
    PartsStand(t, gap, raw, rest);
    ClosesAt(t, |gap| + 12, raw);
    v := TagAt(t, |gap|, raw, rest, max);
  }

  lemma TagAt(t: string, p: nat, raw: string, rest: string, max: nat) returns (v: string)
    requires p + 12 + |raw| < |t| && Occurs(t, p) && Chain(t, 0, p) % 2 == 0 && forall q: nat | q < p :: !Occurs(t, q)
    requires raw == t[p + 12..p + 12 + |raw|] && Close(t, p + 12) == p + 12 + |raw| && rest == t[p + 12 + |raw| + 1..]
    ensures IsTag(v, raw)
    ensures FeedFrom(IDLE, t, 0, max).out == if max == 0 then [] else [v] + FeedFrom(IDLE, rest, 0, max - 1).out
  {
    v := Strip(Trunc(raw));
    TagIs(raw);
    FirstInSight(t, p);
    if max > 0 {
      FirstTaken(t, p, |raw|, v, max);
      GoesOn(t, p + 12 + |raw| + 1, rest, v, max);
    } else {
      NoRoom(IDLE, t, 0);
    }
  }

  lemma GoesOn(t: string, i: nat, rest: string, v: string, max: nat)
    requires i <= |t| && rest == t[i..] && max > 0
    ensures FeedFrom(IDLE.(out := [v] + IDLE.out), t, i, max).out == [v] + FeedFrom(IDLE, rest, 0, max - 1).out
  {
    FeedShift(IDLE.(out := [v] + IDLE.out), t, i, rest, max);
    FoundBefore(IDLE, v, rest, 0, max);
  }

  lemma FirstTaken(t: string, p: nat, n: nat, v: string, max: nat)
    requires max > 0 && NextHit(t, 0, 0, false) == p && p + 12 + n < |t| && Close(t, p + 12) == p + 12 + n
    requires v == Strip(Trunc(t[p + 12..p + 12 + n]))
    ensures FeedFrom(IDLE, t, 0, max) == FeedFrom(IDLE.(out := [v] + IDLE.out), t, p + 12 + n + 1, max)
  {
    SearchEnds(t, 0, [], max);
    CaptureEnds(t, p, [], max);
    assert [] + [v] == [v] && [v] + [] == [v];
  }

  /** The text never has the quoted key followed at once by a `t`. */
  ghost predicate NoRunOn(t: string)
  {
    forall p: nat | Block(t, p) && p + 10 < |t| && t[p + 9] == '"' :: t[p + 10] != 't'
  }

  lemma NoChain(t: string, s: nat, p: nat)
    requires NoRunOn(t) && Occurs(t, p)
    ensures Chain(t, s, p) == 0
  {
    assert t[p] == t[p..p + 12][0] == '"' && t[p + 1] == t[p..p + 12][1] == 't';
  }

  /** Where the successive searches stop. */
  function Stops(n: nat, find: nat -> Stop, s: nat): (ps: seq<nat>)
    decreases n - s
  {
    var f := find(s);
    if s <= f.at < n then [f.at] + (if f.at <= f.end < n then Stops(n, find, f.end + 1) else []) else []
  }

  /** `good` holds of every place a search is begun at and the place it then stops at. */
  predicate AllGood(n: nat, find: nat -> Stop, good: nat -> bool, s: nat)
    decreases n - s
  {
    var f := find(s);
    s <= f.at < n ==> good(s) && (f.at <= f.end < n ==> AllGood(n, find, good, f.end + 1))
  }

  /** Two searches part ways at a start that is not `good`, and only there. */
  ghost predicate Parts(n: nat, a: nat -> Stop, b: nat -> Stop, good: nat -> bool, s: nat)
  {
    && s <= a(s).at <= n && s <= b(s).at <= n
    && (if a(s).at == n || good(s) then a(s) == b(s) else a(s).at != b(s).at)
  }

  lemma SameTails(p: nat, a: seq<nat>, b: seq<nat>)
    ensures [p] + a == [p] + b <==> a == b
  {
    assert ([p] + a)[1..] == a && ([p] + b)[1..] == b;
  }

  /** The search begun at `s` stops nowhere. */
  lemma NoStop(n: nat, find: nat -> Stop, good: nat -> bool, s: nat)
    requires !(s <= find(s).at < n)
    ensures Stops(n, find, s) == [] && AllGood(n, find, good, s)
  {
  }

  /** It stops, and is begun again behind that place. */
  lemma StopAndGo(n: nat, find: nat -> Stop, good: nat -> bool, s: nat)
    requires s <= find(s).at <= find(s).end < n
    ensures Stops(n, find, s) == [find(s).at] + Stops(n, find, find(s).end + 1)
    ensures AllGood(n, find, good, s) <==> good(s) && AllGood(n, find, good, find(s).end + 1)
  {
  }

  /** It stops for the last time. */
  lemma LastStop(n: nat, find: nat -> Stop, good: nat -> bool, s: nat)
    requires s <= find(s).at < n && !(find(s).at <= find(s).end < n)
    ensures Stops(n, find, s) == [find(s).at] && (AllGood(n, find, good, s) <==> good(s))
  {
  }

  lemma FirstStop(n: nat, find: nat -> Stop, s: nat)
    requires s <= find(s).at < n
    ensures |Stops(n, find, s)| > 0 && Stops(n, find, s)[0] == find(s).at
  {
  }

  /** From `s` on both searches stop at the same places iff all starts along the way are good. */
  ghost predicate Agree(n: nat, a: nat -> Stop, b: nat -> Stop, good: nat -> bool, s: nat)
  {
    Stops(n, b, s) == Stops(n, a, s) <==> AllGood(n, a, good, s)
  }

  lemma AgreeNowhere(n: nat, a: nat -> Stop, b: nat -> Stop, good: nat -> bool, s: nat)
    requires Parts(n, a, b, good, s) && a(s).at == n
    ensures Agree(n, a, b, good, s)
  {
    NoStop(n, a, good, s);
    NoStop(n, b, good, s);
  }

  /** Searches that part ways at once do not stop at the same places. */
  lemma PartAtOnce(n: nat, a: nat -> Stop, b: nat -> Stop, good: nat -> bool, s: nat)
    requires Parts(n, a, b, good, s) && a(s).at < n && !good(s)
    ensures Agree(n, a, b, good, s)
  {
    FirstStop(n, a, s);
    if b(s).at < n {
      FirstStop(n, b, s);
    } else {
      NoStop(n, b, good, s);
    }
    assert !AllGood(n, a, good, s);
  }

  lemma AgreeFurther(n: nat, a: nat -> Stop, b: nat -> Stop, good: nat -> bool, s: nat)
    requires Parts(n, a, b, good, s) && good(s) && s <= a(s).at <= a(s).end < n && Agree(n, a, b, good, a(s).end + 1)
    ensures Agree(n, a, b, good, s)
  {
    StopAndGo(n, a, good, s);
    StopAndGo(n, b, good, s);
    SameTails(a(s).at, Stops(n, b, a(s).end + 1), Stops(n, a, a(s).end + 1));
  }

  lemma AgreeLast(n: nat, a: nat -> Stop, b: nat -> Stop, good: nat -> bool, s: nat)
    requires Parts(n, a, b, good, s) && good(s) && a(s).at < n && !(a(s).at <= a(s).end < n)
    ensures Agree(n, a, b, good, s)
  {
    LastStop(n, a, good, s);
    LastStop(n, b, good, s);
  }

  lemma {:induction false} SameStops(n: nat, a: nat -> Stop, b: nat -> Stop, good: nat -> bool, s: nat)
    requires s <= n && forall k: nat | k <= n :: Parts(n, a, b, good, k)
    ensures Agree(n, a, b, good, s)
    decreases n - s
  {
    assert Parts(n, a, b, good, s);
    var f := a(s);
    if f.at == n {
      AgreeNowhere(n, a, b, good, s);
    } else if !good(s) {
      PartAtOnce(n, a, b, good, s);
    } else if f.at <= f.end < n {
      SameStops(n, a, b, good, f.end + 1);
      AgreeFurther(n, a, b, good, s);
    } else {
      AgreeLast(n, a, b, good, s);
    }
  }

  /** An even chain leads up to the first occurrence at or after a given place. */
  function EvenChain(t: string): (good: nat -> bool)
  {
    (s: nat) => Chain(t, s, NextHit(t, s, s, true)) % 2 == 0
  }

  /** Scanner and plain search stop at the same places of a text iff all those chains are even. */
  lemma SamePlacesIff(t: string)
    ensures Stops(|t|, Rolling(t), 0) == Stops(|t|, Plain(t), 0) <==> AllGood(|t|, Plain(t), EvenChain(t), 0)
  {
    PartsBySearch(t);
    SameStops(|t|, Plain(t), Rolling(t), EvenChain(t), 0);
  }

  lemma PartsBySearch(t: string)
    ensures forall k: nat | k <= |t| :: Parts(|t|, Plain(t), Rolling(t), EvenChain(t), k)
  {
    forall k: nat | k <= |t|
      ensures Parts(|t|, Plain(t), Rolling(t), EvenChain(t), k)
    {
      SameHitIff(t, k);
    }
  }

  /** With only good starts along the way, both searches find the same values. */
  lemma {:induction false} GoodValues(n: nat, a: nat -> Stop, b: nat -> Stop, good: nat -> bool, s: nat)
    requires s <= n && (forall k: nat | k <= n :: Parts(n, a, b, good, k)) && AllGood(n, a, good, s)
    ensures Extract(n, b, s) == Extract(n, a, s)
    decreases n - s
  {
    assert Parts(n, a, b, good, s);
    var f := a(s);
    if s <= f.at <= f.end < n {
      GoodValues(n, a, b, good, f.end + 1);
    }
  }

  /** On text with even chains only, the scanner gathers exactly the first values of a plain left-to-right search. */
  lemma EvenChainsSuffice(t: string, max: nat)
    requires AllGood(|t|, Plain(t), EvenChain(t), 0)
    ensures FeedFrom(IDLE, t, 0, max).out == Take(Extract(|t|, Plain(t), 0), max)
  {
    PartsBySearch(t);
    GoodValues(|t|, Plain(t), Rolling(t), EvenChain(t), 0);
    ScanIsExtract(t, max);
  }

  lemma {:induction false} GoodEverywhere(n: nat, find: nat -> Stop, good: nat -> bool, s: nat)
    requires forall k: nat | k <= n && find(k).at < n :: good(k)
    ensures s <= n ==> AllGood(n, find, good, s)
    decreases n - s
  {
    var f := find(s);
    if s <= f.at < n && f.at <= f.end < n {
      GoodEverywhere(n, find, good, f.end + 1);
    }
  }

  /** So it does where the quoted key is never followed at once by a `t`: there are no chains at all. */
  lemma ScannerIsPlainSearch(t: string, max: nat)
    requires NoRunOn(t)
    ensures AllGood(|t|, Plain(t), EvenChain(t), 0)
    ensures FeedFrom(IDLE, t, 0, max).out == Take(Extract(|t|, Plain(t), 0), max)
  {
    forall k: nat | k <= |t| && Plain(t)(k).at < |t|
      ensures EvenChain(t)(k)
    {
      NextHitIsFirst(t, k, k, true);
      NoChain(t, k, NextHit(t, k, k, true));
    }
    GoodEverywhere(|t|, Plain(t), EvenChain(t), 0);
    EvenChainsSuffice(t, max);
  }

  /** A key written twice without a break, then the literal with a value. */
  const DOUBLED: string := "\"tag_name" + NEEDLE + "1\""

  lemma DoubledText()
    ensures |DOUBLED| == 23 && DOUBLED[..9] == NEEDLE[..9] && DOUBLED[9..21] == NEEDLE
    ensures DOUBLED[10] == 't' && DOUBLED[21] == '1' && DOUBLED[22] == '"'
    ensures forall q: nat | q < 12 && q != 0 && q != 9 :: DOUBLED[q] != '"'
  {
  }

  /** In such a text the literal stands at 9 only, after one block. */
  lemma OnlyAtNine(t: string)
    requires |t| == 23 && t[..9] == NEEDLE[..9] && t[9..21] == NEEDLE && t[10] == 't'
    requires forall q: nat | q < 12 && q != 0 && q != 9 :: t[q] != '"'
    ensures Chain(t, 0, 9) == 1
    ensures forall q: nat :: Occurs(t, q) <==> q == 9
  {
    assert Block(t, 0) && Chain(t, 0, 9) == 1 + Chain(t, 0, 0);
    forall q: nat | Occurs(t, q) ensures q == 9 {
      assert t[q] == t[q..q + 12][0] == '"' && t[q + 10] == t[q..q + 12][10] == ':';
    }
  }

  lemma WhereFound(t: string)
    requires |t| == 23 && Chain(t, 0, 9) == 1 && forall q: nat :: Occurs(t, q) <==> q == 9
    ensures NextHit(t, 0, 0, true) == 9 && NextHit(t, 23, 23, true) == 23 && NextHit(t, 0, 0, false) == 23
  {
    assert Occurs(t, 9) && Hit(t, 0, 9, true);
    NextHitIsFirst(t, 0, 0, true);
    NextHitIsFirst(t, 0, 0, false);
  }

  /** A plain search finds a value there, and the scanner none. */
  lemma DoubledKeyIsMissed(max: nat)
    requires max > 0
    ensures Take(Extract(|DOUBLED|, Plain(DOUBLED), 0), max) == ["1"] && FeedFrom(IDLE, DOUBLED, 0, max).out == []
  {
    var t := DOUBLED;
    DoubledText();
    OnlyAtNine(t);
    WhereFound(t);
    ScanIsExtract(t, max);
    ValueInQuotes(t);
  }

  lemma ValueInQuotes(t: string)
    requires |t| == 23 && t[21] == '1' && t[22] == '"'
    requires NextHit(t, 0, 0, true) == 9 && NextHit(t, 23, 23, true) == 23 && NextHit(t, 0, 0, false) == 23
    ensures Extract(23, Plain(t), 0) == ["1"] && Extract(23, Rolling(t), 0) == []
  {
    assert Close(t, 21) == 22 && t[21..22] == "1";
    assert Plain(t)(0) == Stop(9, 22, "1") && Plain(t)(23).at == 23 && Rolling(t)(0).at == 23;
    assert Extract(23, Plain(t), 23) == [];
  }

  // ---------------------------------------------------------------------
  // Pieces
  // ---------------------------------------------------------------------

  function Joined(chunks: seq<string>): (t: string)
  {
    if chunks == [] then "" else Joined(chunks[..|chunks| - 1]) + chunks[|chunks| - 1]
  }

  lemma {:induction false} FeedMore(s: Scan, t: string, u: string, i: nat, max: nat)
    requires ScanOk(s) && i <= |t|
    ensures FeedFrom(s, t + u, i, max) == FeedFrom(FeedFrom(s, t, i, max), t + u, |t|, max)
    decreases |t| - i
  {
    if i < |t| {
      assert (t + u)[i] == t[i];
      FeedMore(Feed(s, t[i], max), t, u, i + 1, max);
    }
  }

  /** Once enough values are in, more text changes nothing. */
  lemma {:induction false} EnoughIsEnough(s: Scan, t: string, i: nat, max: nat)
    requires ScanOk(s) && i <= |t| && |s.out| >= max
    ensures FeedFrom(s, t, i, max).out == s.out
    decreases |t| - i
  {
    if i < |t| {
      EnoughIsEnough(Feed(s, t[i], max), t, i + 1, max);
    }
  }

  // ---------------------------------------------------------------------
  // The code
  // ---------------------------------------------------------------------

  /** `scan_t`. */
  class ScanState {
    var matched: nat
    var capturing: bool
    const val: array<char>
    var valLen: nat
    var out: seq<string>
    const max: nat

    ghost predicate Valid()
      reads this, val
    {
      val.Length == VAL_MAX + 1 && valLen <= VAL_MAX && matched < 12 && (!capturing ==> valLen == 0)
    }

    ghost function View(): (s: Scan)
      requires Valid()
      reads this, val
    {
      Scan(matched, capturing, val[..valLen], out)
    }

    constructor (max: nat)
      ensures Valid() && View() == IDLE && this.max == max && fresh(val)
    {
      matched, capturing, valLen, out := 0, false, 0, [];
      val := new char[VAL_MAX + 1](_ => '\0');
      this.max := max;
    }

    method ScanByte(c: char)
      requires Valid()
      modifies this`matched, this`capturing, this`valLen, this`out, val
      ensures Valid() && View() == Feed(old(View()), c, max)
    {
      if capturing {
        if c == '"' {
          if |out| < max {
            var from := if valLen > 0 && (val[0] == 'v' || val[0] == 'V') then 1 else 0;
            out := out + [val[from..valLen]];
          }
          capturing, valLen := false, 0;
        } else if valLen + 1 < val.Length {
          val[valLen] := c;
          valLen := valLen + 1;
        }
        return;
      }
      if c == NEEDLE[matched] {
        matched := matched + 1;
        if matched == |NEEDLE| {
          capturing, valLen, matched := true, 0, 0;
        }
      } else {
        matched := if c == NEEDLE[0] then 1 else 0;
      }
    }

    /** One buffer of the response. */
    method ScanChunk(buf: string, ghost before: string)
      requires Valid() && View() == FeedFrom(IDLE, before, 0, max)
      modifies this`matched, this`capturing, this`valLen, this`out, val
      ensures Valid() && View() == FeedFrom(IDLE, before + buf, 0, max)
    {
      ghost var all := before + buf;
      FeedMore(IDLE, before, buf, 0, max);
      for i := 0 to |buf|
        invariant Valid() && FeedFrom(View(), all, |before| + i, max) == FeedFrom(IDLE, all, 0, max)
      {
        ScanByte(buf[i]);
      }
    }
  }

  /** The read loop: pieces in, the first `max` values out, wherever the pieces are cut. */
  method Check(chunks: seq<string>, max: nat) returns (found: seq<string>)
    ensures var t := Joined(chunks);
            && found == Take(Extract(|t|, Rolling(t), 0), max)
            && (AllGood(|t|, Plain(t), EvenChain(t), 0) ==> found == Take(Extract(|t|, Plain(t), 0), max))
  {
    var s := new ScanState(max);
    var k := 0;
    while k < |chunks|
      invariant k <= |chunks| && s.Valid() && fresh(s) && fresh(s.val) && s.max == max
      invariant s.View() == FeedFrom(IDLE, Joined(chunks[..k]), 0, max)
    {
      s.ScanChunk(chunks[k], Joined(chunks[..k]));
      JoinOne(chunks, k);
      k := k + 1;
      if |s.out| >= max {
        break;
      }
    }
    found := s.out;
    Rest(chunks, k, max);
    ScanIsExtract(Joined(chunks), max);
    ghost var t := Joined(chunks);
    if AllGood(|t|, Plain(t), EvenChain(t), 0) {
      EvenChainsSuffice(t, max);
    }
  }

  lemma JoinOne(chunks: seq<string>, k: nat)
    requires k < |chunks|
    ensures Joined(chunks[..k + 1]) == Joined(chunks[..k]) + chunks[k]
  {
    assert chunks[..k + 1][..k] == chunks[..k];
  }

  /** What is left unread after enough values would not have added any. */
  lemma Rest(chunks: seq<string>, k: nat, max: nat)
    requires k <= |chunks|
    ensures var part := FeedFrom(IDLE, Joined(chunks[..k]), 0, max);
            k == |chunks| || |part.out| >= max ==> FeedFrom(IDLE, Joined(chunks), 0, max).out == part.out
  {
    if k == |chunks| {
      assert chunks[..k] == chunks;
    } else {
      var rest := JoinSplit(chunks, k);
      FeedMore(IDLE, Joined(chunks[..k]), rest, 0, max);
      var part := FeedFrom(IDLE, Joined(chunks[..k]), 0, max);
      if |part.out| >= max {
        EnoughIsEnough(part, Joined(chunks), |Joined(chunks[..k])|, max);
      }
    }
  }

  lemma {:induction false} JoinSplit(chunks: seq<string>, k: nat) returns (rest: string)
    requires k <= |chunks|
    ensures Joined(chunks) == Joined(chunks[..k]) + rest
  {
    if k == |chunks| {
      assert chunks[..k] == chunks;
      return "";
    }
    var n := |chunks| - 1;
    var less := JoinSplit(chunks[..n], k);
    assert chunks[..n][..k] == chunks[..k];
    rest := less + chunks[n];
  }
}
