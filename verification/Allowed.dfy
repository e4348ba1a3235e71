/**
 The allowed values of a control, written as comma-separated decimals in the table
 (`components/bluetti_ble/bt_regs.c`).
 */
module Allowed {
  import opened Regs

  /** Digits and commas: on anything else the parser's loop does not move on. */
  predicate ListText(s: string)
  {
    forall i | 0 <= i < |s| :: IsDigit(s[i]) || s[i] == ','
  }

  function DigitsLen(s: string): (n: nat)
    ensures n <= |s| && (n < |s| ==> !IsDigit(s[n]))
    ensures forall i | 0 <= i < n :: IsDigit(s[i])
  {
    if s != "" && IsDigit(s[0]) then 1 + DigitsLen(s[1..]) else 0
  }

  function DigitValue(ch: char): (d: nat)
    requires IsDigit(ch)
  {
    ch as nat - '0' as nat
  }

  function Value(ds: string): (v: nat)
    requires forall i | 0 <= i < |ds| :: IsDigit(ds[i])
  {
    if ds == "" then 0 else 10 * Value(ds[..|ds| - 1]) + DigitValue(ds[|ds| - 1])
  }

  /** The numbers written in a text: its maximal runs of digits. */
  function Numbers(s: string): (vs: seq<int>)
    decreases |s|
  {
    var n := DigitsLen(s);
    if s == "" then []
    else if n == 0 then Numbers(s[1..])
    else [Value(s[..n])] + Numbers(s[n..])
  }

  // ---------------------------------------------------------------------
  // Readers of lists
  // ---------------------------------------------------------------------

  predicate AllDigits(ds: string)
  {
    forall i | 0 <= i < |ds| :: IsDigit(ds[i])
  }

  predicate EndsNumber(rest: string)
  {
    rest == "" || !IsDigit(rest[0])
  }

  /** What a reader of lists does: commas stand for nothing, a run of digits for its value. */
  ghost predicate ReadsLists(read: string -> seq<int>)
  {
    && read("") == [] && (forall w: string :: read("," + w) == read(w))
    && forall ds: string, rest: string | ds != "" && AllDigits(ds) && EndsNumber(rest) :: read(ds + rest) == [Value(ds)] + read(rest)
  }

  lemma {:induction false} RunLength(ds: string, rest: string)
    requires AllDigits(ds) && EndsNumber(rest)
    ensures DigitsLen(ds + rest) == |ds|
  {
    if ds == "" {
      assert ds + rest == rest;
    } else {
      assert (ds + rest)[0] == ds[0] && (ds + rest)[1..] == ds[1..] + rest;
      RunLength(ds[1..], rest);
    }
  }

  lemma NumberFirst(ds: string, rest: string)
    requires ds != "" && AllDigits(ds) && EndsNumber(rest)
    ensures Numbers(ds + rest) == [Value(ds)] + Numbers(rest)
  {
    RunLength(ds, rest);
    assert (ds + rest)[..|ds|] == ds && (ds + rest)[|ds|..] == rest;
  }

  lemma CommaFirst(w: string)
    ensures Numbers("," + w) == Numbers(w)
  {
    RunLength("", "," + w);
    assert "" + ("," + w) == "," + w && ("," + w)[1..] == w;
  }

  /** The numbers of a text, as a reader. */
  function Reader(): (read: string -> seq<int>)
  {
    (s: string) => Numbers(s)
  }

  lemma NumbersReadsLists()
    ensures ReadsLists(Reader())
  {
    forall w: string
      ensures Numbers("," + w) == Numbers(w)
    {
      CommaFirst(w);
    }
    forall ds: string, rest: string | ds != "" && AllDigits(ds) && EndsNumber(rest)
      ensures Numbers(ds + rest) == [Value(ds)] + Numbers(rest)
    {
      NumberFirst(ds, rest);
    }
  }

  // ---------------------------------------------------------------------
  // The parser
  // ---------------------------------------------------------------------

  function Upto(vs: seq<int>, n: nat): (r: seq<int>)
  {
    if |vs| <= n then vs else vs[..n]
  }

  /** What has been read so far, with what is still to be read. */
  ghost function WithRest(out: seq<int>, rest: seq<int>, n: nat): (vs: seq<int>)
    requires |out| <= n
  {
    out + Upto(rest, n - |out|)
  }

  lemma OneMore(out: seq<int>, v: int, rest: seq<int>, n: nat)
    requires |out| < n
    ensures WithRest(out, [v] + rest, n) == WithRest(out + [v], rest, n)
  {
    if |rest| > n - |out| - 1 {
      assert ([v] + rest)[..n - |out|] == [v] + rest[..n - |out| - 1];
    }
  }

  method ReadNumber(s: string, p: nat) returns (v: nat, q: nat)
    requires p <= |s|
    ensures p <= q <= |s| && AllDigits(s[p..q]) && EndsNumber(s[q..]) && v == Value(s[p..q])
  {
    v, q := 0, p;
    ghost var ds := "";
    while q < |s| && IsDigit(s[q])
      invariant p <= q <= |s| && s[p..q] == ds && AllDigits(ds) && v == Value(ds)
    {
      DigitMore(ds, s[q]);
      v := v * 10 + DigitValue(s[q]);
      ds := ds + [s[q]];
      q := q + 1;
    }
    assert q < |s| ==> s[q..][0] == s[q];
  }

  lemma DigitMore(ds: string, ch: char)
    requires AllDigits(ds) && IsDigit(ch)
    ensures AllDigits(ds + [ch]) && Value(ds + [ch]) == 10 * Value(ds) + DigitValue(ch)
  {
    assert (ds + [ch])[..|ds|] == ds;
  }

  method PastCommas(s: string, q: nat, ghost read: string -> seq<int>) returns (r: nat)
    requires q <= |s| && ReadsLists(read)
    ensures q <= r <= |s| && read(s[r..]) == read(s[q..]) && (r == |s| || s[r] != ',')
  {
    r := q;
    while r < |s| && s[r] == ','
      invariant q <= r <= |s| && read(s[r..]) == read(s[q..])
    {
      assert s[r..] == "," + s[r + 1..];
      r := r + 1;
    }
  }

  /** One round of the loop: a number if one stands here, then the commas. */
  method ParseOne(s: string, p: nat, out: seq<int>, n: nat, ghost read: string -> seq<int>) returns (more: seq<int>, r: nat)
    requires ListText(s) && p < |s| && |out| < n && ReadsLists(read)
    ensures p < r <= |s| && |more| <= n && WithRest(more, read(s[r..]), n) == WithRest(out, read(s[p..]), n)
  {
    var v, q := ReadNumber(s, p);
    more := out;
    if q > p {
      assert s[p..] == s[p..q] + s[q..];
      OneMore(out, v, read(s[q..]), n);
      more := out + [v];
    } else {
      assert s[q..][0] == s[q];
    }
    r := PastCommas(s, q, read);
  }

  /** `parse_ints`: the first `n` numbers of the text, for any reader of lists. */
  method ParseBy(s: string, n: nat, ghost read: string -> seq<int>) returns (out: seq<int>)
    requires ListText(s) && ReadsLists(read)
    ensures out == Upto(read(s), n)
  {
    out := [];
    var p := 0;
    assert s[0..] == s;
    while p < |s| && |out| < n
      invariant p <= |s| && |out| <= n && WithRest(out, read(s[p..]), n) == Upto(read(s), n)
      decreases |s| - p
    {
      out, p := ParseOne(s, p, out, n, read);
    }
    assert p == |s| ==> s[p..] == "";
  }

  method ParseInts(s: string, n: nat) returns (out: seq<int>)
    requires ListText(s)
    ensures out == Upto(Numbers(s), n)
  {
    NumbersReadsLists();
    out := ParseBy(s, n, Reader());
  }

  // ---------------------------------------------------------------------
  // Reading back what is written
  // ---------------------------------------------------------------------

  function Decimal(v: nat): (s: string)
    ensures |s| > 0 && AllDigits(s)
  {
    var last := [(v % 10 + '0' as nat) as char];
    if v < 10 then last else Decimal(v / 10) + last
  }

  function Written(vs: seq<nat>): (s: string)
  {
    if vs == [] then "" else if |vs| == 1 then Decimal(vs[0]) else Decimal(vs[0]) + ("," + Written(vs[1..]))
  }

  lemma {:induction false} DecimalReadsBack(v: nat)
    ensures Value(Decimal(v)) == v
  {
    if v < 10 {
      OneDigit((v + '0' as nat) as char);
    } else {
      DecimalReadsBack(v / 10);
      DigitMore(Decimal(v / 10), (v % 10 + '0' as nat) as char);
    }
  }

  lemma OneDigit(ch: char)
    requires IsDigit(ch)
    ensures Value([ch]) == DigitValue(ch)
  {
    var none: string := "";
    DigitMore(none, ch);
    assert none + [ch] == [ch];
  }

  /** Whoever reads lists reads any list of numbers back from its text. */
  lemma {:induction false} ReadsBack(read: string -> seq<int>, vs: seq<nat>)
    requires ReadsLists(read)
    ensures read(Written(vs)) == vs
  {
    if vs != [] {
      var d := Decimal(vs[0]);
      DecimalReadsBack(vs[0]);
      if |vs| == 1 {
        assert d + "" == Written(vs) && EndsNumber("");
      } else {
        var w := Written(vs[1..]);
        ReadsBack(read, vs[1..]);
        assert EndsNumber("," + w) && read("," + w) == read(w);
        assert read(d + ("," + w)) == [vs[0]] + vs[1..];
      }
    }
  }

  /** Any list of numbers, written out and parsed again, is itself. */
  lemma ListReadsBack(vs: seq<nat>)
    ensures Numbers(Written(vs)) == vs
  {
    NumbersReadsLists();
    ReadsBack(Reader(), vs);
  }

  const HOURS: string := "1,2,3,4"
  const MODES: string := "0,1,2,4"
  const SCREEN: string := "2,3,4,5"
  const PERCENT: string := "0,100"

  lemma WrittenCons(v: nat, vs: seq<nat>)
    requires v < 10 && vs != []
    ensures Written([v] + vs) == [(v + 48) as char, ','] + Written(vs)
  {
    assert ([v] + vs)[1..] == vs;
  }

  /** Four single digits between commas. */
  lemma FourWritten(a: nat, b: nat, c: nat, d: nat)
    requires a < 10 && b < 10 && c < 10 && d < 10
    ensures Written([a, b, c, d]) ==
            [(a + 48) as char, ',', (b + 48) as char, ',', (c + 48) as char, ',', (d + 48) as char]
  {
    WrittenCons(c, [d]);
    WrittenCons(b, [c] + [d]);
    WrittenCons(a, [b] + ([c] + [d]));
    assert [a] + ([b] + ([c] + [d])) == [a, b, c, d];
  }

  lemma PercentWritten()
    ensures Written([0, 100]) == PERCENT
  {
    WrittenCons(0, [100]);
    assert Decimal(10) == Decimal(1) + "0";
    assert Decimal(100) == "100";
    assert [0] + [100] == [0, 100];
  }

  /** The text of a row of the table; switches have none. */
  function Text(bit: Ctl): (s: string)
  {
    match bit
    case EcoModeAc => HOURS
    case EcoModeDc => HOURS
    case ChargeMode => MODES
    case Display => SCREEN
    case SocMin => PERCENT
    case SocMax => PERCENT
    case _ => ""
  }

  lemma ChoicesWritten()
    ensures Written([1, 2, 3, 4]) == HOURS && Written([0, 1, 2, 4]) == MODES && Written([2, 3, 4, 5]) == SCREEN
  {
    FourWritten(1, 2, 3, 4);
    FourWritten(0, 1, 2, 4);
    FourWritten(2, 3, 4, 5);
  }

  /** Any way of writing lists that writes those four so writes every row as the table has it. */
  lemma RowByRow(row: nat, write: seq<nat> -> string)
    requires row < |CONTROLS|
    requires write([1, 2, 3, 4]) == HOURS && write([0, 1, 2, 4]) == MODES && write([2, 3, 4, 5]) == SCREEN
    requires write([0, 100]) == PERCENT && write([]) == ""
    ensures Text(CONTROLS[row].bit) == write(CONTROLS[row].allowed)
  {
  }

  lemma TextIsWritten(row: nat)
    requires row < |CONTROLS|
    ensures Text(CONTROLS[row].bit) == Written(CONTROLS[row].allowed)
  {
    ChoicesWritten();
    PercentWritten();
    RowByRow(row, (vs: seq<nat>) => Written(vs));
  }

  /** The values a control accepts are those its text in the table lists. */
  lemma TableReadsAsListed(row: nat)
    requires row < |CONTROLS|
    ensures Numbers(Text(CONTROLS[row].bit)) == CONTROLS[row].allowed
  {
    TextIsWritten(row);
    NoNegatives(row);
    ListReadsBack(CONTROLS[row].allowed);
  }

  lemma NoNegatives(row: nat)
    requires row < |CONTROLS|
    ensures forall v | v in CONTROLS[row].allowed :: v >= 0
  {
  }

  lemma TextIsList(bit: Ctl)
    ensures ListText(Text(bit))
  {
  }

  /** What the text of a row lists; eight places are enough for all of it. */
  method ReadRow(row: nat) returns (vals: seq<int>)
    requires row < |CONTROLS|
    ensures vals == CONTROLS[row].allowed
  {
    var bit := CONTROLS[row].bit;
    TextIsList(bit);
    TableReadsAsListed(row);
    FewValues(row);
    vals := ParseInts(Text(bit), 8);
  }

  method Contains(vals: seq<int>, value: int) returns (found: bool)
    ensures found <==> value in vals
  {
    for i := 0 to |vals|
      invariant value !in vals[..i]
    {
      if vals[i] == value {
        return true;
      }
    }
    return false;
  }

  /** `bt_control_valid`, from the text of the table. */
  method Validate(row: nat, value: int) returns (ok: bool)
    requires row < |CONTROLS|
    ensures ok <==> ControlValid(CONTROLS[row], value)
  {
    var c := CONTROLS[row];
    if c.kind.Bool? {
      return value == 0 || value == 1;
    }
    var vals := ReadRow(row);
    if c.kind.Range? {
      return |vals| == 2 && vals[0] <= value <= vals[1];
    }
    ok := Contains(vals, value);
  }

  lemma FewValues(row: nat)
    requires row < |CONTROLS|
    ensures |CONTROLS[row].allowed| <= 8
  {
  }
}
