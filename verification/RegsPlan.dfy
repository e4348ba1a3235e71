/**
 The polling plan (`components/bluetti_ble/bt_regs.c`) against what decoding depends on.
 */
module RegsPlan {
  import opened Bits
  import opened Regs

  /** Some read of the plan asks for register `reg`. */
  predicate Polls(plan: seq<Read>, reg: nat)
  {
    exists r | r in plan :: r.addr <= reg < r.addr + r.words
  }

  lemma {:induction false} OptionalPolled(dev: Device, n: nat, i: nat)
    requires i < n <= |OPTIONAL| && dev.fields * OPTIONAL[i].0 != {}
    ensures OPTIONAL[i].1 in OptionalReads(dev, n)
  {
    if i < n - 1 {
      OptionalPolled(dev, n - 1, i);
    }
  }

  lemma {:induction false} ControlPolled(dev: Device, n: nat, i: nat)
    requires i < n <= |CONTROLS| && CONTROLS[i].bit in dev.controls && CONTROLS[i].bit !in {SocMin, SocMax}
    ensures Read(CONTROLS[i].reg, 1) in ControlReads(dev, n)
  {
    if i < n - 1 {
      ControlPolled(dev, n - 1, i);
    }
  }

  /** The registers the tables lead to. */
  predicate Needs(dev: Device, withControls: bool, reg: nat)
  {
    || reg in {102, 140, 142, 144, 146} || 110 <= reg < 116
    || (HasRuntime(dev) && reg == 104) || (Serial in dev.fields && 116 <= reg < 120)
    || (AcInV in dev.fields && reg == 1314) || (AcInA in dev.fields && reg == 1315) || (AcOutV in dev.fields && reg == 1511)
    || (SocMin in dev.controls && reg == 2022) || (SocMax in dev.controls && reg == 2023)
    || (withControls && exists i | 0 <= i < |CONTROLS| :: CONTROLS[i].bit in dev.controls && CONTROLS[i].reg == reg)
  }

  lemma {:induction false} OptionalOrigin(dev: Device, n: nat, rd: Read) returns (i: nat)
    requires n <= |OPTIONAL| && rd in OptionalReads(dev, n)
    ensures i < n && dev.fields * OPTIONAL[i].0 != {} && rd == OPTIONAL[i].1
  {
    if rd in OptionalReads(dev, n - 1) {
      i := OptionalOrigin(dev, n - 1, rd);
    } else {
      i := n - 1;
    }
  }

  lemma {:induction false} ControlOrigin(dev: Device, n: nat, rd: Read) returns (i: nat)
    requires n <= |CONTROLS| && rd in ControlReads(dev, n)
    ensures i < n && CONTROLS[i].bit in dev.controls && rd == Read(CONTROLS[i].reg, 1)
  {
    if rd in ControlReads(dev, n - 1) {
      i := ControlOrigin(dev, n - 1, rd);
    } else {
      i := n - 1;
    }
  }

  lemma PolledIsNeeded(dev: Device, withControls: bool, reg: nat, rd: Read)
    requires rd in PlanOf(dev, withControls) && rd.addr <= reg < rd.addr + rd.words
    ensures Needs(dev, withControls, reg)
  {
    if rd in COMMON {
    } else if rd in OptionalReads(dev, |OPTIONAL|) {
      var i := OptionalOrigin(dev, |OPTIONAL|, rd);
      var f :| f in dev.fields * OPTIONAL[i].0;
      assert f in dev.fields;
    } else if rd !in RangeReads(dev) {
      var i := ControlOrigin(dev, |CONTROLS|, rd);
    }
  }

  lemma NeededIsPolled(dev: Device, withControls: bool, reg: nat)
    requires Needs(dev, withControls, reg)
    ensures Polls(PlanOf(dev, withControls), reg)
  {
    if reg in {102, 140, 142, 144, 146} || 110 <= reg < 116 {
      CommonPolled(dev, withControls, reg);
    } else if reg < 2000 {
      NoControlBelow();
      OptionalIsPolled(dev, withControls, reg);
    } else {
      ControlIsPolled(dev, withControls, reg);
    }
  }

  lemma OptionalIsPolled(dev: Device, withControls: bool, reg: nat)
    requires (HasRuntime(dev) && reg == 104) || (Serial in dev.fields && 116 <= reg < 120) || (AcInV in dev.fields && reg == 1314)
             || (AcInA in dev.fields && reg == 1315) || (AcOutV in dev.fields && reg == 1511)
    ensures Polls(PlanOf(dev, withControls), reg)
  {
    var i: nat := if reg == 104 then 0 else if reg == 1314 then 1 else if reg == 1315 then 2 else if reg == 1511 then 3 else 4;
    FlagGivesRead(dev, i);
    OptionalPolled(dev, |OPTIONAL|, i);
    assert OPTIONAL[i].1 in PlanOf(dev, withControls);
  }

  lemma ControlIsPolled(dev: Device, withControls: bool, reg: nat)
    requires Needs(dev, withControls, reg) && reg >= 2000
    ensures Polls(PlanOf(dev, withControls), reg)
  {
    var i := ControlRow(dev, withControls, reg);
    if CONTROLS[i].bit in {SocMin, SocMax} {
      assert Read(reg, 1) in RangeReads(dev);
    } else {
      ControlPolled(dev, |CONTROLS|, i);
    }
    assert Read(reg, 1) in PlanOf(dev, withControls);
  }

  lemma CommonPolled(dev: Device, withControls: bool, reg: nat)
    requires reg in {102, 140, 142, 144, 146} || 110 <= reg < 116
    ensures Polls(PlanOf(dev, withControls), reg)
  {
    var i: nat := if reg == 102 then 0 else if reg == 146 then 1 else if reg == 142 then 2
                  else if reg == 144 then 3 else if reg == 140 then 4 else 5;
    assert COMMON[i] in PlanOf(dev, withControls);
  }

  lemma FlagGivesRead(dev: Device, i: nat)
    requires i < |OPTIONAL|
    ensures forall f | f in OPTIONAL[i].0 && f in dev.fields :: dev.fields * OPTIONAL[i].0 != {}
  {
    forall f | f in OPTIONAL[i].0 && f in dev.fields
      ensures dev.fields * OPTIONAL[i].0 != {}
    {
      assert f in dev.fields * OPTIONAL[i].0;
    }
  }

  lemma PolledIffNeeded(dev: Device, withControls: bool, reg: nat)
    ensures Polls(PlanOf(dev, withControls), reg) <==> Needs(dev, withControls, reg)
  {
    if Polls(PlanOf(dev, withControls), reg) {
      var rd :| rd in PlanOf(dev, withControls) && rd.addr <= reg < rd.addr + rd.words;
      PolledIsNeeded(dev, withControls, reg, rd);
    } else if Needs(dev, withControls, reg) {
      NeededIsPolled(dev, withControls, reg);
    }
  }

  // ---------------------------------------------------------------------
  // What decoding depends on
  // ---------------------------------------------------------------------

  ghost predicate SameBut(r: Response, q: Response, reg: nat)
  {
    forall a: nat | a != reg :: Reg(r, a) == Reg(q, a)
  }

  /** Decoding depends on the register: two responses that differ in nothing else can lead to different states. */
  ghost predicate Matters(dev: Device, reg: nat)
  {
    exists r, q, st :: SameBut(r, q, reg) && Applied(dev, r, st) != Applied(dev, q, st)
  }

  /** The register of a control other than the two that are polled as part of the state of charge. */
  predicate IsSetting(reg: nat)
  {
    exists i: nat | i < |CONTROLS| :: CONTROLS[i].reg == reg && CONTROLS[i].bit !in {SocMin, SocMax}
  }

  ghost predicate AgreeOnNeeded(dev: Device, r: Response, q: Response)
  {
    forall a: nat | Needs(dev, true, a) :: Reg(r, a) == Reg(q, a)
  }

  lemma {:induction false} SameText(r: Response, q: Response, addr: nat, words: nat)
    requires forall a: nat | addr <= a < addr + words :: Reg(r, a) == Reg(q, a)
    ensures TextFrom(r, addr, words) == TextFrom(q, addr, words)
    decreases words
  {
    if words > 0 {
      SameText(r, q, addr + 1, words - 1);
    }
  }

  lemma SameReadings(dev: Device, r: Response, q: Response, raw: Raw)
    requires AgreeOnNeeded(dev, r, q)
    ensures RawAfter(dev, r, raw) == RawAfter(dev, q, raw)
  {
    assert CommonAfter(r, raw) == CommonAfter(q, raw) by {
      assert forall a: nat | 110 <= a < 116 :: Needs(dev, true, a);
      SameText(r, q, 110, NAME_WORDS);
      assert Needs(dev, true, 102) && Needs(dev, true, 110);
      assert Needs(dev, true, 140) && Needs(dev, true, 142);
      assert Needs(dev, true, 144) && Needs(dev, true, 146);
    }
    assert HasRuntime(dev) ==> Needs(dev, true, 104);
    assert Serial in dev.fields ==> forall a: nat | 116 <= a < 120 :: Needs(dev, true, a);
    assert Serial in dev.fields ==> SerialOf(r) == SerialOf(q);
    assert AcInV in dev.fields ==> Needs(dev, true, 1314);
    assert AcInA in dev.fields ==> Needs(dev, true, 1315);
    assert AcOutV in dev.fields ==> Needs(dev, true, 1511);
  }

  /** The row a control is read through. */
  ghost predicate SameFor(dev: Device, r: Response, q: Response, i: nat)
    requires i < |CONTROLS|
  {
    CONTROLS[i].bit in dev.controls ==> Reg(r, CONTROLS[i].reg) == Reg(q, CONTROLS[i].reg)
  }

  lemma SameControls(dev: Device, r: Response, q: Response, c: Controls)
    requires forall i: nat | i < |CONTROLS| :: SameFor(dev, r, q, i)
    ensures ControlsAfter(dev, r, c) == ControlsAfter(dev, q, c)
    ensures HitsSwitches(dev, r) == HitsSwitches(dev, q) && HitsChoices(dev, r) == HitsChoices(dev, q)
  {
    ControlRows();
    assert SameFor(dev, r, q, 0) && SameFor(dev, r, q, 1) && SameFor(dev, r, q, 2) && SameFor(dev, r, q, 3);
    assert SameFor(dev, r, q, 4) && SameFor(dev, r, q, 5) && SameFor(dev, r, q, 6) && SameFor(dev, r, q, 7);
    assert SameFor(dev, r, q, 8) && SameFor(dev, r, q, 9) && SameFor(dev, r, q, 10);
  }

  lemma ControlRows()
    ensures var t := CONTROLS;
            && t[0].reg == 2011 && t[1].reg == 2012 && t[2].reg == 2017 && t[3].reg == 2014 && t[4].reg == 2018
            && t[5].reg == 2015 && t[6].reg == 2020 && t[7].reg == 2021 && t[8].reg == 2022 && t[9].reg == 2023
            && t[10].reg == 2067
  {
  }

  lemma SameHits(dev: Device, r: Response, q: Response)
    requires AgreeOnNeeded(dev, r, q)
    ensures HitsCommon(r) == HitsCommon(q) && HitsOptional(dev, r) == HitsOptional(dev, q)
  {
    assert Needs(dev, true, 102) && Needs(dev, true, 110);
    assert Needs(dev, true, 140) && Needs(dev, true, 142) && Needs(dev, true, 144) && Needs(dev, true, 146);
    assert HasRuntime(dev) ==> Needs(dev, true, 104);
    assert Serial in dev.fields ==> forall a: nat | 116 <= a < 120 :: Needs(dev, true, a);
    assert AcInV in dev.fields ==> Needs(dev, true, 1314);
    assert AcInA in dev.fields ==> Needs(dev, true, 1315);
    assert AcOutV in dev.fields ==> Needs(dev, true, 1511);
  }

  lemma SameDecoded(dev: Device, r: Response, q: Response, st: State)
    requires AgreeOnNeeded(dev, r, q)
    ensures Applied(dev, r, st) == Applied(dev, q, st)
  {
    SameReadings(dev, r, q, st.raw);
    SameHits(dev, r, q);
    forall i: nat | i < |CONTROLS|
      ensures SameFor(dev, r, q, i)
    {
      assert CONTROLS[i].bit in dev.controls ==> Needs(dev, true, CONTROLS[i].reg);
    }
    SameControls(dev, r, q, st.controls);
  }

  // ---------------------------------------------------------------------
  // Every register polled can make a difference
  // ---------------------------------------------------------------------

  /** A response with one register in it. */
  function One(reg: nat, v: nat): (r: Response)
    requires v < 0x1_0000
  {
    Response(reg, [v / 256, v % 256])
  }

  lemma OneHolds(reg: nat, v: nat, a: nat)
    requires v < 0x1_0000
    ensures Reg(One(reg, v), a) == if a == reg then v else -1
  {
  }

  lemma OnesDiffer(reg: nat, v: nat, w: nat)
    requires v < 0x1_0000 && w < 0x1_0000
    ensures SameBut(One(reg, v), One(reg, w), reg) && Reg(One(reg, v), reg) == v && Reg(One(reg, w), reg) == w
  {
    OneHolds(reg, v, reg);
    OneHolds(reg, w, reg);
    forall a: nat | a != reg
      ensures Reg(One(reg, v), a) == Reg(One(reg, w), a)
    {
      OneHolds(reg, v, a);
      OneHolds(reg, w, a);
    }
  }

  lemma ReadingMatters(dev: Device, reg: nat, r: Response, q: Response)
    requires SameBut(r, q, reg) && RawAfter(dev, r, NO_READINGS) != RawAfter(dev, q, NO_READINGS)
    ensures Matters(dev, reg)
  {
    assert Applied(dev, r, NOTHING_READ).raw != Applied(dev, q, NOTHING_READ).raw;
  }

  lemma SingleMatters(dev: Device, reg: nat)
    requires reg in {102, 140, 142, 144, 146} || (HasRuntime(dev) && reg == 104) || (AcInV in dev.fields && reg == 1314)
             || (AcInA in dev.fields && reg == 1315) || (AcOutV in dev.fields && reg == 1511)
    ensures Matters(dev, reg)
  {
    OnesDiffer(reg, 1, 2);
    var a, b := RawAfter(dev, One(reg, 1), NO_READINGS), RawAfter(dev, One(reg, 2), NO_READINGS);
    assert reg == 102 ==> a.soc != b.soc;
    assert reg == 140 ==> a.dcOut != b.dcOut;
    assert reg == 142 ==> a.acOut != b.acOut;
    assert reg == 144 ==> a.dcIn != b.dcIn;
    assert reg == 146 ==> a.acIn != b.acIn;
    assert reg == 104 ==> a.minutes != b.minutes;
    assert reg == 1314 ==> a.acInVolts != b.acInVolts;
    assert reg == 1315 ==> a.acInAmps != b.acInAmps;
    assert reg == 1511 ==> a.acOutVolts != b.acOutVolts;
    ReadingMatters(dev, reg, One(reg, 1), One(reg, 2));
  }

  /** A name of twelve letters, A but for the `i`-th word. */
  function Name(i: nat, ch: byte): (r: Response)
  {
    Response(110, seq(12, j requires 0 <= j < 12 => if j / 2 == i then ch else 65))
  }

  lemma NameHolds(i: nat, ch: byte, k: nat)
    ensures Reg(Name(i, ch), 110 + k) == if k >= 6 then -1 else if k == i then 257 * ch else 257 * 65
  {
    var r := Name(i, ch);
    if k < 6 {
      assert r.data[2 * k] == (if 2 * k / 2 == i then ch else 65) && r.data[2 * k + 1] == if (2 * k + 1) / 2 == i then ch else 65;
    }
  }

  lemma TwoLetters(ch: byte)
    requires ch == 65 || ch == 66
    ensures WordText(257 * ch) == [ch as char, ch as char]
  {
  }

  /** Word `k` of the name holds one letter twice: `ch` if it is the `i`-th, else A. */
  ghost predicate LetterAt(r: Response, i: nat, ch: byte, k: nat)
  {
    Reg(r, 110 + k) == if k == i then 257 * ch else 257 * 65
  }

  /** A text of two letters a word from word `k` on, none a space, those of word `i` being `ch`. */
  predicate Letters(t: string, i: nat, ch: byte, k: nat)
    requires k <= 6
  {
    && |t| == 2 * (6 - k) && (forall j | 0 <= j < |t| :: t[j] != ' ')
    && (k <= i < 6 ==> t[2 * (i - k)] == ch as char)
  }

  lemma LettersMore(rest: string, i: nat, ch: byte, k: nat)
    requires i < 6 && k < 6 && (ch == 65 || ch == 66) && Letters(rest, i, ch, k + 1)
    ensures var c := if k == i then ch as char else 'A'; Letters([c, c] + rest, i, ch, k)
  {
    Doubled(if k == i then ch as char else 'A', rest, i - k);
  }

  lemma LetterRead(r: Response, i: nat, ch: byte, k: nat)
    requires i < 6 && k < 6 && (ch == 65 || ch == 66) && LetterAt(r, i, ch, k)
    ensures var c := if k == i then ch as char else 'A';
            TextFrom(r, 110 + k, NAME_WORDS - k) == [c, c] + TextFrom(r, 110 + k + 1, NAME_WORDS - k - 1)
  {
    TwoLetters(if k == i then ch else 65);
  }

  /** The letters from word `k` on. */
  lemma {:induction false} NameReads(r: Response, i: nat, ch: byte, k: nat)
    requires i < 6 && k <= 6 && (ch == 65 || ch == 66) && forall m: nat | m < 6 :: LetterAt(r, i, ch, m)
    ensures Letters(TextFrom(r, 110 + k, NAME_WORDS - k), i, ch, k)
    decreases 6 - k
  {
    if k < 6 {
      assert LetterAt(r, i, ch, k);
      NameReads(r, i, ch, k + 1);
      LettersMore(TextFrom(r, 110 + k + 1, NAME_WORDS - k - 1), i, ch, k);
      LetterRead(r, i, ch, k);
    }
  }

  /** Two letters put before a text. */
  lemma Doubled(c: char, rest: string, d: int)
    ensures var t := [c, c] + rest;
            && |t| == |rest| + 2 && (c != ' ' && (forall j | 0 <= j < |rest| :: rest[j] != ' ') ==> forall j | 0 <= j < |t| :: t[j] != ' ')
            && (d == 0 ==> t[2 * d] == c) && (0 < d && 2 * (d - 1) < |rest| ==> t[2 * d] == rest[2 * (d - 1)])
  {
  }

  lemma NamesDiffer(i: nat)
    requires i < 6
    ensures SameBut(Name(i, 65), Name(i, 66), 110 + i)
  {
    forall a: nat | a != 110 + i
      ensures Reg(Name(i, 65), a) == Reg(Name(i, 66), a)
    {
      if a >= 110 {
        NameHolds(i, 65, a - 110);
        NameHolds(i, 66, a - 110);
      }
    }
  }

  lemma NameDecoded(dev: Device, i: nat, ch: byte)
    requires i < 6 && (ch == 65 || ch == 66)
    ensures var name := RawAfter(dev, Name(i, ch), NO_READINGS).model; |name| == 12 && name[2 * i] == ch as char
  {
    forall m: nat | m < 6
      ensures LetterAt(Name(i, ch), i, ch, m)
    {
      NameHolds(i, ch, m);
    }
    NamedBy(dev, Name(i, ch), i, ch);
  }

  lemma NamedBy(dev: Device, r: Response, i: nat, ch: byte)
    requires i < 6 && (ch == 65 || ch == 66) && forall m: nat | m < 6 :: LetterAt(r, i, ch, m)
    ensures var name := RawAfter(dev, r, NO_READINGS).model; |name| == 12 && name[2 * i] == ch as char
  {
    var t := TextOfName(r, i, ch);
    LettersStand(t, i, ch);
    ModelRead(dev, r, t);
  }

  lemma TextOfName(r: Response, i: nat, ch: byte) returns (t: string)
    requires i < 6 && (ch == 65 || ch == 66) && forall m: nat | m < 6 :: LetterAt(r, i, ch, m)
    ensures t == TextFrom(r, 110, NAME_WORDS) && Letters(t, i, ch, 0) && Reg(r, 110) >= 0
  {
    NameReads(r, i, ch, 0);
    t := TextFrom(r, 110 + 0, NAME_WORDS - 0);
    assert LetterAt(r, i, ch, 0);
  }

  lemma ModelRead(dev: Device, r: Response, t: string)
    requires Reg(r, 110) >= 0 && t == TextFrom(r, 110, NAME_WORDS) == Trim(t)
    ensures RawAfter(dev, r, NO_READINGS).model == t
  {
  }

  /** Nothing is trimmed off them. */
  lemma LettersStand(t: string, i: nat, ch: byte)
    requires i < 6 && Letters(t, i, ch, 0)
    ensures Trim(t) == t && |t| == 12 && t[2 * i] == ch as char
  {
    assert t[11] != ' ';
  }

  lemma NameMatters(dev: Device, i: nat)
    requires i < 6
    ensures Matters(dev, 110 + i)
  {
    NamesDiffer(i);
    NameDecoded(dev, i, 65);
    NameDecoded(dev, i, 66);
    ReadingMatters(dev, 110 + i, Name(i, 65), Name(i, 66));
  }

  /** A serial number with one word of four set. */
  function SerialWord(i: nat, v: byte): (r: Response)
  {
    Response(116, seq(8, j requires 0 <= j < 8 => if j == 2 * i + 1 then v else 0))
  }

  lemma SerialHolds(i: nat, v: byte, k: nat)
    requires i < 4
    ensures Reg(SerialWord(i, v), 116 + k) == if k >= 4 then -1 else if k == i then v else 0
  {
    var r := SerialWord(i, v);
    if k < 4 {
      assert r.data[2 * k] == 0 && r.data[2 * k + 1] == if k == i then v else 0;
    }
  }

  lemma SerialMatters(dev: Device, i: nat)
    requires i < 4 && Serial in dev.fields
    ensures Matters(dev, 116 + i)
  {
    var r, q := SerialWord(i, 1), SerialWord(i, 2);
    forall a: nat | a != 116 + i
      ensures Reg(r, a) == Reg(q, a)
    {
      if a >= 116 {
        SerialHolds(i, 1, a - 116);
        SerialHolds(i, 2, a - 116);
      }
    }
    SerialValue(i, 1);
    SerialValue(i, 2);
    assert RawAfter(dev, r, NO_READINGS).serial != RawAfter(dev, q, NO_READINGS).serial;
    ReadingMatters(dev, 116 + i, r, q);
  }

  lemma SerialValue(i: nat, v: byte)
    requires i < 4
    ensures SerialOf(SerialWord(i, v)) ==
            v * if i == 0 then 1 else if i == 1 then 0x1_0000 else if i == 2 then 0x1_0000_0000 else 0x1_0000_0000_0000
  {
    SerialHolds(i, v, 0);
    SerialHolds(i, v, 1);
    SerialHolds(i, v, 2);
    SerialHolds(i, v, 3);
  }

  /** The lower of two values a control can both take. */
  function Lower(bit: Ctl): (v: nat)
    ensures Accepts(bit, v) && Accepts(bit, v + 1)
  {
    match bit
    case EcoModeAc => 1
    case EcoModeDc => 1
    case Display => 2
    case _ => 0
  }

  lemma ControlMatters(dev: Device, i: nat)
    requires i < |CONTROLS| && CONTROLS[i].bit in dev.controls
    ensures Matters(dev, CONTROLS[i].reg)
  {
    var bit, reg := CONTROLS[i].bit, CONTROLS[i].reg;
    var v := Lower(bit);
    var r, q := One(reg, v), One(reg, v + 1);
    OnesDiffer(reg, v, v + 1);
    CurrentFollows(dev, r, NO_CONTROLS, i);
    CurrentFollows(dev, q, NO_CONTROLS, i);
    assert Applied(dev, r, NOTHING_READ).controls != Applied(dev, q, NOTHING_READ).controls;
  }

  lemma NeededMatters(dev: Device, reg: nat)
    requires Needs(dev, true, reg)
    ensures Matters(dev, reg)
  {
    if 110 <= reg < 116 {
      NameMatters(dev, reg - 110);
    } else if 116 <= reg < 120 {
      SerialMatters(dev, reg - 116);
    } else if reg < 2000 {
      NoControlBelow();
      SingleMatters(dev, reg);
    } else {
      var i := ControlRow(dev, true, reg);
      ControlMatters(dev, i);
    }
  }

  lemma NoControlBelow()
    ensures forall i: nat | i < |CONTROLS| :: CONTROLS[i].reg >= 2000
  {
  }

  lemma ControlRow(dev: Device, withControls: bool, reg: nat) returns (i: nat)
    requires Needs(dev, withControls, reg) && reg >= 2000
    ensures i < |CONTROLS| && CONTROLS[i].bit in dev.controls && CONTROLS[i].reg == reg && (withControls || i == 8 || i == 9)
  {
    assert CONTROLS[8].reg == 2022 && CONTROLS[8].bit == SocMin && CONTROLS[9].reg == 2023 && CONTROLS[9].bit == SocMax;
    if reg == 2022 && SocMin in dev.controls {
      return 8;
    }
    if reg == 2023 && SocMax in dev.controls {
      return 9;
    }
    i :| 0 <= i < |CONTROLS| && CONTROLS[i].bit in dev.controls && CONTROLS[i].reg == reg;
  }

  /** Without controls, of the registers needed with them just the settings are left out. */
  lemma NeedsWithout(dev: Device, reg: nat)
    ensures Needs(dev, false, reg) <==> Needs(dev, true, reg) && !IsSetting(reg)
  {
    NoControlBelow();
    assert CONTROLS[8].reg == 2022 && CONTROLS[8].bit == SocMin && CONTROLS[9].reg == 2023 && CONTROLS[9].bit == SocMax;
    OwnRegisters(reg);
  }

  /** No two controls share a register. */
  lemma OwnRegisters(reg: nat)
    ensures forall i: nat, j: nat | i < |CONTROLS| && j < |CONTROLS| && CONTROLS[i].reg == reg == CONTROLS[j].reg :: i == j
  {
    ControlRows();
  }

  /** The plan polls exactly the registers decoding depends on, less the settings when controls are off. */
  lemma PlanIsExact(dev: Device, withControls: bool, reg: nat)
    ensures Polls(PlanOf(dev, withControls), reg) <==> Matters(dev, reg) && (withControls || !IsSetting(reg))
  {
    PolledIffNeeded(dev, withControls, reg);
    NeedsWithout(dev, reg);
    if Needs(dev, true, reg) {
      NeededMatters(dev, reg);
    } else if Matters(dev, reg) {
      var r, q, st :| SameBut(r, q, reg) && Applied(dev, r, st) != Applied(dev, q, st);
      SameDecoded(dev, r, q, st);
      assert false;
    }
  }

  /** A value the model takes from the register: a charge up to 100, any power or voltage, a setting the control can have. */
  predicate Usable(dev: Device, reg: nat, v: int)
  {
    || (reg == 102 && 0 <= v <= 100) || (reg in {140, 142, 144, 146} && v >= 0) || (reg == 1314 && AcInV in dev.fields && v >= 0)
    || (reg == 1315 && AcInA in dev.fields && v >= 0) || (reg == 1511 && AcOutV in dev.fields && v >= 0)
    || exists i: nat | i < |CONTROLS| :: CONTROLS[i].reg == reg && Believed(dev, CONTROLS[i].bit, v)
  }

  lemma AllControls(dev: Device, r: Response)
    requires forall i: nat | i < |CONTROLS| :: !Believed(dev, CONTROLS[i].bit, Reg(r, CONTROLS[i].reg))
    ensures !HitsSwitches(dev, r) && !HitsChoices(dev, r)
  {
    ControlRows();
  }

  /** A response without any register the full plan polls changes no reading and no control. */
  lemma UnpolledHasNoUse(dev: Device, r: Response, st: State)
    requires forall reg: nat | Polls(PlanOf(dev, true), reg) :: Reg(r, reg) < 0
    ensures !Hits(dev, r)
    ensures Applied(dev, r, st).raw == st.raw && Applied(dev, r, st).controls == st.controls
  {
    forall reg: nat | Needs(dev, true, reg)
      ensures Reg(r, reg) < 0
    {
      PolledIffNeeded(dev, true, reg);
    }
    assert !HitsCommon(r) by {
      assert Needs(dev, true, 102) && Needs(dev, true, 110);
      assert Needs(dev, true, 140) && Needs(dev, true, 142) && Needs(dev, true, 144) && Needs(dev, true, 146);
    }
    assert !HitsOptional(dev, r) by {
      assert HasRuntime(dev) ==> Needs(dev, true, 104);
      assert Serial in dev.fields ==> Needs(dev, true, 116);
      assert AcInV in dev.fields ==> Needs(dev, true, 1314);
      assert AcInA in dev.fields ==> Needs(dev, true, 1315);
      assert AcOutV in dev.fields ==> Needs(dev, true, 1511);
    }
    forall i: nat | i < |CONTROLS|
      ensures !Believed(dev, CONTROLS[i].bit, Reg(r, CONTROLS[i].reg))
    {
      assert CONTROLS[i].bit in dev.controls ==> Needs(dev, true, CONTROLS[i].reg);
    }
    AllControls(dev, r);
    NoHitNoChange(dev, r, st);
  }
}
