/**
 What the decoded state means (`components/bluetti_ble/bt_regs.c`): totals, battery flow and
 charging in terms of the values last reported, and texts in terms of what the unit wrote.
 */
module RegsMeaning {
  import opened Bits
  import opened Regs
  import opened RegsPlan

  // ---------------------------------------------------------------------
  // Totals, flow and charging
  // ---------------------------------------------------------------------

  /** `t` is the sum of those of two reports there have been; unknown if there has been none. */
  predicate TotalOf(t: int, a: int, b: int)
  {
    if a < 0 && b < 0 then t == -1000
    else if a < 0 then t == b
    else if b < 0 then t == a
    else t == a + b
  }

  /**
   After any responses from reset, the totals are the sums of the last reports, the battery gives what goes out
   beyond what comes in, and the unit charges when it is not full and more comes in than goes out, or, as long as
   one total is unknown, when the mains are present or some power comes in.
   */
  lemma DerivedIsLatest(dev: Device, rs: seq<Response>)
    ensures var st := ApplyAll(dev, rs, NOTHING_READ);
            var acOut, dcOut, acIn, dcIn := Latest(rs, 142, -1), Latest(rs, 140, -1), Latest(rs, 146, -1), Latest(rs, 144, -1);
            var d, charge := st.derived, LatestCharge(rs);
            var mains := acIn > 0 || (AcInV in dev.fields && Latest(rs, 1314, -1) > 0);
            var known := (acOut >= 0 || dcOut >= 0) && (acIn >= 0 || dcIn >= 0);
            && TotalOf(d.output, acOut, dcOut) && TotalOf(d.input, acIn, dcIn)
            && (if known then d.battery == d.output - d.input else d.battery == -1000)
            && (known ==> (d.battery > 0 <==> d.output > d.input))
            && (d.charging <==> 0 <= charge < 100 && if known then d.input > d.output else mains || dcIn > 0)
            && (d.acInputPresent <==> mains)
  {
    IncrementalIsBatch(dev, rs);
    TelemetryIsLatest(dev, rs);
    LatestOr(rs, 142);
    LatestOr(rs, 140);
    LatestOr(rs, 146);
    LatestOr(rs, 144);
    LatestOr(rs, 1314);
  }

  lemma {:induction false} LatestOr(rs: seq<Response>, addr: nat)
    ensures Latest(rs, addr, -1) >= -1
    ensures Latest(rs, addr, UNKNOWN_W) == if Latest(rs, addr, -1) >= 0 then Latest(rs, addr, -1) else UNKNOWN_W
  {
    if rs != [] {
      LatestOr(rs[..|rs| - 1], addr);
    }
  }

  /** The runtime is the last report in minutes, in units of six on some models; a report of none leaves it unknown. */
  lemma RuntimeIs(dev: Device, rs: seq<Response>)
    ensures var m, v := ApplyAll(dev, rs, NOTHING_READ).raw.minutes, Latest(rs, 104, -1);
            if (RtMin !in dev.fields && Rt6Min !in dev.fields) || v <= 0 then m == -1
            else m == if Rt6Min in dev.fields then 6 * v else v
  {
    TelemetryIsLatest(dev, rs);
  }

  /** `u` is `v` tenths, or unknown without either the reading or a report. */
  predicate TenthsOf(u: real, has: bool, v: int)
  {
    if has && v >= 0 then u * 10.0 == v as real else u == -1000.0
  }

  /** Volts and amperes are tenths of the last report; the line voltage is the report itself on some models. */
  lemma VoltageIs(dev: Device, rs: seq<Response>)
    ensures var raw := ApplyAll(dev, rs, NOTHING_READ).raw;
            && TenthsOf(raw.acInAmps, AcInA in dev.fields, Latest(rs, 1315, -1))
            && TenthsOf(raw.acOutVolts, AcOutV in dev.fields, Latest(rs, 1511, -1))
            && (AcInVRaw !in dev.fields ==> TenthsOf(raw.acInVolts, AcInV in dev.fields, Latest(rs, 1314, -1)))
            && (AcInVRaw in dev.fields && AcInV in dev.fields && Latest(rs, 1314, -1) >= 0 ==> raw.acInVolts == Latest(rs, 1314, -1) as real)
  {
    TelemetryIsLatest(dev, rs);
    LatestOr(rs, 1314);
    LatestOr(rs, 1315);
    LatestOr(rs, 1511);
  }

  type uint16 = x: int | 0 <= x < 0x1_0000

  /** The serial number is four words, least significant first, each high byte first; zero, or a part of it, is no number. */
  lemma SerialIs(dev: Device, a: uint16, b: uint16, c: uint16, d: uint16, st: State)
    requires Serial in dev.fields
    ensures var r := Response(116, [a / 256, a % 256, b / 256, b % 256, c / 256, c % 256, d / 256, d % 256]);
            var sn := a + 0x1_0000 * b + 0x1_0000_0000 * c + 0x1_0000_0000_0000 * d;
            Applied(dev, r, st).raw.serial == if sn > 0 then sn else st.raw.serial
  {
    var r := Response(116, [a / 256, a % 256, b / 256, b % 256, c / 256, c % 256, d / 256, d % 256]);
    assert Reg(r, 116) == a && Reg(r, 117) == b && Reg(r, 118) == c && Reg(r, 119) == d;
    SerialTaken(dev, r, st);
  }

  lemma SerialTaken(dev: Device, r: Response, st: State)
    requires Serial in dev.fields
    ensures Applied(dev, r, st).raw.serial == if SerialOf(r) > 0 then SerialOf(r) else st.raw.serial
  {
  }

  // ---------------------------------------------------------------------
  // Text
  // ---------------------------------------------------------------------

  /** Trimming takes off the spaces at the end and nothing else. */
  lemma {:induction false} TrimIs(s: string)
    ensures var t := Trim(s);
            && |t| <= |s| && s[..|t|] == t && (forall i | |t| <= i < |s| :: s[i] == ' ')
            && (t == "" || t[|t| - 1] != ' ')
  {
    if s != [] && s[|s| - 1] == ' ' {
      var less := s[..|s| - 1];
      TrimIs(less);
      assert s[..|Trim(less)|] == less[..|Trim(less)|];
      forall i | |Trim(less)| <= i < |s| ensures s[i] == ' ' {
        if i < |s| - 1 {
          assert less[i] == ' ';
        }
      }
    }
  }

  /** The response in which the unit gives its name: character pairs swapped, zeros behind the end. */
  function NameResponse(name: string): (r: Response)
    requires forall i | 0 <= i < |name| :: name[i] < 256 as char
  {
    Response(110, seq(12, j requires 0 <= j < 12 => ByteOf(name, if j % 2 == 0 then j + 1 else j - 1)))
  }

  function ByteOf(name: string, i: nat): (b: byte)
    requires forall i | 0 <= i < |name| :: name[i] < 256 as char
  {
    if i < |name| then name[i] as int else 0
  }

  predicate Proper(name: string)
  {
    |name| <= 12 && forall i | 0 <= i < |name| :: 0 as char < name[i] < 256 as char
  }

  /** The name from word `k` on, and what of it is in word `k`. */
  function Rest(name: string, k: nat): (t: string)
  {
    if 2 * k < |name| then name[2 * k..] else ""
  }

  function Pair(name: string, k: nat): (t: string)
  {
    if 2 * k + 2 <= |name| then name[2 * k..2 * k + 2] else Rest(name, k)
  }

  lemma PairAndRest(name: string, k: nat)
    ensures Rest(name, k) == Pair(name, k) + Rest(name, k + 1)
  {
  }

  lemma NameWord(name: string, k: nat)
    requires Proper(name) && k < 6
    ensures var v := Reg(NameResponse(name), 110 + k);
            v == 256 * (ByteOf(name, 2 * k + 1) as int) + ByteOf(name, 2 * k) && WordText(v) == Pair(name, k)
  {
    var r := NameResponse(name);
    assert r.data[2 * k] == ByteOf(name, 2 * k + 1) && r.data[2 * k + 1] == ByteOf(name, 2 * k);
  }

  lemma {:induction false} NameText(name: string, r: Response, k: nat, words: nat)
    requires Proper(name) && k + words == 6 && r == NameResponse(name)
    ensures TextFrom(r, 110 + k, words) == Rest(name, k)
    decreases words
  {
    if words > 0 {
      NameWord(name, k);
      NameText(name, r, k + 1, words - 1);
      PairAndRest(name, k);
      WordFirst(r, 110 + k, words);
    }
  }

  lemma WordFirst(r: Response, addr: nat, words: nat)
    requires words > 0 && Reg(r, addr) >= 0
    ensures TextFrom(r, addr, words) == WordText(Reg(r, addr)) + TextFrom(r, addr + 1, words - 1)
  {
  }

  lemma ModelIs(dev: Device, r: Response, st: State, t: string)
    requires Reg(r, 110) >= 0 && TextFrom(r, 110, NAME_WORDS) == t
    ensures Applied(dev, r, st).raw.model == Trim(t)
  {
  }

  lemma NameWhole(name: string, r: Response)
    requires Proper(name) && r == NameResponse(name)
    ensures TextFrom(r, 110, NAME_WORDS) == name && Reg(r, 110) >= 0
  {
    NameText(name, r, 0, 6);
    NameWord(name, 0);
  }

  /** Whatever the unit writes as its name, up to twelve characters, is read back, less the spaces at its end. */
  lemma NameReadsBack(dev: Device, name: string, st: State)
    requires Proper(name)
    ensures Applied(dev, NameResponse(name), st).raw.model == Trim(name)
  {
    NameWhole(name, NameResponse(name));
    ModelIs(dev, NameResponse(name), st, name);
  }

  // ---------------------------------------------------------------------
  // Controls, field by field
  // ---------------------------------------------------------------------

  /** The value shown is the latest one reported in the register that `takes` allows, if the model has the control. */
  predicate ShownFrom(v: int, dev: Device, bit: Ctl, rs: seq<Response>, row: nat)
    requires row < |CONTROLS|
  {
    CONTROLS[row].bit == bit && v == if bit in dev.controls then LatestAccepted(rs, row) else -1
  }

  lemma SettingsAreLatest(dev: Device, rs: seq<Response>)
    ensures var c := ApplyAll(dev, rs, NOTHING_READ).controls;
            && ShownFrom(c.acSwitch, dev, AcOut, rs, 0) && ShownFrom(c.dcSwitch, dev, DcOut, rs, 1)
            && ShownFrom(c.ecoAc, dev, EcoAc, rs, 2) && ShownFrom(c.ecoDc, dev, EcoDc, rs, 3)
            && ShownFrom(c.ecoModeAc, dev, EcoModeAc, rs, 4) && ShownFrom(c.ecoModeDc, dev, EcoModeDc, rs, 5)
            && ShownFrom(c.chargingMode, dev, ChargeMode, rs, 6) && ShownFrom(c.powerLifting, dev, PowerLift, rs, 7)
            && ShownFrom(c.socMin, dev, SocMin, rs, 8) && ShownFrom(c.socMax, dev, SocMax, rs, 9)
            && ShownFrom(c.displayTime, dev, Display, rs, 10)
  {
    var c := ApplyAll(dev, rs, NOTHING_READ).controls;
    FieldsOf(c);
    forall i: nat | i < |CONTROLS|
      ensures ShownFrom(Current(CONTROLS[i].reg, c), dev, CONTROLS[i].bit, rs, i)
    {
      ControlIsLatest(dev, rs, i);
    }
    RowBits();
  }

  lemma FieldsOf(c: Controls)
    ensures var t := CONTROLS;
            && Current(t[0].reg, c) == c.acSwitch && Current(t[1].reg, c) == c.dcSwitch && Current(t[2].reg, c) == c.ecoAc
            && Current(t[3].reg, c) == c.ecoDc && Current(t[4].reg, c) == c.ecoModeAc && Current(t[5].reg, c) == c.ecoModeDc
            && Current(t[6].reg, c) == c.chargingMode && Current(t[7].reg, c) == c.powerLifting
            && Current(t[8].reg, c) == c.socMin && Current(t[9].reg, c) == c.socMax && Current(t[10].reg, c) == c.displayTime
  {
    ControlRows();
  }

  lemma RowBits()
    ensures var t := CONTROLS;
            && t[0].bit == AcOut && t[1].bit == DcOut && t[2].bit == EcoAc && t[3].bit == EcoDc && t[4].bit == EcoModeAc
            && t[5].bit == EcoModeDc && t[6].bit == ChargeMode && t[7].bit == PowerLift && t[8].bit == SocMin
            && t[9].bit == SocMax && t[10].bit == Display
  {
  }

  // ---------------------------------------------------------------------
  // What counts as usable
  // ---------------------------------------------------------------------

  /** A response counts exactly if it holds a usable value, a name, the runtime on a model that has it, or a serial number. */
  lemma HitsIff(dev: Device, r: Response)
    ensures Hits(dev, r) <==>
              || (exists reg: nat :: Usable(dev, reg, Reg(r, reg))) || Reg(r, 110) >= 0
              || ((RtMin in dev.fields || Rt6Min in dev.fields) && Reg(r, 104) >= 0)
              || (Serial in dev.fields && SerialOf(r) > 0)
  {
    if Hits(dev, r) {
      HitIsUsable(dev, r);
    }
    forall reg: nat | Usable(dev, reg, Reg(r, reg))
      ensures Hits(dev, r)
    {
      UsableHits(dev, r, reg);
    }
  }

  lemma UsableHits(dev: Device, r: Response, reg: nat)
    requires Usable(dev, reg, Reg(r, reg))
    ensures Hits(dev, r)
  {
    if i: nat :| i < |CONTROLS| && CONTROLS[i].reg == reg && Believed(dev, CONTROLS[i].bit, Reg(r, reg)) {
      ControlRows();
    }
  }

  lemma HitIsUsable(dev: Device, r: Response)
    requires Hits(dev, r)
    ensures || (exists reg: nat :: Usable(dev, reg, Reg(r, reg))) || Reg(r, 110) >= 0
            || ((RtMin in dev.fields || Rt6Min in dev.fields) && Reg(r, 104) >= 0)
            || (Serial in dev.fields && SerialOf(r) > 0)
  {
    if forall i: nat | i < |CONTROLS| :: !Believed(dev, CONTROLS[i].bit, Reg(r, CONTROLS[i].reg)) {
      AllControls(dev, r);
      if !HitsOptional(dev, r) {
        var reg := if 0 <= Reg(r, 102) <= 100 then 102 else if Reg(r, 140) >= 0 then 140
                   else if Reg(r, 142) >= 0 then 142 else if Reg(r, 144) >= 0 then 144 else 146;
        assert Reg(r, 110) < 0 ==> Usable(dev, reg, Reg(r, reg));
      } else {
        var reg := if AcInV in dev.fields && Reg(r, 1314) >= 0 then 1314
                   else if AcInA in dev.fields && Reg(r, 1315) >= 0 then 1315 else 1511;
        assert Usable(dev, reg, Reg(r, reg)) || (HasRuntime(dev) && Reg(r, 104) >= 0) || (Serial in dev.fields && SerialOf(r) > 0);
      }
    } else {
      var i: nat :| i < |CONTROLS| && Believed(dev, CONTROLS[i].bit, Reg(r, CONTROLS[i].reg));
      assert Usable(dev, CONTROLS[i].reg, Reg(r, CONTROLS[i].reg));
    }
  }

  /** The state is valid once one response counted, and the capacity is the model's once there was any. */
  lemma {:induction false} ValidIff(dev: Device, rs: seq<Response>)
    ensures var st := ApplyAll(dev, rs, NOTHING_READ);
            && (st.valid <==> exists i | 0 <= i < |rs| :: Hits(dev, rs[i]))
            && st.capacityWh == if rs == [] then 0 else dev.wh
  {
    if rs != [] {
      var n := |rs| - 1;
      ValidIff(dev, rs[..n]);
      assert forall i | 0 <= i < n :: rs[..n][i] == rs[i];
      assert rs == rs[..n] + [rs[n]];
    }
  }

  // ---------------------------------------------------------------------
  // Which model a name stands for
  // ---------------------------------------------------------------------

  /** `name` is the model's name with digits, or nothing, behind it. */
  ghost predicate Named(name: string, dev: Device)
  {
    exists ds: string :: name == dev.name + ds && forall i | 0 <= i < |ds| :: '0' <= ds[i] <= '9'
  }

  lemma NamedIsMatch(name: string, dev: Device)
    ensures Named(name, dev) <==> Matches(name, dev.name)
  {
    if ds: string :| name == dev.name + ds && forall i | 0 <= i < |ds| :: '0' <= ds[i] <= '9' {
      assert name[..|dev.name|] == dev.name;
      forall k | |dev.name| <= k < |name| ensures IsDigit(name[k]) {
        assert name[k] == ds[k - |dev.name|];
      }
    }
    if Matches(name, dev.name) {
      var ds := name[|dev.name|..];
      assert name == dev.name + ds;
    }
  }

  /** A unit is of the model its name stands for, and of no known model exactly if it stands for none. */
  lemma IdentifyIff(name: string, i: nat)
    requires i < |DEVICES|
    ensures Identify(name) == DEVICES[i] <==> Named(name, DEVICES[i])
    ensures Identify(name) == GENERIC <==> forall k: nat | k < |DEVICES| :: !Named(name, DEVICES[k])
  {
    forall k: nat | k < |DEVICES| ensures Named(name, DEVICES[k]) <==> Matches(name, DEVICES[k].name) {
      NamedIsMatch(name, DEVICES[k]);
    }
    DifferentModels();
    if k: nat :| k < |DEVICES| && Matches(name, DEVICES[k].name) && Identify(name) == DEVICES[k] {
      if Matches(name, DEVICES[i].name) {
        OneModelAtMost(name, i, k);
      }
    }
  }

  lemma DifferentModels()
    ensures forall i: nat, k: nat | i < k < |DEVICES| :: DEVICES[i].name != DEVICES[k].name
    ensures forall i: nat | i < |DEVICES| :: DEVICES[i].name != GENERIC.name
  {
    assert GENERIC.name[0] == 'u';
    forall i: nat, k: nat | i < k < |DEVICES| ensures DEVICES[i].name != DEVICES[k].name {
      if DEVICES[i].name == DEVICES[k].name {
        OneModelAtMost(DEVICES[i].name, i, k);
      }
    }
  }
}
