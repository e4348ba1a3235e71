/**
 The register map and its decoding (`components/bluetti_ble/bt_regs.c`).

 Fields arrive one response at a time, in any order; everything derived from
 several of them (mains present, charging, battery flow) is recomputed after each.
 Watts are whole numbers and volts and amperes exact tenths.
 */
module Regs {
  import opened Bits

  const UNKNOWN_W: int := -1000
  const UNKNOWN_I: int := -1

  datatype Field = Serial | RtMin | Rt6Min | AcInV | AcInVRaw | AcInA | AcOutV

  datatype Ctl = AcOut | DcOut | EcoAc | EcoDc | EcoModeAc | EcoModeDc
               | ChargeMode | PowerLift | Display | SocMin | SocMax

  datatype Device = Device(name: string, fields: set<Field>, controls: set<Ctl>, wh: nat)

  const GENERIC: Device := Device("unknown", {Serial}, {}, 0)

  const OUT: set<Ctl> := {AcOut, DcOut}
  const FULL: set<Ctl> := {AcOut, DcOut, EcoAc, EcoDc, EcoModeAc, EcoModeDc, ChargeMode, PowerLift}
  const ELITE: set<Field> := {Serial, RtMin, AcInV, AcInA, AcOutV}

  const DEVICES: seq<Device> := [
    Device("EL100V2", ELITE, FULL + {Display, SocMin, SocMax}, 1024),
    Device("EL10", ELITE, FULL + {Display}, 128),
    Device("AC70", (ELITE - {RtMin}) + {Rt6Min}, FULL, 768),
    Device("AC180", ELITE - {RtMin}, FULL, 1152),
    Device("EL30V2", {Serial, RtMin, AcInV}, FULL, 288),
    Device("AC180P", {Serial, AcInV}, OUT + {ChargeMode, PowerLift}, 1440),
    Device("AC2P", {Serial}, OUT + {PowerLift}, 0),
    Device("AC60", {Serial, AcInV, AcInVRaw}, OUT + {PowerLift}, 403),
    Device("AC60P", {Serial, AcInV, AcInVRaw}, OUT + {PowerLift}, 0),
    Device("Handsfree 2", (ELITE - {RtMin}) + {Rt6Min}, OUT, 960)
  ]

  // ---------------------------------------------------------------------
  // Model lookup
  // ---------------------------------------------------------------------

  predicate IsDigit(ch: char)
  {
    '0' <= ch <= '9'
  }

  /** A model name followed by digits only. */
  predicate Matches(name: string, model: string)
  {
    |model| <= |name| && name[..|model|] == model && forall k | |model| <= k < |name| :: IsDigit(name[k])
  }

  /** `bt_device_lookup`: the first entry that matches, -1 if none does. */
  method Lookup(name: string) returns (r: int)
    ensures -1 <= r < |DEVICES|
    ensures r >= 0 ==> Matches(name, DEVICES[r].name)
    ensures r < 0 ==> forall i | 0 <= i < |DEVICES| :: !Matches(name, DEVICES[i].name)
  {
    if name == "" {
      return -1;
    }
    for i := 0 to |DEVICES|
      invariant forall k | 0 <= k < i :: !Matches(name, DEVICES[k].name)
    {
      var n := |DEVICES[i].name|;
      if n <= |name| && name[..n] == DEVICES[i].name {
        var j := n;
        while j < |name| && IsDigit(name[j])
          invariant n <= j <= |name| && forall k | n <= k < j :: IsDigit(name[k])
        {
          j := j + 1;
        }
        if j == |name| {
          return i;
        }
      }
    }
    return -1;
  }

  /** No name matches two models, so the order of the table does not matter. */
  lemma OneModelAtMost(name: string, i: nat, j: nat)
    requires i < |DEVICES| && j < |DEVICES|
    requires Matches(name, DEVICES[i].name) && Matches(name, DEVICES[j].name)
    ensures i == j
  {
    var a, b := DEVICES[i].name, DEVICES[j].name;
    assert forall k | 0 <= k < |a| :: name[k] == name[..|a|][k];
    assert forall k | 0 <= k < |b| :: name[k] == name[..|b|][k];
    assert a[0] == b[0] && a[1] == b[1] && a[2] == b[2] && a[3] == b[3];
    assert |a| > 4 ==> name[4] == a[4];
    assert |b| > 4 ==> name[4] == b[4];
    assert |a| > 5 ==> name[5] == a[5];
    assert |b| > 5 ==> name[5] == b[5];
  }

  /** The model a unit's own name stands for. */
  ghost function Identify(name: string): (dev: Device)
  {
    if exists i: nat | i < |DEVICES| :: Matches(name, DEVICES[i].name)
    then var i: nat :| i < |DEVICES| && Matches(name, DEVICES[i].name); DEVICES[i]
    else GENERIC
  }

  /** The lookup, with the generic unit when nothing matches, is that function. */
  method IdentifyBy(name: string) returns (dev: Device)
    ensures dev == Identify(name)
  {
    var i := Lookup(name);
    if i < 0 {
      return GENERIC;
    }
    ghost var k: nat :| k < |DEVICES| && Matches(name, DEVICES[k].name) && Identify(name) == DEVICES[k];
    OneModelAtMost(name, i, k);
    return DEVICES[i];
  }

  // ---------------------------------------------------------------------
  // Writeable controls
  // ---------------------------------------------------------------------

  datatype Kind = Bool | Enum | Range

  /** `allowed` lists an enumeration's values, or a range's two ends. */
  datatype Control = Control(field: string, reg: nat, bit: Ctl, kind: Kind, allowed: seq<nat>)

  const CONTROLS: seq<Control> := [
    Control("ac_output", 2011, AcOut, Bool, []),
    Control("dc_output", 2012, DcOut, Bool, []),
    Control("eco_ac", 2017, EcoAc, Bool, []),
    Control("eco_dc", 2014, EcoDc, Bool, []),
    Control("eco_mode_ac", 2018, EcoModeAc, Enum, [1, 2, 3, 4]),
    Control("eco_mode_dc", 2015, EcoModeDc, Enum, [1, 2, 3, 4]),
    Control("charging_mode", 2020, ChargeMode, Enum, [0, 1, 2, 4]),
    Control("power_lifting", 2021, PowerLift, Bool, []),
    Control("soc_min", 2022, SocMin, Range, [0, 100]),
    Control("soc_max", 2023, SocMax, Range, [0, 100]),
    Control("display_time", 2067, Display, Enum, [2, 3, 4, 5])
  ]

  /** `bt_control_valid`. */
  predicate ControlValid(c: Control, value: int)
  {
    match c.kind
    case Bool => value == 0 || value == 1
    case Range => |c.allowed| == 2 && c.allowed[0] <= value <= c.allowed[1]
    case Enum => value in c.allowed
  }

  /** What the table accepts, control by control. */
  predicate Accepts(bit: Ctl, v: int)
  {
    match bit
    case AcOut => v == 0 || v == 1
    case DcOut => v == 0 || v == 1
    case EcoAc => v == 0 || v == 1
    case EcoDc => v == 0 || v == 1
    case PowerLift => v == 0 || v == 1
    case EcoModeAc => 1 <= v <= 4
    case EcoModeDc => 1 <= v <= 4
    case ChargeMode => v == 0 || v == 1 || v == 2 || v == 4
    case Display => 2 <= v <= 5
    case SocMin => 0 <= v <= 100
    case SocMax => 0 <= v <= 100
  }

  /** A write is valid for a control exactly when a reading of that value would be believed. */
  lemma ValidIffAccepted(i: nat, v: int)
    requires i < |CONTROLS|
    ensures ControlValid(CONTROLS[i], v) <==> Accepts(CONTROLS[i].bit, v)
  {
  }

  // ---------------------------------------------------------------------
  // The polling plan
  // ---------------------------------------------------------------------

  datatype Read = Read(addr: nat, words: nat)

  const PLAN_MAX: nat := 28

  const COMMON: seq<Read> := [Read(102, 1), Read(146, 1), Read(142, 1), Read(144, 1), Read(140, 1), Read(110, 6)]

  /** Optional readings: polled when the model has any of the flags. */
  const OPTIONAL: seq<(set<Field>, Read)> := [
    ({RtMin, Rt6Min}, Read(104, 1)), ({AcInV}, Read(1314, 1)), ({AcInA}, Read(1315, 1)),
    ({AcOutV}, Read(1511, 1)), ({Serial}, Read(116, 4))]

  function OptionalReads(dev: Device, n: nat): (r: seq<Read>)
    requires n <= |OPTIONAL|
    ensures |r| <= n
  {
    if n == 0 then []
    else OptionalReads(dev, n - 1) + if dev.fields * OPTIONAL[n - 1].0 != {} then [OPTIONAL[n - 1].1] else []
  }

  /** The charge range is shown even to those who only monitor. */
  function RangeReads(dev: Device): (r: seq<Read>)
  {
    (if SocMin in dev.controls then [Read(2022, 1)] else []) + (if SocMax in dev.controls then [Read(2023, 1)] else [])
  }

  function ControlReads(dev: Device, n: nat): (r: seq<Read>)
    requires n <= |CONTROLS|
    ensures |r| <= if n <= 8 then n else if n <= 10 then 8 else 9
  {
    if n == 0 then []
    else
      var c := CONTROLS[n - 1];
      ControlReads(dev, n - 1) +
      if c.bit != SocMin && c.bit != SocMax && c.bit in dev.controls then [Read(c.reg, 1)] else []
  }

  function PlanOf(dev: Device, withControls: bool): (r: seq<Read>)
    ensures 6 <= |r| <= 22
  {
    COMMON + OptionalReads(dev, |OPTIONAL|) + RangeReads(dev) +
    if withControls then ControlReads(dev, |CONTROLS|) else []
  }

  /** The fixed reads and the optional ones. */
  method PlanBase(dev: Device) returns (out: seq<Read>)
    ensures out == COMMON + OptionalReads(dev, |OPTIONAL|)
  {
    out := [];
    for i := 0 to |COMMON|
      invariant out == COMMON[..i]
    {
      if |out| < PLAN_MAX {
        out := out + [COMMON[i]];
      }
    }
    for i := 0 to |OPTIONAL|
      invariant out == COMMON + OptionalReads(dev, i)
    {
      if |out| < PLAN_MAX && dev.fields * OPTIONAL[i].0 != {} {
        out := out + [OPTIONAL[i].1];
      }
    }
  }

  method PlanRange(dev: Device, base: seq<Read>) returns (out: seq<Read>)
    requires |base| < 12
    ensures out == base + RangeReads(dev)
  {
    out := base;
    if SocMin in dev.controls && |out| < PLAN_MAX {
      out := out + [Read(2022, 1)];
    }
    if SocMax in dev.controls && |out| < PLAN_MAX {
      out := out + [Read(2023, 1)];
    }
  }

  method PlanControls(dev: Device, base: seq<Read>) returns (out: seq<Read>)
    requires |base| < 14
    ensures out == base + ControlReads(dev, |CONTROLS|)
  {
    out := base;
    for i := 0 to |CONTROLS|
      invariant out == base + ControlReads(dev, i)
    {
      ghost var before := ControlReads(dev, i);
      var c := CONTROLS[i];
      if |out| < PLAN_MAX && c.bit != SocMin && c.bit != SocMax && c.bit in dev.controls {
        out := out + [Read(c.reg, 1)];
        assert ControlReads(dev, i + 1) == before + [Read(c.reg, 1)];
      } else {
        assert ControlReads(dev, i + 1) == before;
      }
    }
  }

  /** `bt_regs_plan`: the guard against a full array never cuts anything off. */
  method Plan(dev: Device, withControls: bool) returns (out: seq<Read>)
    ensures out == PlanOf(dev, withControls) && |out| < PLAN_MAX
  {
    var base := PlanBase(dev);
    out := PlanRange(dev, base);
    if withControls && dev.controls != {} {
      out := PlanControls(dev, out);
    } else {
      NoControlsNoReads(dev, |CONTROLS|);
    }
  }

  lemma {:induction false} NoControlsNoReads(dev: Device, n: nat)
    requires n <= |CONTROLS|
    ensures dev.controls == {} ==> ControlReads(dev, n) == []
  {
    if n > 0 {
      NoControlsNoReads(dev, n - 1);
    }
  }

  // ---------------------------------------------------------------------
  // Decoding
  // ---------------------------------------------------------------------

  /** One response: data bytes of consecutive registers from `start`. */
  datatype Response = Response(start: nat, data: seq<byte>)

  /** `reg`: one register out of a response, or -1 if it is not in it. */
  function Reg(r: Response, addr: nat): (v: int)
    ensures -1 <= v < 0x1_0000
  {
    if addr < r.start then -1
    else
      var idx := 2 * (addr - r.start);
      if idx + 1 >= |r.data| then -1 else 256 * (r.data[idx] as int) + r.data[idx + 1]
  }

  /** Words of the name, from register 110. */
  const NAME_WORDS: nat := 6

  /** The characters of one word, low byte first, zero bytes dropped. */
  function WordText(v: nat): (s: string)
    requires v < 0x1_0000
  {
    (if v % 256 != 0 then [(v % 256) as char] else []) + (if v / 256 != 0 then [(v / 256) as char] else [])
  }

  function TextFrom(r: Response, addr: nat, words: nat): (s: string)
    decreases words
  {
    if words == 0 || Reg(r, addr) < 0 then []
    else WordText(Reg(r, addr)) + TextFrom(r, addr + 1, words - 1)
  }

  function Trim(s: string): (t: string)
  {
    if s != [] && s[|s| - 1] == ' ' then Trim(s[..|s| - 1]) else s
  }

  /** Readings as decoded, before anything is derived from them. */
  datatype Raw = Raw(soc: int, model: string, dcOut: int, acOut: int, dcIn: int, acIn: int, minutes: int, serial: nat,
                     acInVolts: real, acInAmps: real, acOutVolts: real)

  datatype Controls = Controls(acSwitch: int, dcSwitch: int, ecoAc: int, ecoDc: int, ecoModeAc: int, ecoModeDc: int,
                               chargingMode: int, powerLifting: int, displayTime: int, socMin: int, socMax: int)

  datatype Derived = Derived(output: int, input: int, acInputPresent: bool, battery: int, charging: bool)

  datatype State = State(valid: bool, capacityWh: nat, raw: Raw, controls: Controls, derived: Derived)

  const NO_READINGS: Raw :=
    Raw(UNKNOWN_I, "", UNKNOWN_W, UNKNOWN_W, UNKNOWN_W, UNKNOWN_W, UNKNOWN_I, 0, -1000.0, -1000.0, -1000.0)

  const NO_CONTROLS: Controls := Controls(-1, -1, -1, -1, -1, -1, -1, -1, -1, -1, -1)

  /** `state_reset`. */
  const NOTHING_READ: State :=
    State(false, 0, NO_READINGS, NO_CONTROLS, Derived(UNKNOWN_W, UNKNOWN_W, false, UNKNOWN_W, false))

  function Positive(w: int): (p: nat)
  {
    if w >= 0 then w else 0
  }

  /** Everything derived, as one function of the readings: what a decoder with all of them at hand would compute. */
  function Derive(raw: Raw): (d: Derived)
  {
    var output := if raw.acOut >= 0 || raw.dcOut >= 0 then Positive(raw.acOut) + Positive(raw.dcOut) else UNKNOWN_W;
    var input := if raw.acIn >= 0 || raw.dcIn >= 0 then Positive(raw.acIn) + Positive(raw.dcIn) else UNKNOWN_W;
    var present := raw.acIn > 0 || raw.acInVolts > 0.0;
    var known := input >= 0 && output >= 0;
    var battery := if known then output - input else UNKNOWN_W;
    var room := 0 <= raw.soc < 100;
    Derived(output, input, present, battery,
            room && if known then battery < 0 else present || raw.dcIn > 0)
  }

  /** `recompute`: each derived value is only touched once something it needs is known. */
  method Recompute(raw: Raw, was: Derived) returns (d: Derived)
    ensures Fresh(raw, was) ==> d == Derive(raw)
  {
    d := was;
    if raw.acOut >= 0 || raw.dcOut >= 0 {
      d := d.(output := Positive(raw.acOut) + Positive(raw.dcOut));
    }
    if raw.acIn >= 0 || raw.dcIn >= 0 {
      d := d.(input := Positive(raw.acIn) + Positive(raw.dcIn));
    }
    d := d.(acInputPresent := raw.acIn > 0 || raw.acInVolts > 0.0);
    if d.input >= 0 && d.output >= 0 {
      d := d.(battery := d.output - d.input);
    }
    var anyInput := d.acInputPresent || raw.dcIn > 0;
    var room := raw.soc >= 0 && raw.soc < 100;
    if d.input >= 0 && d.output >= 0 {
      d := d.(charging := d.battery < 0 && room);
    } else {
      d := d.(charging := anyInput && room);
    }
  }

  /** Totals, and the flow between them, are still unknown wherever all they are made of is. */
  ghost predicate Fresh(raw: Raw, d: Derived)
  {
    && (raw.acOut < 0 && raw.dcOut < 0 ==> d.output == UNKNOWN_W && d.battery == UNKNOWN_W)
    && (raw.acIn < 0 && raw.dcIn < 0 ==> d.input == UNKNOWN_W && d.battery == UNKNOWN_W)
  }

  function Keep(v: int, was: int): (r: int)
  {
    if v >= 0 then v else was
  }

  function SerialOf(r: Response): (sn: int)
  {
    if Reg(r, 116) < 0 || Reg(r, 117) < 0 || Reg(r, 118) < 0 || Reg(r, 119) < 0 then -1
    else Reg(r, 116) + 0x1_0000 * (Reg(r, 117) + 0x1_0000 * (Reg(r, 118) + 0x1_0000 * Reg(r, 119)))
  }

  function MinutesOf(dev: Device, v: nat): (m: int)
  {
    var mins := if Rt6Min in dev.fields then v * 6 else v;
    if mins > 0 then mins else UNKNOWN_I
  }

  predicate HasRuntime(dev: Device)
  {
    RtMin in dev.fields || Rt6Min in dev.fields
  }

  /** Line voltage comes in tenths, except from the models that report whole volts. */
  function VoltsOf(dev: Device, v: nat): (u: real)
    ensures u > 0.0 <==> v > 0
    ensures u >= 0.0
  {
    if AcInVRaw in dev.fields then v as real else v as real / 10.0
  }

  function CommonAfter(r: Response, raw: Raw): (n: Raw)
  {
    raw.(soc := if 0 <= Reg(r, 102) <= 100 then Reg(r, 102) else raw.soc,
         model := if Reg(r, 110) >= 0 then Trim(TextFrom(r, 110, NAME_WORDS)) else raw.model,
         dcOut := Keep(Reg(r, 140), raw.dcOut), acOut := Keep(Reg(r, 142), raw.acOut),
         dcIn := Keep(Reg(r, 144), raw.dcIn), acIn := Keep(Reg(r, 146), raw.acIn))
  }

  function OptionalAfter(dev: Device, r: Response, raw: Raw): (n: Raw)
  {
    raw.(minutes := if HasRuntime(dev) && Reg(r, 104) >= 0 then MinutesOf(dev, Reg(r, 104)) else raw.minutes,
         serial := if Serial in dev.fields && SerialOf(r) > 0 then SerialOf(r) else raw.serial,
         acInVolts := if AcInV in dev.fields && Reg(r, 1314) >= 0 then VoltsOf(dev, Reg(r, 1314)) else raw.acInVolts,
         acInAmps := if AcInA in dev.fields && Reg(r, 1315) >= 0 then Reg(r, 1315) as real / 10.0 else raw.acInAmps,
         acOutVolts := if AcOutV in dev.fields && Reg(r, 1511) >= 0 then Reg(r, 1511) as real / 10.0 else raw.acOutVolts)
  }

  function RawAfter(dev: Device, r: Response, raw: Raw): (n: Raw)
  {
    OptionalAfter(dev, r, CommonAfter(r, raw))
  }

  /** A control reading is believed only if the model has the control and the value is one it can take. */
  predicate Believed(dev: Device, bit: Ctl, v: int)
  {
    bit in dev.controls && Accepts(bit, v)
  }

  function ControlAfter(dev: Device, bit: Ctl, v: int, was: int): (n: int)
  {
    if Believed(dev, bit, v) then v else was
  }

  function SwitchesAfter(dev: Device, r: Response, c: Controls): (n: Controls)
  {
    c.(acSwitch := ControlAfter(dev, AcOut, Reg(r, 2011), c.acSwitch),
       dcSwitch := ControlAfter(dev, DcOut, Reg(r, 2012), c.dcSwitch),
       ecoAc := ControlAfter(dev, EcoAc, Reg(r, 2017), c.ecoAc),
       ecoDc := ControlAfter(dev, EcoDc, Reg(r, 2014), c.ecoDc),
       powerLifting := ControlAfter(dev, PowerLift, Reg(r, 2021), c.powerLifting))
  }

  function ChoicesAfter(dev: Device, r: Response, c: Controls): (n: Controls)
  {
    c.(ecoModeAc := ControlAfter(dev, EcoModeAc, Reg(r, 2018), c.ecoModeAc),
       ecoModeDc := ControlAfter(dev, EcoModeDc, Reg(r, 2015), c.ecoModeDc),
       chargingMode := ControlAfter(dev, ChargeMode, Reg(r, 2020), c.chargingMode),
       displayTime := ControlAfter(dev, Display, Reg(r, 2067), c.displayTime),
       socMin := ControlAfter(dev, SocMin, Reg(r, 2022), c.socMin),
       socMax := ControlAfter(dev, SocMax, Reg(r, 2023), c.socMax))
  }

  function ControlsAfter(dev: Device, r: Response, c: Controls): (n: Controls)
  {
    ChoicesAfter(dev, r, SwitchesAfter(dev, r, c))
  }

  predicate HitsCommon(r: Response)
  {
    || 0 <= Reg(r, 102) <= 100 || Reg(r, 110) >= 0
    || Reg(r, 140) >= 0 || Reg(r, 142) >= 0 || Reg(r, 144) >= 0 || Reg(r, 146) >= 0
  }

  predicate HitsOptional(dev: Device, r: Response)
  {
    || (HasRuntime(dev) && Reg(r, 104) >= 0) || (Serial in dev.fields && SerialOf(r) > 0)
    || (AcInV in dev.fields && Reg(r, 1314) >= 0) || (AcInA in dev.fields && Reg(r, 1315) >= 0)
    || (AcOutV in dev.fields && Reg(r, 1511) >= 0)
  }

  predicate HitsSwitches(dev: Device, r: Response)
  {
    || Believed(dev, AcOut, Reg(r, 2011)) || Believed(dev, DcOut, Reg(r, 2012)) || Believed(dev, EcoAc, Reg(r, 2017))
    || Believed(dev, EcoDc, Reg(r, 2014)) || Believed(dev, PowerLift, Reg(r, 2021))
  }

  predicate HitsChoices(dev: Device, r: Response)
  {
    || Believed(dev, EcoModeAc, Reg(r, 2018)) || Believed(dev, EcoModeDc, Reg(r, 2015))
    || Believed(dev, ChargeMode, Reg(r, 2020)) || Believed(dev, Display, Reg(r, 2067))
    || Believed(dev, SocMin, Reg(r, 2022)) || Believed(dev, SocMax, Reg(r, 2023))
  }

  predicate Hits(dev: Device, r: Response)
  {
    HitsCommon(r) || HitsOptional(dev, r) || HitsSwitches(dev, r) || HitsChoices(dev, r)
  }

  /** What one response makes of the state, the derived part computed afresh from all readings. */
  function Applied(dev: Device, r: Response, st: State): (n: State)
  {
    var raw, controls := RawAfter(dev, r, st.raw), ControlsAfter(dev, r, st.controls);
    State(st.valid || Hits(dev, r), if dev.wh > 0 && st.capacityWh == 0 then dev.wh else st.capacityWh,
          raw, controls, Derive(raw))
  }

  /** The derived part is the one function of the readings. */
  ghost predicate Consistent(st: State)
  {
    st.derived == Derive(st.raw)
  }

  lemma NoHitNoChange(dev: Device, r: Response, st: State)
    ensures !Hits(dev, r) ==> RawAfter(dev, r, st.raw) == st.raw && ControlsAfter(dev, r, st.controls) == st.controls
  {
  }

  lemma ReadingsOnlyGrow(dev: Device, r: Response, raw: Raw)
    ensures Fresh(RawAfter(dev, r, raw), Derive(raw))
  {
  }

  /** The text is what has been gathered and what stands from word `w` on. */
  ghost predicate Completes(text: string, out: string, r: Response, addr: nat, words: nat, w: nat)
    requires w <= words
  {
    text == out + TextFrom(r, addr + w, words - w)
  }

  lemma TextStep(text: string, out: string, r: Response, addr: nat, words: nat, w: nat)
    requires w < words && Completes(text, out, r, addr, words, w)
    ensures if Reg(r, addr + w) < 0 then text == out
            else Completes(text, out + WordText(Reg(r, addr + w)), r, addr, words, w + 1)
  {
    if Reg(r, addr + w) >= 0 {
      Regroup(out, WordText(Reg(r, addr + w)), TextFrom(r, addr + w + 1, words - w - 1));
    }
  }

  lemma Regroup(a: string, b: string, c: string)
    ensures a + (b + c) == (a + b) + c
  {
  }

  lemma TextEnds(text: string, out: string, r: Response, addr: nat, words: nat)
    requires Completes(text, out, r, addr, words, words)
    ensures text == out
  {
  }

  /** The two bytes of a word, as they are appended. */
  method AppendWord(out: string, v: nat) returns (r: string)
    requires v < 0x1_0000
    ensures r == out + WordText(v)
  {
    r := out;
    if v % 256 != 0 {
      r := r + [(v % 256) as char];
    }
    if v / 256 != 0 {
      r := r + [(v / 256) as char];
    }
  }

  method ReadText(r: Response, addr: nat, words: nat) returns (out: string)
    ensures out == TextFrom(r, addr, words)
  {
    out := [];
    ghost var text := TextFrom(r, addr, words);
    var w := 0;
    while w < words
      invariant w <= words && Completes(text, out, r, addr, words, w)
    {
      var v := Reg(r, addr + w);
      TextStep(text, out, r, addr, words, w);
      if v < 0 {
        return;
      }
      out := AppendWord(out, v);
      w := w + 1;
    }
    TextEnds(text, out, r, addr, words);
  }

  /** `swap_string`; twelve characters fit the buffer, so its size never cuts the text. */
  method SwapString(r: Response, addr: nat, words: nat) returns (out: string)
    ensures out == Trim(TextFrom(r, addr, words))
  {
    out := ReadText(r, addr, words);
    while |out| > 0 && out[|out| - 1] == ' '
      invariant Trim(out) == Trim(TextFrom(r, addr, words))
    {
      out := out[..|out| - 1];
    }
  }

  /** `bt_regs_apply` on the readings every unit has. */
  method DecodeCommon(r: Response, was: Raw) returns (raw: Raw, matched: nat)
    ensures raw == CommonAfter(r, was)
    ensures matched > 0 <==> HitsCommon(r)
  {
    var soc, model, dcOut, acOut, dcIn, acIn := was.soc, was.model, was.dcOut, was.acOut, was.dcIn, was.acIn;
    matched := 0;
    if 0 <= Reg(r, 102) <= 100 {
      soc, matched := Reg(r, 102), matched + 1;
    }
    if Reg(r, 110) >= 0 {
      model := SwapString(r, 110, NAME_WORDS);
      matched := matched + 1;
    }
    if Reg(r, 140) >= 0 {
      dcOut, matched := Reg(r, 140), matched + 1;
    }
    if Reg(r, 142) >= 0 {
      acOut, matched := Reg(r, 142), matched + 1;
    }
    if Reg(r, 144) >= 0 {
      dcIn, matched := Reg(r, 144), matched + 1;
    }
    if Reg(r, 146) >= 0 {
      acIn, matched := Reg(r, 146), matched + 1;
    }
    raw := was.(soc := soc, model := model, dcOut := dcOut, acOut := acOut, dcIn := dcIn, acIn := acIn);
  }

  /** `bt_regs_apply` on the readings that depend on the model. */
  method DecodeOptional(dev: Device, r: Response, was: Raw) returns (raw: Raw, matched: nat)
    ensures raw == OptionalAfter(dev, r, was)
    ensures matched > 0 <==> HitsOptional(dev, r)
  {
    var minutes, serial, acInVolts, acInAmps, acOutVolts :=
      was.minutes, was.serial, was.acInVolts, was.acInAmps, was.acOutVolts;
    matched := 0;
    if HasRuntime(dev) && Reg(r, 104) >= 0 {
      minutes, matched := MinutesOf(dev, Reg(r, 104)), matched + 1;
    }
    if Serial in dev.fields && Reg(r, 116) >= 0 {
      var sn := ReadSerial(r);
      if sn > 0 {
        serial, matched := sn, matched + 1;
      }
    }
    if AcInV in dev.fields && Reg(r, 1314) >= 0 {
      acInVolts, matched := VoltsOf(dev, Reg(r, 1314)), matched + 1;
    }
    if AcInA in dev.fields && Reg(r, 1315) >= 0 {
      acInAmps, matched := Reg(r, 1315) as real / 10.0, matched + 1;
    }
    if AcOutV in dev.fields && Reg(r, 1511) >= 0 {
      acOutVolts, matched := Reg(r, 1511) as real / 10.0, matched + 1;
    }
    raw := was.(minutes := minutes, serial := serial, acInVolts := acInVolts, acInAmps := acInAmps, acOutVolts := acOutVolts);
  }

  /** Four words, least significant first; -1 unless all are there. */
  method ReadSerial(r: Response) returns (sn: int)
    ensures sn == SerialOf(r)
  {
    var x0, x1, x2, x3 := Reg(r, 116), Reg(r, 117), Reg(r, 118), Reg(r, 119);
    if x3 < 0 || x2 < 0 || x1 < 0 || x0 < 0 {
      return -1;
    }
    sn := x3;
    sn := sn * 0x1_0000 + x2;
    sn := sn * 0x1_0000 + x1;
    sn := sn * 0x1_0000 + x0;
  }

  /** `bt_regs_apply` on the switches. */
  method DecodeSwitches(dev: Device, r: Response, was: Controls) returns (c: Controls, matched: nat)
    ensures c == SwitchesAfter(dev, r, was)
    ensures matched > 0 <==> HitsSwitches(dev, r)
  {
    matched := 0;
    var acSwitch, dcSwitch, ecoAc, ecoDc, lifting := was.acSwitch, was.dcSwitch, was.ecoAc, was.ecoDc, was.powerLifting;
    if Believed(dev, AcOut, Reg(r, 2011)) { acSwitch, matched := Reg(r, 2011), matched + 1; }
    if Believed(dev, DcOut, Reg(r, 2012)) { dcSwitch, matched := Reg(r, 2012), matched + 1; }
    if Believed(dev, EcoAc, Reg(r, 2017)) { ecoAc, matched := Reg(r, 2017), matched + 1; }
    if Believed(dev, EcoDc, Reg(r, 2014)) { ecoDc, matched := Reg(r, 2014), matched + 1; }
    if Believed(dev, PowerLift, Reg(r, 2021)) { lifting, matched := Reg(r, 2021), matched + 1; }
    c := was.(acSwitch := acSwitch, dcSwitch := dcSwitch, ecoAc := ecoAc, ecoDc := ecoDc, powerLifting := lifting);
  }

  /** `bt_regs_apply` on the controls with more than two settings. */
  method DecodeChoices(dev: Device, r: Response, was: Controls) returns (c: Controls, matched: nat)
    ensures c == ChoicesAfter(dev, r, was)
    ensures matched > 0 <==> HitsChoices(dev, r)
  {
    matched := 0;
    var modeAc, modeDc, charging := was.ecoModeAc, was.ecoModeDc, was.chargingMode;
    var display, socMin, socMax := was.displayTime, was.socMin, was.socMax;
    if Believed(dev, EcoModeAc, Reg(r, 2018)) { modeAc, matched := Reg(r, 2018), matched + 1; }
    if Believed(dev, EcoModeDc, Reg(r, 2015)) { modeDc, matched := Reg(r, 2015), matched + 1; }
    if Believed(dev, ChargeMode, Reg(r, 2020)) { charging, matched := Reg(r, 2020), matched + 1; }
    if Believed(dev, Display, Reg(r, 2067)) { display, matched := Reg(r, 2067), matched + 1; }
    if Believed(dev, SocMin, Reg(r, 2022)) { socMin, matched := Reg(r, 2022), matched + 1; }
    if Believed(dev, SocMax, Reg(r, 2023)) { socMax, matched := Reg(r, 2023), matched + 1; }
    c := was.(ecoModeAc := modeAc, ecoModeDc := modeDc, chargingMode := charging,
              displayTime := display, socMin := socMin, socMax := socMax);
  }

  /** `bt_regs_apply`: recomputing piece by piece gives what computing everything afresh would. */
  method Apply(dev: Device, r: Response, st: State) returns (out: State, matched: nat)
    requires Consistent(st)
    ensures out == Applied(dev, r, st) && Consistent(out)
    ensures matched > 0 <==> Hits(dev, r)
  {
    out := st;
    if dev.wh > 0 && out.capacityWh == 0 {
      out := out.(capacityWh := dev.wh);
    }
    var common, m1 := DecodeCommon(r, st.raw);
    var raw, m2 := DecodeOptional(dev, r, common);
    var switches, m3 := DecodeSwitches(dev, r, st.controls);
    var controls, m4 := DecodeChoices(dev, r, switches);
    matched := m1 + m2 + m3 + m4;
    out := out.(raw := raw, controls := controls);
    NoHitNoChange(dev, r, st);
    ReadingsOnlyGrow(dev, r, st.raw);
    if matched > 0 {
      var d := Recompute(raw, st.derived);
      out := out.(valid := true, derived := d);
    }
  }

  // ---------------------------------------------------------------------
  // Whole sequences of responses
  // ---------------------------------------------------------------------

  function ApplyAll(dev: Device, rs: seq<Response>, st: State): (n: State)
  {
    if rs == [] then st else Applied(dev, rs[|rs| - 1], ApplyAll(dev, rs[..|rs| - 1], st))
  }

  /** The latest value a register was reported with, `none` if it never was. */
  function Latest(rs: seq<Response>, addr: nat, none: int): (v: int)
  {
    if rs == [] then none
    else if Reg(rs[|rs| - 1], addr) >= 0 then Reg(rs[|rs| - 1], addr)
    else Latest(rs[..|rs| - 1], addr, none)
  }

  /** From reset, whatever order responses come in, power state follows from the latest value of each register. */
  lemma {:induction false} IncrementalIsBatch(dev: Device, rs: seq<Response>)
    ensures var st := ApplyAll(dev, rs, NOTHING_READ);
            && Consistent(st) && CtlOk(st) && -1 <= st.raw.soc <= 100
            && st.raw.acOut == Latest(rs, 142, UNKNOWN_W) && st.raw.dcOut == Latest(rs, 140, UNKNOWN_W)
            && st.raw.acIn == Latest(rs, 146, UNKNOWN_W) && st.raw.dcIn == Latest(rs, 144, UNKNOWN_W)
            && (AcInV in dev.fields ==> (st.raw.acInVolts > 0.0 <==> Latest(rs, 1314, UNKNOWN_W) > 0))
            && (AcInV !in dev.fields ==> st.raw.acInVolts < 0.0)
  {
    if rs != [] {
      IncrementalIsBatch(dev, rs[..|rs| - 1]);
      BelievedStaysOk(dev, rs[|rs| - 1], ApplyAll(dev, rs[..|rs| - 1], NOTHING_READ));
    }
  }

  /** The mains are reported present iff the last word on AC input power, or on line voltage, was above zero. */
  lemma MainsPresentIff(dev: Device, rs: seq<Response>)
    ensures ApplyAll(dev, rs, NOTHING_READ).derived.acInputPresent <==>
              Latest(rs, 146, UNKNOWN_W) > 0 || (AcInV in dev.fields && Latest(rs, 1314, UNKNOWN_W) > 0)
  {
    IncrementalIsBatch(dev, rs);
  }

  /** The latest charge reported that is a percentage. */
  function LatestCharge(rs: seq<Response>): (v: int)
  {
    if rs == [] then UNKNOWN_I
    else if 0 <= Reg(rs[|rs| - 1], 102) <= 100 then Reg(rs[|rs| - 1], 102)
    else LatestCharge(rs[..|rs| - 1])
  }

  /** The name in the latest response that holds one. */
  function LatestName(rs: seq<Response>): (name: string)
  {
    if rs == [] then ""
    else if Reg(rs[|rs| - 1], 110) >= 0 then Trim(TextFrom(rs[|rs| - 1], 110, NAME_WORDS))
    else LatestName(rs[..|rs| - 1])
  }

  /** The latest whole serial number, four words in one response, that is not zero. */
  function LatestSerial(rs: seq<Response>): (sn: nat)
  {
    if rs == [] then 0
    else if SerialOf(rs[|rs| - 1]) > 0 then SerialOf(rs[|rs| - 1])
    else LatestSerial(rs[..|rs| - 1])
  }

  /** A scaled reading of the latest report, unknown if the model lacks it or it was never reported. */
  function Scaled(has: bool, v: int): (u: real)
  {
    if has && v >= 0 then v as real / 10.0 else -1000.0
  }

  /** From reset, every other reading too is the latest report of its own register, scaled as the model has it. */
  lemma {:induction false} TelemetryIsLatest(dev: Device, rs: seq<Response>)
    ensures var raw := ApplyAll(dev, rs, NOTHING_READ).raw;
            && raw.soc == LatestCharge(rs) && raw.model == LatestName(rs)
            && raw.serial == (if Serial in dev.fields then LatestSerial(rs) else 0)
            && raw.minutes == (if HasRuntime(dev) && Latest(rs, 104, -1) >= 0 then MinutesOf(dev, Latest(rs, 104, -1)) else UNKNOWN_I)
            && raw.acInVolts == (if AcInVRaw in dev.fields && AcInV in dev.fields && Latest(rs, 1314, -1) >= 0
                                 then Latest(rs, 1314, -1) as real else Scaled(AcInV in dev.fields, Latest(rs, 1314, -1)))
            && raw.acInAmps == Scaled(AcInA in dev.fields, Latest(rs, 1315, -1))
            && raw.acOutVolts == Scaled(AcOutV in dev.fields, Latest(rs, 1511, -1))
  {
    if rs != [] {
      TelemetryIsLatest(dev, rs[..|rs| - 1]);
    }
  }

  ghost predicate Disjoint(a: Response, b: Response)
  {
    forall addr: nat :: Reg(a, addr) < 0 || Reg(b, addr) < 0
  }

  lemma RawCommutes(dev: Device, a: Response, b: Response, raw: Raw)
    requires Disjoint(a, b)
    ensures RawAfter(dev, a, RawAfter(dev, b, raw)) == RawAfter(dev, b, RawAfter(dev, a, raw))
  {
    assert Reg(a, 116) < 0 || Reg(b, 116) < 0;
  }

  lemma ControlsCommute(dev: Device, a: Response, b: Response, c: Controls)
    requires Disjoint(a, b)
    ensures ControlsAfter(dev, a, ControlsAfter(dev, b, c)) == ControlsAfter(dev, b, ControlsAfter(dev, a, c))
  {
    assert forall bit, v | Accepts(bit, v) :: v >= 0;
  }

  /** Responses about different registers can arrive in either order. */
  lemma ResponsesCommute(dev: Device, a: Response, b: Response, st: State)
    requires Disjoint(a, b)
    ensures Applied(dev, a, Applied(dev, b, st)) == Applied(dev, b, Applied(dev, a, st))
  {
    RawCommutes(dev, a, b, st.raw);
    ControlsCommute(dev, a, b, st.controls);
  }

  // ---------------------------------------------------------------------
  // Controls as read back
  // ---------------------------------------------------------------------

  /** `bt_control_current`. */
  function Current(reg: nat, c: Controls): (v: int)
  {
    if reg == 2011 then c.acSwitch
    else if reg == 2012 then c.dcSwitch
    else if reg == 2017 then c.ecoAc
    else if reg == 2014 then c.ecoDc
    else if reg == 2018 then c.ecoModeAc
    else if reg == 2015 then c.ecoModeDc
    else if reg == 2020 then c.chargingMode
    else if reg == 2021 then c.powerLifting
    else if reg == 2022 then c.socMin
    else if reg == 2023 then c.socMax
    else if reg == 2067 then c.displayTime
    else UNKNOWN_I
  }

  /** Every control is unknown or at a value it can take. */
  ghost predicate CtlOk(st: State)
  {
    forall i | 0 <= i < |CONTROLS| ::
      Current(CONTROLS[i].reg, st.controls) == UNKNOWN_I || Accepts(CONTROLS[i].bit, Current(CONTROLS[i].reg, st.controls))
  }

  /** Each control follows its own register: the value just read if it is believed, else the one before. */
  lemma CurrentFollows(dev: Device, r: Response, c: Controls, i: nat)
    requires i < |CONTROLS|
    ensures Current(CONTROLS[i].reg, ControlsAfter(dev, r, c)) ==
            ControlAfter(dev, CONTROLS[i].bit, Reg(r, CONTROLS[i].reg), Current(CONTROLS[i].reg, c))
  {
  }

  lemma BelievedStaysOk(dev: Device, r: Response, st: State)
    requires CtlOk(st)
    ensures CtlOk(Applied(dev, r, st))
  {
    forall i | 0 <= i < |CONTROLS|
      ensures var v := Current(CONTROLS[i].reg, Applied(dev, r, st).controls);
              v == UNKNOWN_I || Accepts(CONTROLS[i].bit, v)
    {
      CurrentFollows(dev, r, st.controls, i);
    }
  }

  /** The latest value a control was reported with that it can take. */
  function LatestAccepted(rs: seq<Response>, i: nat): (v: int)
    requires i < |CONTROLS|
  {
    if rs == [] then UNKNOWN_I
    else if Accepts(CONTROLS[i].bit, Reg(rs[|rs| - 1], CONTROLS[i].reg)) then Reg(rs[|rs| - 1], CONTROLS[i].reg)
    else LatestAccepted(rs[..|rs| - 1], i)
  }

  /** From reset, a control the model has shows the latest value it can take; one it lacks stays unknown. */
  lemma {:induction false} ControlIsLatest(dev: Device, rs: seq<Response>, i: nat)
    requires i < |CONTROLS|
    ensures Current(CONTROLS[i].reg, ApplyAll(dev, rs, NOTHING_READ).controls) ==
            if CONTROLS[i].bit in dev.controls then LatestAccepted(rs, i) else UNKNOWN_I
  {
    if rs != [] {
      var before := ApplyAll(dev, rs[..|rs| - 1], NOTHING_READ);
      ControlIsLatest(dev, rs[..|rs| - 1], i);
      CurrentFollows(dev, rs[|rs| - 1], before.controls, i);
    }
  }

  /** What is shown for a control is unknown, or a value one could write to it. */
  lemma ShownIsWriteable(dev: Device, rs: seq<Response>, i: nat)
    requires i < |CONTROLS|
    ensures var v := Current(CONTROLS[i].reg, ApplyAll(dev, rs, NOTHING_READ).controls);
            v == UNKNOWN_I || ControlValid(CONTROLS[i], v)
  {
    IncrementalIsBatch(dev, rs);
    ValidIffAccepted(i, Current(CONTROLS[i].reg, ApplyAll(dev, rs, NOTHING_READ).controls));
  }
}
