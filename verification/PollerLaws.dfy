/**
 Whole-run laws of polling: what a finished sweep, a BATTERY reading and a shutdown rest on.
 */
module PollerLaws {
  import opened Bits
  import opened Regs
  import opened RegsPlan
  import opened Poller
  import PveEngine
  import PveRuns

  // ---------------------------------------------------------------------
  // What the power state rests on
  // ---------------------------------------------------------------------

  /** The latest value reported for a register since the link came up, among the first `n` events. */
  function Reported(ev: seq<Event>, n: nat, addr: nat): (v: int)
    requires n <= |ev|
  {
    if n == 0 || ev[n - 1].Connect? then UNKNOWN_W
    else if ev[n - 1].Reply? && Reg(ev[n - 1].resp, addr) >= 0 then Reg(ev[n - 1].resp, addr)
    else Reported(ev, n - 1, addr)
  }

  /** The same for line voltage, which counts only once the unit is known to be of a model that has it. */
  ghost function LineReported(ls: seq<Link>, ev: seq<Event>, n: nat): (v: int)
    requires n <= |ev| < |ls|
  {
    if n == 0 || ev[n - 1].Connect? then UNKNOWN_W
    else if ev[n - 1].Reply? && Reg(ev[n - 1].resp, 1314) >= 0 && AcInV in DeviceOf(ls[n].found).fields
    then Reg(ev[n - 1].resp, 1314)
    else LineReported(ls, ev, n - 1)
  }

  lemma AppliedInputs(dev: Device, r: Response, st: State)
    ensures var n := Applied(dev, r, st).raw;
            && n.acIn == (if Reg(r, 146) >= 0 then Reg(r, 146) else st.raw.acIn)
            && (if AcInV in dev.fields && Reg(r, 1314) >= 0 then n.acInVolts >= 0.0 && (n.acInVolts > 0.0 <==> Reg(r, 1314) > 0)
                else n.acInVolts == st.raw.acInVolts)
  {
  }

  lemma AnsweredInputs(s: Link, r: Response)
    ensures var t := Answered(s, r);
            && t.state.raw.acIn == (if Reg(r, 146) >= 0 then Reg(r, 146) else s.state.raw.acIn)
            && (if AcInV in DeviceOf(t.found).fields && Reg(r, 1314) >= 0
                then t.state.raw.acInVolts >= 0.0 && (t.state.raw.acInVolts > 0.0 <==> Reg(r, 1314) > 0)
                else t.state.raw.acInVolts == s.state.raw.acInVolts)
  {
    var st := Applied(DeviceOf(s.found), r, s.state);
    AppliedInputs(DeviceOf(s.found), r, s.state);
    AppliedInputs(Identify(st.raw.model), r, st);
  }

  /** What one event does to the two figures mains presence is inferred from. */
  lemma InputsAt(ls: seq<Link>, ev: seq<Event>, m: nat)
    requires IsRun(ls, ev) && m < |ev|
    ensures var b, a := ls[m].state.raw, ls[m + 1].state.raw;
            if ev[m].Connect? then a.acIn == UNKNOWN_W && a.acInVolts < 0.0
            else if ev[m].Reply? then
              var r := ev[m].resp;
              && a.acIn == (if Reg(r, 146) >= 0 then Reg(r, 146) else b.acIn)
              && (if AcInV in DeviceOf(ls[m + 1].found).fields && Reg(r, 1314) >= 0
                  then a.acInVolts >= 0.0 && (a.acInVolts > 0.0 <==> Reg(r, 1314) > 0) else a.acInVolts == b.acInVolts)
            else a == b
  {
    assert Follows(ls, ev, m);
    if ev[m].Reply? {
      AnsweredInputs(ls[m], ev[m].resp);
    } else {
      StateKept(ls[m], ev[m]);
    }
  }

  lemma StateKept(s: Link, e: Event)
    requires !e.Reply?
    ensures Step(s, e).state == if e.Connect? then NOTHING_READ else s.state
  {
  }

  lemma {:induction false} InputsAreReported(ls: seq<Link>, ev: seq<Event>, n: nat)
    requires IsRun(ls, ev) && n <= |ev|
    ensures ls[n].state.raw.acIn == Reported(ev, n, 146)
    ensures ls[n].state.raw.acInVolts > 0.0 <==> LineReported(ls, ev, n) > 0
    ensures ls[n].state.raw.acInVolts >= 0.0 <==> LineReported(ls, ev, n) >= 0
  {
    if n > 0 {
      InputsAreReported(ls, ev, n - 1);
      InputsAt(ls, ev, n - 1);
    }
  }

  /** In every reachable state, mains are shown present iff the last word on input power or line voltage was above zero. */
  lemma MainsIsReported(ls: seq<Link>, ev: seq<Event>, n: nat)
    requires IsRun(ls, ev) && n <= |ev|
    ensures ls[n].state.derived.acInputPresent <==> Reported(ev, n, 146) > 0 || LineReported(ls, ev, n) > 0
  {
    InputsAreReported(ls, ev, n);
    InvHolds(ls, ev, n);
  }

  /** A read of the plan in force at `n` that covers `reg` was selected, and the plan has stood since. */
  ghost predicate RegisterAsked(ls: seq<Link>, ev: seq<Event>, n: nat, reg: nat)
    requires n <= |ev| < |ls|
  {
    exists k: nat | k < |ls[n].plan| ::
      Asked(ls, ev, n, k) && ls[n].plan[k].addr <= reg < ls[n].plan[k].addr + ls[n].plan[k].words
  }

  /** The plan belongs to the identified model and the present setting. */
  ghost predicate PlanFits(s: Link)
  {
    s.found.As? ==> s.plan == PlanOf(s.found.dev, s.controls)
  }

  /** A link is subscribed to before its unit can have named itself. */
  ghost predicate InOrder(ls: seq<Link>, ev: seq<Event>)
    requires |ev| < |ls|
  {
    forall i: nat | i < |ev| && ev[i].Subscribe? :: ls[i].found.Unidentified?
  }

  lemma PlanKeepsFitting(s: Link, e: Event)
    requires PlanFits(s) && (e.Subscribe? ==> s.found.Unidentified?)
    ensures PlanFits(Step(s, e))
  {
    match e {
      case Tick(_) =>
      case Reply(r) => assert Names(s, e) || Answered(s, r).plan == s.plan;
      case _ =>
    }
  }

  lemma {:induction false} PlanAlwaysFits(ls: seq<Link>, ev: seq<Event>, n: nat)
    requires IsRun(ls, ev) && InOrder(ls, ev) && n <= |ev|
    ensures PlanFits(ls[n])
  {
    if n > 0 {
      PlanAlwaysFits(ls, ev, n - 1);
      PlanKeepsFitting(ls[n - 1], ev[n - 1]);
      assert Follows(ls, ev, n - 1);
    }
  }

  /** A finished sweep has asked for exactly the registers decoding depends on, less the settings when controls are off. */
  lemma SweepAsksEverything(ls: seq<Link>, ev: seq<Event>, n: nat, reg: nat)
    requires IsRun(ls, ev) && InOrder(ls, ev) && 0 < n <= |ev| && ev[n - 1].Reply? && ls[n].sweepDone && ls[n].found.As?
    ensures RegisterAsked(ls, ev, n, reg) <==> Matters(ls[n].found.dev, reg) && (ls[n].controls || !IsSetting(reg))
  {
    PlanAlwaysFits(ls, ev, n);
    PlanIsExact(ls[n].found.dev, ls[n].controls, reg);
    if Polls(ls[n].plan, reg) {
      SweepAsksPolled(ls, ev, n, reg);
    }
  }

  lemma SweepAsksPolled(ls: seq<Link>, ev: seq<Event>, n: nat, reg: nat)
    requires IsRun(ls, ev) && 0 < n <= |ev| && ev[n - 1].Reply? && ls[n].sweepDone && Polls(ls[n].plan, reg)
    ensures RegisterAsked(ls, ev, n, reg)
  {
    SweepDoneIff(ls, ev, n);
    var rd :| rd in ls[n].plan && rd.addr <= reg < rd.addr + rd.words;
    var k: nat :| k < |ls[n].plan| && ls[n].plan[k] == rd;
    assert Asked(ls, ev, n, k);
  }

  lemma PlanAfter(s: Link, e: Event)
    ensures var t := Step(s, e);
            if Rebuilds(s, e) then t.plan == [] || (|t.plan| > 1 && t.plan[1] == Read(146, 1)) else t.plan == s.plan
  {
    SweepStep(s, e);
    match e {
      case Subscribe => SecondOfPlan(GENERIC, false);
      case Reply(r) => SecondOfPlan(Identify(Applied(GENERIC, r, s.state).raw.model), s.controls);
      case SetControls(on) => SecondOfPlan(DeviceOf(s.found), on);
      case _ =>
    }
  }

  lemma SecondOfPlan(dev: Device, withControls: bool)
    ensures |PlanOf(dev, withControls)| > 1 && PlanOf(dev, withControls)[1] == Read(146, 1)
  {
    assert COMMON[1] == Read(146, 1);
  }

  lemma {:induction false} SomePlan(ls: seq<Link>, ev: seq<Event>, n: nat)
    requires IsRun(ls, ev) && n <= |ev| && ls[n].plan != []
    ensures |ls[n].plan| > 1 && ls[n].plan[1] == Read(146, 1)
  {
    assert Follows(ls, ev, n - 1);
    PlanAfter(ls[n - 1], ev[n - 1]);
    if !Rebuilds(ls[n - 1], ev[n - 1]) {
      SomePlan(ls, ev, n - 1);
    }
  }

  /** Each entry of the plan in force at `n` has been selected since the plan was built. */
  ghost predicate FullySwept(ls: seq<Link>, ev: seq<Event>, n: nat)
    requires n <= |ev| < |ls|
  {
    ls[n].plan != [] && forall k: nat | k < |ls[n].plan| :: Asked(ls, ev, n, k)
  }

  /** The engine is told BATTERY exactly when the sweep is over and the last words on the mains were not positive. */
  lemma BatteryIff(ls: seq<Link>, ev: seq<Event>, n: nat)
    requires IsRun(ls, ev) && 0 < n <= |ev| && ev[n - 1].Reply?
    ensures Gate(ls[n]).power.Battery? <==>
            FullySwept(ls, ev, n) && Reported(ev, n, 146) <= 0 && LineReported(ls, ev, n) <= 0
  {
    SweepDoneIff(ls, ev, n);
    MainsIsReported(ls, ev, n);
  }

  /** Whatever the model, AC input power has been asked for by then. */
  lemma BatteryMeansInputAsked(ls: seq<Link>, ev: seq<Event>, n: nat)
    requires IsRun(ls, ev) && 0 < n <= |ev| && ev[n - 1].Reply? && Gate(ls[n]).power.Battery?
    ensures RegisterAsked(ls, ev, n, 146)
  {
    BatteryIff(ls, ev, n);
    SomePlan(ls, ev, n);
    assert Asked(ls, ev, n, 1);
  }

  // ---------------------------------------------------------------------
  // Asked for is not the same as read
  // ---------------------------------------------------------------------

  /** Registers whose field, once filled, stays filled: all but the name, the serial number and the runtime. */
  predicate Shows(reg: nat)
  {
    reg in {102, 140, 142, 144, 146, 1314, 1315, 1511} || exists i: nat | i < |CONTROLS| :: CONTROLS[i].reg == reg
  }

  /** What a consumer of a snapshot can check: the register's field is no longer unknown. */
  predicate Known(st: State, reg: nat)
  {
    if reg == 102 then st.raw.soc >= 0
    else if reg == 140 then st.raw.dcOut >= 0
    else if reg == 142 then st.raw.acOut >= 0
    else if reg == 144 then st.raw.dcIn >= 0
    else if reg == 146 then st.raw.acIn >= 0
    else if reg == 1314 then st.raw.acInVolts >= 0.0
    else if reg == 1315 then st.raw.acInAmps >= 0.0
    else if reg == 1511 then st.raw.acOutVolts >= 0.0
    else Current(reg, st.controls) >= 0
  }

  lemma ReadingKnown(dev: Device, r: Response, st: State, reg: nat)
    requires reg in {102, 140, 142, 144, 146, 1314, 1315, 1511}
    ensures Known(Applied(dev, r, st), reg) <==> Usable(dev, reg, Reg(r, reg)) || Known(st, reg)
  {
    NoControlBelow();
  }

  lemma ControlKnown(dev: Device, r: Response, st: State, i: nat)
    requires i < |CONTROLS|
    ensures var reg := CONTROLS[i].reg;
            Known(Applied(dev, r, st), reg) <==> Usable(dev, reg, Reg(r, reg)) || Known(st, reg)
  {
    var reg := CONTROLS[i].reg;
    NoControlBelow();
    OwnRegisters(reg);
    CurrentFollows(dev, r, st.controls, i);
  }

  /** One response fills a field, or leaves it as it was. */
  lemma KnownAfter(dev: Device, r: Response, st: State, reg: nat)
    requires Shows(reg)
    ensures Known(Applied(dev, r, st), reg) <==> Usable(dev, reg, Reg(r, reg)) || Known(st, reg)
  {
    if i: nat :| i < |CONTROLS| && CONTROLS[i].reg == reg {
      ControlKnown(dev, r, st, i);
    } else {
      ReadingKnown(dev, r, st, reg);
    }
  }

  /** What an unidentified unit's reply is good for, any unit's is. */
  lemma GenericIsLeast(dev: Device, reg: nat, v: int)
    ensures Usable(GENERIC, reg, v) ==> Usable(dev, reg, v)
  {
  }

  lemma KnownAnswered(s: Link, r: Response, reg: nat)
    requires Shows(reg)
    ensures var t := Answered(s, r);
            Known(t.state, reg) <==> Usable(DeviceOf(t.found), reg, Reg(r, reg)) || Known(s.state, reg)
  {
    AnsweredParts(s, r);
    var st := Applied(DeviceOf(s.found), r, s.state);
    var dev := Identify(st.raw.model);
    KnownAfter(DeviceOf(s.found), r, s.state, reg);
    KnownAfter(dev, r, st, reg);
    GenericIsLeast(dev, reg, Reg(r, reg));
  }

  /** Reply `j` held the register, with a value the model it was by then known to be of takes from it. */
  ghost predicate ReadAt(ls: seq<Link>, ev: seq<Event>, j: nat, reg: nat)
    requires j < |ev| < |ls|
  {
    ev[j].Reply? && Usable(DeviceOf(ls[j + 1].found), reg, Reg(ev[j].resp, reg))
  }

  /** Some reply since the link came up did so. */
  ghost predicate WasRead(ls: seq<Link>, ev: seq<Event>, n: nat, reg: nat)
    requires n <= |ev| < |ls|
  {
    exists j: nat | j < n :: ReadAt(ls, ev, j, reg) && forall i: nat | j < i < n :: !ev[i].Connect?
  }

  lemma ReadGrows(ls: seq<Link>, ev: seq<Event>, m: nat, n: nat, reg: nat)
    requires m < n == m + 1 <= |ev| < |ls|
    ensures WasRead(ls, ev, n, reg) <==> ReadAt(ls, ev, m, reg) || (WasRead(ls, ev, m, reg) && !ev[m].Connect?)
  {
    if WasRead(ls, ev, n, reg) {
      var j: nat :| j < n && ReadAt(ls, ev, j, reg) && forall i: nat | j < i < n :: !ev[i].Connect?;
      assert j == m || j < m;
    }
    if WasRead(ls, ev, m, reg) && !ev[m].Connect? {
      var j: nat :| j < m && ReadAt(ls, ev, j, reg) && forall i: nat | j < i < m :: !ev[i].Connect?;
      assert forall i: nat | j < i < n :: !ev[i].Connect?;
    }
  }

  lemma NothingKnown(reg: nat)
    requires Shows(reg)
    ensures !Known(NOTHING_READ, reg)
  {
    if i: nat :| i < |CONTROLS| && CONTROLS[i].reg == reg {
      ControlRows();
    }
  }

  lemma KnownNext(s: Link, e: Event, reg: nat)
    requires Shows(reg)
    ensures var t := Step(s, e);
            Known(t.state, reg) <==>
              || (e.Reply? && Usable(DeviceOf(t.found), reg, Reg(e.resp, reg)))
              || (Known(s.state, reg) && !e.Connect?)
  {
    if e.Reply? {
      KnownAnswered(s, e.resp, reg);
    } else {
      NothingKnown(reg);
      StateKept(s, e);
    }
  }

  lemma KnownAt(ls: seq<Link>, ev: seq<Event>, m: nat, reg: nat)
    requires IsRun(ls, ev) && m < |ev| && Shows(reg)
    ensures Known(ls[m + 1].state, reg) <==> ReadAt(ls, ev, m, reg) || (Known(ls[m].state, reg) && !ev[m].Connect?)
  {
    KnownNext(ls[m], ev[m], reg);
    assert Follows(ls, ev, m);
  }

  /** In every reachable state, a field is known exactly when its register has been read on this link. */
  lemma {:induction false} KnownIffRead(ls: seq<Link>, ev: seq<Event>, n: nat, reg: nat)
    requires IsRun(ls, ev) && n <= |ev| && Shows(reg)
    ensures Known(ls[n].state, reg) <==> WasRead(ls, ev, n, reg)
  {
    if n == 0 {
      NothingKnown(reg);
    } else {
      KnownIffRead(ls, ev, n - 1, reg);
      ReadGrows(ls, ev, n - 1, n, reg);
      KnownAt(ls, ev, n - 1, reg);
    }
  }

  /** The name, the serial number and the runtime do not tell: a reading of zeros leaves them as if there had been none. */
  lemma ZerosDoNotShow(dev: Device)
    ensures Reg(NO_RUNTIME, 104) == 0 && RawAfter(dev, NO_RUNTIME, NO_READINGS) == NO_READINGS
    ensures (forall a: nat | 110 <= a < 120 :: Reg(NO_NAME, a) == 0) && RawAfter(dev, NO_NAME, NO_READINGS) == NO_READINGS
  {
    ZeroRuntime(dev);
    ZerosHold();
    BlankText(NO_NAME, 110, NAME_WORDS);
    ZeroName(dev);
  }

  lemma ZeroRuntime(dev: Device)
    ensures Reg(NO_RUNTIME, 104) == 0 && RawAfter(dev, NO_RUNTIME, NO_READINGS) == NO_READINGS
  {
    assert Reg(NO_RUNTIME, 104) == 0;
  }

  lemma ZeroName(dev: Device)
    requires forall a: nat :: Reg(NO_NAME, a) == if 110 <= a < 120 then 0 else -1
    requires TextFrom(NO_NAME, 110, NAME_WORDS) == ""
    ensures RawAfter(dev, NO_NAME, NO_READINGS) == NO_READINGS
  {
    assert SerialOf(NO_NAME) == 0;
    assert CommonAfter(NO_NAME, NO_READINGS) == NO_READINGS;
  }

  const NO_RUNTIME: Response := Response(104, [0, 0])

  const NO_NAME: Response := Response(110, Zeros(20))

  lemma ZerosHold()
    ensures forall a: nat :: Reg(NO_NAME, a) == if 110 <= a < 120 then 0 else -1
  {
  }

  function Zeros(n: nat): (z: seq<byte>)
    ensures |z| == n && forall i | 0 <= i < n :: z[i] == 0
  {
    seq(n, _ => 0)
  }

  lemma {:induction false} BlankText(r: Response, addr: nat, words: nat)
    requires forall a: nat | addr <= a < addr + words :: Reg(r, a) == 0
    ensures TextFrom(r, addr, words) == ""
    decreases words
  {
    if words > 0 {
      BlankText(r, addr + 1, words - 1);
    }
  }

  /** Every register of the plan in force whose field can show it has been read on this link. */
  ghost predicate PlanRead(ls: seq<Link>, ev: seq<Event>, n: nat)
    requires n <= |ev| < |ls|
  {
    forall reg: nat | Shows(reg) && Polls(ls[n].plan, reg) :: WasRead(ls, ev, n, reg)
  }

  /** None of those fields is unknown in the snapshot. */
  ghost predicate PlanKnown(s: Link)
  {
    forall reg: nat | Shows(reg) && Polls(s.plan, reg) :: Known(s.state, reg)
  }

  /** The registers mains presence is inferred from on a given model. */
  predicate Infers(dev: Device, reg: nat)
  {
    reg == 146 || (reg == 1314 && AcInV in dev.fields)
  }

  /** Every register mains presence is inferred from, on the unit as identified, has been read on this link. */
  ghost predicate MainsRead(ls: seq<Link>, ev: seq<Event>, n: nat)
    requires n <= |ev| < |ls|
  {
    forall reg: nat | Infers(DeviceOf(ls[n].found), reg) :: WasRead(ls, ev, n, reg)
  }

  /** None of the figures the inference rests on is still unknown. */
  predicate FiguresKnown(s: Link)
  {
    s.state.raw.acIn >= 0 && (AcInV in DeviceOf(s.found).fields ==> s.state.raw.acInVolts >= 0.0)
  }

  /** The plan, and the power state in particular, rests on actual readings exactly when the snapshot's own fields are known. */
  lemma BackedByReadingIff(ls: seq<Link>, ev: seq<Event>, n: nat)
    requires IsRun(ls, ev) && n <= |ev|
    ensures PlanRead(ls, ev, n) <==> PlanKnown(ls[n])
    ensures MainsRead(ls, ev, n) <==> FiguresKnown(ls[n])
  {
    forall reg: nat | Shows(reg)
      ensures Known(ls[n].state, reg) <==> WasRead(ls, ev, n, reg)
    {
      KnownIffRead(ls, ev, n, reg);
    }
    var dev := DeviceOf(ls[n].found);
    assert Infers(dev, 146) && (AcInV in dev.fields ==> Infers(dev, 1314));
  }

  /** A BATTERY reading with its figures known is an outage the unit itself reported: no input power, no line voltage. */
  lemma BackedBatteryIsReported(ls: seq<Link>, ev: seq<Event>, n: nat)
    requires IsRun(ls, ev) && 0 < n <= |ev| && ev[n - 1].Reply? && FiguresKnown(ls[n])
    ensures Gate(ls[n]).power.Battery? <==>
            FullySwept(ls, ev, n) && Reported(ev, n, 146) == 0 &&
            (if AcInV in DeviceOf(ls[n].found).fields then LineReported(ls, ev, n) == 0 else LineReported(ls, ev, n) <= 0)
  {
    BatteryIff(ls, ev, n);
    InputsAreReported(ls, ev, n);
  }

  // ---------------------------------------------------------------------
  // From the unit to the shutdown engine
  // ---------------------------------------------------------------------

  /** Readings reach the engine only from state callbacks, through the gate; everything else is UNKNOWN. */
  ghost predicate Feeds(ls: seq<Link>, lev: seq<Event>, ev: seq<PveRuns.Event>, src: seq<nat>)
    requires |lev| < |ls|
  {
    && |src| == |ev|
    && forall i: nat | i < |ev| && ev[i].Observe? && !ev[i].obs.power.Unknown? ::
         src[i] < |lev| && CallsBack(ls[src[i]], lev[src[i]]) && ev[i].obs == Gate(ls[src[i] + 1])
  }

  /** Engine event `j` carried a BATTERY reading backed by a full sweep of requests. */
  ghost predicate SweptOutage(ls: seq<Link>, lev: seq<Event>, ev: seq<PveRuns.Event>, src: seq<nat>, j: nat)
    requires |lev| < |ls| && |src| == |ev|
  {
    && j < |ev| && ev[j].Observe? && ev[j].obs.power.Battery? && src[j] < |lev|
    && RegisterAsked(ls, lev, src[j] + 1, 146)
    && Reported(lev, src[j] + 1, 146) <= 0 && LineReported(ls, lev, src[j] + 1) <= 0
    && FullySwept(ls, lev, src[j] + 1)
  }

  lemma BatteryIsSwept(ls: seq<Link>, lev: seq<Event>, ev: seq<PveRuns.Event>, src: seq<nat>, j: nat)
    requires IsRun(ls, lev) && Feeds(ls, lev, ev, src)
    requires j < |ev| && ev[j].Observe? && ev[j].obs.power.Battery?
    ensures SweptOutage(ls, lev, ev, src, j)
  {
    BatteryIff(ls, lev, src[j] + 1);
    BatteryMeansInputAsked(ls, lev, src[j] + 1);
  }

  /** Behind a fire at `i` is a swept BATTERY reading of its own outage: the very one it acts on, or the one that began it. */
  ghost predicate SweptBehind(ls: seq<Link>, lev: seq<Event>, sys: seq<PveRuns.System>, ev: seq<PveRuns.Event>,
                              src: seq<nat>, i: nat)
    requires |lev| < |ls| && |src| == |ev| && |sys| == |ev| + 1 && i < |ev|
  {
    exists j: nat | j <= i :: SweptOutage(ls, lev, ev, src, j) && (j == i || PveRuns.OutageEdge(sys, ev, i + 1, j))
  }

  lemma JustifiedIsSwept(ls: seq<Link>, lev: seq<Event>, sys: seq<PveRuns.System>, ev: seq<PveRuns.Event>,
                         src: seq<nat>, i: nat, t: PveEngine.Trigger)
    requires IsRun(ls, lev) && Feeds(ls, lev, ev, src) && |sys| == |ev| + 1 && i < |ev| && ev[i].Observe?
    requires PveRuns.Justified(sys, ev, i, t)
    ensures SweptBehind(ls, lev, sys, ev, src, i)
  {
    var n := i + 1;
    if k: nat :| PveRuns.OutageEdge(sys, ev, n, k) {
      BatteryIsSwept(ls, lev, ev, src, k);
    } else {
      BatteryIsSwept(ls, lev, ev, src, i);
    }
  }

  /** No host and no guest is shut down unless, in this very outage, a full sweep of the unit found no mains. */
  lemma NoShutdownWithoutSweep(ls: seq<Link>, lev: seq<Event>, sys: seq<PveRuns.System>, ev: seq<PveRuns.Event>,
                               src: seq<nat>, i: nat, h: nat, id: int)
    requires IsRun(ls, lev) && Feeds(ls, lev, ev, src)
    requires PveRuns.IsRun(sys, ev) && PveRuns.Booted(sys[0]) && i < |ev| && h < PveEngine.MAX_HOSTS
    requires PveRuns.HostFires(sys[i], ev[i], h) || PveRuns.GuestFires(sys[i], ev[i], h, id)
    ensures SweptBehind(ls, lev, sys, ev, src, i)
  {
    var t := sys[i].cfg.hosts[h].trigger;
    if PveRuns.HostFires(sys[i], ev[i], h) {
      PveRuns.HostFireJustified(sys, ev, i, h);
    } else {
      PveRuns.GuestFireJustified(sys, ev, i, h, id);
      if !PveRuns.Justified(sys, ev, i, t) {
        var r :| 0 <= r < |sys[i].rules[h]| && PveRuns.Justified(sys, ev, i, sys[i].rules[h][r].trigger);
        t := sys[i].rules[h][r].trigger;
      }
    }
    JustifiedIsSwept(ls, lev, sys, ev, src, i, t);
  }
}
