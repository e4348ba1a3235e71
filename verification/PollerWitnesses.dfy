/**
 Concrete runs of the poll loop that fall short of what its documentation says.
 */
module PollerWitnesses {
  import opened Regs
  import opened Poller
  import opened PollerLaws
  import opened PollerWrites
  import PveEngine

  lemma Extend(ls: seq<Link>, ev: seq<Event>, e: Event)
    requires IsRun(ls, ev)
    ensures IsRun(ls + [Step(ls[|ev|], e)], ev + [e])
  {
    var ls', ev' := ls + [Step(ls[|ev|], e)], ev + [e];
    forall i: nat | i < |ev'|
      ensures Follows(ls', ev', i)
    {
      if i < |ev| {
        assert Follows(ls, ev, i);
      }
    }
  }

  /** The run goes on with ticks alone until the plan is through; nothing comes back. */
  ghost predicate TickedThrough(ls: seq<Link>, ev: seq<Event>, ls': seq<Link>, ev': seq<Event>)
    requires |ev| < |ls| && |ev'| < |ls'|
  {
    var s, t := ls[|ev|], ls'[|ev'|];
    && |ev| <= |ev'| && ev'[..|ev|] == ev && ls'[0] == ls[0] && IsRun(ls', ev')
    && t == s.(planI := t.planI, sweepReads := |s.plan|)
  }

  lemma TickThrough(ls: seq<Link>, ev: seq<Event>) returns (ls': seq<Link>, ev': seq<Event>)
    requires IsRun(ls, ev) && ls[|ev|].plan != [] && ls[|ev|].queue == []
    ensures |ev'| < |ls'| && TickedThrough(ls, ev, ls', ev')
  {
    ls', ev' := ls, ev;
    ghost var s := ls[|ev|];
    InvHolds(ls, ev, |ev|);
    while ls'[|ev'|].sweepReads < |s.plan|
      invariant |ev| <= |ev'| && ev'[..|ev|] == ev && IsRun(ls', ev') && ls'[0] == ls[0]
      invariant ls'[|ev'|].sweepReads <= |s.plan|
      invariant ls'[|ev'|] == s.(planI := ls'[|ev'|].planI, sweepReads := ls'[|ev'|].sweepReads)
      decreases |s.plan| - ls'[|ev'|].sweepReads
    {
      Extend(ls', ev', Tick(true));
      ls', ev' := ls' + [Step(ls'[|ev'|], Tick(true))], ev' + [Tick(true)];
    }
  }

  // ---------------------------------------------------------------------
  // BATTERY without a reading behind it
  // ---------------------------------------------------------------------

  const CHARGE_ONLY: Response := Response(102, [0, 50])

  lemma ChargeDecoded()
    ensures Reg(CHARGE_ONLY, 146) < 0 && Hits(GENERIC, CHARGE_ONLY)
    ensures var st := Applied(GENERIC, CHARGE_ONLY, NOTHING_READ);
            st.raw.soc == 50 && st.raw.model == "" && !st.derived.acInputPresent
  {
    assert Reg(CHARGE_ONLY, 102) == 50 && Reg(CHARGE_ONLY, 110) == -1;
    AppliedInputs(GENERIC, CHARGE_ONLY, NOTHING_READ);
  }

  lemma ChargeAlone(t: Link)
    requires t.plan != [] && t.sweepReads == |t.plan| && t.state == NOTHING_READ && t.found == Unidentified
    ensures CallsBack(t, Reply(CHARGE_ONLY))
    ensures var u := Step(t, Reply(CHARGE_ONLY)); u.sweepDone && Gate(u) == PveEngine.Obs(PveEngine.Battery, 50)
    ensures Step(t, Reply(CHARGE_ONLY)).state.raw.acIn == UNKNOWN_W
  {
    ChargeDecoded();
    AnsweredInputs(t, CHARGE_ONLY);
    assert !Names(t, Reply(CHARGE_ONLY));
  }

  /** The run goes on with one more event. */
  ghost predicate Goes(ls: seq<Link>, ev: seq<Event>, e: Event, ls': seq<Link>, ev': seq<Event>)
    requires |ev| < |ls| && |ev'| < |ls'|
  {
    IsRun(ls', ev') && ls'[0] == ls[0] && ev' == ev + [e] && ls'[|ev|] == ls[|ev|]
  }

  lemma GoesOn(ls: seq<Link>, ev: seq<Event>, e: Event) returns (ls': seq<Link>, ev': seq<Event>)
    requires IsRun(ls, ev)
    ensures |ev'| == |ev| + 1 < |ls'| && Goes(ls, ev, e, ls', ev') && ls'[|ev'|] == Step(ls[|ev|], e)
  {
    Extend(ls, ev, e);
    ls', ev' := ls + [Step(ls[|ev|], e)], ev + [e];
  }

  lemma Subscribed(s: Link) returns (ls: seq<Link>, ev: seq<Event>)
    requires Booted(s)
    ensures |ev| < |ls| && IsRun(ls, ev) && ls[0] == s
    ensures var t := ls[|ev|];
            t.plan != [] && t.state == NOTHING_READ && t.found == Unidentified && t.queue == [] && t.controls == s.controls
  {
    ls, ev := GoesOn([s], [], Subscribe);
  }

  lemma ChargeSeen(ls: seq<Link>, ev: seq<Event>) returns (ls': seq<Link>, ev': seq<Event>)
    requires IsRun(ls, ev)
    requires var t := ls[|ev|]; t.plan != [] && t.sweepReads == |t.plan| && t.state == NOTHING_READ && t.found == Unidentified
    ensures |ev'| == |ev| + 1 < |ls'| && Goes(ls, ev, Reply(CHARGE_ONLY), ls', ev')
    ensures CallsBack(ls'[|ev|], ev'[|ev|])
    ensures var u := ls'[|ev'|]; u.sweepDone && Gate(u) == PveEngine.Obs(PveEngine.Battery, 50) && u.state.raw.acIn < 0
  {
    ls', ev' := GoesOn(ls, ev, Reply(CHARGE_ONLY));
    ChargeAlone(ls[|ev|]);
  }

  /** With every reply but the charge lost, a finished sweep and an outage are reported though input power was never read. */
  lemma LostRepliesLookLikeAnOutage(s: Link) returns (ls: seq<Link>, ev: seq<Event>)
    requires Booted(s)
    ensures IsRun(ls, ev) && ls[0] == s && 0 < |ev| && CallsBack(ls[|ev| - 1], ev[|ev| - 1])
    ensures ls[|ev|].sweepDone && Gate(ls[|ev|]) == PveEngine.Obs(PveEngine.Battery, 50)
    ensures !WasRead(ls, ev, |ev|, 146)
  {
    ls, ev := Subscribed(s);
    ls, ev := TickThrough(ls, ev);
    ls, ev := ChargeSeen(ls, ev);
    ReadByFigures(ls, ev);
  }

  const EL10: Device := DEVICES[1]

  /** Register 110 naming the unit; the text ends where the response does. */
  const NAME: Response := Response(110, [76, 69, 48, 49])

  const NO_POWER: Response := Response(146, [0, 0])

  lemma NameDecoded()
    ensures Applied(GENERIC, NAME, NOTHING_READ).raw.model == "EL10"
  {
    assert Reg(NAME, 110) == 256 * 76 + 69 && Reg(NAME, 111) == 256 * 48 + 49 && Reg(NAME, 112) == -1;
    assert WordText(256 * 76 + 69) == "EL" && WordText(256 * 48 + 49) == "10";
    assert TextFrom(NAME, 112, NAME_WORDS - 2) == "";
    assert TextFrom(NAME, 111, NAME_WORDS - 1) == "10";
    assert TextFrom(NAME, 110, NAME_WORDS) == "EL10";
  }

  lemma NoMainsInName()
    ensures Reg(NAME, 146) == -1 && Reg(NAME, 1314) == -1
  {
  }

  lemma NameIdentifies()
    ensures Identify("EL10") == EL10
  {
    assert Matches("EL10", DEVICES[1].name);
    var k: nat :| k < |DEVICES| && Matches("EL10", DEVICES[k].name) && Identify("EL10") == DEVICES[k];
    OneModelAtMost("EL10", 1, k);
  }

  /** A reply that names the unit, and says nothing of the mains, on a link where nothing has been read. */
  lemma FirstNamed(s: Link, r: Response, dev: Device)
    requires s.found == Unidentified && s.state == NOTHING_READ
    requires Applied(GENERIC, r, NOTHING_READ).raw.model != "" && Identify(Applied(GENERIC, r, NOTHING_READ).raw.model) == dev
    ensures var t := Answered(s, r);
            && t.found == As(dev) && t.plan == PlanOf(dev, s.controls) && t.sweepReads == 0
            && t.controls == s.controls && t.queue == s.queue
  {
  }

  lemma ReplyStep(s: Link, r: Response)
    ensures Step(s, Reply(r)) == Answered(s, r)
  {
  }

  lemma NothingOfMains(s: Link, r: Response)
    requires s.state == NOTHING_READ && Reg(r, 146) < 0 && Reg(r, 1314) < 0
    ensures var t := Answered(s, r); t.state.raw.acIn == UNKNOWN_W && t.state.raw.acInVolts < 0.0
  {
    AnsweredInputs(s, r);
  }

  lemma NamedState(s: Link, r: Response, dev: Device)
    requires s.found == Unidentified && s.state == NOTHING_READ
    requires Applied(GENERIC, r, NOTHING_READ).raw.model != "" && Identify(Applied(GENERIC, r, NOTHING_READ).raw.model) == dev
    requires Reg(r, 146) < 0 && Reg(r, 1314) < 0
    ensures var t := Step(s, Reply(r));
            && t.found == As(dev) && t.plan == PlanOf(dev, s.controls) && t.sweepReads == 0
            && t.controls == s.controls && t.queue == s.queue
            && t.state.raw.acIn == UNKNOWN_W && t.state.raw.acInVolts < 0.0
  {
    ReplyStep(s, r);
    FirstNamed(s, r, dev);
    NothingOfMains(s, r);
  }

  /** The run goes on with such a reply. */
  lemma NamedOn(ls: seq<Link>, ev: seq<Event>, r: Response, dev: Device) returns (ls': seq<Link>, ev': seq<Event>)
    requires IsRun(ls, ev) && ls[|ev|].found == Unidentified && ls[|ev|].state == NOTHING_READ
    requires Applied(GENERIC, r, NOTHING_READ).raw.model != "" && Identify(Applied(GENERIC, r, NOTHING_READ).raw.model) == dev
    requires Reg(r, 146) < 0 && Reg(r, 1314) < 0
    ensures |ev'| == |ev| + 1 < |ls'| && Goes(ls, ev, Reply(r), ls', ev')
    ensures var s, t := ls[|ev|], ls'[|ev'|];
            && t.found == As(dev) && t.plan == PlanOf(dev, s.controls) && t.sweepReads == 0
            && t.controls == s.controls && t.queue == s.queue
            && t.state.raw.acIn == UNKNOWN_W && t.state.raw.acInVolts < 0.0
  {
    NamedState(ls[|ev|], r, dev);
    ls', ev' := GoesOn(ls, ev, Reply(r));
  }

  /** A known unit's reply leaves everything but the state and the flag alone. */
  lemma AnsweredKnown(s: Link, r: Response)
    requires s.found.As?
    ensures var t := Answered(s, r);
            && t.found == s.found && t.plan == s.plan && t.sweepReads == s.sweepReads && t.controls == s.controls
            && t.queue == s.queue && t.state == Applied(s.found.dev, r, s.state)
            && t.sweepDone == (|s.plan| > 0 && s.sweepReads >= |s.plan|)
  {
  }

  lemma NoPowerInIt()
    ensures Reg(NO_POWER, 146) == 0 && Reg(NO_POWER, 1314) == -1
  {
  }

  /** The run goes on with a known unit's reply. */
  lemma KnownOn(ls: seq<Link>, ev: seq<Event>, r: Response) returns (ls': seq<Link>, ev': seq<Event>)
    requires IsRun(ls, ev) && ls[|ev|].found.As?
    ensures |ev'| == |ev| + 1 < |ls'| && Goes(ls, ev, Reply(r), ls', ev')
    ensures var s, t := ls[|ev|], ls'[|ev'|];
            && t.found == s.found && t.plan == s.plan && t.sweepReads == s.sweepReads && t.controls == s.controls
            && t.queue == s.queue && t.sweepDone == (|s.plan| > 0 && s.sweepReads >= |s.plan|)
            && t.state.controls == ControlsAfter(s.found.dev, r, s.state.controls)
            && (Reg(r, 146) >= 0 ==> t.state.raw.acIn == Reg(r, 146))
            && (Reg(r, 1314) < 0 ==> t.state.raw.acInVolts == s.state.raw.acInVolts)
  {
    AnsweredKnown(ls[|ev|], r);
    AnsweredInputs(ls[|ev|], r);
    ls', ev' := GoesOn(ls, ev, Reply(r));
  }

  lemma NoPowerSeen(ls: seq<Link>, ev: seq<Event>) returns (ls': seq<Link>, ev': seq<Event>)
    requires IsRun(ls, ev)
    requires var t := ls[|ev|]; t.found == As(EL10) && t.plan != [] && t.sweepReads == |t.plan| && t.state.raw.acInVolts < 0.0
    ensures |ev'| == |ev| + 1 < |ls'| && Goes(ls, ev, Reply(NO_POWER), ls', ev') && CallsBack(ls'[|ev|], ev'[|ev|])
    ensures var u := ls'[|ev'|]; u.sweepDone && u.found == As(EL10) && u.state.raw.acIn == 0 && u.state.raw.acInVolts < 0.0
  {
    NoPowerInIt();
    ls', ev' := KnownOn(ls, ev, NO_POWER);
  }

  /** The unit names itself; nothing is known of its mains. */
  lemma NameSeen(ls: seq<Link>, ev: seq<Event>) returns (ls': seq<Link>, ev': seq<Event>)
    requires IsRun(ls, ev) && ls[|ev|].found == Unidentified && ls[|ev|].state == NOTHING_READ
    ensures |ev'| == |ev| + 1 < |ls'| && Goes(ls, ev, Reply(NAME), ls', ev')
    ensures var s, t := ls[|ev|], ls'[|ev'|];
            && t.found == As(EL10) && t.plan == PlanOf(EL10, s.controls) && t.controls == s.controls && t.queue == s.queue
            && t.state.raw.acIn == UNKNOWN_W && t.state.raw.acInVolts < 0.0
  {
    NameDecoded();
    NameIdentifies();
    NoMainsInName();
    ls', ev' := NamedOn(ls, ev, NAME, EL10);
  }

  /**
   A full unit idling on the mains draws no power. If the answer with its line voltage is lost,
   a finished sweep reports an outage although input power has been read.
   */
  lemma IdleUnitLooksLikeAnOutage(s: Link) returns (ls: seq<Link>, ev: seq<Event>)
    requires Booted(s)
    ensures IsRun(ls, ev) && ls[0] == s && 0 < |ev| && CallsBack(ls[|ev| - 1], ev[|ev| - 1])
    ensures var t := ls[|ev|]; t.sweepDone && Gate(t).power.Battery? && t.found == As(EL10) && t.state.raw.acIn >= 0
    ensures WasRead(ls, ev, |ev|, 146) && Infers(EL10, 1314) && !WasRead(ls, ev, |ev|, 1314)
  {
    ls, ev := Subscribed(s);
    ls, ev := NameSeen(ls, ev);
    ls, ev := TickThrough(ls, ev);
    ls, ev := NoPowerSeen(ls, ev);
    InvHolds(ls, ev, |ev|);
    ReadByFigures(ls, ev);
  }

  lemma ReadByFigures(ls: seq<Link>, ev: seq<Event>)
    requires IsRun(ls, ev)
    ensures WasRead(ls, ev, |ev|, 146) <==> ls[|ev|].state.raw.acIn >= 0
    ensures WasRead(ls, ev, |ev|, 1314) <==> ls[|ev|].state.raw.acInVolts >= 0.0
  {
    KnownIffRead(ls, ev, |ev|, 146);
    KnownIffRead(ls, ev, |ev|, 1314);
  }

  // ---------------------------------------------------------------------
  // More than one write at a time, and one that outlives its link
  // ---------------------------------------------------------------------

  /** Both output switches, on. */
  const SWITCHES: Response := Response(2011, [0, 1, 0, 1])

  const AC_OFF: Event := WriteControl("ac_output", 0, true)
  const DC_OFF: Event := WriteControl("dc_output", 0, true)

  lemma SwitchesDecoded(c: Controls)
    ensures var n := ControlsAfter(EL10, SWITCHES, c); Current(2011, n) == 1 && Current(2012, n) == 1
  {
    assert Reg(SWITCHES, 2011) == 1 && Reg(SWITCHES, 2012) == 1;
    SwitchRows();
    CurrentFollows(EL10, SWITCHES, c, 0);
    CurrentFollows(EL10, SWITCHES, c, 1);
  }

  lemma SwitchAdmitted(s: Link, row: nat, e: Event)
    requires row < 2 && e == WriteControl(CONTROLS[row].field, 0, true)
    requires s.found == As(EL10) && s.controls && Current(CONTROLS[row].reg, s.state.controls) == 1
    ensures Admits(s, e) && WriteOf(s, e) == Write(CONTROLS[row].reg, 0)
  {
    SameRow(e.field, row);
  }

  /** A unit that has named itself and shown both switches. */
  lemma SwitchesRun(s: Link) returns (ls: seq<Link>, ev: seq<Event>)
    requires Booted(s) && s.controls
    ensures |ev| < |ls| && IsRun(ls, ev) && ls[0] == s
    ensures var t := ls[|ev|];
            && t.found == As(EL10) && t.controls && t.queue == []
            && Current(2011, t.state.controls) == 1 && Current(2012, t.state.controls) == 1
  {
    ls, ev := Subscribed(s);
    ls, ev := NameSeen(ls, ev);
    SwitchesDecoded(ls[|ev|].state.controls);
    ls, ev := KnownOn(ls, ev, SWITCHES);
  }

  lemma SwitchQueued(s: Link, row: nat, e: Event)
    requires row < 2 && e == WriteControl(CONTROLS[row].field, 0, true)
    requires s.found == As(EL10) && s.controls && Current(CONTROLS[row].reg, s.state.controls) == 1
    requires !Queued(s.queue, CONTROLS[row].reg)
    ensures Step(s, e) == s.(queue := s.queue + [Write(CONTROLS[row].reg, 0)])
  {
    SwitchAdmitted(s, row, e);
  }

  /** A run with two writes waiting at once. */
  lemma TwoWritesWait(s: Link) returns (ls: seq<Link>, ev: seq<Event>)
    requires Booted(s) && s.controls
    ensures IsRun(ls, ev) && ls[0] == s && ls[|ev|].queue == [Write(2011, 0), Write(2012, 0)]
  {
    ls, ev := SwitchesRun(s);
    SwitchRows();
    SwitchQueued(ls[|ev|], 0, AC_OFF);
    ls, ev := GoesOn(ls, ev, AC_OFF);
    SwitchQueued(ls[|ev|], 1, DC_OFF);
    ls, ev := GoesOn(ls, ev, DC_OFF);
  }

  lemma SwitchRows()
    ensures CONTROLS[0].reg == 2011 && CONTROLS[1].reg == 2012
    ensures AC_OFF == WriteControl(CONTROLS[0].field, 0, true) && DC_OFF == WriteControl(CONTROLS[1].field, 0, true)
  {
  }

  /** The queue survives a reconnect, so a write can go out before the unit has said what it is. */
  lemma WriteOutlivesItsLink(s: Link) returns (ls: seq<Link>, ev: seq<Event>)
    requires Booted(s) && s.controls
    ensures IsRun(ls, ev) && ls[0] == s && 0 < |ev| && Sends(ls[|ev| - 1], ev[|ev| - 1])
    ensures ls[|ev| - 1].found == Unidentified && ls[|ev| - 1].queue[0] == Write(2011, 0)
  {
    ls, ev := TwoWritesWait(s);
    ls, ev := GoesOn(ls, ev, Connect);
    ls, ev := GoesOn(ls, ev, Subscribe);
    ls, ev := GoesOn(ls, ev, Tick(true));
  }

  /** A name no model has. */
  const STRANGER: Response := Response(110, [88, 88])

  lemma StrangerDecoded()
    ensures Applied(GENERIC, STRANGER, NOTHING_READ).raw.model == "XX"
    ensures Identify("XX") == GENERIC && Reg(STRANGER, 146) == -1 && Reg(STRANGER, 1314) == -1
  {
    assert Reg(STRANGER, 110) == 257 * 88 && Reg(STRANGER, 111) == -1;
    assert TextFrom(STRANGER, 111, NAME_WORDS - 1) == "";
    assert TextFrom(STRANGER, 110, NAME_WORDS) == "XX";
    assert forall i: nat | i < |DEVICES| :: |DEVICES[i].name| > 2;
  }

  /** ... or after it has: here to a unit of a model without any controls. */
  lemma WriteMeetsAnotherUnit(s: Link) returns (ls: seq<Link>, ev: seq<Event>)
    requires Booted(s) && s.controls
    ensures IsRun(ls, ev) && ls[0] == s && 0 < |ev| && Sends(ls[|ev| - 1], ev[|ev| - 1])
    ensures var t := ls[|ev| - 1]; t.found.As? && t.queue[0] == Write(2011, 0) && !Belongs(t, t.queue[0])
  {
    ls, ev := TwoWritesWait(s);
    ls, ev := GoesOn(ls, ev, Connect);
    ls, ev := GoesOn(ls, ev, Subscribe);
    StrangerDecoded();
    ls, ev := NamedOn(ls, ev, STRANGER, GENERIC);
    ls, ev := GoesOn(ls, ev, Tick(true));
  }
}
