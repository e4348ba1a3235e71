/**
 When exactly a write is accepted, what exactly the shutdown engine is told, and how many
 ticks a sweep and a waiting write take.
 */
module PollerExact {
  import opened Regs
  import opened RegsPlan
  import opened Poller
  import opened PollerLaws
  import opened PollerWrites
  import PveEngine

  // ---------------------------------------------------------------------
  // At the door
  // ---------------------------------------------------------------------

  /** The last word on whether controls are on. */
  function Switched(first: bool, ev: seq<Event>, n: nat): (on: bool)
    requires n <= |ev|
  {
    if n == 0 then first else if ev[n - 1].SetControls? then ev[n - 1].on else Switched(first, ev, n - 1)
  }

  lemma ControlsAfterStep(s: Link, e: Event)
    ensures Step(s, e).controls == if e.SetControls? then e.on else s.controls
  {
    if e.Reply? {
      AnsweredParts(s, e.resp);
    }
  }

  lemma {:induction false} ControlsAreSwitched(ls: seq<Link>, ev: seq<Event>, n: nat)
    requires IsRun(ls, ev) && n <= |ev|
    ensures ls[n].controls == Switched(ls[0].controls, ev, n)
  {
    if n > 0 {
      ControlsAreSwitched(ls, ev, n - 1);
      ControlsAfterStep(ls[n - 1], ev[n - 1]);
      assert Follows(ls, ev, n - 1);
    }
  }

  /** Row `i` names the control, takes the value, is a control of the model, and has been read back on this link. */
  ghost predicate OpenTo(ls: seq<Link>, ev: seq<Event>, n: nat, i: nat)
    requires n < |ev| < |ls| && ev[n].WriteControl?
  {
    && i < |CONTROLS| && CONTROLS[i].field == ev[n].field && Accepts(CONTROLS[i].bit, ev[n].value)
    && ls[n].found.As? && CONTROLS[i].bit in ls[n].found.dev.controls && WasRead(ls, ev, n, CONTROLS[i].reg)
  }

  lemma ReadBackIff(ls: seq<Link>, ev: seq<Event>, n: nat, i: nat)
    requires IsRun(ls, ev) && n <= |ev| && i < |CONTROLS|
    ensures Current(CONTROLS[i].reg, ls[n].state.controls) >= 0 <==> WasRead(ls, ev, n, CONTROLS[i].reg)
  {
    NoControlBelow();
    KnownIffRead(ls, ev, n, CONTROLS[i].reg);
  }

  /**
   A write is accepted exactly when the link is up and its session ready, controls were last switched on, and the
   control is one of the identified unit's, takes the value, and has been read back since the link came up.
   */
  lemma AdmittedIff(ls: seq<Link>, ev: seq<Event>, n: nat)
    requires IsRun(ls, ev) && n < |ev| && ev[n].WriteControl?
    ensures Admits(ls[n], ev[n]) <==>
              ev[n].ready && Switched(ls[0].controls, ev, n) && exists i: nat :: OpenTo(ls, ev, n, i)
  {
    ControlsAreSwitched(ls, ev, n);
    var r := RowOf(ev[n].field);
    forall i: nat | OpenTo(ls, ev, n, i)
      ensures r == i
    {
      SameRow(ev[n].field, i);
    }
    if r >= 0 {
      ValidIffAccepted(r, ev[n].value);
      ReadBackIff(ls, ev, n, r);
      assert OpenTo(ls, ev, n, r) || !OpenTo(ls, ev, n, r);
    }
  }

  /** What is then queued is the value, for that control's register. */
  lemma QueuedAsAsked(ls: seq<Link>, ev: seq<Event>, n: nat, i: nat)
    requires IsRun(ls, ev) && n < |ev| && ev[n].WriteControl? && Admits(ls[n], ev[n]) && OpenTo(ls, ev, n, i)
    ensures Queued(ls[n + 1].queue, CONTROLS[i].reg)
    ensures ls[n + 1].queue[Slot(ls[n + 1].queue, CONTROLS[i].reg)] == Write(CONTROLS[i].reg, ev[n].value)
  {
    SameRow(ev[n].field, i);
    SlotAt(ls, ev, n, CONTROLS[i].reg);
  }

  // ---------------------------------------------------------------------
  // What the engine is told
  // ---------------------------------------------------------------------

  /** The latest charge reported since the link came up that is a percentage. */
  function ChargeReported(ev: seq<Event>, n: nat): (v: int)
    requires n <= |ev|
  {
    if n == 0 || ev[n - 1].Connect? then -1
    else if ev[n - 1].Reply? && 0 <= Reg(ev[n - 1].resp, 102) <= 100 then Reg(ev[n - 1].resp, 102)
    else ChargeReported(ev, n - 1)
  }

  lemma ChargeAfter(s: Link, e: Event)
    ensures Step(s, e).state.raw.soc ==
            if e.Connect? then -1
            else if e.Reply? && 0 <= Reg(e.resp, 102) <= 100 then Reg(e.resp, 102) else s.state.raw.soc
  {
    if e.Reply? {
      AnsweredParts(s, e.resp);
    } else {
      StateKept(s, e);
    }
  }

  lemma {:induction false} ChargeIsReported(ls: seq<Link>, ev: seq<Event>, n: nat)
    requires IsRun(ls, ev) && n <= |ev|
    ensures ls[n].state.raw.soc == ChargeReported(ev, n)
  {
    if n > 0 {
      ChargeIsReported(ls, ev, n - 1);
      ChargeAfter(ls[n - 1], ev[n - 1]);
      assert Follows(ls, ev, n - 1);
    }
  }

  /**
   Nothing before the sweep is over; after it LINE iff the last word on input power or line voltage was above
   zero, and the charge last reported.
   */
  lemma ToldIs(ls: seq<Link>, ev: seq<Event>, n: nat)
    requires IsRun(ls, ev) && 0 < n <= |ev| && ev[n - 1].Reply?
    ensures Gate(ls[n]) ==
            if !FullySwept(ls, ev, n) then PveEngine.Obs(PveEngine.Unknown, -1)
            else PveEngine.Obs(if Reported(ev, n, 146) > 0 || LineReported(ls, ev, n) > 0 then PveEngine.Line else PveEngine.Battery,
                               ChargeReported(ev, n))
  {
    SweepDoneIff(ls, ev, n);
    MainsIsReported(ls, ev, n);
    ChargeIsReported(ls, ev, n);
  }

  /** What is asked of a unit before it has named itself: all that decoding depends on for one of no known model. */
  lemma FirstPlan(s: Link, reg: nat)
    ensures Polls(Step(s, Subscribe).plan, reg) <==> Matters(GENERIC, reg) && !IsSetting(reg)
    ensures Step(s, Subscribe).planI == 0 && Step(s, Subscribe).sweepReads == 0
  {
    PlanIsExact(GENERIC, false, reg);
  }

  // ---------------------------------------------------------------------
  // Ticks
  // ---------------------------------------------------------------------

  /** A tick that gets as far as doing something: the link is ready and there is a plan. */
  predicate Works(s: Link, e: Event)
  {
    e == Tick(true) && s.plan != []
  }

  /** Such ticks from `a` up to `n`. */
  function Worked(ls: seq<Link>, ev: seq<Event>, a: nat, n: nat): (k: nat)
    requires n <= |ev| < |ls|
  {
    if a >= n then 0 else Worked(ls, ev, a, n - 1) + if Works(ls[n - 1], ev[n - 1]) then 1 else 0
  }

  /** As long as a write waits, every one of them sends a write. */
  lemma {:induction false} WorkedIsSent(ls: seq<Link>, ev: seq<Event>, a: nat, n: nat, reg: nat)
    requires IsRun(ls, ev) && a <= n <= |ev| && Queued(ls[a].queue, reg) && Spared(ls, ev, a, n, reg)
    ensures SentBetween(ls, ev, a, n) == Worked(ls, ev, a, n)
  {
    if a < n {
      WorkedIsSent(ls, ev, a, n - 1, reg);
      SparedStaysQueued(ls, ev, a, n - 1, reg);
    }
  }

  /** A write at place `k` of the queue has gone out, or was dropped, by the `k + 1`-th such tick. */
  lemma GoneByThen(ls: seq<Link>, ev: seq<Event>, a: nat, n: nat, reg: nat)
    requires IsRun(ls, ev) && a <= n <= |ev| && Queued(ls[a].queue, reg)
    requires Worked(ls, ev, a, n) > Slot(ls[a].queue, reg)
    ensures exists i: nat | a <= i < n :: Clears(ls, ev, i, reg)
  {
    if Spared(ls, ev, a, n, reg) {
      WorkedIsSent(ls, ev, a, n, reg);
      MovesUp(ls, ev, a, n, reg);
      assert false;
    }
    var i := FirstClear(ls, ev, a, n, reg);
  }

  /** The ticks from `a` up to `n` that found no write waiting. */
  function Idle(ls: seq<Link>, ev: seq<Event>, a: nat, n: nat): (k: nat)
    requires n <= |ev| < |ls|
  {
    if a >= n then 0 else Idle(ls, ev, a, n - 1) + if Works(ls[n - 1], ev[n - 1]) && ls[n - 1].queue == [] then 1 else 0
  }

  /** The plan has not been rebuilt. */
  ghost predicate Stands(ls: seq<Link>, ev: seq<Event>, a: nat, n: nat)
    requires n <= |ev| < |ls|
  {
    forall i: nat | a <= i < n :: !Rebuilds(ls[i], ev[i])
  }

  lemma CursorStep(s: Link, e: Event)
    requires !Rebuilds(s, e) && SweepOk(s)
    ensures var t := Step(s, e);
            && t.plan == s.plan
            && t.planI == (if Works(s, e) && s.queue == [] then (s.planI + 1) % |s.plan| else s.planI)
            && t.sweepReads == if Works(s, e) && s.queue == [] && s.sweepReads < |s.plan| then s.sweepReads + 1 else s.sweepReads
  {
    if e.Reply? {
      AnsweredParts(s, e.resp);
    }
  }

  lemma CursorAt(ls: seq<Link>, ev: seq<Event>, m: nat)
    requires IsRun(ls, ev) && m < |ev| && !Rebuilds(ls[m], ev[m])
    ensures ls[m + 1].plan == ls[m].plan && SweepOk(ls[m])
    ensures ls[m + 1].planI ==
            if Works(ls[m], ev[m]) && ls[m].queue == [] then (ls[m].planI + 1) % |ls[m].plan| else ls[m].planI
    ensures ls[m + 1].sweepReads ==
            if Works(ls[m], ev[m]) && ls[m].queue == [] && ls[m].sweepReads < |ls[m].plan| then ls[m].sweepReads + 1 else ls[m].sweepReads
  {
    InvHolds(ls, ev, m);
    CursorStep(ls[m], ev[m]);
    assert Follows(ls, ev, m);
  }

  lemma TimesMore(size: nat, a: int, b: int)
    requires a <= b
    ensures size * a <= size * b
  {
  }

  lemma PlaceIs(v: nat, size: nat, q: nat, r: nat)
    requires r < size && v == size * q + r
    ensures v % size == r
  {
    var p := v / size;
    assert v == size * p + v % size;
    if p < q {
      TimesMore(size, p + 1, q);
    } else if p > q {
      TimesMore(size, q + 1, p);
    }
  }

  lemma NextPlace(v: nat, y: nat, size: nat)
    requires size > 0 && y == v % size
    ensures (y + 1) % size == (v + 1) % size
  {
    var q := v / size;
    assert v == size * q + y;
    if y + 1 == size {
      assert size * (q + 1) == size * q + size;
      PlaceIs(v + 1, size, q + 1, 0);
      PlaceIs(y + 1, size, 1, 0);
    } else {
      PlaceIs(v + 1, size, q, y + 1);
      PlaceIs(y + 1, size, 0, y + 1);
    }
  }

  /** While a plan stands, each tick that finds no write waiting goes on to its next read, round and round. */
  lemma {:induction false} RoundRobin(ls: seq<Link>, ev: seq<Event>, a: nat, n: nat)
    requires IsRun(ls, ev) && a <= n <= |ev| && Stands(ls, ev, a, n) && ls[a].plan != []
    ensures ls[n].plan == ls[a].plan && ls[n].planI == (ls[a].planI + Idle(ls, ev, a, n)) % |ls[a].plan|
    ensures ls[n].sweepReads ==
            if ls[a].sweepReads + Idle(ls, ev, a, n) <= |ls[a].plan| then ls[a].sweepReads + Idle(ls, ev, a, n) else |ls[a].plan|
  {
    InvHolds(ls, ev, a);
    if a == n {
      PlaceIs(ls[a].planI, |ls[a].plan|, 0, ls[a].planI);
    } else {
      RoundRobin(ls, ev, a, n - 1);
      CursorAt(ls, ev, n - 1);
      NextPlace(ls[a].planI + Idle(ls, ev, a, n - 1), ls[n - 1].planI, |ls[a].plan|);
    }
  }

  /** So a sweep is over with the first reply after as many such ticks as the plan has reads. */
  lemma SweepTakes(ls: seq<Link>, ev: seq<Event>, a: nat, n: nat)
    requires IsRun(ls, ev) && a < n <= |ev| && Stands(ls, ev, a, n) && ls[a].plan != [] && ls[a].sweepReads == 0
    requires ev[n - 1].Reply?
    ensures ls[n].sweepDone <==> Idle(ls, ev, a, n) >= |ls[a].plan|
  {
    RoundRobin(ls, ev, a, n);
    assert Follows(ls, ev, n - 1);
    AnsweredParts(ls[n - 1], ev[n - 1].resp);
  }
}
