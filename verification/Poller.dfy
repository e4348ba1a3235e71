/**
 Polling and control writes (`components/bluetti_ble/bluetti_ble.c`) as steps, each
 atomic under the link's lock, and the gate in `main/main.c` that feeds the shutdown engine.

 `ready` in a tick or a write stands for the link being up with the session ready,
 and for a tick also that no earlier request is still being waited for.
 */
module Poller {
  import opened Regs
  import PveEngine

  const QUEUE_MAX: nat := 16

  datatype Found = Unidentified | As(dev: Device)

  datatype Write = Write(reg: nat, val: int)

  datatype Link = Link(plan: seq<Read>, planI: nat, sweepReads: nat, found: Found, controls: bool,
                       state: State, sweepDone: bool, queue: seq<Write>)

  datatype Event = Connect | Subscribe | Disconnect
                 | Tick(ready: bool)
                 | Reply(resp: Response)
                 | SetControls(on: bool)
                 | WriteControl(field: string, value: int, ready: bool)

  function DeviceOf(f: Found): (dev: Device)
  {
    if f.As? then f.dev else GENERIC
  }

  function Rebuilt(s: Link, dev: Device, withControls: bool): (t: Link)
  {
    s.(plan := PlanOf(dev, withControls), planI := 0, sweepReads := 0)
  }

  // ---------------------------------------------------------------------
  // The queue of control writes
  // ---------------------------------------------------------------------

  /** The first slot holding `reg`, or the end of the queue. */
  function Slot(q: seq<Write>, reg: nat): (k: nat)
    ensures k <= |q|
    ensures k < |q| ==> q[k].reg == reg
    ensures forall i: nat | i < k :: q[i].reg != reg
  {
    if q == [] || q[0].reg == reg then 0 else 1 + Slot(q[1..], reg)
  }

  predicate Queued(q: seq<Write>, reg: nat)
  {
    Slot(q, reg) < |q|
  }

  /** Replace the value waiting for the same register, or join the end. */
  function Put(q: seq<Write>, w: Write): (r: seq<Write>)
  {
    var k := Slot(q, w.reg);
    if k < |q| then q[k := w] else q + [w]
  }

  predicate Distinct(q: seq<Write>)
  {
    forall i: nat, j: nat | i < j < |q| :: q[i].reg != q[j].reg
  }

  /** A write some control of the table accepts. */
  predicate ValidWrite(w: Write)
  {
    exists i: nat | i < |CONTROLS| :: CONTROLS[i].reg == w.reg && ControlValid(CONTROLS[i], w.val)
  }

  predicate QueueOk(q: seq<Write>)
  {
    Distinct(q) && forall i: nat | i < |q| :: ValidWrite(q[i])
  }

  /** In a table of distinct registers, the row each slot belongs to; two slots never share one. */
  lemma {:induction false} RowsUsed(q: seq<Write>, n: nat) returns (rows: set<nat>)
    requires QueueOk(q) && n <= |q|
    ensures |rows| == n
    ensures forall i | i in rows :: i < |CONTROLS| && exists k: nat | k < n :: q[k].reg == CONTROLS[i].reg
  {
    if n == 0 {
      return {};
    }
    var less := RowsUsed(q, n - 1);
    assert ValidWrite(q[n - 1]);
    var i: nat :| i < |CONTROLS| && CONTROLS[i].reg == q[n - 1].reg;
    rows := less + {i};
  }

  lemma {:induction false} BelowIsSmall(rows: set<nat>, n: nat)
    requires forall i | i in rows :: i < n
    ensures |rows| <= n
  {
    if n > 0 {
      BelowIsSmall(rows - {n - 1}, n - 1);
    } else {
      assert rows == {};
    }
  }

  /** At most one waiting write per control, so sixteen slots are never all taken. */
  lemma QueueFits(q: seq<Write>)
    requires QueueOk(q)
    ensures |q| <= |CONTROLS| == 11 < QUEUE_MAX
  {
    var rows := RowsUsed(q, |q|);
    BelowIsSmall(rows, |CONTROLS|);
  }

  lemma PutKeepsOk(q: seq<Write>, w: Write)
    requires QueueOk(q) && ValidWrite(w)
    ensures QueueOk(Put(q, w))
  {
  }

  /** The first occurrence is what `Slot` finds. */
  lemma SlotFirst(q: seq<Write>, reg: nat, k: nat)
    requires k <= |q| && (k < |q| ==> q[k].reg == reg)
    requires forall i: nat | i < k :: q[i].reg != reg
    ensures Slot(q, reg) == k
  {
    assert k < |q| ==> q[k].reg == reg;
  }

  lemma PutAt(q: seq<Write>, w: Write, reg: nat)
    requires Distinct(q)
    ensures Slot(Put(q, w), reg) == if reg == w.reg || Queued(q, reg) then Slot(q, reg) else |Put(q, w)|
    ensures Queued(Put(q, w), reg) <==> reg == w.reg || Queued(q, reg)
    ensures Queued(q, reg) && reg != w.reg ==> Put(q, w)[Slot(q, reg)] == q[Slot(q, reg)]
    ensures Queued(Put(q, w), w.reg) && Put(q, w)[Slot(Put(q, w), w.reg)] == w
  {
    var p := Put(q, w);
    assert forall i: nat | i < |q| :: p[i].reg == q[i].reg;
    SlotFirst(p, w.reg, Slot(q, w.reg));
    SlotFirst(p, reg, if reg == w.reg || Queued(q, reg) then Slot(q, reg) else |p|);
  }

  lemma PopAt(q: seq<Write>, reg: nat)
    requires Distinct(q) && q != []
    ensures Distinct(q[1..])
    ensures Queued(q[1..], reg) <==> Queued(q, reg) && reg != q[0].reg
    ensures Queued(q, reg) && reg != q[0].reg ==> Slot(q[1..], reg) == Slot(q, reg) - 1
  {
    if Queued(q[1..], reg) {
      assert q[1..][Slot(q[1..], reg)] == q[1 + Slot(q[1..], reg)];
    }
  }

  // ---------------------------------------------------------------------
  // Steps
  // ---------------------------------------------------------------------

  lemma DistinctFields(i: nat, j: nat)
    requires i < |CONTROLS| && j < |CONTROLS| && CONTROLS[i].field == CONTROLS[j].field
    ensures i == j
  {
    var a, b := CONTROLS[i].field, CONTROLS[j].field;
    assert a[0] == b[0] && a[4] == b[4] && a[5] == b[5] && a[|a| - 2] == b[|b| - 2];
  }

  /** `bt_control_lookup`, as a row of the table; -1 if there is no such control. */
  ghost function RowOf(field: string): (i: int)
    ensures -1 <= i < |CONTROLS|
    ensures i >= 0 ==> CONTROLS[i].field == field
  {
    if exists i: nat | i < |CONTROLS| :: CONTROLS[i].field == field
    then var i: nat :| i < |CONTROLS| && CONTROLS[i].field == field; i
    else -1
  }

  /** A write is queued only for a control the unit has, with controls on, after a valid value was read back. */
  ghost predicate Admits(s: Link, e: Event)
  {
    && e.WriteControl?
    && var i := RowOf(e.field);
       && i >= 0 && ControlValid(CONTROLS[i], e.value)
       && s.controls && e.ready && s.found.As? && CONTROLS[i].bit in s.found.dev.controls
       && Current(CONTROLS[i].reg, s.state.controls) >= 0
  }

  ghost function WriteOf(s: Link, e: Event): (w: Write)
    requires Admits(s, e)
  {
    Write(CONTROLS[RowOf(e.field)].reg, e.value)
  }

  lemma AdmittedIsValid(s: Link, e: Event)
    requires Admits(s, e)
    ensures ValidWrite(WriteOf(s, e))
  {
    var i: nat := RowOf(e.field);
    assert CONTROLS[i].reg == WriteOf(s, e).reg;
  }

  predicate Sends(s: Link, e: Event)
  {
    e.Tick? && e.ready && s.plan != [] && s.queue != []
  }

  predicate Selects(s: Link, e: Event)
  {
    e.Tick? && e.ready && s.plan != [] && s.queue == []
  }

  /** The reply names the unit for the first time. */
  ghost predicate Names(s: Link, e: Event)
  {
    e.Reply? && s.found.Unidentified? && Applied(GENERIC, e.resp, s.state).raw.model != ""
  }

  ghost predicate Rebuilds(s: Link, e: Event)
  {
    e.Connect? || e.Subscribe? || (e.SetControls? && s.found.As?) || Names(s, e)
  }

  /** `poll_timer_cb`. */
  function Ticked(s: Link, e: Event): (t: Link)
  {
    if Sends(s, e) then s.(queue := s.queue[1..])
    else if Selects(s, e) then
      s.(planI := (s.planI + 1) % |s.plan|,
         sweepReads := if s.sweepReads < |s.plan| then s.sweepReads + 1 else s.sweepReads)
    else s
  }

  /** `session_regs`. */
  ghost function Answered(s: Link, r: Response): (t: Link)
  {
    var st := Applied(DeviceOf(s.found), r, s.state);
    var n := if Names(s, Reply(r)) then
               var dev := Identify(st.raw.model);
               Rebuilt(s, dev, s.controls).(found := As(dev), state := Applied(dev, r, st))
             else s.(state := st);
    n.(sweepDone := |n.plan| > 0 && n.sweepReads >= |n.plan|)
  }

  ghost function Step(s: Link, e: Event): (t: Link)
  {
    match e
    case Connect => s.(plan := [], planI := 0, sweepReads := 0, found := Unidentified, state := NOTHING_READ, sweepDone := false)
    case Subscribe => Rebuilt(s, GENERIC, false)
    case Disconnect => s.(found := Unidentified)
    case Tick(_) => Ticked(s, e)
    case Reply(r) => Answered(s, r)
    case SetControls(on) =>
      var t := s.(controls := on, queue := if on then s.queue else []);
      if s.found.As? then Rebuilt(t, s.found.dev, on) else t
    case WriteControl(_, _, _) => if Admits(s, e) then s.(queue := Put(s.queue, WriteOf(s, e))) else s
  }

  lemma SameRow(field: string, i: nat)
    requires i < |CONTROLS| && CONTROLS[i].field == field
    ensures RowOf(field) == i
  {
    assert RowOf(field) >= 0;
    DistinctFields(i, RowOf(field));
  }

  /** The new state after a reply, field by field. */
  lemma AnsweredParts(s: Link, r: Response)
    ensures var t, st := Answered(s, r), Applied(DeviceOf(s.found), r, s.state);
            var named, dev := s.found.Unidentified? && st.raw.model != "", Identify(st.raw.model);
            && t.found == (if named then As(dev) else s.found)
            && t.plan == (if named then PlanOf(dev, s.controls) else s.plan)
            && t.planI == (if named then 0 else s.planI) && t.sweepReads == (if named then 0 else s.sweepReads)
            && t.state == (if named then Applied(dev, r, st) else st)
            && t.sweepDone == (|t.plan| > 0 && t.sweepReads >= |t.plan|)
            && t.controls == s.controls && t.queue == s.queue
  {
  }

  /** The state callback runs, with the new state, when the reply held something usable. */
  predicate CallsBack(s: Link, e: Event)
  {
    e.Reply? && Hits(DeviceOf(s.found), e.resp)
  }

  /** What `publish_nut_from_bluetti` tells the shutdown engine. */
  function Gate(t: Link): (obs: PveEngine.Obs)
  {
    if !t.sweepDone then PveEngine.Obs(PveEngine.Unknown, -1)
    else PveEngine.Obs(if t.state.derived.acInputPresent then PveEngine.Line else PveEngine.Battery, t.state.raw.soc)
  }

  // ---------------------------------------------------------------------
  // What every step keeps
  // ---------------------------------------------------------------------

  /** The cursor runs with the counter until the first sweep is over. */
  predicate SweepOk(s: Link)
  {
    && s.sweepReads <= |s.plan| <= 22
    && (s.plan != [] ==> s.planI < |s.plan|)
    && (s.sweepReads < |s.plan| ==> s.planI == s.sweepReads)
  }

  ghost predicate Inv(s: Link)
  {
    && SweepOk(s) && Consistent(s.state) && CtlOk(s.state) && -1 <= s.state.raw.soc <= 100
    && QueueOk(s.queue) && (!s.controls ==> s.queue == [])
  }

  lemma Successor(i: nat, n: nat)
    requires i < n
    ensures (i + 1) % n == if i + 1 < n then i + 1 else 0
  {
  }

  lemma TickKeepsSweep(s: Link, e: Event)
    requires SweepOk(s)
    ensures SweepOk(Ticked(s, e))
  {
    if Selects(s, e) {
      Successor(s.planI, |s.plan|);
    }
  }

  lemma AppliedKeepsOk(dev: Device, r: Response, st: State)
    requires CtlOk(st) && -1 <= st.raw.soc <= 100
    ensures var n := Applied(dev, r, st); Consistent(n) && CtlOk(n) && -1 <= n.raw.soc <= 100
  {
    BelievedStaysOk(dev, r, st);
  }

  lemma AnswerKeepsInv(s: Link, r: Response)
    requires Inv(s)
    ensures Inv(Answered(s, r))
  {
    var st := Applied(DeviceOf(s.found), r, s.state);
    AppliedKeepsOk(DeviceOf(s.found), r, s.state);
    AppliedKeepsOk(Identify(st.raw.model), r, st);
  }

  lemma StepKeepsInv(s: Link, e: Event)
    requires Inv(s)
    ensures Inv(Step(s, e))
  {
    match e {
      case Tick(_) =>
        TickKeepsSweep(s, e);
        if s.queue != [] {
          assert forall i: nat | i < |s.queue| - 1 :: s.queue[1..][i] == s.queue[i + 1];
        }
      case Reply(r) => AnswerKeepsInv(s, r);
      case WriteControl(_, _, _) =>
        if Admits(s, e) {
          AdmittedIsValid(s, e);
          PutKeepsOk(s.queue, WriteOf(s, e));
        }
      case _ =>
    }
  }

  // ---------------------------------------------------------------------
  // Runs
  // ---------------------------------------------------------------------

  ghost predicate Booted(s: Link)
  {
    && s.plan == [] && s.planI == 0 && s.sweepReads == 0 && s.found == Unidentified
    && s.state == NOTHING_READ && !s.sweepDone && s.queue == []
  }

  ghost predicate Follows(ls: seq<Link>, ev: seq<Event>, i: nat)
    requires i < |ev| < |ls|
  {
    ls[i + 1] == Step(ls[i], ev[i])
  }

  ghost predicate IsRun(ls: seq<Link>, ev: seq<Event>)
  {
    && |ls| == |ev| + 1 && Booted(ls[0])
    && forall i: nat | i < |ev| :: Follows(ls, ev, i)
  }

  lemma {:induction false} InvHolds(ls: seq<Link>, ev: seq<Event>, n: nat)
    requires IsRun(ls, ev) && n <= |ev|
    ensures Inv(ls[n])
  {
    if n > 0 {
      InvHolds(ls, ev, n - 1);
      NextIsOk(ls, ev, n - 1);
    } else {
      assert CtlOk(NOTHING_READ);
    }
  }

  lemma NextIsOk(ls: seq<Link>, ev: seq<Event>, m: nat)
    requires IsRun(ls, ev) && m < |ev| && Inv(ls[m])
    ensures Inv(ls[m + 1])
  {
    StepKeepsInv(ls[m], ev[m]);
    assert Follows(ls, ev, m);
  }

  /** What one step does to the plan and the counter. */
  lemma SweepStep(s: Link, e: Event)
    ensures var t := Step(s, e);
            if Rebuilds(s, e) then t.sweepReads == 0
            else t.plan == s.plan &&
                 t.sweepReads == if Selects(s, e) && s.sweepReads < |s.plan| then s.sweepReads + 1 else s.sweepReads
  {
  }

  lemma SweepAt(ls: seq<Link>, ev: seq<Event>, m: nat)
    requires IsRun(ls, ev) && m < |ev|
    ensures SweepOk(ls[m])
    ensures if Rebuilds(ls[m], ev[m]) then ls[m + 1].sweepReads == 0
            else ls[m + 1].plan == ls[m].plan &&
                 ls[m + 1].sweepReads ==
                 if Selects(ls[m], ev[m]) && ls[m].sweepReads < |ls[m].plan| then ls[m].sweepReads + 1 else ls[m].sweepReads
  {
    InvHolds(ls, ev, m);
    SweepStep(ls[m], ev[m]);
    assert Follows(ls, ev, m);
  }

  /** Entry `k` of the plan in force at `n` was selected for reading at `j`, and the plan has stood since. */
  ghost predicate AskedAt(ls: seq<Link>, ev: seq<Event>, n: nat, k: nat, j: nat)
    requires n <= |ev| < |ls|
  {
    && j < n && Selects(ls[j], ev[j]) && ls[j].planI == k && ls[j].plan == ls[n].plan
    && forall i: nat | j <= i < n :: !Rebuilds(ls[i], ev[i])
  }

  ghost predicate Asked(ls: seq<Link>, ev: seq<Event>, n: nat, k: nat)
    requires n <= |ev| < |ls|
  {
    exists j: nat :: AskedAt(ls, ev, n, k, j)
  }

  lemma {:induction false} Counted(ls: seq<Link>, ev: seq<Event>, n: nat, k: nat) returns (j: nat)
    requires IsRun(ls, ev) && n <= |ev| && k < ls[n].sweepReads
    ensures AskedAt(ls, ev, n, k, j)
  {
    var m := n - 1;
    SweepAt(ls, ev, m);
    if Selects(ls[m], ev[m]) && k == ls[m].sweepReads {
      j := m;
    } else {
      j := Counted(ls, ev, m, k);
    }
  }

  lemma {:induction false} AskedIsCounted(ls: seq<Link>, ev: seq<Event>, n: nat, k: nat, j: nat)
    requires IsRun(ls, ev) && n <= |ev| && AskedAt(ls, ev, n, k, j)
    ensures k < ls[n].sweepReads
  {
    var m := n - 1;
    SweepAt(ls, ev, m);
    if j < m {
      assert ls[m].plan == ls[n].plan;
      AskedIsCounted(ls, ev, m, k, j);
    }
  }

  /** The sweep counter says how much of the plan has been selected since the last rebuild. */
  lemma CountedIffAsked(ls: seq<Link>, ev: seq<Event>, n: nat, k: nat)
    requires IsRun(ls, ev) && n <= |ev|
    ensures k < ls[n].sweepReads <==> Asked(ls, ev, n, k)
  {
    if k < ls[n].sweepReads {
      var j := Counted(ls, ev, n, k);
    } else if Asked(ls, ev, n, k) {
      var j: nat :| AskedAt(ls, ev, n, k, j);
      AskedIsCounted(ls, ev, n, k, j);
    }
  }

  /** `sweep_done` holds in a snapshot iff there is a plan and each of its entries was selected since the last rebuild. */
  lemma SweepDoneIff(ls: seq<Link>, ev: seq<Event>, n: nat)
    requires IsRun(ls, ev) && 0 < n <= |ev| && ev[n - 1].Reply?
    ensures ls[n].sweepDone <==> ls[n].plan != [] && forall k: nat | k < |ls[n].plan| :: Asked(ls, ev, n, k)
  {
    assert Follows(ls, ev, n - 1);
    assert ls[n].sweepDone <==> |ls[n].plan| > 0 && ls[n].sweepReads >= |ls[n].plan|;
    forall k: nat | k < |ls[n].plan|
      ensures k < ls[n].sweepReads <==> Asked(ls, ev, n, k)
    {
      CountedIffAsked(ls, ev, n, k);
    }
    if ls[n].plan != [] {
      var last: nat := |ls[n].plan| - 1;
      assert last < ls[n].sweepReads <==> Asked(ls, ev, n, last);
    }
  }
}
