/**
 The link's own state and entry points (`components/bluetti_ble/bluetti_ble.c`), each
 proved to be one step of the polling model.
 */
module PollerCode {
  import opened Regs
  import opened Poller
  import Allowed

  datatype Sent = Nothing | SentWrite(write: Write) | SentRead(read: Read)

  /** `bt_control_lookup`. */
  method LookupControl(field: string) returns (row: int)
    ensures row == RowOf(field)
  {
    for i := 0 to |CONTROLS|
      invariant forall k: nat | k < i :: CONTROLS[k].field != field
    {
      if CONTROLS[i].field == field {
        SameRow(field, i);
        return i;
      }
    }
    return -1;
  }

  /** A reply decoded: with the model known so far, and once more if it is the first to name the unit. */
  method Digest(found: Found, withControls: bool, st: State, r: Response)
      returns (hit: bool, named: bool, dev: Device, p: seq<Read>, n: State)
    requires Consistent(st)
    ensures hit == Hits(DeviceOf(found), r)
    ensures named == (found.Unidentified? && Applied(DeviceOf(found), r, st).raw.model != "")
    ensures named ==> dev == Identify(Applied(DeviceOf(found), r, st).raw.model) && p == PlanOf(dev, withControls)
    ensures n == if named then Applied(dev, r, Applied(DeviceOf(found), r, st)) else Applied(DeviceOf(found), r, st)
  {
    dev, p := if found.As? then found.dev else GENERIC, [];
    var once, matched := Apply(dev, r, st);
    n, hit := once, matched > 0;
    named := found.Unidentified? && once.raw.model != "";
    if named {
      dev := IdentifyBy(once.raw.model);
      p := Plan(dev, withControls);
      var again, _ := Apply(dev, r, once);
      n := again;
    }
  }

  /** What a reply makes of the link, from the digest of it. */
  lemma AnsweredIs(s: Link, r: Response, named: bool, dev: Device, p: seq<Read>, n: State)
    requires named == (s.found.Unidentified? && Applied(DeviceOf(s.found), r, s.state).raw.model != "")
    requires named ==> dev == Identify(Applied(DeviceOf(s.found), r, s.state).raw.model) && p == PlanOf(dev, s.controls)
    requires n == if named then Applied(dev, r, Applied(DeviceOf(s.found), r, s.state)) else Applied(DeviceOf(s.found), r, s.state)
    ensures Answered(s, r) == Updated(s, named, dev, p, n)
  {
    AnsweredParts(s, r);
  }

  lemma ReplyIs(s: Link, r: Response)
    ensures Step(s, Reply(r)) == Answered(s, r) && CallsBack(s, Reply(r)) == Hits(DeviceOf(s.found), r)
  {
  }

  /** The link after a reply. */
  function Updated(s: Link, named: bool, dev: Device, p: seq<Read>, n: State): (t: Link)
  {
    var t := if named then s.(found := As(dev), plan := p, planI := 0, sweepReads := 0) else s;
    t.(state := n, sweepDone := |t.plan| > 0 && t.sweepReads >= |t.plan|)
  }

  /** The digest of a reply on link `s`. */
  method DigestOn(ghost s: Link, found: Found, withControls: bool, st: State, r: Response)
      returns (hit: bool, named: bool, dev: Device, p: seq<Read>, n: State)
    requires s.found == found && s.controls == withControls && s.state == st && Consistent(st)
    ensures Answered(s, r) == Updated(s, named, dev, p, n) && hit == Hits(DeviceOf(found), r)
  {
    hit, named, dev, p, n := Digest(found, withControls, st, r);
    AnsweredIs(s, r, named, dev, p, n);
  }

  class BleLink {
    var plan: seq<Read>
    var planI: nat
    var sweepReads: nat
    var found: Found
    var controls: bool
    var state: State
    var sweepDone: bool
    const slots: array<Write>
    var queued: nat

    ghost function View(): (s: Link)
      requires queued <= slots.Length
      reads this, slots
    {
      Link(plan, planI, sweepReads, found, controls, state, sweepDone, slots[..queued])
    }

    ghost predicate Valid()
      reads this, slots
    {
      queued < slots.Length == QUEUE_MAX && Inv(View())
    }

    constructor (withControls: bool)
      ensures Valid() && Booted(View()) && View().controls == withControls && fresh(slots)
    {
      plan, planI, sweepReads, found := [], 0, 0, Unidentified;
      controls, state, sweepDone := withControls, NOTHING_READ, false;
      slots := new Write[QUEUE_MAX](_ => Write(0, 0));
      queued := 0;
      new;
      assert slots[..0] == [];
      assert CtlOk(NOTHING_READ);
    }

    method OnConnect()
      requires Valid()
      modifies this`plan, this`planI, this`sweepReads, this`found, this`state, this`sweepDone
      ensures Valid() && View() == Step(old(View()), Connect)
    {
      StepKeepsInv(View(), Connect);
      plan, planI, sweepReads := [], 0, 0;
      state, sweepDone := NOTHING_READ, false;
      found := Unidentified;
    }

    method OnSubscribe()
      requires Valid()
      modifies this`plan, this`planI, this`sweepReads
      ensures Valid() && View() == Step(old(View()), Subscribe)
    {
      StepKeepsInv(View(), Subscribe);
      plan := Plan(GENERIC, false);
      planI, sweepReads := 0, 0;
    }

    method OnDisconnect()
      requires Valid()
      modifies this`found
      ensures Valid() && View() == Step(old(View()), Disconnect)
    {
      found := Unidentified;
    }

    /** Take the oldest write, moving the others up. */
    method Shift() returns (w: Write)
      requires 0 < queued < slots.Length
      modifies this`queued, slots
      ensures queued == old(queued) - 1 && w == old(slots[0])
      ensures slots[..queued] == old(slots[1..queued])
    {
      w := slots[0];
      for i := 1 to queued
        invariant queued == old(queued)
        invariant forall k: nat | k < i - 1 :: slots[k] == old(slots[k + 1])
        invariant forall k: nat | i - 1 <= k < queued :: slots[k] == old(slots[k])
      {
        slots[i - 1] := slots[i];
      }
      queued := queued - 1;
    }

    /** `poll_timer_cb`: one write if any waits, else the next read of the plan. */
    method PollTick(ready: bool) returns (sent: Sent)
      requires Valid()
      modifies this`planI, this`sweepReads, this`queued, slots
      ensures Valid() && View() == Step(old(View()), Tick(ready))
      ensures sent == if Sends(old(View()), Tick(ready)) then SentWrite(old(View()).queue[0])
                      else if Selects(old(View()), Tick(ready)) then SentRead(old(plan)[old(planI)])
                      else Nothing
    {
      ghost var was := View();
      StepKeepsInv(was, Tick(ready));
      QueueFits(was.queue);
      if !ready || |plan| == 0 {
        return Nothing;
      }
      if queued > 0 {
        var w := Shift();
        assert slots[..queued] == was.queue[1..];
        return SentWrite(w);
      }
      var f := plan[planI];
      planI := (planI + 1) % |plan|;
      if sweepReads < |plan| {
        sweepReads := sweepReads + 1;
      }
      assert slots[..queued] == was.queue;
      return SentRead(f);
    }

    method Store(named: bool, dev: Device, p: seq<Read>, n: State)
      requires queued <= slots.Length
      modifies this`plan, this`planI, this`sweepReads, this`found, this`state, this`sweepDone
      ensures View() == Updated(old(View()), named, dev, p, n)
    {
      if named {
        found, plan, planI, sweepReads := As(dev), p, 0, 0;
      }
      state, sweepDone := n, |plan| > 0 && sweepReads >= |plan|;
    }

    /** The fields after a reply. */
    method StoreReply(r: Response) returns (hit: bool)
      requires Consistent(state) && queued <= slots.Length
      modifies this`plan, this`planI, this`sweepReads, this`found, this`state, this`sweepDone
      ensures View() == Answered(old(View()), r) && hit == Hits(DeviceOf(old(found)), r)
    {
      ghost var was := View();
      var named, dev, p, n;
      hit, named, dev, p, n := DigestOn(was, found, controls, state, r);
      Store(named, dev, p, n);
    }

    method HandleReply(r: Response) returns (hit: bool)
      requires Valid()
      modifies this`plan, this`planI, this`sweepReads, this`found, this`state, this`sweepDone
      ensures Valid() && View() == Answered(old(View()), r) && hit == Hits(DeviceOf(old(found)), r)
    {
      ghost var was := View();
      hit := StoreReply(r);
      assert View() == Answered(was, r);
      AnswerKeepsInv(was, r);
    }

    /** `session_regs`; the state callback gets the new state iff `called`. */
    method SessionRegs(r: Response) returns (called: bool)
      requires Valid()
      modifies this`plan, this`planI, this`sweepReads, this`found, this`state, this`sweepDone
      ensures Valid() && View() == Step(old(View()), Reply(r))
      ensures called == CallsBack(old(View()), Reply(r))
    {
      ghost var was := View();
      called := HandleReply(r);
      ReplyIs(was, r);
    }

    /** `bluetti_ble_set_controls`. */
    method SwitchControls(on: bool)
      requires Valid()
      modifies this`plan, this`planI, this`sweepReads, this`controls, this`queued
      ensures Valid() && View() == Step(old(View()), SetControls(on))
    {
      ghost var was := View();
      StepKeepsInv(was, SetControls(on));
      controls := on;
      if !on {
        queued := 0;
        assert slots[..queued] == [];
      }
      if found.As? {
        plan := Plan(found.dev, on);
        planI, sweepReads := 0, 0;
      }
    }

    /** Where a write to `reg` goes; the search stops at the first slot that has it. */
    method FindSlot(reg: nat) returns (k: nat)
      requires queued < slots.Length
      ensures k == Slot(slots[..queued], reg)
    {
      k := 0;
      while k < queued && slots[k].reg != reg
        invariant k <= queued && forall i: nat | i < k :: slots[i].reg != reg
      {
        k := k + 1;
      }
      SlotFirst(slots[..queued], reg, k);
    }

    /** Replace or append, unless there is no room; there always is. */
    method Enqueue(w: Write) returns (ok: bool)
      requires Valid()
      modifies this`queued, slots
      ensures ok && queued <= slots.Length && slots[..queued] == Put(old(slots[..queued]), w)
    {
      ghost var q := slots[..queued];
      QueueFits(q);
      var slot := FindSlot(w.reg);
      ok := slot < queued || queued < slots.Length;
      if ok {
        if slot == queued {
          queued := queued + 1;
        }
        slots[slot] := w;
      }
      assert slots[..queued] == Put(q, w);
    }

    /** `bluetti_ble_write_control`; it never fails for want of room. */
    method WriteField(field: string, value: int, ready: bool) returns (ok: bool)
      requires Valid()
      modifies this`queued, slots
      ensures Valid() && View() == Step(old(View()), WriteControl(field, value, ready))
      ensures ok == Admits(old(View()), WriteControl(field, value, ready))
    {
      ghost var was, e := View(), WriteControl(field, value, ready);
      StepKeepsInv(was, e);
      var row := LookupControl(field);
      if row < 0 {
        return false;
      }
      var valid := Allowed.Validate(row, value);
      if !valid || !controls || !ready || found.Unidentified? {
        return false;
      }
      var c := CONTROLS[row];
      if c.bit !in found.dev.controls || Current(c.reg, state.controls) < 0 {
        return false;
      }
      ok := Enqueue(Write(c.reg, value));
      assert View() == Step(was, e);
      QueueFits(slots[..queued]);
    }
  }
}
