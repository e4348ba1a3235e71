/**
 Control writes over whole runs: which are waiting, in what order they go out, how
 long they wait, and whose control they are when they do.
 */
module PollerWrites {
  import opened Regs
  import opened Poller

  /** Event `j` queues a write to `reg`. */
  ghost predicate Queues(ls: seq<Link>, ev: seq<Event>, j: nat, reg: nat)
    requires j < |ev| < |ls|
  {
    Admits(ls[j], ev[j]) && WriteOf(ls[j], ev[j]).reg == reg
  }

  /** Event `j` sends a write to `reg`, or drops them all. */
  ghost predicate Clears(ls: seq<Link>, ev: seq<Event>, j: nat, reg: nat)
    requires j < |ev| < |ls|
  {
    (Sends(ls[j], ev[j]) && ls[j].queue[0].reg == reg) || ev[j] == SetControls(false)
  }

  /** None of the events from `a` up to `n` clears `reg`. */
  ghost predicate Spared(ls: seq<Link>, ev: seq<Event>, a: nat, n: nat, reg: nat)
    requires n <= |ev| < |ls|
  {
    a >= n || (Spared(ls, ev, a, n - 1, reg) && !Clears(ls, ev, n - 1, reg))
  }

  /** None of the events from `a` up to `n` writes to `reg`. */
  ghost predicate Unreplaced(ls: seq<Link>, ev: seq<Event>, a: nat, n: nat, reg: nat)
    requires n <= |ev| < |ls|
  {
    a >= n || (Unreplaced(ls, ev, a, n - 1, reg) && !Queues(ls, ev, n - 1, reg))
  }

  /** The write of event `j` is still to be sent at `n`. */
  ghost predicate Waiting(ls: seq<Link>, ev: seq<Event>, j: nat, n: nat, reg: nat)
    requires n <= |ev| < |ls|
  {
    j < n && Queues(ls, ev, j, reg) && Spared(ls, ev, j + 1, n, reg)
  }

  /** ... and nothing newer has replaced it. */
  ghost predicate Newest(ls: seq<Link>, ev: seq<Event>, j: nat, n: nat, reg: nat)
    requires n <= |ev| < |ls|
  {
    Waiting(ls, ev, j, n, reg) && Unreplaced(ls, ev, j + 1, n, reg)
  }

  /** A register's slot is untouched by a step that neither writes nor clears it, except that a send moves all up. */
  ghost predicate Kept(q: seq<Write>, r: seq<Write>, sends: bool, reg: nat)
  {
    && (Queued(r, reg) <==> Queued(q, reg))
    && (Queued(q, reg) ==>
          r[Slot(r, reg)] == q[Slot(q, reg)] && Slot(r, reg) == Slot(q, reg) - if sends then 1 else 0)
  }

  lemma SameQueue(s: Link, e: Event)
    requires !Admits(s, e) && !Sends(s, e) && e != SetControls(false)
    ensures Step(s, e).queue == s.queue
  {
  }

  /** How one step changes the slot of one register. */
  lemma SlotStep(s: Link, e: Event, reg: nat)
    requires Inv(s)
    ensures var q, r := s.queue, Step(s, e).queue;
            if Admits(s, e) && WriteOf(s, e).reg == reg
            then Queued(r, reg) && r[Slot(r, reg)] == WriteOf(s, e) && (Queued(q, reg) ==> Slot(r, reg) == Slot(q, reg))
            else if (Sends(s, e) && q[0].reg == reg) || e == SetControls(false) then !Queued(r, reg)
            else Kept(q, r, Sends(s, e), reg)
  {
    if Admits(s, e) {
      PutAt(s.queue, WriteOf(s, e), reg);
    } else if Sends(s, e) {
      PopAt(s.queue, reg);
    } else if e != SetControls(false) {
      SameQueue(s, e);
    }
  }

  lemma SlotAt(ls: seq<Link>, ev: seq<Event>, m: nat, reg: nat)
    requires IsRun(ls, ev) && m < |ev|
    ensures var q, r := ls[m].queue, ls[m + 1].queue;
            if Queues(ls, ev, m, reg)
            then Queued(r, reg) && r[Slot(r, reg)] == WriteOf(ls[m], ev[m]) && (Queued(q, reg) ==> Slot(r, reg) == Slot(q, reg))
            else if Clears(ls, ev, m, reg) then !Queued(r, reg)
            else Kept(q, r, Sends(ls[m], ev[m]), reg)
  {
    InvHolds(ls, ev, m);
    SlotStep(ls[m], ev[m], reg);
    assert Follows(ls, ev, m);
  }

  lemma QueuedAfter(ls: seq<Link>, ev: seq<Event>, m: nat, reg: nat)
    requires IsRun(ls, ev) && m < |ev|
    ensures Queued(ls[m + 1].queue, reg) <==> Queues(ls, ev, m, reg) || (Queued(ls[m].queue, reg) && !Clears(ls, ev, m, reg))
  {
    SlotAt(ls, ev, m, reg);
    if Queues(ls, ev, m, reg) {
    } else if Clears(ls, ev, m, reg) {
    } else {
      assert Kept(ls[m].queue, ls[m + 1].queue, Sends(ls[m], ev[m]), reg);
    }
  }

  /** A register in the queue has the newest value waiting for it. */
  lemma {:induction false} SlotIsNewest(ls: seq<Link>, ev: seq<Event>, n: nat, reg: nat) returns (j: nat)
    requires IsRun(ls, ev) && n <= |ev| && Queued(ls[n].queue, reg)
    ensures Newest(ls, ev, j, n, reg) && ls[n].queue[Slot(ls[n].queue, reg)] == WriteOf(ls[j], ev[j])
  {
    SlotAt(ls, ev, n - 1, reg);
    if Queues(ls, ev, n - 1, reg) {
      j := n - 1;
    } else {
      j := SlotIsNewest(ls, ev, n - 1, reg);
    }
  }

  lemma {:induction false} SparedStaysQueued(ls: seq<Link>, ev: seq<Event>, a: nat, n: nat, reg: nat)
    requires IsRun(ls, ev) && a <= n <= |ev| && Queued(ls[a].queue, reg) && Spared(ls, ev, a, n, reg)
    ensures Queued(ls[n].queue, reg)
  {
    if a < n {
      SparedStaysQueued(ls, ev, a, n - 1, reg);
      QueuedAfter(ls, ev, n - 1, reg);
    }
  }

  lemma WaitingIsQueued(ls: seq<Link>, ev: seq<Event>, n: nat, reg: nat, j: nat)
    requires IsRun(ls, ev) && n <= |ev| && Waiting(ls, ev, j, n, reg)
    ensures Queued(ls[n].queue, reg)
  {
    QueuedAfter(ls, ev, j, reg);
    SparedStaysQueued(ls, ev, j + 1, n, reg);
  }

  /** A register holds a slot iff a write to it is waiting, and the slot has the newest value. */
  lemma QueueIsHistory(ls: seq<Link>, ev: seq<Event>, n: nat, reg: nat)
    requires IsRun(ls, ev) && n <= |ev|
    ensures Queued(ls[n].queue, reg) <==> exists j: nat :: Waiting(ls, ev, j, n, reg)
    ensures Queued(ls[n].queue, reg) ==>
              exists j: nat :: Newest(ls, ev, j, n, reg) && ls[n].queue[Slot(ls[n].queue, reg)] == WriteOf(ls[j], ev[j])
  {
    if Queued(ls[n].queue, reg) {
      var j := SlotIsNewest(ls, ev, n, reg);
    } else if j: nat :| Waiting(ls, ev, j, n, reg) {
      WaitingIsQueued(ls, ev, n, reg, j);
    }
  }

  lemma HeadIsValid(s: Link)
    requires Inv(s) && s.queue != []
    ensures var w := s.queue[0]; ValidWrite(w) && 0 <= w.val < 0x1_0000 && s.controls && Slot(s.queue, w.reg) == 0
  {
    var w := s.queue[0];
    assert ValidWrite(w);
    var i: nat :| i < |CONTROLS| && CONTROLS[i].reg == w.reg && ControlValid(CONTROLS[i], w.val);
    ValidIffAccepted(i, w.val);
  }

  /** Every write sent is the newest accepted for its register, is valid for its control, and was not dropped meanwhile. */
  lemma SentIsNewestAndValid(ls: seq<Link>, ev: seq<Event>, n: nat)
    requires IsRun(ls, ev) && n < |ev| && Sends(ls[n], ev[n])
    ensures var w := ls[n].queue[0];
            && ValidWrite(w) && 0 <= w.val < 0x1_0000 && ls[n].controls
            && exists j: nat :: Newest(ls, ev, j, n, w.reg) && WriteOf(ls[j], ev[j]) == w
  {
    InvHolds(ls, ev, n);
    HeadIsValid(ls[n]);
    var j := SlotIsNewest(ls, ev, n, ls[n].queue[0].reg);
  }

  /** One step never lets `second` past `first`, on the queue alone. */
  lemma PutKeepsOrder(q: seq<Write>, w: Write, first: nat, second: nat)
    requires Distinct(q) && Queued(q, first) && Slot(q, first) < Slot(q, second)
    ensures Slot(Put(q, w), first) < Slot(Put(q, w), second)
  {
    PutAt(q, w, first);
    PutAt(q, w, second);
  }

  lemma PopKeepsOrder(q: seq<Write>, first: nat, second: nat)
    requires Distinct(q) && Queued(q, first) && Slot(q, first) < Slot(q, second) && q[0].reg != first
    ensures Slot(q[1..], first) < Slot(q[1..], second)
  {
    PopAt(q, first);
    PopAt(q, second);
  }

  lemma OrderKept(ls: seq<Link>, ev: seq<Event>, m: nat, first: nat, second: nat)
    requires IsRun(ls, ev) && m < |ev| && Queued(ls[m].queue, first) && !Clears(ls, ev, m, first)
    requires Slot(ls[m].queue, first) < Slot(ls[m].queue, second)
    ensures Slot(ls[m + 1].queue, first) < Slot(ls[m + 1].queue, second)
  {
    InvHolds(ls, ev, m);
    StepKeepsOrder(ls[m], ev[m], first, second);
    assert Follows(ls, ev, m);
  }

  lemma StepKeepsOrder(s: Link, e: Event, first: nat, second: nat)
    requires Distinct(s.queue) && Queued(s.queue, first) && Slot(s.queue, first) < Slot(s.queue, second)
    requires Sends(s, e) ==> s.queue[0].reg != first
    requires e != SetControls(false)
    ensures Slot(Step(s, e).queue, first) < Slot(Step(s, e).queue, second)
  {
    if Admits(s, e) {
      PutKeepsOrder(s.queue, WriteOf(s, e), first, second);
    } else if Sends(s, e) {
      PopKeepsOrder(s.queue, first, second);
    } else {
      SameQueue(s, e);
    }
  }

  /** First queued, first sent: a register queued while `first` was waiting cannot be sent ahead of it. */
  lemma {:induction false} NoOvertaking(ls: seq<Link>, ev: seq<Event>, a: nat, n: nat, first: nat, second: nat)
    requires IsRun(ls, ev) && a <= n <= |ev| && first != second
    requires Queued(ls[a].queue, first) && !Queued(ls[a].queue, second)
    requires Spared(ls, ev, a, n, first)
    ensures Queued(ls[n].queue, first) && Slot(ls[n].queue, first) < Slot(ls[n].queue, second)
  {
    if n > a {
      NoOvertaking(ls, ev, a, n - 1, first, second);
      QueuedAfter(ls, ev, n - 1, first);
      OrderKept(ls, ev, n - 1, first, second);
    }
  }

  /** The sixteen slots never fill up, so a write is refused only for the reasons given at the door. */
  lemma NeverFull(ls: seq<Link>, ev: seq<Event>, n: nat)
    requires IsRun(ls, ev) && n <= |ev|
    ensures |ls[n].queue| <= 11
  {
    InvHolds(ls, ev, n);
    QueueFits(ls[n].queue);
  }

  // ---------------------------------------------------------------------
  // How long a write waits
  // ---------------------------------------------------------------------

  /** The ticks from `a` up to `n` that sent a write. */
  function SentBetween(ls: seq<Link>, ev: seq<Event>, a: nat, n: nat): (k: nat)
    requires n <= |ev| < |ls|
  {
    if a >= n then 0 else SentBetween(ls, ev, a, n - 1) + if Sends(ls[n - 1], ev[n - 1]) then 1 else 0
  }

  lemma SlotAfter(ls: seq<Link>, ev: seq<Event>, m: nat, reg: nat)
    requires IsRun(ls, ev) && m < |ev| && Queued(ls[m].queue, reg) && !Clears(ls, ev, m, reg)
    ensures Queued(ls[m + 1].queue, reg)
    ensures Slot(ls[m + 1].queue, reg) == Slot(ls[m].queue, reg) - if Sends(ls[m], ev[m]) then 1 else 0
  {
    SlotAt(ls, ev, m, reg);
  }

  /** A waiting write moves up one place with every write sent, whatever else is queued meanwhile. */
  lemma {:induction false} MovesUp(ls: seq<Link>, ev: seq<Event>, a: nat, n: nat, reg: nat)
    requires IsRun(ls, ev) && a <= n <= |ev| && Queued(ls[a].queue, reg) && Spared(ls, ev, a, n, reg)
    ensures Queued(ls[n].queue, reg) && Slot(ls[n].queue, reg) == Slot(ls[a].queue, reg) - SentBetween(ls, ev, a, n)
  {
    if a < n {
      MovesUp(ls, ev, a, n - 1, reg);
      SlotAfter(ls, ev, n - 1, reg);
    }
  }

  /** A write at place `k` of the queue has gone out, or was dropped, by the time `k + 1` writes have been sent. */
  lemma BoundedWait(ls: seq<Link>, ev: seq<Event>, a: nat, n: nat, reg: nat)
    requires IsRun(ls, ev) && a <= n <= |ev| && Queued(ls[a].queue, reg)
    requires SentBetween(ls, ev, a, n) > Slot(ls[a].queue, reg)
    ensures exists i: nat | a <= i < n :: Clears(ls, ev, i, reg)
  {
    if Spared(ls, ev, a, n, reg) {
      MovesUp(ls, ev, a, n, reg);
      assert false;
    }
    var i := FirstClear(ls, ev, a, n, reg);
  }

  lemma {:induction false} FirstClear(ls: seq<Link>, ev: seq<Event>, a: nat, n: nat, reg: nat) returns (i: nat)
    requires n <= |ev| < |ls| && !Spared(ls, ev, a, n, reg)
    ensures a <= i < n && Clears(ls, ev, i, reg)
  {
    i := n - 1;
    if !Clears(ls, ev, n - 1, reg) {
      i := FirstClear(ls, ev, a, n - 1, reg);
    }
  }

  // ---------------------------------------------------------------------
  // Whose control it is
  // ---------------------------------------------------------------------

  /** The link neither went nor came from `a` up to `n`. */
  ghost predicate SameLink(ev: seq<Event>, a: nat, n: nat)
    requires n <= |ev|
  {
    forall i: nat | a <= i < n :: !ev[i].Connect? && !ev[i].Disconnect?
  }

  lemma {:induction false} StaysFound(ls: seq<Link>, ev: seq<Event>, a: nat, n: nat)
    requires IsRun(ls, ev) && a <= n <= |ev| && ls[a].found.As? && SameLink(ev, a, n)
    ensures ls[n].found == ls[a].found
  {
    if a < n {
      StaysFound(ls, ev, a, n - 1);
      assert Follows(ls, ev, n - 1);
    }
  }

  /** The write is to a control of the unit as identified. */
  predicate Belongs(s: Link, w: Write)
  {
    s.found.As? && HasControl(s.found.dev, w.reg)
  }

  lemma AdmittedBelongs(s: Link, e: Event)
    requires Admits(s, e)
    ensures Belongs(s, WriteOf(s, e))
  {
    var i: nat := RowOf(e.field);
    assert CONTROLS[i].reg == WriteOf(s, e).reg;
  }

  /** The link goes, or comes back: the unit is no longer known. */
  predicate Forgets(e: Event)
  {
    e.Connect? || e.Disconnect?
  }

  /** After `i` the unit was unknown, and has not named itself again up to `n`. */
  ghost predicate ForgottenAt(ls: seq<Link>, ev: seq<Event>, i: nat, n: nat)
    requires n <= |ev| < |ls|
  {
    i < n && Forgets(ev[i]) && forall m: nat | i < m < n :: !Names(ls[m], ev[m])
  }

  /** The model a naming reply stands for. */
  ghost function NamedAs(s: Link, e: Event): (dev: Device)
    requires Names(s, e)
  {
    Identify(Applied(GENERIC, e.resp, s.state).raw.model)
  }

  /** The unit named itself at `m`, on the link still up at `n`. */
  ghost predicate NamedAt(ls: seq<Link>, ev: seq<Event>, m: nat, n: nat)
    requires n <= |ev| < |ls|
  {
    m < n && Names(ls[m], ev[m]) && SameLink(ev, m, n)
  }

  lemma FoundAfter(s: Link, e: Event)
    ensures Step(s, e).found ==
            if Forgets(e) then Unidentified else if Names(s, e) then As(NamedAs(s, e)) else s.found
  {
    if e.Reply? {
      AnsweredParts(s, e.resp);
    }
  }

  lemma FoundAt(ls: seq<Link>, ev: seq<Event>, m: nat)
    requires IsRun(ls, ev) && m < |ev|
    ensures ls[m + 1].found ==
            if Forgets(ev[m]) then Unidentified else if Names(ls[m], ev[m]) then As(NamedAs(ls[m], ev[m])) else ls[m].found
  {
    FoundAfter(ls[m], ev[m]);
    assert Follows(ls, ev, m);
  }

  /** A unit once known is unknown exactly when the link has gone or come since, and it has not named itself again. */
  lemma {:induction false} UnknownIff(ls: seq<Link>, ev: seq<Event>, a: nat, n: nat)
    requires IsRun(ls, ev) && a <= n <= |ev| && ls[a].found.As?
    ensures ls[n].found.Unidentified? <==> exists i: nat | a <= i :: ForgottenAt(ls, ev, i, n)
  {
    if a < n {
      UnknownIff(ls, ev, a, n - 1);
      FoundAt(ls, ev, n - 1);
      if Forgets(ev[n - 1]) {
        assert ForgottenAt(ls, ev, n - 1, n);
      } else if ls[n].found.Unidentified? {
        var i: nat :| a <= i && ForgottenAt(ls, ev, i, n - 1);
        assert ForgottenAt(ls, ev, i, n);
      } else if i: nat :| a <= i && ForgottenAt(ls, ev, i, n) {
        assert ForgottenAt(ls, ev, i, n - 1);
      }
    }
  }

  /** If it is known on another link than it was, then by the name given on this one. */
  lemma {:induction false} KnownByName(ls: seq<Link>, ev: seq<Event>, a: nat, n: nat) returns (m: nat)
    requires IsRun(ls, ev) && a <= n <= |ev| && ls[a].found.As? && ls[n].found.As? && !SameLink(ev, a, n)
    ensures a < m && NamedAt(ls, ev, m, n) && ls[n].found == As(NamedAs(ls[m], ev[m]))
  {
    FoundAt(ls, ev, n - 1);
    if Names(ls[n - 1], ev[n - 1]) {
      m := n - 1;
    } else {
      m := KnownByName(ls, ev, a, n - 1);
    }
  }

  lemma {:induction false} NameHolds(ls: seq<Link>, ev: seq<Event>, m: nat, n: nat)
    requires IsRun(ls, ev) && n <= |ev| && NamedAt(ls, ev, m, n)
    ensures ls[n].found == As(NamedAs(ls[m], ev[m]))
  {
    FoundAt(ls, ev, m);
    StaysFound(ls, ev, m + 1, n);
  }

  predicate HasControl(dev: Device, reg: nat)
  {
    exists i: nat | i < |CONTROLS| :: CONTROLS[i].reg == reg && CONTROLS[i].bit in dev.controls
  }

  /** The write accepted at `j` meets a unit that is known and has its control at `n`: still on its own link, or named again. */
  ghost predicate MeetsItsControl(ls: seq<Link>, ev: seq<Event>, j: nat, n: nat, reg: nat)
    requires n <= |ev| < |ls|
  {
    SameLink(ev, j, n) || exists m: nat | j < m :: NamedAt(ls, ev, m, n) && HasControl(NamedAs(ls[m], ev[m]), reg)
  }

  /**
   The write being sent, accepted at `j`, goes to a unit not yet identified exactly when the link has gone or come
   since and no reply has named the unit; and it is to a control of the unit as identified exactly when it is still
   on the link it was accepted on, or the model named on the present link has that control too.
   */
  lemma SentBelongsIff(ls: seq<Link>, ev: seq<Event>, j: nat, n: nat)
    requires IsRun(ls, ev) && n < |ev| && Sends(ls[n], ev[n]) && Newest(ls, ev, j, n, ls[n].queue[0].reg)
    ensures ls[n].found.Unidentified? <==> exists i: nat | j <= i :: ForgottenAt(ls, ev, i, n)
    ensures Belongs(ls[n], ls[n].queue[0]) <==> MeetsItsControl(ls, ev, j, n, ls[n].queue[0].reg)
  {
    var w := ls[n].queue[0];
    UnknownIff(ls, ev, j, n);
    AdmittedBelongs(ls[j], ev[j]);
    if SameLink(ev, j, n) {
      StaysFound(ls, ev, j, n);
    } else if ls[n].found.As? {
      var m := KnownByName(ls, ev, j, n);
    }
    if m: nat :| j < m && NamedAt(ls, ev, m, n) && HasControl(NamedAs(ls[m], ev[m]), w.reg) {
      NameHolds(ls, ev, m, n);
    }
  }
}
