/**
 The hand-off from the engine to the worker task (`components/pve_shutdown/pve_shutdown.c`).

 Every lock-protected section is one atomic action on a `Runtime`: folding an
 observation in and queueing what fired, replacing the settings, the worker's
 task being created (or failing to be), and one pass of the worker.  A ledger
 records what the engine fired and what was handed to `run_host`, in order; the
 theorems hold for every interleaving of the actions.
 */
module PveWorker {
  import opened PveEngine
  import opened PveRuns

  datatype Pending = Pending(host: nat, id: int)

  datatype Entry = GuestFired(host: nat, id: int)
                 | HostFired(host: nat)
                 | HandedOff(host: nat, node: bool, batch: seq<int>)

  /** `starting` counts tasks about to be created, `workers` those alive; both and `log` are bookkeeping. */
  datatype Runtime = Runtime(sys: System, running: bool, pendingHosts: set<nat>, queue: seq<Pending>,
                             starting: nat, workers: nat, log: seq<Entry>)

  datatype Action = Sys(event: Event) | SpawnOk | SpawnFails | Take

  // ---------------------------------------------------------------------
  // One action
  // ---------------------------------------------------------------------

  /** Queue entries for the guests of host `h` whose `firedNow` flag is up, in list order. */
  function ToQueue(h: nat, latches: seq<Latch>): (q: seq<Pending>)
  {
    if latches == [] then []
    else
      var rest := latches[..|latches| - 1];
      var last := latches[|latches| - 1];
      ToQueue(h, rest) + if last.firedNow then [Pending(h, last.id)] else []
  }

  function AllToQueue(hosts: seq<HostState>): (q: seq<Pending>)
  {
    if hosts == [] then []
    else
      var n := |hosts| - 1;
      AllToQueue(hosts[..n]) + ToQueue(n, hosts[n].latches)
  }

  /** The ledger's view: the guests of host `h` whose latch closed between two states. */
  function Closed(h: nat, was: seq<Latch>, now: seq<Latch>): (es: seq<Entry>)
    requires |was| == |now|
  {
    if now == [] then []
    else
      var n := |now| - 1;
      Closed(h, was[..n], now[..n]) + if !was[n].fired && now[n].fired then [GuestFired(h, now[n].id)] else []
  }

  function AllClosed(was: seq<HostState>, now: seq<HostState>): (es: seq<Entry>)
    requires SameShape(was, now)
  {
    if now == [] then []
    else
      var n := |now| - 1;
      AllClosed(was[..n], now[..n]) + Closed(n, was[n].latches, now[n].latches)
  }

  function NodesClosed(was: seq<HostState>, now: seq<HostState>): (es: seq<Entry>)
    requires |was| == |now|
  {
    if now == [] then []
    else
      var n := |now| - 1;
      NodesClosed(was[..n], now[..n]) + if !was[n].fired && now[n].fired then [HostFired(n)] else []
  }

  function FiredHosts(was: seq<HostState>, now: seq<HostState>): (s: set<nat>)
    requires |was| == |now|
  {
    set h: nat | h < |now| && !was[h].fired && now[h].fired
  }

  predicate SameShape(a: seq<HostState>, b: seq<HostState>)
  {
    |a| == |b| && forall h | 0 <= h < |a| :: |a[h].latches| == |b[h].latches|
  }

  /** Queueing what fired on the way from `r.sys` to `sys`. */
  function Enqueued(r: Runtime, sys: System): (t: Runtime)
    requires SameShape(r.sys.eng.hosts, sys.eng.hosts)
  {
    var was, now := r.sys.eng.hosts, sys.eng.hosts;
    var fires, more := FiredHosts(was, now), AllToQueue(now);
    var any := fires != {} || more != [];
    r.(sys := sys,
       queue := r.queue + more,
       pendingHosts := r.pendingHosts + fires,
       running := r.running || any,
       starting := if any && !r.running then r.starting + 1 else r.starting,
       log := r.log + AllClosed(was, now) + NodesClosed(was, now))
  }

  /** `pve_shutdown_observe`, under the lock. */
  function AfterObserve(r: Runtime, e: Event): (t: Runtime)
    requires Ok(r.sys) && e.Observe?
  {
    ObserveKeepsShape(r.sys, e);
    Enqueued(r, Step(r.sys, e))
  }

  /** The host the worker serves next: the lowest pending node, else the oldest queued guest's host. */
  function NextHost(r: Runtime): (h: int)
  {
    if 0 in r.pendingHosts then 0
    else if 1 in r.pendingHosts then 1
    else if 2 in r.pendingHosts then 2
    else if 3 in r.pendingHosts then 3
    else if r.queue != [] then r.queue[0].host
    else -1
  }

  function OfHost(q: seq<Pending>, h: nat): (ids: seq<int>)
  {
    if q == [] then []
    else
      var n := |q| - 1;
      OfHost(q[..n], h) + if q[n].host == h then [q[n].id] else []
  }

  function OfOthers(q: seq<Pending>, h: nat): (rest: seq<Pending>)
  {
    if q == [] then []
    else
      var n := |q| - 1;
      OfOthers(q[..n], h) + if q[n].host == h then [] else [q[n]]
  }

  /** One pass of `worker_task`, under the lock. */
  function Taken(r: Runtime): (t: Runtime)
    requires r.workers > 0
  {
    var h := NextHost(r);
    if h < 0 then r.(running := false, workers := r.workers - 1)
    else r.(pendingHosts := r.pendingHosts - {h as nat},
            queue := OfOthers(r.queue, h),
            log := r.log + [HandedOff(h, h in r.pendingHosts, OfHost(r.queue, h))])
  }

  predicate Enabled(r: Runtime, a: Action)
  {
    match a
    case Sys(e) => Ok(r.sys) && EventOk(e)
    case SpawnOk => r.starting > 0
    case SpawnFails => r.starting > 0
    case Take => r.workers > 0
  }

  function Act(r: Runtime, a: Action): (t: Runtime)
    requires Enabled(r, a)
  {
    match a
    case Sys(e) => if e.Observe? then AfterObserve(r, e) else r.(sys := Step(r.sys, e))
    case SpawnOk => r.(starting := r.starting - 1, workers := r.workers + 1)
    case SpawnFails => r.(starting := r.starting - 1, running := false)
    case Take => Taken(r)
  }

  lemma ObserveKeepsShape(s: System, e: Event)
    requires Ok(s) && EventOk(e) && e.Observe?
    ensures SameShape(s.eng.hosts, Step(s, e).eng.hosts)
  {
    forall h | 0 <= h < MAX_HOSTS ensures |Step(s, e).eng.hosts[h].latches| == |s.eng.hosts[h].latches| {
      StepAt(s, e, h);
    }
  }

  // ---------------------------------------------------------------------
  // Reading the ledger
  // ---------------------------------------------------------------------

  /** Guests of host `h` the engine has fired, in order. */
  function Fired(log: seq<Entry>, h: nat): (ids: seq<int>)
  {
    if log == [] then []
    else
      var n := |log| - 1;
      Fired(log[..n], h) + FiredBy(log[n], h)
  }

  function FiredBy(e: Entry, h: nat): (ids: seq<int>)
  {
    if e.GuestFired? && e.host == h then [e.id] else []
  }

  /** Guests of host `h` handed to `run_host`, in order. */
  function Handed(log: seq<Entry>, h: nat): (ids: seq<int>)
  {
    if log == [] then []
    else
      var n := |log| - 1;
      Handed(log[..n], h) + HandedBy(log[n], h)
  }

  function HandedBy(e: Entry, h: nat): (ids: seq<int>)
  {
    if e.HandedOff? && e.host == h then e.batch else []
  }

  /** Host `h` has fired since its node was last handed off. */
  predicate OwesNode(log: seq<Entry>, h: nat)
  {
    log != [] && OwesAfter(log[|log| - 1], h, OwesNode(log[..|log| - 1], h))
  }

  predicate OwesAfter(e: Entry, h: nat, before: bool)
  {
    match e
    case HostFired(g) => g == h || before
    case HandedOff(g, node, _) => !(g == h && node) && before
    case GuestFired(_, _) => before
  }

  lemma LedgerSnoc(log: seq<Entry>, e: Entry, h: nat)
    ensures OwesNode(log + [e], h) == OwesAfter(e, h, OwesNode(log, h))
    ensures Fired(log + [e], h) == Fired(log, h) + FiredBy(e, h)
    ensures Handed(log + [e], h) == Handed(log, h) + HandedBy(e, h)
  {
    assert (log + [e])[..|log|] == log;
  }

  /** The hand-off at `p` brings host `g` up to date: every guest it fired before is handed over by then. */
  ghost predicate CatchesUp(log: seq<Entry>, p: nat)
    requires p < |log|
  {
    log[p].HandedOff? ==>
      var h := log[p].host;
      Fired(log[..p], h) == Handed(log[..p + 1], h) && (log[p].node <==> OwesNode(log[..p], h))
  }

  /** `read` takes entries in one by one through `part`. */
  ghost predicate TakesIn(read: seq<Entry> -> seq<int>, part: Entry -> seq<int>, es: seq<Entry>, e: Entry)
  {
    read([]) == [] && read(es + [e]) == read(es) + part(e)
  }

  lemma {:induction false} AppendOf(read: seq<Entry> -> seq<int>, part: Entry -> seq<int>, a: seq<Entry>, b: seq<Entry>)
    requires read([]) == [] && forall es: seq<Entry>, e: Entry :: TakesIn(read, part, es, e)
    ensures read(a + b) == read(a) + read(b)
  {
    if b == [] {
      assert a + b == a;
    } else {
      var less, e := b[..|b| - 1], b[|b| - 1];
      AppendOf(read, part, a, less);
      assert TakesIn(read, part, a + less, e) && TakesIn(read, part, less, e);
      assert a + b == (a + less) + [e] && b == less + [e];
      Reassociate(read(a), read(less), part(e));
    }
  }

  lemma FiredAppend(a: seq<Entry>, b: seq<Entry>, h: nat)
    ensures Fired(a + b, h) == Fired(a, h) + Fired(b, h)
  {
    var read, part := (es: seq<Entry>) => Fired(es, h), (e: Entry) => FiredBy(e, h);
    forall es: seq<Entry>, e: Entry ensures TakesIn(read, part, es, e) { LedgerSnoc(es, e, h); }
    AppendOf(read, part, a, b);
  }

  lemma HandedAppend(a: seq<Entry>, b: seq<Entry>, h: nat)
    ensures Handed(a + b, h) == Handed(a, h) + Handed(b, h)
  {
    var read, part := (es: seq<Entry>) => Handed(es, h), (e: Entry) => HandedBy(e, h);
    forall es: seq<Entry>, e: Entry ensures TakesIn(read, part, es, e) { LedgerSnoc(es, e, h); }
    AppendOf(read, part, a, b);
  }

  lemma OfHostSnoc(q: seq<Pending>, p: Pending, h: nat)
    ensures OfHost(q + [p], h) == OfHost(q, h) + if p.host == h then [p.id] else []
  {
    assert (q + [p])[..|q|] == q;
  }

  lemma {:induction false} QueueAppend(a: seq<Pending>, b: seq<Pending>, h: nat)
    ensures OfHost(a + b, h) == OfHost(a, h) + OfHost(b, h)
  {
    if b == [] {
      assert a + b == a;
    } else {
      var less, p := b[..|b| - 1], b[|b| - 1];
      QueueAppend(a, less, h);
      assert b == less + [p];
      QueueAppendOne(a, less, p, h);
    }
  }

  lemma QueueAppendOne(a: seq<Pending>, less: seq<Pending>, p: Pending, h: nat)
    requires OfHost(a + less, h) == OfHost(a, h) + OfHost(less, h)
    ensures OfHost(a + (less + [p]), h) == OfHost(a, h) + OfHost(less + [p], h)
  {
    assert a + (less + [p]) == (a + less) + [p];
    OfHostSnoc(a + less, p, h);
    OfHostSnoc(less, p, h);
    Reassociate(OfHost(a, h), OfHost(less, h), if p.host == h then [p.id] else []);
  }

  lemma {:induction false} Partition(q: seq<Pending>, h: nat, g: nat)
    ensures OfHost(OfOthers(q, h), g) == if g == h then [] else OfHost(q, g)
    ensures |OfOthers(q, h)| == |q| - |OfHost(q, h)|
    ensures forall p | p in OfOthers(q, h) :: p in q
  {
    if q != [] {
      var n := |q| - 1;
      Partition(q[..n], h, g);
      if q[n].host != h {
        OfHostSnoc(OfOthers(q[..n], h), q[n], g);
      } else {
        assert OfOthers(q[..n], h) + [] == OfOthers(q[..n], h);
      }
      assert forall p | p in q[..n] :: p in q;
    }
  }

  // ---------------------------------------------------------------------
  // The invariant
  // ---------------------------------------------------------------------

  /** `firedNow` flags are stale-free whenever the feature is off: nothing can be queued twice. */
  ghost predicate NoStaleFlags(s: System)
    requires Ok(s)
  {
    !s.cfg.enabled ==>
      forall h, k | 0 <= h < MAX_HOSTS && 0 <= k < |s.eng.hosts[h].latches| :: !s.eng.hosts[h].latches[k].firedNow
  }

  /** Host `h`'s books: fired guests are handed over or queued, in order; its node is pending iff owed. */
  ghost predicate Balanced(log: seq<Entry>, queue: seq<Pending>, pendingHosts: set<nat>, h: nat)
  {
    && Fired(log, h) == Handed(log, h) + OfHost(queue, h)
    && (h in pendingHosts <==> OwesNode(log, h))
  }

  ghost predicate Inv(r: Runtime)
  {
    && Ok(r.sys) && NoStaleFlags(r.sys)
    && r.starting + r.workers == (if r.running then 1 else 0)
    && (forall h | h in r.pendingHosts :: h < MAX_HOSTS)
    && (forall p | p in r.queue :: p.host < MAX_HOSTS)
    && (forall h: nat :: Balanced(r.log, r.queue, r.pendingHosts, h))
    && (forall p | 0 <= p < |r.log| :: CatchesUp(r.log, p))
  }

  ghost predicate FreshStart(r: Runtime)
  {
    && Booted(r.sys) && !r.running && r.pendingHosts == {} && r.queue == []
    && r.starting == 0 && r.workers == 0 && r.log == []
  }

  lemma FreshStartIsFine(r: Runtime)
    requires FreshStart(r)
    ensures Inv(r)
  {
  }

  /** A flag goes up exactly when a latch closes: no latch re-closes in the step that releases it. */
  lemma FlagIffClosed(s: System, e: Event, h: nat, k: nat)
    requires Ok(s) && EventOk(e) && e.Observe? && NoStaleFlags(s)
    requires h < MAX_HOSTS && k < |s.eng.hosts[h].latches|
    ensures |Step(s, e).eng.hosts[h].latches| == |s.eng.hosts[h].latches|
    ensures var was, now := s.eng.hosts[h].latches[k], Step(s, e).eng.hosts[h].latches[k];
            now.firedNow <==> !was.fired && now.fired
  {
    StepAt(s, e, h);
    if s.cfg.enabled {
      var edges := Step(s, e).eng.edges;
      HostStepAt(s.cfg.hosts[h], s.rules[h], s.eng.hosts[h], MainsBack(s.cfg.mainsBackMin, edges, e.now),
                 edges, e.obs, e.now, k);
    }
  }

  lemma StaleFreeAfter(s: System, e: Event)
    requires Ok(s) && EventOk(e) && NoStaleFlags(s)
    ensures NoStaleFlags(Step(s, e))
  {
    forall h | 0 <= h < MAX_HOSTS && !Step(s, e).cfg.enabled
      ensures forall k | 0 <= k < |Step(s, e).eng.hosts[h].latches| :: !Step(s, e).eng.hosts[h].latches[k].firedNow
    {
      StepAt(s, e, h);
    }
  }

  lemma ToQueueSnoc(h: nat, latches: seq<Latch>, g: nat)
    requires g < |latches|
    ensures ToQueue(h, latches[..g + 1]) == ToQueue(h, latches[..g]) + if latches[g].firedNow then [Pending(h, latches[g].id)] else []
  {
    assert latches[..g + 1][..g] == latches[..g];
  }

  lemma AllToQueueSnoc(hosts: seq<HostState>, i: nat)
    requires i < |hosts|
    ensures AllToQueue(hosts[..i + 1]) == AllToQueue(hosts[..i]) + ToQueue(i, hosts[i].latches)
  {
    assert hosts[..i + 1][..i] == hosts[..i];
  }

  lemma ClosedSnoc(h: nat, was: seq<Latch>, now: seq<Latch>, g: nat)
    requires |was| == |now| && g < |now|
    ensures Closed(h, was[..g + 1], now[..g + 1]) ==
            Closed(h, was[..g], now[..g]) + if !was[g].fired && now[g].fired then [GuestFired(h, now[g].id)] else []
  {
    assert was[..g + 1][..g] == was[..g] && now[..g + 1][..g] == now[..g];
  }

  lemma AllClosedSnoc(was: seq<HostState>, now: seq<HostState>, i: nat)
    requires SameShape(was, now) && i < |now|
    ensures AllClosed(was[..i + 1], now[..i + 1]) == AllClosed(was[..i], now[..i]) + Closed(i, was[i].latches, now[i].latches)
  {
    assert was[..i + 1][..i] == was[..i] && now[..i + 1][..i] == now[..i];
  }

  lemma {:induction false} ToQueueHosts(g: nat, now: seq<Latch>)
    ensures forall p | p in ToQueue(g, now) :: p.host == g
  {
    if now != [] {
      ToQueueHosts(g, now[..|now| - 1]);
    }
  }

  lemma {:induction false} AllToQueueHosts(now: seq<HostState>)
    ensures forall p | p in AllToQueue(now) :: p.host < |now|
  {
    if now != [] {
      AllToQueueHosts(now[..|now| - 1]);
      ToQueueHosts(|now| - 1, now[|now| - 1].latches);
    }
  }

  /** Queue and ledger grow in step `j` by entries that tell host `h` the same. */
  ghost predicate GrowAlike(q: nat -> seq<Pending>, es: nat -> seq<Entry>, more: nat -> seq<Pending>, fs: nat -> seq<Entry>,
                            h: nat, j: nat)
  {
    q(j + 1) == q(j) + more(j) && es(j + 1) == es(j) + fs(j) && OfHost(more(j), h) == Fired(fs(j), h)
  }

  lemma {:induction false} AlikeUpTo(q: nat -> seq<Pending>, es: nat -> seq<Entry>, more: nat -> seq<Pending>,
                                     fs: nat -> seq<Entry>, h: nat, n: nat)
    requires q(0) == [] && es(0) == [] && forall j: nat | j < n :: GrowAlike(q, es, more, fs, h, j)
    ensures OfHost(q(n), h) == Fired(es(n), h)
  {
    if n > 0 {
      AlikeUpTo(q, es, more, fs, h, n - 1);
      assert GrowAlike(q, es, more, fs, h, n - 1);
      BothAppend(q(n - 1), more(n - 1), es(n - 1), fs(n - 1), h);
    }
  }

  /** Guest for guest, what is queued is what has closed. */
  lemma QueuedAsClosed(g: nat, was: seq<Latch>, now: seq<Latch>, h: nat)
    requires |was| == |now|
    requires forall k | 0 <= k < |now| :: now[k].firedNow <==> !was[k].fired && now[k].fired
    ensures OfHost(ToQueue(g, now), h) == Fired(Closed(g, was, now), h)
  {
    var q := (k: nat) => if k <= |now| then ToQueue(g, now[..k]) else [];
    var es := (k: nat) => if k <= |now| && |was| == |now| then Closed(g, was[..k], now[..k]) else [];
    var more := (k: nat) => if k < |now| && now[k].firedNow then [Pending(g, now[k].id)] else [];
    var fs := (k: nat) => if k < |now| && now[k].firedNow then [GuestFired(g, now[k].id)] else [];
    forall j: nat | j < |now|
      ensures GrowAlike(q, es, more, fs, h, j)
    {
      ToQueueSnoc(g, now, j);
      ClosedSnoc(g, was, now, j);
      OneQueuedAsClosed(g, now[j].id, now[j].firedNow, h);
    }
    assert was[..0] == [] && now[..0] == [];
    AlikeUpTo(q, es, more, fs, h, |now|);
    assert was[..|was|] == was && now[..|now|] == now;
  }

  lemma OneQueuedAsClosed(g: nat, id: int, fires: bool, h: nat)
    ensures OfHost(if fires then [Pending(g, id)] else [], h) == Fired(if fires then [GuestFired(g, id)] else [], h)
  {
    if fires {
      OfHostSnoc([], Pending(g, id), h);
      LedgerSnoc([], GuestFired(g, id), h);
      assert [] + [Pending(g, id)] == [Pending(g, id)] && [] + [GuestFired(g, id)] == [GuestFired(g, id)];
    }
  }

  lemma AllQueuedAsClosed(was: seq<HostState>, now: seq<HostState>, h: nat)
    requires FlagsMarkClosures(was, now)
    ensures OfHost(AllToQueue(now), h) == Fired(AllClosed(was, now), h)
    ensures forall p | p in AllToQueue(now) :: p.host < |now|
  {
    var q := (k: nat) => if k <= |now| then AllToQueue(now[..k]) else [];
    var es := (k: nat) => if k <= |now| && SameShape(was, now) then AllClosed(was[..k], now[..k]) else [];
    var more := (k: nat) => if k < |now| then ToQueue(k, now[k].latches) else [];
    var fs := (k: nat) => if k < |now| && SameShape(was, now) then Closed(k, was[k].latches, now[k].latches) else [];
    forall j: nat | j < |now|
      ensures GrowAlike(q, es, more, fs, h, j)
    {
      AllToQueueSnoc(now, j);
      AllClosedSnoc(was, now, j);
      QueuedAsClosed(j, was[j].latches, now[j].latches, h);
    }
    assert was[..0] == [] && now[..0] == [];
    AlikeUpTo(q, es, more, fs, h, |now|);
    AllToQueueHosts(now);
    assert was[..|was|] == was && now[..|now|] == now;
  }

  lemma BothAppend(a: seq<Pending>, b: seq<Pending>, es: seq<Entry>, fs: seq<Entry>, h: nat)
    requires OfHost(a, h) == Fired(es, h) && OfHost(b, h) == Fired(fs, h)
    ensures OfHost(a + b, h) == Fired(es + fs, h)
  {
    QueueAppend(a, b, h);
    FiredAppend(es, fs, h);
  }

  /** Guest entries leave what is owed to a node alone. */
  lemma {:induction false} GuestsOweNothing(log: seq<Entry>, es: seq<Entry>, h: nat)
    requires forall e | e in es :: e.GuestFired?
    ensures OwesNode(log + es, h) <==> OwesNode(log, h)
  {
    if es == [] {
      assert log + es == log;
    } else {
      var n := |es| - 1;
      assert forall e | e in es[..n] :: e in es;
      GuestsOweNothing(log, es[..n], h);
      assert (log + es)[..|log + es| - 1] == log + es[..n];
      assert es[n] in es;
    }
  }

  lemma {:induction false} ClosedAreGuests(g: nat, was: seq<Latch>, now: seq<Latch>)
    requires |was| == |now|
    ensures forall e | e in Closed(g, was, now) :: e.GuestFired?
  {
    if now != [] {
      ClosedAreGuests(g, was[..|now| - 1], now[..|now| - 1]);
    }
  }

  lemma {:induction false} AllClosedAreGuests(was: seq<HostState>, now: seq<HostState>)
    requires SameShape(was, now)
    ensures forall e | e in AllClosed(was, now) :: e.GuestFired?
  {
    if now != [] {
      var n := |now| - 1;
      AllClosedAreGuests(was[..n], now[..n]);
      ClosedAreGuests(n, was[n].latches, now[n].latches);
    }
  }

  lemma NodeOwed(log: seq<Entry>, es: seq<Entry>, n: nat, fires: bool, h: nat)
    ensures OwesNode(log + (es + if fires then [HostFired(n)] else []), h) <==> OwesNode(log + es, h) || (fires && h == n)
  {
    if fires {
      assert log + (es + [HostFired(n)]) == (log + es) + [HostFired(n)];
      LedgerSnoc(log + es, HostFired(n), h);
    } else {
      assert es + [] == es;
    }
  }

  lemma {:induction false} NodesOwed(log: seq<Entry>, was: seq<HostState>, now: seq<HostState>, h: nat)
    requires |was| == |now|
    ensures OwesNode(log + NodesClosed(was, now), h) <==>
              OwesNode(log, h) || (h < |now| && !was[h].fired && now[h].fired)
  {
    if now == [] {
      assert log + NodesClosed(was, now) == log;
    } else {
      var n := |now| - 1;
      NodesOwed(log, was[..n], now[..n], h);
      NodeOwed(log, NodesClosed(was[..n], now[..n]), n, !was[n].fired && now[n].fired, h);
    }
  }

  lemma {:induction false} NodesAreHosts(was: seq<HostState>, now: seq<HostState>)
    requires |was| == |now|
    ensures forall e | e in NodesClosed(was, now) :: e.HostFired?
  {
    if now != [] {
      NodesAreHosts(was[..|now| - 1], now[..|now| - 1]);
    }
  }

  lemma {:induction false} NoHandOffs(es: seq<Entry>, h: nat)
    requires forall e | e in es :: !e.HandedOff?
    ensures Handed(es, h) == []
    ensures (forall e | e in es :: e.HostFired?) ==> Fired(es, h) == []
  {
    if es != [] {
      var n := |es| - 1;
      assert forall e | e in es[..n] :: e in es;
      NoHandOffs(es[..n], h);
      assert es[n] in es;
    }
  }

  lemma CatchUpKept(log: seq<Entry>, es: seq<Entry>)
    requires forall p | 0 <= p < |log| :: CatchesUp(log, p)
    requires forall e | e in es :: !e.HandedOff?
    ensures forall p | 0 <= p < |log + es| :: CatchesUp(log + es, p)
  {
    forall p | 0 <= p < |log + es| ensures CatchesUp(log + es, p) {
      if p < |log| {
        assert CatchesUp(log, p);
        assert (log + es)[..p] == log[..p] && (log + es)[..p + 1] == log[..p + 1];
      } else {
        assert (log + es)[p] in es;
      }
    }
  }

  /** What an observation adds to the ledger: guests, then nodes, and no hand-off. */
  lemma ObserveLog(log: seq<Entry>, was: seq<HostState>, now: seq<HostState>, h: nat)
    requires SameShape(was, now)
    ensures var all := log + AllClosed(was, now) + NodesClosed(was, now);
            && Fired(all, h) == Fired(log, h) + Fired(AllClosed(was, now), h)
            && Handed(all, h) == Handed(log, h)
            && (OwesNode(all, h) <==> OwesNode(log, h) || h in FiredHosts(was, now))
  {
    var guests, nodes := AllClosed(was, now), NodesClosed(was, now);
    AllClosedAreGuests(was, now);
    NodesAreHosts(was, now);
    FiredAppend(log, guests, h);
    HandedAppend(log, guests, h);
    FiredAppend(log + guests, nodes, h);
    HandedAppend(log + guests, nodes, h);
    NoHandOffs(guests, h);
    NoHandOffs(nodes, h);
    GuestsOweNothing(log, guests, h);
    NodesOwed(log + guests, was, now, h);
  }

  /** Every flag that is up marks a latch that has just closed, and conversely. */
  ghost predicate FlagsMarkClosures(was: seq<HostState>, now: seq<HostState>)
  {
    && SameShape(was, now)
    && forall g, k | 0 <= g < |now| && 0 <= k < |now[g].latches| ::
         now[g].latches[k].firedNow <==> !was[g].latches[k].fired && now[g].latches[k].fired
  }

  lemma ObserveLedger(log: seq<Entry>, queue: seq<Pending>, pendingHosts: set<nat>,
                      was: seq<HostState>, now: seq<HostState>, h: nat)
    requires FlagsMarkClosures(was, now) && Balanced(log, queue, pendingHosts, h)
    ensures Balanced(log + AllClosed(was, now) + NodesClosed(was, now), queue + AllToQueue(now),
                     pendingHosts + FiredHosts(was, now), h)
  {
    ObserveLog(log, was, now, h);
    AllQueuedAsClosed(was, now, h);
    QueueAppend(queue, AllToQueue(now), h);
    Reassociate(Handed(log, h), OfHost(queue, h), Fired(AllClosed(was, now), h));
  }

  lemma Reassociate(a: seq<int>, b: seq<int>, c: seq<int>)
    ensures (a + b) + c == a + (b + c)
  {
  }

  lemma FlagsAreClosures(s: System, e: Event)
    requires Ok(s) && EventOk(e) && e.Observe? && NoStaleFlags(s)
    ensures FlagsMarkClosures(s.eng.hosts, Step(s, e).eng.hosts)
  {
    ObserveKeepsShape(s, e);
    var was, now := s.eng.hosts, Step(s, e).eng.hosts;
    forall g, k | 0 <= g < |now| && 0 <= k < |now[g].latches|
      ensures now[g].latches[k].firedNow <==> !was[g].latches[k].fired && now[g].latches[k].fired
    {
      FlagIffClosed(s, e, g, k);
    }
  }

  lemma ObserveKeepsInv(r: Runtime, e: Event)
    requires Inv(r) && EventOk(e) && e.Observe?
    ensures Inv(AfterObserve(r, e))
  {
    var t := AfterObserve(r, e);
    var was, now := r.sys.eng.hosts, t.sys.eng.hosts;
    ObserveKeepsShape(r.sys, e);
    StaleFreeAfter(r.sys, e);
    FlagsAreClosures(r.sys, e);
    forall h: nat ensures Balanced(t.log, t.queue, t.pendingHosts, h) {
      ObserveLedger(r.log, r.queue, r.pendingHosts, was, now, h);
    }

    AllQueuedAsClosed(was, now, 0);
    AllClosedAreGuests(was, now);
    NodesAreHosts(was, now);
    CatchUpKept(r.log, AllClosed(was, now));
    CatchUpKept(r.log + AllClosed(was, now), NodesClosed(was, now));
  }

  lemma TakeLedger(log: seq<Entry>, queue: seq<Pending>, pendingHosts: set<nat>, h: nat, g: nat)
    requires Balanced(log, queue, pendingHosts, g)
    ensures var after := log + [HandedOff(h, h in pendingHosts, OfHost(queue, h))];
            && Balanced(after, OfOthers(queue, h), pendingHosts - {h}, g)
            && Fired(after, g) == Fired(log, g)
  {
    var e := HandedOff(h, h in pendingHosts, OfHost(queue, h));
    LedgerSnoc(log, e, g);
    Partition(queue, h, g);
    assert Fired(log, g) + FiredBy(e, g) == Fired(log, g);
    if g == h {
      assert Fired(log + [e], g) == Handed(log + [e], g) + OfHost(OfOthers(queue, h), g);
    } else {
      assert Handed(log, g) + HandedBy(e, g) == Handed(log, g);
    }
  }

  lemma TakeCatchesUp(r: Runtime, p: nat)
    requires r.workers > 0 && NextHost(r) >= 0 && p < |Taken(r).log|
    requires Balanced(r.log, r.queue, r.pendingHosts, NextHost(r)) && forall q | 0 <= q < |r.log| :: CatchesUp(r.log, q)
    ensures CatchesUp(Taken(r).log, p)
  {
    var t, h := Taken(r), NextHost(r);
    if p < |r.log| {
      assert CatchesUp(r.log, p);
      assert t.log[..p] == r.log[..p] && t.log[..p + 1] == r.log[..p + 1] && t.log[p] == r.log[p];
    } else {
      assert t.log[..p] == r.log && t.log[..p + 1] == t.log;
      LedgerSnoc(r.log, t.log[p], h);
    }
  }

  lemma TakeKeepsInv(r: Runtime)
    requires Inv(r) && r.workers > 0
    ensures Inv(Taken(r))
  {
    var t, h := Taken(r), NextHost(r);
    if h >= 0 {
      forall g: nat ensures Balanced(t.log, t.queue, t.pendingHosts, g) {
        TakeLedger(r.log, r.queue, r.pendingHosts, h, g);
      }
      Partition(r.queue, h, h);
      assert Balanced(r.log, r.queue, r.pendingHosts, h);
      forall p | 0 <= p < |t.log| ensures CatchesUp(t.log, p) {
        TakeCatchesUp(r, p);
      }
    } else {
      NothingLeft(r);
    }
  }

  lemma NothingLeft(r: Runtime)
    requires forall h | h in r.pendingHosts :: h < MAX_HOSTS
    requires NextHost(r) < 0
    ensures r.pendingHosts == {} && r.queue == []
  {
    assert forall h | h in r.pendingHosts :: h == 0 || h == 1 || h == 2 || h == 3;
  }

  lemma ActKeepsInv(r: Runtime, a: Action)
    requires Inv(r) && Enabled(r, a)
    ensures Inv(Act(r, a))
  {
    match a {
      case Sys(e) =>
        if e.Observe? {
          ObserveKeepsInv(r, e);
        } else {
          StaleFreeAfter(r.sys, e);
        }
      case SpawnOk =>
      case SpawnFails =>
      case Take => TakeKeepsInv(r);
    }
  }

  // ---------------------------------------------------------------------
  // Every interleaving
  // ---------------------------------------------------------------------

  ghost predicate IsHistory(rs: seq<Runtime>, acts: seq<Action>)
  {
    && |rs| == |acts| + 1 && FreshStart(rs[0])
    && forall i | 0 <= i < |acts| :: Next(rs, acts, i)
  }

  ghost predicate Next(rs: seq<Runtime>, acts: seq<Action>, i: nat)
    requires |rs| == |acts| + 1 && i < |acts|
  {
    Enabled(rs[i], acts[i]) && rs[i + 1] == Act(rs[i], acts[i])
  }

  lemma {:induction false} InvHolds(rs: seq<Runtime>, acts: seq<Action>, n: nat)
    requires IsHistory(rs, acts) && n <= |acts|
    ensures Inv(rs[n])
  {
    if n == 0 {
      FreshStartIsFine(rs[0]);
    } else {
      InvHolds(rs, acts, n - 1);
      assert Next(rs, acts, n - 1);
      ActKeepsInv(rs[n - 1], acts[n - 1]);
    }
  }

  /**
   Each guest fire is handed over exactly once, in the order its host's guests fired, or is still queued;
   a node is pending exactly while a fire of its own has not been followed by a hand-off.
   */
  lemma HandedExactlyOnce(rs: seq<Runtime>, acts: seq<Action>, n: nat, h: nat)
    requires IsHistory(rs, acts) && n <= |acts|
    ensures Fired(rs[n].log, h) == Handed(rs[n].log, h) + OfHost(rs[n].queue, h)
    ensures h in rs[n].pendingHosts <==> OwesNode(rs[n].log, h)
  {
    InvHolds(rs, acts, n);
    assert Balanced(rs[n].log, rs[n].queue, rs[n].pendingHosts, h);
  }

  /** When a node is handed over, so (by then) is every guest its host had fired: none is left for later. */
  lemma NodeNeverBeforeItsGuests(rs: seq<Runtime>, acts: seq<Action>, n: nat, p: nat)
    requires IsHistory(rs, acts) && n <= |acts| && p < |rs[n].log|
    requires rs[n].log[p].HandedOff?
    ensures var log, h := rs[n].log, rs[n].log[p].host;
            && Handed(log[..p + 1], h) == Fired(log[..p], h)
            && (log[p].node <==> OwesNode(log[..p], h))
  {
    InvHolds(rs, acts, n);
    assert CatchesUp(rs[n].log, p);
  }

  lemma TakeShrinks(r: Runtime)
    requires Inv(r) && r.workers > 0
    ensures var t := Taken(r);
            if NextHost(r) < 0 then t.queue == [] && t.pendingHosts == {}
            else |t.pendingHosts| + |t.queue| < |r.pendingHosts| + |r.queue|
  {
    var h := NextHost(r);
    if h < 0 {
      NothingLeft(r);
    } else {
      OneLess(r.pendingHosts, r.queue, h);
    }
  }

  lemma OneLess(pendingHosts: set<nat>, queue: seq<Pending>, h: nat)
    requires h in pendingHosts || (queue != [] && queue[0].host == h)
    ensures |pendingHosts - {h}| + |OfOthers(queue, h)| < |pendingHosts| + |queue|
  {
    Partition(queue, h, h);
    if h in pendingHosts {
      assert |pendingHosts - {h}| == |pendingHosts| - 1;
    } else {
      assert pendingHosts - {h} == pendingHosts;
      FirstIsOfHost(queue);
    }
  }

  lemma {:induction false} FirstIsOfHost(q: seq<Pending>)
    requires q != []
    ensures OfHost(q, q[0].host) != []
  {
    var n := |q| - 1;
    if n > 0 {
      FirstIsOfHost(q[..n]);
    }
  }

  // ---------------------------------------------------------------------
  // What one hand-off asks of a host
  // ---------------------------------------------------------------------

  datatype Request = ShutGuest(id: int) | ShutNode | WouldShutGuest(id: int) | WouldShutNode

  function Each(ids: seq<int>, armed: bool): (out: seq<Request>)
    ensures |out| == |ids|
    ensures forall k | 0 <= k < |ids| :: out[k] == if armed then ShutGuest(ids[k]) else WouldShutGuest(ids[k])
  {
    seq(|ids|, k requires 0 <= k < |ids| => if armed then ShutGuest(ids[k]) else WouldShutGuest(ids[k]))
  }

  /** The host is configured, trusted, and the bridge may act on it. */
  predicate Reaches(cfg: Config, h: nat)
    requires h < |cfg.hosts|
  {
    cfg.armed && cfg.hosts[h].enabled && cfg.hosts[h].hasUrl && cfg.hosts[h].pinned
  }

  /** The guests, then the node; in a dry run only what would be done; nothing for a host not to be touched. */
  function Requests(h: HostRule, armed: bool, node: bool, batch: seq<int>): (out: seq<Request>)
  {
    if !h.enabled || !h.hasUrl || (armed && !h.pinned) then []
    else Each(batch, armed) + if !armed && node then [WouldShutNode] else if node && h.shutdownNode then [ShutNode] else []
  }

  /** The host can be asked: it is enabled and has an address. */
  predicate Listed(h: HostRule)
  {
    h.enabled && h.hasUrl
  }

  /** The guests of the batch in order, each as `guest` has it, and then the node if it is to go. */
  predicate GuestsThenNode(out: seq<Request>, batch: seq<int>, guest: int -> Request, goes: bool, node: Request)
  {
    && |out| == |batch| + (if goes then 1 else 0)
    && (forall k | 0 <= k < |batch| :: out[k] == guest(batch[k]))
    && (goes ==> out[|batch|] == node)
  }

  /**
   Nothing is really shut down unless the bridge is armed and the host's certificate trusted, and then exactly
   the batch, in order, and after it the node if it is due and its own shutdown is wanted; a dry run reports
   exactly the batch and the node if it is due.
   */
  lemma RequestsAre(h: HostRule, armed: bool, node: bool, batch: seq<int>)
    ensures var out := Requests(h, armed, node, batch);
            && (armed && Listed(h) && h.pinned ==>
                  GuestsThenNode(out, batch, (id: int) => ShutGuest(id), node && h.shutdownNode, ShutNode))
            && (!armed && Listed(h) ==> GuestsThenNode(out, batch, (id: int) => WouldShutGuest(id), node, WouldShutNode))
            && (!Listed(h) || (armed && !h.pinned) ==> out == [])
    ensures forall q | q in Requests(h, armed, node, batch) ::
              (q.ShutGuest? || q.ShutNode? <==> armed) && Listed(h) && (armed ==> h.pinned)
  {
  }
}
