/**
 When queued shutdown work has a worker, and what goes out together
 (`components/pve_shutdown/pve_shutdown.c`), over every interleaving.
 */
module PveWakeUp {
  import opened PveEngine
  import opened PveRuns
  import opened PveWorker

  predicate HasWork(r: Runtime)
  {
    r.pendingHosts != {} || r.queue != []
  }

  /** No worker is alive and none is being created. */
  predicate NoWorker(r: Runtime)
  {
    r.workers + r.starting == 0
  }

  /** Some latch closes between the two states. */
  ghost predicate SomethingCloses(was: seq<HostState>, now: seq<HostState>)
    requires SameShape(was, now)
  {
    || (exists h | 0 <= h < |now| :: !was[h].fired && now[h].fired)
    || (exists h, k | 0 <= h < |now| && 0 <= k < |now[h].latches| :: !was[h].latches[k].fired && now[h].latches[k].fired)
  }

  /** The action is an observation that fires a host or a guest. */
  ghost predicate Fires(r: Runtime, a: Action)
    requires Enabled(r, a)
  {
    && a.Sys? && a.event.Observe?
    && (ObserveKeepsShape(r.sys, a.event); SomethingCloses(r.sys.eng.hosts, Step(r.sys, a.event).eng.hosts))
  }

  // ---------------------------------------------------------------------
  // Firing wakes, and nothing else does
  // ---------------------------------------------------------------------

  predicate Flagged(hosts: seq<HostState>, h: nat, k: nat)
  {
    h < |hosts| && k < |hosts[h].latches| && hosts[h].latches[k].firedNow
  }

  lemma {:induction false} FlagAmong(h: nat, latches: seq<Latch>) returns (k: nat)
    requires ToQueue(h, latches) != []
    ensures k < |latches| && latches[k].firedNow
  {
    k := |latches| - 1;
    if !latches[k].firedNow {
      k := FlagAmong(h, latches[..k]);
    }
  }

  lemma {:induction false} FlagIn(hosts: seq<HostState>) returns (h: nat, k: nat)
    requires AllToQueue(hosts) != []
    ensures Flagged(hosts, h, k)
  {
    h := |hosts| - 1;
    if ToQueue(h, hosts[h].latches) != [] {
      k := FlagAmong(h, hosts[h].latches);
    } else {
      h, k := FlagIn(hosts[..h]);
    }
  }

  lemma QueuesAnyIff(hosts: seq<HostState>)
    ensures AllToQueue(hosts) != [] <==> exists h: nat, k: nat :: Flagged(hosts, h, k)
  {
    if AllToQueue(hosts) != [] {
      var h, k := FlagIn(hosts);
    } else if h: nat, k: nat :| Flagged(hosts, h, k) {
      AllToQueueHas(hosts, h, k);
      assert false;
    }
  }

  lemma ClosingQueues(was: seq<HostState>, now: seq<HostState>)
    requires FlagsMarkClosures(was, now)
    ensures SomethingCloses(was, now) <==> FiredHosts(was, now) != {} || AllToQueue(now) != []
  {
    QueuesAnyIff(now);
    if h :| 0 <= h < |now| && !was[h].fired && now[h].fired {
      assert h in FiredHosts(was, now);
    }
    if h, k :| 0 <= h < |now| && 0 <= k < |now[h].latches| && !was[h].latches[k].fired && now[h].latches[k].fired {
      assert Flagged(now, h, k);
    }
  }

  /** An observation starts or keeps a worker if it fires something, and otherwise leaves work and worker alone. */
  lemma ObserveWakesIff(r: Runtime, a: Action)
    requires Inv(r) && Enabled(r, a) && a.Sys?
    ensures var t := Act(r, a);
            if Fires(r, a) then !NoWorker(t) && HasWork(t)
            else t.queue == r.queue && t.pendingHosts == r.pendingHosts && t.workers == r.workers && t.starting == r.starting
  {
    if a.event.Observe? {
      ObserveKeepsShape(r.sys, a.event);
      FlagsAreClosures(r.sys, a.event);
      ClosingQueues(r.sys.eng.hosts, Step(r.sys, a.event).eng.hosts);
    }
  }

  // ---------------------------------------------------------------------
  // Exactly when work is stranded
  // ---------------------------------------------------------------------

  ghost predicate FiresAt(rs: seq<Runtime>, acts: seq<Action>, i: nat)
    requires IsHistory(rs, acts) && i < |acts|
  {
    Next(rs, acts, i) && Fires(rs[i], acts[i])
  }

  /** Creating the worker failed at `j`, and nothing has fired since. */
  ghost predicate FailedAt(rs: seq<Runtime>, acts: seq<Action>, j: nat, n: nat)
    requires IsHistory(rs, acts) && n <= |acts|
  {
    j < n && acts[j].SpawnFails? && forall i | j < i < n :: !FiresAt(rs, acts, i)
  }

  lemma WorkerAfter(r: Runtime, a: Action)
    requires Inv(r) && Enabled(r, a)
    ensures NoWorker(r) ==> (NoWorker(Act(r, a)) <==> !Fires(r, a))
    ensures NoWorker(r) && !Fires(r, a) ==> (HasWork(Act(r, a)) <==> HasWork(r))
    ensures !NoWorker(r) && NoWorker(Act(r, a)) ==> a.SpawnFails? || !HasWork(Act(r, a))
    ensures a.SpawnFails? ==> NoWorker(Act(r, a))
  {
    match a {
      case Sys(_) => ObserveWakesIff(r, a);
      case SpawnOk =>
      case SpawnFails =>
      case Take =>
        if NextHost(r) < 0 {
          NothingLeft(r);
        }
    }
  }

  lemma {:induction false} FailureIsFound(rs: seq<Runtime>, acts: seq<Action>, n: nat) returns (j: nat)
    requires IsHistory(rs, acts) && n <= |acts| && HasWork(rs[n]) && NoWorker(rs[n])
    ensures FailedAt(rs, acts, j, n)
  {
    InvHolds(rs, acts, n - 1);
    assert Next(rs, acts, n - 1);
    WorkerAfter(rs[n - 1], acts[n - 1]);
    if acts[n - 1].SpawnFails? {
      j := n - 1;
    } else {
      j := FailureIsFound(rs, acts, n - 1);
    }
  }

  lemma {:induction false} FailureLasts(rs: seq<Runtime>, acts: seq<Action>, j: nat, n: nat)
    requires IsHistory(rs, acts) && n <= |acts| && FailedAt(rs, acts, j, n)
    ensures NoWorker(rs[n])
  {
    InvHolds(rs, acts, n - 1);
    assert Next(rs, acts, n - 1);
    WorkerAfter(rs[n - 1], acts[n - 1]);
    if j < n - 1 {
      FailureLasts(rs, acts, j, n - 1);
      assert !FiresAt(rs, acts, n - 1);
    }
  }

  /** Pending work is without a worker exactly while creating one has failed and nothing has fired since. */
  lemma StrandedIff(rs: seq<Runtime>, acts: seq<Action>, n: nat)
    requires IsHistory(rs, acts) && n <= |acts| && HasWork(rs[n])
    ensures NoWorker(rs[n]) <==> exists j: nat :: FailedAt(rs, acts, j, n)
  {
    if NoWorker(rs[n]) {
      var j := FailureIsFound(rs, acts, n);
    } else if j: nat :| FailedAt(rs, acts, j, n) {
      FailureLasts(rs, acts, j, n);
    }
  }

  /** There is never a second worker, and as long as creating one succeeds all pending work has one. */
  lemma NoLostWakeUp(rs: seq<Runtime>, acts: seq<Action>, n: nat)
    requires IsHistory(rs, acts) && n <= |acts|
    ensures rs[n].workers + rs[n].starting <= 1
    ensures HasWork(rs[n]) && (forall i | 0 <= i < n :: !acts[i].SpawnFails?) ==> rs[n].workers + rs[n].starting == 1
  {
    InvHolds(rs, acts, n);
    if HasWork(rs[n]) {
      StrandedIff(rs, acts, n);
    }
  }

  /** The next fire brings a worker for the stranded work too. */
  lemma FiringRecovers(rs: seq<Runtime>, acts: seq<Action>, n: nat)
    requires IsHistory(rs, acts) && n < |acts| && FiresAt(rs, acts, n)
    ensures rs[n + 1].workers + rs[n + 1].starting == 1
  {
    InvHolds(rs, acts, n);
    InvHolds(rs, acts, n + 1);
    assert Next(rs, acts, n);
    ObserveWakesIff(rs[n], acts[n]);
  }

  /** A run that strands work: any start with a host set to go on charge, a low reading, and no worker to be had. */
  lemma FailedSpawnStrandsWork(r: Runtime, h: nat, obs: Obs, now: int) returns (rs: seq<Runtime>, acts: seq<Action>)
    requires FreshStart(r) && h < MAX_HOSTS && r.sys.cfg.enabled && r.sys.cfg.hosts[h].enabled
    requires ChargeDue(r.sys.cfg.hosts[h].trigger, obs)
    ensures IsHistory(rs, acts) && rs[0] == r && acts == [Sys(Observe(obs, now)), SpawnFails]
    ensures NoWorker(rs[2]) && h in rs[2].pendingHosts
    ensures r.sys.rules[h] != [] ==> rs[2].queue != []
  {
    var a := Sys(Observe(obs, now));
    acts := [a, SpawnFails];
    FreshStartIsFine(r);
    var was, s := r.sys.eng.hosts, Step(r.sys, a.event);
    StepAt(r.sys, a.event, h);
    assert h in FiredHosts(was, s.eng.hosts);
    var t := Act(r, a);
    FreshFires(r, a);
    rs := [r, t, Act(t, SpawnFails)];
    assert Next(rs, acts, 0) && Next(rs, acts, 1);
    if r.sys.rules[h] != [] {
      var id := r.sys.rules[h][0].id;
      GuestSwept(r.sys, a.event, h);
      assert Flagged(s.eng.hosts, h, 0);
      QueuesAnyIff(s.eng.hosts);
    }
  }

  lemma FreshFires(r: Runtime, a: Action)
    requires FreshStart(r) && Enabled(r, a) && a.Sys? && a.event.Observe?
    ensures FiredHosts(r.sys.eng.hosts, Step(r.sys, a.event).eng.hosts) != {} ==> Act(r, a).starting == 1
  {
  }

  /** The first guest of a freshly started host that fires is newly latched with it. */
  lemma GuestSwept(s: System, e: Event, h: nat)
    requires Booted(s) && s.cfg.enabled && e.Observe? && h < MAX_HOSTS && s.rules[h] != [] && NoStaleFlags(s)
    requires Step(s, e).eng.hosts[h].fired
    ensures |Step(s, e).eng.hosts[h].latches| > 0 && Step(s, e).eng.hosts[h].latches[0].firedNow
  {
    StepAt(s, e, h);
    var edges := Step(s, e).eng.edges;
    HostStepAt(s.cfg.hosts[h], s.rules[h], s.eng.hosts[h], MainsBack(s.cfg.mainsBackMin, edges, e.now), edges, e.obs, e.now, 0);
    FlagIffClosed(s, e, h, 0);
  }

  // ---------------------------------------------------------------------
  // A node and the guests swept with it
  // ---------------------------------------------------------------------

  lemma QueueHas(a: seq<Pending>, b: seq<Pending>, h: nat, id: int)
    requires id in OfHost(a, h) || id in OfHost(b, h)
    ensures id in OfHost(a + b, h)
  {
    QueueAppend(a, b, h);
  }

  lemma OneQueued(h: nat, id: int)
    ensures OfHost([Pending(h, id)], h) == [id]
  {
    assert [Pending(h, id)][..0] == [];
  }

  lemma {:induction false} ToQueueHas(h: nat, latches: seq<Latch>, k: nat)
    requires k < |latches| && latches[k].firedNow
    ensures latches[k].id in OfHost(ToQueue(h, latches), h)
  {
    var n := |latches| - 1;
    var id := latches[k].id;
    var less, last := ToQueue(h, latches[..n]), if latches[n].firedNow then [Pending(h, latches[n].id)] else [];
    assert ToQueue(h, latches) == less + last;
    if k < n {
      ToQueueHas(h, latches[..n], k);
    } else {
      OneQueued(h, id);
    }
    QueueHas(less, last, h, id);
  }

  lemma {:induction false} AllToQueueHas(hosts: seq<HostState>, h: nat, k: nat)
    requires h < |hosts| && k < |hosts[h].latches| && hosts[h].latches[k].firedNow
    ensures hosts[h].latches[k].id in OfHost(AllToQueue(hosts), h)
  {
    var n := |hosts| - 1;
    QueueAppend(AllToQueue(hosts[..n]), ToQueue(n, hosts[n].latches), h);
    if h < n {
      AllToQueueHas(hosts[..n], h, k);
    } else {
      ToQueueHas(h, hosts[h].latches, k);
    }
  }

  /** The action hands host `h` over. */
  predicate Serves(r: Runtime, a: Action, h: nat)
  {
    a.Take? && NextHost(r) == h
  }

  /** What waits for host `h` waits on until that host is served. */
  lemma WaitsOn(r: Runtime, a: Action, h: nat, id: int)
    requires Inv(r) && Enabled(r, a) && !Serves(r, a, h)
    ensures h in r.pendingHosts ==> h in Act(r, a).pendingHosts
    ensures id in OfHost(r.queue, h) ==> id in OfHost(Act(r, a).queue, h)
  {
    if a.Sys? && a.event.Observe? {
      ObserveKeepsShape(r.sys, a.event);
      QueueAppend(r.queue, AllToQueue(Step(r.sys, a.event).eng.hosts), h);
    } else if a.Take? && NextHost(r) >= 0 {
      Partition(r.queue, NextHost(r), h);
    }
  }

  /** A guest that fires at `i` is queued then. */
  lemma GuestIsQueued(r: Runtime, e: Event, h: nat, id: int)
    requires Inv(r) && EventOk(e) && e.Observe? && h < MAX_HOSTS && GuestFires(r.sys, e, h, id)
    ensures id in OfHost(AfterObserve(r, e).queue, h)
  {
    ObserveKeepsShape(r.sys, e);
    var was, now := r.sys.eng.hosts, Step(r.sys, e).eng.hosts;
    var k := Find(now[h].latches, id);
    SameFind(r.sys, e, h, id);
    FlagIffClosed(r.sys, e, h, k);
    AllToQueueHas(now, h, k);
    QueueAppend(r.queue, AllToQueue(now), h);
  }

  lemma SameFind(s: System, e: Event, h: nat, id: int)
    requires Ok(s) && EventOk(e) && e.Observe? && h < MAX_HOSTS
    ensures Find(Step(s, e).eng.hosts[h].latches, id) == Find(s.eng.hosts[h].latches, id)
  {
    StepAt(s, e, h);
    SameIdsSameFind(s.eng.hosts[h].latches, Step(s, e).eng.hosts[h].latches, id);
  }

  /** A host that fires is pending then, and a guest that fires with it queued. */
  lemma FirePends(r: Runtime, e: Event, h: nat, id: int)
    requires Inv(r) && EventOk(e) && h < MAX_HOSTS && HostFires(r.sys, e, h)
    ensures e.Observe? && h in AfterObserve(r, e).pendingHosts
    ensures GuestFires(r.sys, e, h, id) ==> id in OfHost(AfterObserve(r, e).queue, h)
  {
    StepAt(r.sys, e, h);
    ObserveKeepsShape(r.sys, e);
    assert h in FiredHosts(r.sys.eng.hosts, Step(r.sys, e).eng.hosts);
    if GuestFires(r.sys, e, h, id) {
      GuestIsQueued(r, e, h, id);
    }
  }

  lemma FireAt(rs: seq<Runtime>, acts: seq<Action>, i: nat, h: nat, id: int)
    requires IsHistory(rs, acts) && i < |acts| && h < MAX_HOSTS
    requires acts[i].Sys? && Next(rs, acts, i) && HostFires(rs[i].sys, acts[i].event, h)
    ensures h in rs[i + 1].pendingHosts
    ensures GuestFires(rs[i].sys, acts[i].event, h, id) ==> id in OfHost(rs[i + 1].queue, h)
  {
    InvHolds(rs, acts, i);
    FirePends(rs[i], acts[i].event, h, id);
  }

  lemma WaitsAt(rs: seq<Runtime>, acts: seq<Action>, m: nat, h: nat, id: int)
    requires IsHistory(rs, acts) && m < |acts| && !Serves(rs[m], acts[m], h)
    ensures h in rs[m].pendingHosts ==> h in rs[m + 1].pendingHosts
    ensures id in OfHost(rs[m].queue, h) ==> id in OfHost(rs[m + 1].queue, h)
  {
    InvHolds(rs, acts, m);
    assert Next(rs, acts, m);
    WaitsOn(rs[m], acts[m], h, id);
  }

  lemma {:induction false} StillWaiting(rs: seq<Runtime>, acts: seq<Action>, i: nat, j: nat, h: nat, id: int)
    requires IsHistory(rs, acts) && i < j <= |acts| && h < MAX_HOSTS
    requires acts[i].Sys? && Next(rs, acts, i) && HostFires(rs[i].sys, acts[i].event, h)
    requires forall m | i < m < j :: !Serves(rs[m], acts[m], h)
    ensures h in rs[j].pendingHosts
    ensures GuestFires(rs[i].sys, acts[i].event, h, id) ==> id in OfHost(rs[j].queue, h)
  {
    if i == j - 1 {
      FireAt(rs, acts, i, h, id);
    } else {
      StillWaiting(rs, acts, i, j - 1, h, id);
      WaitsAt(rs, acts, j - 1, h, id);
    }
  }

  /**
   Whatever comes in between, the first time a fired host is served its node goes out, and with it,
   asked for before it, every guest the same fire swept up.
   */
  lemma NodeGoesWithItsGuests(rs: seq<Runtime>, acts: seq<Action>, i: nat, j: nat, h: nat, id: int)
    requires IsHistory(rs, acts) && i < j < |acts| && h < MAX_HOSTS
    requires acts[i].Sys? && Next(rs, acts, i) && HostFires(rs[i].sys, acts[i].event, h)
    requires Serves(rs[j], acts[j], h) && forall m | i < m < j :: !Serves(rs[m], acts[m], h)
    requires GuestFires(rs[i].sys, acts[i].event, h, id)
    ensures Ok(rs[j].sys)
    ensures var r := rs[j];
            var out := Requests(r.sys.cfg.hosts[h], r.sys.cfg.armed, h in r.pendingHosts, OfHost(r.queue, h));
            && rs[j + 1].log == r.log + [HandedOff(h, true, OfHost(r.queue, h))]
            && (Reaches(r.sys.cfg, h) && r.sys.cfg.hosts[h].shutdownNode ==>
                  |out| > 0 && out[|out| - 1] == ShutNode && ShutGuest(id) in out[..|out| - 1])
  {
    StillWaiting(rs, acts, i, j, h, id);
    assert Next(rs, acts, j);
    InvHolds(rs, acts, j);
    var ids := OfHost(rs[j].queue, h);
    var k :| 0 <= k < |ids| && ids[k] == id;
    assert Each(ids, true)[k] == ShutGuest(id);
    assert (Each(ids, true) + [ShutNode])[..|ids|] == Each(ids, true);
  }
}
