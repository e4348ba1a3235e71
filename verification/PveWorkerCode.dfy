/**
 The runtime around the shutdown engine (`components/pve_shutdown/pve_shutdown.c`) as
 an object: observing, reconfiguring and the worker, each proved to be a step of the model.
 */
module PveWorkerCode {
  import opened PveEngine
  import opened PveRuns
  import opened PveWorker

  /** `run_host`: what is asked of the host, in order, for one hand-off. */
  method RunHost(h: HostRule, armed: bool, node: bool, batch: seq<int>) returns (out: seq<Request>)
    ensures out == Requests(h, armed, node, batch)
    ensures forall q | q in out && (q.ShutGuest? || q.ShutNode?) :: armed && h.enabled && h.hasUrl && h.pinned
    ensures forall q | q in out && (q.WouldShutGuest? || q.WouldShutNode?) :: !armed
    ensures armed && h.enabled && h.hasUrl && h.pinned ==>
              && |out| == |batch| + (if node && h.shutdownNode then 1 else 0)
              && (forall k | 0 <= k < |batch| :: out[k] == ShutGuest(batch[k]))
              && (node && h.shutdownNode ==> out[|batch|] == ShutNode)
    ensures !armed && h.enabled && h.hasUrl ==>
              && |out| == |batch| + (if node then 1 else 0)
              && (forall k | 0 <= k < |batch| :: out[k] == WouldShutGuest(batch[k]))
              && (node ==> out[|batch|] == WouldShutNode)
  {
    RequestsAre(h, armed, node, batch);
    out := [];
    if !h.enabled || !h.hasUrl {
      return;
    }
    if !armed {
      for k := 0 to |batch|
        invariant out == Each(batch[..k], false)
      {
        out := out + [WouldShutGuest(batch[k])];
      }
      assert batch[..|batch|] == batch;
      if node {
        out := out + [WouldShutNode];
      }
      return;
    }
    if !h.pinned {
      return;
    }
    for k := 0 to |batch|
      invariant out == Each(batch[..k], true)
    {
      out := out + [ShutGuest(batch[k])];
    }
    assert batch[..|batch|] == batch;
    if node && h.shutdownNode {
      out := out + [ShutNode];
    }
  }

  class ShutdownRuntime {
    var cfg: Config
    var rules: seq<seq<GuestRule>>
    const eng: Engine
    var running: bool
    var pendingHosts: set<nat>
    var queue: seq<Pending>
    ghost var starting: nat
    ghost var workers: nat
    ghost var log: seq<Entry>

    ghost predicate Valid()
      reads this, eng
    {
      eng.Valid() && |cfg.hosts| == |rules| == MAX_HOSTS
    }

    ghost function View(): (r: Runtime)
      requires Valid()
      reads this, eng, eng.fired, eng.guests
    {
      Runtime(System(cfg, rules, eng.View()), running, pendingHosts, queue, starting, workers, log)
    }

    /** `pve_shutdown_start`. */
    constructor (cfg: Config, rules: seq<seq<GuestRule>>)
      requires |cfg.hosts| == |rules| == MAX_HOSTS
      ensures Valid() && fresh(eng) && fresh(eng.fired) && fresh(eng.guests)
      ensures this.cfg == cfg && this.rules == rules && FreshStart(View())
    {
      this.cfg, this.rules := cfg, rules;
      eng := new Engine();
      running, pendingHosts, queue := false, {}, [];
      starting, workers, log := 0, 0, [];
      new;
      SyncAll(rules);
    }

    method SyncAll(rules: seq<seq<GuestRule>>)
      requires eng.Valid() && |rules| == MAX_HOSTS
      modifies eng.guests
      ensures eng.View() == old(eng.View()).(hosts := Resync(old(eng.View()).hosts, rules))
    {
      for i := 0 to MAX_HOSTS
        invariant forall j | 0 <= j < i :: eng.guests[j] == Synced(old(eng.guests[j]), rules[j])
        invariant forall j | i <= j < MAX_HOSTS :: eng.guests[j] == old(eng.guests[j])
      {
        eng.SyncGuests(i, rules[i]);
      }
      assert eng.View().hosts == Resync(old(eng.View()).hosts, rules);
    }

    /** `pve_shutdown_reconfigure`. */
    method Reconfigure(cfg: Config, rules: seq<seq<GuestRule>>)
      requires Valid() && |cfg.hosts| == |rules| == MAX_HOSTS
      modifies this, eng.guests
      ensures Valid()
      ensures View() == Act(old(View()), Sys(PveRuns.Reconfigure(cfg, rules)))
    {
      this.cfg := cfg;
      this.rules := rules;
      SyncAll(rules);
    }

    /** `pve_shutdown_observe`; `start` says that this call must create the worker. */
    method Observe(known: bool, onMains: bool, socPct: int, now: int) returns (start: bool)
      requires Valid()
      modifies this, eng, eng.fired, eng.guests
      ensures Valid()
      ensures var obs := if !known then Obs(Unknown, -1) else Obs(if onMains then Line else Battery, socPct);
              View() == Act(old(View()), Sys(PveRuns.Observe(obs, now)))
      ensures start <==> starting == old(starting) + 1
    {
      var obs := Obs(if !known then Unknown else if onMains then Line else Battery, if known then socPct else -1);
      ghost var was := View().sys;
      var fires := Evaluate(obs, now);
      ObserveKeepsShape(was, PveRuns.Observe(obs, now));
      start := EnqueueFires(was, fires);
    }

    method EnqueueFires(ghost was: System, fires: set<nat>) returns (start: bool)
      requires Valid() && SameShape(was.eng.hosts, eng.View().hosts)
      requires fires == FiredHosts(was.eng.hosts, eng.View().hosts)
      modifies this
      ensures Valid()
      ensures View() == Enqueued(old(View()).(sys := was), old(View()).sys)
      ensures start <==> starting == old(starting) + 1
    {
      ghost var hosts := eng.View().hosts;
      var more := QueueAll();
      log := log + AllClosed(was.eng.hosts, hosts) + NodesClosed(was.eng.hosts, hosts);
      start := false;
      if fires != {} || more {
        pendingHosts := pendingHosts + fires;
        if !running {
          running := true;
          start := true;
          starting := starting + 1;
        }
      }
    }

    method Evaluate(obs: Obs, now: int) returns (fires: set<nat>)
      requires Valid()
      modifies eng, eng.fired, eng.guests
      ensures eng.View() == Eval(cfg, rules, old(eng.View()), obs, now)
      ensures fires == FiredHosts(old(eng.View()).hosts, eng.View().hosts)
    {
      ghost var was := eng.View().hosts;
      fires := eng.EvalStep(cfg, rules, obs, now);
      assert forall h | 0 <= h < MAX_HOSTS :: was[h].fired == old(eng.fired[h]) && eng.View().hosts[h].fired == eng.fired[h];
    }

    method QueueAll() returns (any: bool)
      requires Valid()
      modifies this`queue
      ensures queue == old(queue) + AllToQueue(eng.View().hosts)
      ensures any <==> AllToQueue(eng.View().hosts) != []
    {
      any := QueueAllOf(eng.View().hosts);
    }

    method QueueAllOf(ghost hosts: seq<HostState>) returns (any: bool)
      requires Valid() && |hosts| == MAX_HOSTS && forall i | 0 <= i < MAX_HOSTS :: hosts[i].latches == eng.guests[i]
      modifies this`queue
      ensures queue == old(queue) + AllToQueue(hosts)
      ensures any <==> AllToQueue(hosts) != []
    {
      any := false;
      ghost var sofar := [];
      for i := 0 to MAX_HOSTS
        invariant queue == old(queue) + sofar && sofar == AllToQueue(hosts[..i])
        invariant any <==> sofar != []
      {
        AllToQueueSnoc(hosts, i);
        var more := QueueFired(i, eng.guests[i]);
        any := any || more;
        sofar := sofar + ToQueue(i, hosts[i].latches);
      }
      assert hosts[..MAX_HOSTS] == hosts;
    }

    /** Appends one host's newly fired guests to the queue. */
    method QueueFired(h: nat, latches: seq<Latch>) returns (any: bool)
      modifies this`queue
      ensures queue == old(queue) + ToQueue(h, latches)
      ensures any <==> ToQueue(h, latches) != []
    {
      any := false;
      for g := 0 to |latches|
        invariant queue == old(queue) + ToQueue(h, latches[..g])
        invariant any <==> ToQueue(h, latches[..g]) != []
      {
        ToQueueSnoc(h, latches, g);
        if latches[g].firedNow {
          any := true;
          queue := queue + [Pending(h, latches[g].id)];
        }
      }
      assert latches[..|latches|] == latches;
    }

    /** The lowest pending node, else the host of the oldest queued guest. */
    method PickHost() returns (h: int)
      requires Valid()
      ensures h == NextHost(View())
    {
      for k := 0 to MAX_HOSTS
        invariant forall j | 0 <= j < k :: j !in pendingHosts
      {
        if k in pendingHosts {
          return k;
        }
      }
      return if |queue| > 0 then queue[0].host else -1;
    }

    /** One locked pass of `worker_task`; `h` is -1 when there was nothing left and the worker ends. */
    method TakeWork() returns (h: int, node: bool, batch: seq<int>)
      requires Valid() && workers > 0
      modifies this
      ensures Valid()
      ensures View() == Act(old(View()), Take)
      ensures h == NextHost(old(View()))
      ensures h >= 0 ==> node == (h in old(pendingHosts)) && batch == OfHost(old(queue), h)
    {
      ghost var before := View();
      node, batch := false, [];
      h := PickHost();
      if h < 0 {
        running := false;
        workers := workers - 1;
        return;
      }
      node := h in pendingHosts;
      pendingHosts := pendingHosts - {h as nat};
      batch := Compact(h);
      log := log + [HandedOff(h, node, batch)];
    }

    /** Pulls host `h`'s entries out of the queue, compacting the rest in place. */
    method Compact(h: nat) returns (batch: seq<int>)
      modifies this`queue
      ensures queue == OfOthers(old(queue), h) && batch == OfHost(old(queue), h)
    {
      ghost var was := queue;
      var keep, n := 0, |queue|;
      var k := 0;
      batch := [];
      while k < n
        invariant 0 <= keep <= k <= n && |queue| == n == |was|
        invariant queue[k..] == was[k..]
        invariant queue[..keep] == OfOthers(was[..k], h)
        invariant batch == OfHost(was[..k], h)
      {
        QueueSnoc(was, k, h);
        assert queue[k] == was[k];
        if queue[k].host == h {
          batch := batch + [queue[k].id];
        } else {
          MovedDown(queue, keep, k);
          queue := queue[keep := queue[k]];
          keep := keep + 1;
        }
        k := k + 1;
      }
      assert was[..n] == was;
      queue := queue[..keep];
    }

    /** One round of the worker: take work under the lock, then ask the host for it. */
    method ServeNext() returns (h: int, out: seq<Request>)
      requires Valid() && Inv(View()) && workers > 0
      modifies this
      ensures Valid() && Inv(View()) && View() == Taken(old(View())) && h == NextHost(old(View()))
      ensures if h < 0 then queue == [] && pendingHosts == {}
              else |pendingHosts| + |queue| < old(|pendingHosts| + |queue|)
      ensures h >= 0 ==> h < MAX_HOSTS && out == Requests(cfg.hosts[h], cfg.armed, h in old(pendingHosts), OfHost(old(queue), h))
    {
      TakeKeepsInv(View());
      TakeShrinks(View());
      var node, batch;
      h, node, batch := TakeWork();
      out := [];
      if h >= 0 {
        out := RunHost(cfg.hosts[h], cfg.armed, node, batch);
      }
    }

    /**
     The worker left alone: it drains everything, asks each host for exactly what its hand-off calls
     for, hands every fired guest over, and ends.
     */
    method WorkerTask() returns (issued: seq<(nat, seq<Request>)>)
      requires Valid() && Inv(View()) && workers > 0
      modifies this
      ensures Valid() && Inv(View()) && cfg == old(cfg)
      ensures queue == [] && pendingHosts == {} && !running && workers == 0
      ensures forall h: nat :: Handed(log, h) == Fired(log, h) && !OwesNode(log, h)
      ensures forall h: nat :: Fired(log, h) == old(Fired(log, h))
      ensures |old(log)| <= |log| && log[..|old(log)|] == old(log) && issued == Issued(cfg, log[|old(log)|..])
      ensures forall h: nat | h < MAX_HOSTS && Askable(cfg, h) :: Asked(issued, h) == old(OfHost(queue, h))
    {
      issued := [];
      ghost var before := View();
      while true
        invariant Valid() && Inv(View()) && workers > 0 && running
        invariant forall h: nat :: Fired(log, h) == Fired(before.log, h)
        invariant cfg == before.sys.cfg && rules == before.sys.rules
        invariant |before.log| <= |log| && log[..|before.log|] == before.log
        invariant issued == Issued(cfg, log[|before.log|..])
        decreases |pendingHosts| + |queue|
      {
        ghost var top := View();
        var h, out := ServeNext();
        if h < 0 {
          AllSettled(View());
          break;
        }
        TakeKeepsFired(top);
        IssuedSnoc(cfg, top.log, |before.log|, log[|top.log|]);
        issued := issued + [(h, out)];
      }
      forall h: nat | h < MAX_HOSTS && Askable(cfg, h)
        ensures Asked(issued, h) == OfHost(before.queue, h)
      {
        AskedIsQueued(before, cfg, log, h);
      }
    }
  }

  lemma QueueSnoc(q: seq<Pending>, k: nat, h: nat)
    requires k < |q|
    ensures OfHost(q[..k + 1], h) == OfHost(q[..k], h) + if q[k].host == h then [q[k].id] else []
    ensures OfOthers(q[..k + 1], h) == OfOthers(q[..k], h) + if q[k].host == h then [] else [q[k]]
  {
    assert q[..k + 1][..k] == q[..k];
  }

  lemma MovedDown(q: seq<Pending>, keep: nat, k: nat)
    requires keep <= k < |q|
    ensures var r := q[keep := q[k]]; r[..keep + 1] == q[..keep] + [q[k]] && r[k + 1..] == q[k + 1..]
  {
  }

  lemma AllSettled(r: Runtime)
    requires Inv(r) && r.queue == [] && r.pendingHosts == {}
    ensures forall g: nat :: Handed(r.log, g) == Fired(r.log, g) && !OwesNode(r.log, g)
  {
    forall g: nat ensures Handed(r.log, g) == Fired(r.log, g) && !OwesNode(r.log, g) {
      assert Balanced(r.log, r.queue, r.pendingHosts, g);
    }
  }

  lemma TakeKeepsFired(r: Runtime)
    requires Inv(r) && r.workers > 0
    ensures forall g: nat :: Fired(Taken(r).log, g) == Fired(r.log, g)
  {
    if NextHost(r) >= 0 {
      forall g: nat ensures Fired(Taken(r).log, g) == Fired(r.log, g) {
        assert Balanced(r.log, r.queue, r.pendingHosts, g);
        TakeLedger(r.log, r.queue, r.pendingHosts, NextHost(r), g);
      }
    }
  }

  /** The requests of a stretch of the ledger, hand-off by hand-off. */
  ghost function Issued(cfg: Config, es: seq<Entry>): (out: seq<(nat, seq<Request>)>)
  {
    if es == [] then []
    else
      var n := |es| - 1;
      Issued(cfg, es[..n]) +
      if es[n].HandedOff? && es[n].host < |cfg.hosts|
      then [(es[n].host, Requests(cfg.hosts[es[n].host], cfg.armed, es[n].node, es[n].batch))] else []
  }

  lemma IssuedSnoc(cfg: Config, log: seq<Entry>, from: nat, e: Entry)
    requires from <= |log| && e.HandedOff? && e.host < |cfg.hosts|
    ensures Issued(cfg, (log + [e])[from..]) ==
            Issued(cfg, log[from..]) + [(e.host, Requests(cfg.hosts[e.host], cfg.armed, e.node, e.batch))]
  {
    var es := (log + [e])[from..];
    assert es == log[from..] + [e];
    assert es[..|es| - 1] == log[from..];
  }

  // ---------------------------------------------------------------------
  // What the hosts are asked, all in all
  // ---------------------------------------------------------------------

  /** The guests named in some requests, in order. */
  function GuestIds(out: seq<Request>): (ids: seq<int>)
  {
    if out == [] then []
    else
      var n := |out| - 1;
      GuestIds(out[..n]) +
      match out[n]
      case ShutGuest(id) => [id]
      case WouldShutGuest(id) => [id]
      case _ => []
  }

  lemma {:induction false} EachNamesAll(ids: seq<int>, armed: bool)
    ensures GuestIds(Each(ids, armed)) == ids
  {
    if ids != [] {
      var n := |ids| - 1;
      EachNamesAll(ids[..n], armed);
      assert Each(ids, armed)[..n] == Each(ids[..n], armed);
    }
  }

  lemma RequestsNameBatch(h: HostRule, armed: bool, node: bool, batch: seq<int>)
    requires Listed(h) && (armed ==> h.pinned)
    ensures GuestIds(Requests(h, armed, node, batch)) == batch
  {
    EachNamesAll(batch, armed);
    assert Each(batch, armed) + [] == Each(batch, armed);
    NodeIsNoGuest(Each(batch, armed), ShutNode);
    NodeIsNoGuest(Each(batch, armed), WouldShutNode);
  }

  lemma NodeIsNoGuest(out: seq<Request>, x: Request)
    requires x.ShutNode? || x.WouldShutNode?
    ensures GuestIds(out + [x]) == GuestIds(out)
  {
    assert (out + [x])[..|out|] == out;
  }

  /** The guests host `h` is asked about, over all hand-offs. */
  function Asked(issued: seq<(nat, seq<Request>)>, h: nat): (ids: seq<int>)
  {
    if issued == [] then []
    else
      var n := |issued| - 1;
      Asked(issued[..n], h) + if issued[n].0 == h then GuestIds(issued[n].1) else []
  }

  lemma AskedSnoc(issued: seq<(nat, seq<Request>)>, x: (nat, seq<Request>), h: nat)
    ensures Asked(issued + [x], h) == Asked(issued, h) + if x.0 == h then GuestIds(x.1) else []
  {
    assert (issued + [x])[..|issued|] == issued;
  }

  /** Requests for this host do go out, or are reported. */
  predicate Askable(cfg: Config, h: nat)
  {
    h < |cfg.hosts| && Listed(cfg.hosts[h]) && (cfg.armed ==> cfg.hosts[h].pinned)
  }

  lemma AskedMore(cfg: Config, issued: seq<(nat, seq<Request>)>, e: Entry, h: nat)
    requires Askable(cfg, h) && e.HandedOff? && e.host < |cfg.hosts|
    ensures Asked(issued + [(e.host, Requests(cfg.hosts[e.host], cfg.armed, e.node, e.batch))], h) == Asked(issued, h) + HandedBy(e, h)
  {
    AskedSnoc(issued, (e.host, Requests(cfg.hosts[e.host], cfg.armed, e.node, e.batch)), h);
    if e.host == h {
      RequestsNameBatch(cfg.hosts[h], cfg.armed, e.node, e.batch);
    }
  }

  lemma IssuedLast(cfg: Config, es: seq<Entry>)
    requires es != []
    ensures var n := |es| - 1;
            Issued(cfg, es) ==
            if es[n].HandedOff? && es[n].host < |cfg.hosts|
            then Issued(cfg, es[..n]) + [(es[n].host, Requests(cfg.hosts[es[n].host], cfg.armed, es[n].node, es[n].batch))]
            else Issued(cfg, es[..n])
  {
  }

  /** A host that can be reached is asked about exactly the guests handed over for it. */
  lemma {:induction false} AskedIsHanded(cfg: Config, es: seq<Entry>, h: nat)
    requires Askable(cfg, h)
    ensures Asked(Issued(cfg, es), h) == Handed(es, h)
  {
    if es != [] {
      var n := |es| - 1;
      AskedIsHanded(cfg, es[..n], h);
      IssuedLast(cfg, es);
      HandedLast(es, h);
      if es[n].HandedOff? && es[n].host < |cfg.hosts| {
        AskedMore(cfg, Issued(cfg, es[..n]), es[n], h);
      } else {
        assert HandedBy(es[n], h) == [];
      }
    }
  }

  lemma HandedLast(es: seq<Entry>, h: nat)
    requires es != []
    ensures Handed(es, h) == Handed(es[..|es| - 1], h) + HandedBy(es[|es| - 1], h)
    ensures HandedBy(es[|es| - 1], h) == [] ==> Handed(es, h) == Handed(es[..|es| - 1], h)
  {
  }

  /** What has been handed over since was in the queue before. */
  lemma HandedSince(was: seq<Entry>, log: seq<Entry>, queue: seq<Pending>, h: nat)
    requires |was| <= |log| && log[..|was|] == was
    requires Handed(log, h) == Fired(log, h) == Fired(was, h) == Handed(was, h) + OfHost(queue, h)
    ensures Handed(log[|was|..], h) == OfHost(queue, h)
  {
    var since := log[|was|..];
    assert log == was + since;
    HandedAppend(was, since, h);
    assert (Handed(was, h) + Handed(since, h))[|Handed(was, h)|..] == Handed(since, h);
    assert (Handed(was, h) + OfHost(queue, h))[|Handed(was, h)|..] == OfHost(queue, h);
  }

  /** Nothing more and nothing less than the guests that were queued. */
  lemma AskedIsQueued(before: Runtime, cfg: Config, log: seq<Entry>, h: nat)
    requires Inv(before) && |before.log| <= |log| && log[..|before.log|] == before.log
    requires Handed(log, h) == Fired(log, h) == Fired(before.log, h)
    requires Askable(cfg, h)
    ensures Asked(Issued(cfg, log[|before.log|..]), h) == OfHost(before.queue, h)
  {
    assert Balanced(before.log, before.queue, before.pendingHosts, h);
    HandedSince(before.log, log, before.queue, h);
    AskedIsHanded(cfg, log[|before.log|..], h);
  }
}
