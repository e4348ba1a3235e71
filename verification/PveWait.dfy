/**
 How long fired hosts and guests wait for the worker (`components/pve_shutdown/pve_shutdown.c`),
 counted in passes of the worker, over every interleaving.
 */
module PveWait {
  import opened PveEngine
  import opened PveRuns
  import opened PveWorker
  import opened PveWakeUp

  /** Passes of the worker from `a` up to `n`. */
  function Passes(acts: seq<Action>, a: nat, n: nat): (k: nat)
    requires n <= |acts|
  {
    if a >= n then 0 else Passes(acts, a, n - 1) + if acts[n - 1].Take? then 1 else 0
  }

  function Below(hosts: set<nat>, limit: nat): (s: set<nat>)
  {
    set g | g in hosts && g < limit
  }

  /** The hosts below `limit` that an action fires. */
  function FiresBelow(r: Runtime, a: Action, limit: nat): (s: set<nat>)
    requires Enabled(r, a) && limit <= MAX_HOSTS
  {
    if a.Sys? && a.event.Observe? then set g: nat | g < limit && HostFires(r.sys, a.event, g) else {}
  }

  /** How many fires of hosts below `limit` there were from `a` up to `n`. */
  ghost function FiresIn(rs: seq<Runtime>, acts: seq<Action>, limit: nat, a: nat, n: nat): (k: nat)
    requires IsHistory(rs, acts) && n <= |acts| && limit <= MAX_HOSTS
  {
    if a >= n then 0
    else
      assert Next(rs, acts, n - 1);
      FiresIn(rs, acts, limit, a, n - 1) + |FiresBelow(rs[n - 1], acts[n - 1], limit)|
  }

  lemma {:induction false} UnionSize(a: set<nat>, b: set<nat>)
    ensures |a + b| <= |a| + |b|
  {
    assert a + b == a + (b - a);
    assert b == (b - a) + (b * a);
  }

  /** What an action does to the nodes pending below `limit`, when no node at or above it is served. */
  lemma PendingBelow(r: Runtime, a: Action, limit: nat)
    requires Inv(r) && Enabled(r, a) && limit <= MAX_HOSTS
    ensures |Below(Act(r, a).pendingHosts, limit)| + (if a.Take? && NextHost(r) in Below(r.pendingHosts, limit) then 1 else 0)
            <= |Below(r.pendingHosts, limit)| + |FiresBelow(r, a, limit)|
  {
    var t := Act(r, a);
    if a.Sys? && a.event.Observe? {
      ObserveKeepsShape(r.sys, a.event);
      FiredAreFires(r.sys, a.event);
      assert Below(t.pendingHosts, limit) == Below(r.pendingHosts, limit) + FiresBelow(r, a, limit);
      UnionSize(Below(r.pendingHosts, limit), FiresBelow(r, a, limit));
    } else if a.Take? && NextHost(r) >= 0 {
      var g: nat := NextHost(r);
      assert Below(t.pendingHosts, limit) == Below(r.pendingHosts, limit) - {g};
    }
  }

  lemma FiredAreFires(s: System, e: Event)
    requires Ok(s) && EventOk(e) && e.Observe? && SameShape(s.eng.hosts, Step(s, e).eng.hosts)
    ensures forall g: nat | g < MAX_HOSTS :: g in FiredHosts(s.eng.hosts, Step(s, e).eng.hosts) <==> HostFires(s, e, g)
  {
  }

  // ---------------------------------------------------------------------
  // Nodes
  // ---------------------------------------------------------------------

  /** The worker serves the lowest pending node. */
  lemma LowestFirst(r: Runtime, h: nat)
    requires h in r.pendingHosts && h < MAX_HOSTS
    ensures 0 <= NextHost(r) <= h && NextHost(r) in r.pendingHosts
  {
  }

  lemma NodeStep(r: Runtime, a: Action, h: nat)
    requires Inv(r) && Enabled(r, a) && h < MAX_HOSTS && h in r.pendingHosts && !Serves(r, a, h)
    ensures h in Act(r, a).pendingHosts
    ensures |Below(Act(r, a).pendingHosts, h)| + (if a.Take? then 1 else 0) <= |Below(r.pendingHosts, h)| + |FiresBelow(r, a, h)|
  {
    WaitsOn(r, a, h, 0);
    LowestFirst(r, h);
    PendingBelow(r, a, h);
  }

  lemma {:induction false} NodeWaits(rs: seq<Runtime>, acts: seq<Action>, a: nat, n: nat, h: nat)
    requires IsHistory(rs, acts) && a <= n <= |acts| && h < MAX_HOSTS && h in rs[a].pendingHosts
    requires forall i | a <= i < n :: !Serves(rs[i], acts[i], h)
    ensures h in rs[n].pendingHosts
    ensures Passes(acts, a, n) + |Below(rs[n].pendingHosts, h)| <= |Below(rs[a].pendingHosts, h)| + FiresIn(rs, acts, h, a, n)
  {
    if a < n {
      NodeWaits(rs, acts, a, n - 1, h);
      InvHolds(rs, acts, n - 1);
      assert Next(rs, acts, n - 1);
      NodeStep(rs[n - 1], acts[n - 1], h);
    }
  }

  /**
   A pending node is handed over by the time the worker has made more passes than there were nodes pending
   below it and fires of such nodes since: only lower numbers go first, each once for every fire.
   */
  lemma NodeIsServed(rs: seq<Runtime>, acts: seq<Action>, a: nat, n: nat, h: nat)
    requires IsHistory(rs, acts) && a <= n <= |acts| && h < MAX_HOSTS && h in rs[a].pendingHosts
    requires Passes(acts, a, n) > |Below(rs[a].pendingHosts, h)| + FiresIn(rs, acts, h, a, n)
    ensures exists i | a <= i < n :: Serves(rs[i], acts[i], h)
  {
    if forall i | a <= i < n :: !Serves(rs[i], acts[i], h) {
      NodeWaits(rs, acts, a, n, h);
    }
  }

  // ---------------------------------------------------------------------
  // Guests
  // ---------------------------------------------------------------------

  /** Entries ahead of the first one of host `h`; all of them if there is none. */
  function Ahead(q: seq<Pending>, h: nat): (k: nat)
    ensures k <= |q|
  {
    if q == [] then 0
    else
      var n := |q| - 1;
      var k := Ahead(q[..n], h);
      if k < n then k else if q[n].host == h then n else n + 1
  }

  lemma AheadSnoc(q: seq<Pending>, p: Pending, h: nat)
    ensures Ahead(q + [p], h) == if Ahead(q, h) < |q| then Ahead(q, h) else if p.host == h then |q| else |q| + 1
  {
    assert (q + [p])[..|q|] == q;
  }

  /** What joins the end of the queue does not get ahead. */
  lemma {:induction false} JoinsBehind(q: seq<Pending>, more: seq<Pending>, h: nat)
    requires Ahead(q, h) < |q|
    ensures Ahead(q + more, h) == Ahead(q, h)
  {
    if more == [] {
      assert q + more == q;
    } else {
      var n := |more| - 1;
      JoinsBehind(q, more[..n], h);
      assert q + more == (q + more[..n]) + [more[n]];
      AheadSnoc(q + more[..n], more[n], h);
    }
  }

  /** `less` keeps what `q` has of host `h`, and no more stands ahead of it; `oldest` tells whether less does. */
  predicate Closer(q: seq<Pending>, less: seq<Pending>, h: nat, oldest: bool)
  {
    if Ahead(q, h) == |q| then Ahead(less, h) == |less| <= |q| - if oldest then 1 else 0
    else Ahead(less, h) < |less| && Ahead(less, h) + (if oldest then 1 else 0) <= Ahead(q, h)
  }

  lemma CloserSnoc(q: seq<Pending>, less: seq<Pending>, p: Pending, h: nat, kept: bool, oldest: bool)
    requires Closer(q, less, h, oldest) && (!kept ==> p.host != h)
    ensures Closer(q + [p], if kept then less + [p] else less, h, oldest)
  {
    AheadSnoc(q, p, h);
    AheadSnoc(less, p, h);
  }

  /** Taking another host's entries out moves host `h` up, by at least one place if the oldest is among them. */
  lemma {:induction false} MovesUp(q: seq<Pending>, g: nat, h: nat)
    requires g != h
    ensures Closer(q, OfOthers(q, g), h, q != [] && q[0].host == g)
  {
    if |q| == 1 {
      assert q[..0] == [];
      AheadSnoc([], q[0], h);
    } else if q != [] {
      var n := |q| - 1;
      MovesUp(q[..n], g, h);
      assert q == q[..n] + [q[n]];
      assert OfOthers(q[..n], g) + [] == OfOthers(q[..n], g);
      CloserSnoc(q[..n], OfOthers(q[..n], g), q[n], h, q[n].host != g, q[0].host == g);
    }
  }

  lemma {:induction false} AheadIff(q: seq<Pending>, h: nat)
    ensures Ahead(q, h) < |q| <==> OfHost(q, h) != []
  {
    if q != [] {
      AheadIff(q[..|q| - 1], h);
    }
  }

  /** Pending nodes of any host, and entries ahead in the queue: all that can be served first. */
  function InFront(r: Runtime, h: nat): (k: nat)
  {
    |Below(r.pendingHosts, MAX_HOSTS)| + Ahead(r.queue, h)
  }

  /** If no node is pending, the oldest entry's host is served. */
  lemma OldestNext(r: Runtime)
    requires Inv(r) && r.queue != []
    ensures NextHost(r) >= 0 && (NextHost(r) in r.pendingHosts || NextHost(r) == r.queue[0].host)
    ensures NextHost(r) in r.pendingHosts ==> NextHost(r) in Below(r.pendingHosts, MAX_HOSTS)
  {
  }

  lemma TakeStep(r: Runtime, h: nat)
    requires Inv(r) && r.workers > 0 && Ahead(r.queue, h) < |r.queue| && NextHost(r) != h
    ensures var t := Taken(r);
            && Ahead(t.queue, h) < |t.queue|
            && Ahead(t.queue, h) + (if NextHost(r) in r.pendingHosts then 0 else 1) <= Ahead(r.queue, h)
  {
    OldestNext(r);
    MovesUp(r.queue, NextHost(r), h);
  }

  lemma QueueStep(r: Runtime, a: Action, h: nat)
    requires Inv(r) && Enabled(r, a) && Ahead(r.queue, h) < |r.queue| && !Serves(r, a, h)
    ensures var t := Act(r, a);
            && Ahead(t.queue, h) < |t.queue|
            && Ahead(t.queue, h) + (if a.Take? && NextHost(r) !in r.pendingHosts then 1 else 0) <= Ahead(r.queue, h)
  {
    match a {
      case Sys(e) =>
        if e.Observe? {
          ObserveKeepsShape(r.sys, e);
          JoinsBehind(r.queue, AllToQueue(Step(r.sys, e).eng.hosts), h);
        }
      case Take => TakeStep(r, h);
      case _ =>
    }
  }

  lemma GuestStep(r: Runtime, a: Action, h: nat)
    requires Inv(r) && Enabled(r, a) && Ahead(r.queue, h) < |r.queue| && !Serves(r, a, h)
    ensures Ahead(Act(r, a).queue, h) < |Act(r, a).queue|
    ensures InFront(Act(r, a), h) + (if a.Take? then 1 else 0) <= InFront(r, h) + |FiresBelow(r, a, MAX_HOSTS)|
  {
    QueueStep(r, a, h);
    PendingBelow(r, a, MAX_HOSTS);
    OldestNext(r);
  }

  lemma {:induction false} GuestsWait(rs: seq<Runtime>, acts: seq<Action>, a: nat, n: nat, h: nat)
    requires IsHistory(rs, acts) && a <= n <= |acts| && Ahead(rs[a].queue, h) < |rs[a].queue|
    requires forall i | a <= i < n :: !Serves(rs[i], acts[i], h)
    ensures Ahead(rs[n].queue, h) < |rs[n].queue|
    ensures Passes(acts, a, n) + InFront(rs[n], h) <= InFront(rs[a], h) + FiresIn(rs, acts, MAX_HOSTS, a, n)
  {
    if a < n {
      GuestsWait(rs, acts, a, n - 1, h);
      InvHolds(rs, acts, n - 1);
      assert Next(rs, acts, n - 1);
      GuestStep(rs[n - 1], acts[n - 1], h);
    }
  }

  /**
   A host with queued guests is served by the time the worker has made more passes than there were pending nodes
   and entries ahead of its own, and fires of nodes since: guests that fire later never delay it.
   */
  lemma GuestsAreServed(rs: seq<Runtime>, acts: seq<Action>, a: nat, n: nat, h: nat)
    requires IsHistory(rs, acts) && a <= n <= |acts| && OfHost(rs[a].queue, h) != []
    requires Passes(acts, a, n) > InFront(rs[a], h) + FiresIn(rs, acts, MAX_HOSTS, a, n)
    ensures exists i | a <= i < n :: Serves(rs[i], acts[i], h)
  {
    if forall i | a <= i < n :: !Serves(rs[i], acts[i], h) {
      AheadIff(rs[a].queue, h);
      GuestsWait(rs, acts, a, n, h);
    }
  }
}
