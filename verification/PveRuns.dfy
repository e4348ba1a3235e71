/**
 Whole runs of the shutdown engine: any sequence of observations and rule edits.

 A run is a sequence of systems `sys` and events `ev`, `sys[i + 1]` being what
 `ev[i]` makes of `sys[i]`.  The theorems say what every run keeps: the clock
 edges are a function of the history, every fire is justified by it, a latch
 fires once per outage, hosts do not disturb one another, latches follow ids.
 */
module PveRuns {
  import opened PveEngine

  /** Settings, configured guest rules and engine, as the runtime holds them. */
  datatype System = System(cfg: Config, rules: seq<seq<GuestRule>>, eng: State)

  datatype Event = Observe(obs: Obs, now: int)
                 | Reconfigure(cfg: Config, rules: seq<seq<GuestRule>>)

  predicate Ok(s: System)
  {
    Sized(s.cfg, s.rules, s.eng)
  }

  predicate EventOk(e: Event)
  {
    e.Reconfigure? ==> |e.cfg.hosts| == |e.rules| == MAX_HOSTS
  }

  function Resync(hosts: seq<HostState>, rules: seq<seq<GuestRule>>): (r: seq<HostState>)
    requires |hosts| == |rules| == MAX_HOSTS
  {
    seq(MAX_HOSTS, i requires 0 <= i < MAX_HOSTS =>
      HostState(hosts[i].fired, Synced(hosts[i].latches, rules[i])))
  }

  function Step(s: System, e: Event): (r: System)
    requires Ok(s) && EventOk(e)
    ensures Ok(r)
  {
    match e
    case Observe(obs, now) => s.(eng := Eval(s.cfg, s.rules, s.eng, obs, now))
    case Reconfigure(cfg, rules) => System(cfg, rules, s.eng.(hosts := Resync(s.eng.hosts, rules)))
  }

  /** The state right after the feature is started. */
  ghost predicate Booted(s: System)
  {
    && Ok(s)
    && !s.eng.edges.onBattery && !s.eng.edges.onMains
    && forall h | 0 <= h < MAX_HOSTS ::
         !s.eng.hosts[h].fired && s.eng.hosts[h].latches == Synced([], s.rules[h])
  }

  ghost predicate IsRun(sys: seq<System>, ev: seq<Event>)
  {
    && |sys| == |ev| + 1
    && (forall i | 0 <= i < |sys| :: Ok(sys[i]))
    && (forall i | 0 <= i < |ev| :: EventOk(ev[i]))
    && forall i | 0 <= i < |ev| :: Follows(sys, ev, i)
  }

  ghost predicate Follows(sys: seq<System>, ev: seq<Event>, i: nat)
    requires |sys| == |ev| + 1 && i < |ev|
    requires Ok(sys[i]) && EventOk(ev[i])
  {
    sys[i + 1] == Step(sys[i], ev[i])
  }

  /** What one event does to the edges and to host `h`. */
  lemma StepAt(s: System, e: Event, h: nat)
    requires Ok(s) && EventOk(e) && h < MAX_HOSTS
    ensures e.Reconfigure? ==>
              && Step(s, e).eng.edges == s.eng.edges
              && Step(s, e).eng.hosts[h] == HostState(s.eng.hosts[h].fired, Synced(s.eng.hosts[h].latches, e.rules[h]))
    ensures e.Observe? && !s.cfg.enabled ==> Step(s, e).eng.hosts[h] == s.eng.hosts[h]
    ensures e.Observe? && s.cfg.enabled ==>
              var edges := Observed(s.eng.edges, e.obs.power, e.now);
              && Step(s, e).eng.edges == edges
              && Step(s, e).eng.hosts[h] ==
                 HostStep(s.cfg.hosts[h], s.rules[h], s.eng.hosts[h],
                          MainsBack(s.cfg.mainsBackMin, edges, e.now), edges, e.obs, e.now)
  {
  }

  /** The same along a run. */
  lemma RunAt(sys: seq<System>, ev: seq<Event>, i: nat, h: nat)
    requires IsRun(sys, ev) && i < |ev| && h < MAX_HOSTS
    ensures sys[i + 1] == Step(sys[i], ev[i])
    ensures var s, e, t := sys[i], ev[i], sys[i + 1];
            match e
            case Reconfigure(cfg, rules) =>
              && t.cfg == cfg && t.rules == rules && t.eng.edges == s.eng.edges
              && t.eng.hosts[h] == HostState(s.eng.hosts[h].fired, Synced(s.eng.hosts[h].latches, rules[h]))
            case Observe(obs, now) =>
              && t.cfg == s.cfg && t.rules == s.rules
              && if !s.cfg.enabled then
                   !t.eng.edges.onBattery && !t.eng.edges.onMains && t.eng.hosts[h] == s.eng.hosts[h]
                 else
                   && t.eng.edges == Observed(s.eng.edges, obs.power, now)
                   && t.eng.hosts[h] == HostStep(s.cfg.hosts[h], s.rules[h], s.eng.hosts[h],
                                                 MainsBack(s.cfg.mainsBackMin, t.eng.edges, now), t.eng.edges, obs, now)
  {
    assert Follows(sys, ev, i);
    StepAt(sys[i], ev[i], h);
  }

  // ---------------------------------------------------------------------
  // Edges as a function of the history
  // ---------------------------------------------------------------------

  /** Event `j` is a reading of power `p` taken while the feature was enabled. */
  ghost predicate Reads(sys: seq<System>, ev: seq<Event>, j: nat, p: Power)
    requires |sys| == |ev| + 1 && j < |ev|
  {
    ev[j].Observe? && sys[j].cfg.enabled && ev[j].obs.power == p
  }

  ghost predicate EndsOutage(sys: seq<System>, ev: seq<Event>, j: nat)
    requires |sys| == |ev| + 1 && j < |ev|
  {
    ev[j].Observe? && (!sys[j].cfg.enabled || ev[j].obs.power.Line?)
  }

  /** Event `k` began the outage still going on before event `n`: the first BATTERY since the last LINE. */
  ghost predicate OutageEdge(sys: seq<System>, ev: seq<Event>, n: nat, k: nat)
    requires |sys| == |ev| + 1 && n <= |ev|
  {
    && k < n && Reads(sys, ev, k, Battery)
    && (forall m | k < m < n :: !EndsOutage(sys, ev, m))
    && OutagesOver(sys, ev, k)
  }

  /** Every BATTERY reading before `n` has been followed by a LINE one (or the feature going off). */
  ghost predicate OutagesOver(sys: seq<System>, ev: seq<Event>, n: nat)
    requires |sys| == |ev| + 1 && n <= |ev|
  {
    forall j | 0 <= j < n && Reads(sys, ev, j, Battery) :: exists m | j < m < n :: EndsOutage(sys, ev, m)
  }

  /** The countdown runs iff an outage is going on, and runs from its first reading. */
  lemma {:induction false} OutageIsHistory(sys: seq<System>, ev: seq<Event>, n: nat)
    requires IsRun(sys, ev) && Booted(sys[0]) && n <= |ev|
    ensures sys[n].eng.edges.onBattery <==> exists k: nat :: OutageEdge(sys, ev, n, k)
    ensures forall k: nat | OutageEdge(sys, ev, n, k) :: sys[n].eng.edges.onBatterySince == ev[k].now
    ensures !sys[n].eng.edges.onBattery ==> OutagesOver(sys, ev, n)
  {
    if n > 0 {
      OutageIsHistory(sys, ev, n - 1);
      var b, e := sys[n - 1].eng.edges, ev[n - 1];
      RunAt(sys, ev, n - 1, 0);
      if EndsOutage(sys, ev, n - 1) {
        forall j | 0 <= j < n && Reads(sys, ev, j, Battery) ensures exists m | j < m < n :: EndsOutage(sys, ev, m) {
          assert j < n - 1;
        }
      } else if b.onBattery {
        var k: nat :| OutageEdge(sys, ev, n - 1, k);
        assert OutageEdge(sys, ev, n, k);
        forall k': nat | OutageEdge(sys, ev, n, k') ensures k' == k {
          OneEdge(sys, ev, n, k, k');
        }
      } else if Reads(sys, ev, n - 1, Battery) {
        assert OutageEdge(sys, ev, n, n - 1);
        forall k': nat | OutageEdge(sys, ev, n, k') ensures k' == n - 1 {
          OneEdge(sys, ev, n, n - 1, k');
        }
      } else {
        assert sys[n].eng.edges.onBattery == b.onBattery;
        forall j | 0 <= j < n && Reads(sys, ev, j, Battery) ensures exists m | j < m < n :: EndsOutage(sys, ev, m) {
          var m :| j < m < n - 1 && EndsOutage(sys, ev, m);
        }
      }
    }
  }

  lemma OneEdge(sys: seq<System>, ev: seq<Event>, n: nat, k: nat, k': nat)
    requires |sys| == |ev| + 1 && n <= |ev|
    requires OutageEdge(sys, ev, n, k) && OutageEdge(sys, ev, n, k')
    ensures k == k'
  {
  }

  /** Events `a`..`b` hold LINE readings only (rule edits aside), `a` and `b` being two of them. */
  ghost predicate LineStretch(sys: seq<System>, ev: seq<Event>, a: nat, b: nat)
    requires |sys| == |ev| + 1
  {
    && a <= b < |ev| && Reads(sys, ev, a, Line) && Reads(sys, ev, b, Line)
    && forall m | a <= m <= b && ev[m].Observe? :: Reads(sys, ev, m, Line)
  }

  /** From the LINE reading `a` up to event `n`, every observation is a LINE reading. */
  ghost predicate Unbroken(sys: seq<System>, ev: seq<Event>, a: nat, n: nat)
    requires |sys| == |ev| + 1 && n <= |ev|
  {
    a < n && Reads(sys, ev, a, Line) && forall m | a <= m < n && ev[m].Observe? :: Reads(sys, ev, m, Line)
  }

  /** Event `a` is the first reading of the stretch of LINE readings still going on at `n`. */
  ghost predicate MainsEdge(sys: seq<System>, ev: seq<Event>, n: nat, a: nat)
    requires |sys| == |ev| + 1 && n <= |ev|
  {
    Unbroken(sys, ev, a, n) && forall a': nat | a' < a :: !Unbroken(sys, ev, a', n)
  }

  /** The engine knows itself on the mains iff LINE readings are going on, and counts from the first of them. */
  lemma {:induction false} MainsIsHistory(sys: seq<System>, ev: seq<Event>, n: nat) returns (a: nat)
    requires IsRun(sys, ev) && Booted(sys[0]) && n <= |ev|
    ensures sys[n].eng.edges.onMains <==> exists k: nat :: Unbroken(sys, ev, k, n)
    ensures sys[n].eng.edges.onMains ==> MainsEdge(sys, ev, n, a) && sys[n].eng.edges.mainsSince == ev[a].now
  {
    a := 0;
    if n > 0 {
      a := MainsIsHistory(sys, ev, n - 1);
      RunAt(sys, ev, n - 1, 0);
      StretchGrows(sys, ev, n - 1, n);
      if ev[n - 1].Observe? && !sys[n - 1].eng.edges.onMains {
        a := n - 1;
      }
    }
  }

  /** How one more event changes the stretches that end with it. */
  lemma StretchGrows(sys: seq<System>, ev: seq<Event>, m: nat, n: nat)
    requires |sys| == |ev| + 1 && m < n == m + 1 <= |ev|
    ensures forall k: nat | k < m :: Unbroken(sys, ev, k, n) <==> Unbroken(sys, ev, k, m) && (ev[m].Observe? ==> Reads(sys, ev, m, Line))
    ensures Unbroken(sys, ev, m, n) <==> Reads(sys, ev, m, Line)
  {
    forall k: nat | k < m
      ensures Unbroken(sys, ev, k, n) <==> Unbroken(sys, ev, k, m) && (ev[m].Observe? ==> Reads(sys, ev, m, Line))
    {
    }
  }

  // ---------------------------------------------------------------------
  // Fires
  // ---------------------------------------------------------------------

  /** Event `e` fires host `h` by its own trigger: the bit `pve_eval` returns for it. */
  predicate HostFires(s: System, e: Event, h: nat)
    requires Ok(s) && EventOk(e) && h < MAX_HOSTS
  {
    !s.eng.hosts[h].fired && Step(s, e).eng.hosts[h].fired
  }

  /** Event `e` fires the guest `id` of host `h`. */
  predicate GuestFires(s: System, e: Event, h: nat, id: int)
    requires Ok(s) && EventOk(e) && h < MAX_HOSTS
  {
    !Latched(s.eng.hosts[h].latches, id) && Latched(Step(s, e).eng.hosts[h].latches, id)
  }

  /** Trigger `t` was rightly met at event `i`: long enough since the outage began, or low on a live reading. */
  ghost predicate Justified(sys: seq<System>, ev: seq<Event>, i: nat, t: Trigger)
    requires |sys| == |ev| + 1 && i < |ev| && ev[i].Observe?
  {
    || (t.onBatteryMin > 0 &&
        exists k: nat :: OutageEdge(sys, ev, i + 1, k) && ev[i].now - ev[k].now >= 60_000_000 * t.onBatteryMin)
    || (ev[i].obs.power.Battery? && t.chargePct > 0 && 0 <= ev[i].obs.socPct <= t.chargePct)
  }

  lemma TriggerIsJustified(sys: seq<System>, ev: seq<Event>, i: nat, t: Trigger)
    requires IsRun(sys, ev) && Booted(sys[0]) && i < |ev|
    requires ev[i].Observe? && sys[i].cfg.enabled
    requires TriggerMet(t, sys[i + 1].eng.edges, ev[i].obs, ev[i].now)
    ensures Justified(sys, ev, i, t) && !ev[i].obs.power.Line?
  {
    OutageIsHistory(sys, ev, i + 1);
    RunAt(sys, ev, i, 0);
  }

  lemma HostFireJustified(sys: seq<System>, ev: seq<Event>, i: nat, h: nat)
    requires IsRun(sys, ev) && Booted(sys[0]) && i < |ev| && h < MAX_HOSTS
    requires HostFires(sys[i], ev[i], h)
    ensures ev[i].Observe? && sys[i].cfg.enabled && sys[i].cfg.hosts[h].enabled && !ev[i].obs.power.Line?
    ensures Justified(sys, ev, i, sys[i].cfg.hosts[h].trigger)
  {
    RunAt(sys, ev, i, h);
    TriggerIsJustified(sys, ev, i, sys[i].cfg.hosts[h].trigger);
  }

  lemma GuestFireJustified(sys: seq<System>, ev: seq<Event>, i: nat, h: nat, id: int)
    requires IsRun(sys, ev) && Booted(sys[0]) && i < |ev| && h < MAX_HOSTS
    requires GuestFires(sys[i], ev[i], h, id)
    ensures ev[i].Observe? && sys[i].cfg.enabled && sys[i].cfg.hosts[h].enabled && !ev[i].obs.power.Line?
    ensures Configured(sys[i].rules[h], id)
    ensures Justified(sys, ev, i, sys[i].cfg.hosts[h].trigger) ||
            exists r | 0 <= r < |sys[i].rules[h]| ::
              sys[i].rules[h][r].id == id && Justified(sys, ev, i, sys[i].rules[h][r].trigger)
  {
    var s, e := sys[i], ev[i];
    RunAt(sys, ev, i, h);
    if e.Reconfigure? {
      LatchedAfterSync(s.eng.hosts[h].latches, e.rules[h], id);
      assert false;
    }
    var edges := sys[i + 1].eng.edges;
    LatchedAfterStep(s.cfg.hosts[h], s.rules[h], s.eng.hosts[h],
                     MainsBack(s.cfg.mainsBackMin, edges, e.now), edges, e.obs, e.now, id);
    var r :| 0 <= r < |s.rules[h]| && s.rules[h][r].id == id &&
             (TriggerMet(s.cfg.hosts[h].trigger, edges, e.obs, e.now) ||
              TriggerMet(s.rules[h][r].trigger, edges, e.obs, e.now));
    if TriggerMet(s.cfg.hosts[h].trigger, edges, e.obs, e.now) {
      TriggerIsJustified(sys, ev, i, s.cfg.hosts[h].trigger);
    } else {
      TriggerIsJustified(sys, ev, i, s.rules[h][r].trigger);
    }
  }

  /** Losing the unit alone never shuts anything down. */
  lemma NoReadingNoFire(sys: seq<System>, ev: seq<Event>, i: nat, h: nat, id: int)
    requires IsRun(sys, ev) && Booted(sys[0]) && i < |ev| && h < MAX_HOSTS
    requires forall j | 0 <= j <= i && ev[j].Observe? :: !ev[j].obs.power.Battery?
    ensures !HostFires(sys[i], ev[i], h) && !GuestFires(sys[i], ev[i], h, id)
  {
    if HostFires(sys[i], ev[i], h) {
      HostFireJustified(sys, ev, i, h);
    }
    if GuestFires(sys[i], ev[i], h, id) {
      GuestFireJustified(sys, ev, i, h, id);
    }
  }

  // ---------------------------------------------------------------------
  // Fire once
  // ---------------------------------------------------------------------

  /** A stretch of LINE readings long enough to re-arm, by the setting in force at its end. */
  ghost predicate Rearms(sys: seq<System>, ev: seq<Event>, a: nat, b: nat)
    requires |sys| == |ev| + 1
  {
    && LineStretch(sys, ev, a, b)
    && sys[b].cfg.mainsBackMin > 0
    && ev[b].now - ev[a].now >= 60_000_000 * sys[b].cfg.mainsBackMin
  }

  lemma Drop(lat: seq<bool>, i: nat, j: nat) returns (b: nat)
    requires i < j < |lat| && lat[i] && !lat[j]
    ensures i <= b < j && lat[b] && !lat[b + 1]
  {
    b := i;
    while lat[b + 1]
      invariant i <= b < j && lat[b]
      decreases j - b
    {
      b := b + 1;
    }
  }

  /** A release at `b` is earned by a stretch of LINE readings that began after any fire before it. */
  lemma ReleaseIsEarned(sys: seq<System>, ev: seq<Event>, i: nat, b: nat) returns (a: nat)
    requires IsRun(sys, ev) && Booted(sys[0]) && i < b < |ev|
    requires ev[i].Observe? && !ev[i].obs.power.Line?
    requires ev[b].Observe? && sys[b].cfg.enabled
    requires MainsBack(sys[b].cfg.mainsBackMin, sys[b + 1].eng.edges, ev[b].now)
    ensures i < a <= b && Rearms(sys, ev, a, b)
  {
    a := MainsIsHistory(sys, ev, b + 1);
  }

  lemma HostFiresOnce(sys: seq<System>, ev: seq<Event>, i: nat, j: nat, h: nat)
    requires IsRun(sys, ev) && Booted(sys[0]) && i < j < |ev| && h < MAX_HOSTS
    requires HostFires(sys[i], ev[i], h) && HostFires(sys[j], ev[j], h)
    ensures exists a, b | i < a <= b < j :: Rearms(sys, ev, a, b)
  {
    HostFireJustified(sys, ev, i, h);
    RunAt(sys, ev, i, h);
    var lat := seq(|sys|, m requires 0 <= m < |sys| && Ok(sys[m]) => sys[m].eng.hosts[h].fired);
    var b := Drop(lat, i + 1, j);
    assert lat[b] && !lat[b + 1];
    RunAt(sys, ev, b, h);
    var a := ReleaseIsEarned(sys, ev, i, b);
  }

  /** The same for a guest whose rule stays configured from one fire to the next. */
  lemma GuestFiresOnce(sys: seq<System>, ev: seq<Event>, i: nat, j: nat, h: nat, id: int)
    requires IsRun(sys, ev) && Booted(sys[0]) && i < j < |ev| && h < MAX_HOSTS
    requires GuestFires(sys[i], ev[i], h, id) && GuestFires(sys[j], ev[j], h, id)
    requires forall m | i < m <= j :: Configured(sys[m].rules[h], id)
    ensures exists a, b | i < a <= b < j :: Rearms(sys, ev, a, b)
  {
    GuestFireJustified(sys, ev, i, h, id);
    RunAt(sys, ev, i, h);
    var lat := seq(|sys|, m requires 0 <= m < |sys| && Ok(sys[m]) => Latched(sys[m].eng.hosts[h].latches, id));
    var b := Drop(lat, i + 1, j);
    assert lat[b] && !lat[b + 1];
    GuestReleased(sys, ev, b, h, id);
    var a := ReleaseIsEarned(sys, ev, i, b);
  }

  /** A configured guest's latch opens only on mains being back. */
  lemma GuestReleased(sys: seq<System>, ev: seq<Event>, b: nat, h: nat, id: int)
    requires IsRun(sys, ev) && b < |ev| && h < MAX_HOSTS && Configured(sys[b + 1].rules[h], id)
    requires Latched(sys[b].eng.hosts[h].latches, id) && !Latched(sys[b + 1].eng.hosts[h].latches, id)
    ensures ev[b].Observe? && sys[b].cfg.enabled && MainsBack(sys[b].cfg.mainsBackMin, sys[b + 1].eng.edges, ev[b].now)
  {
    var s, e := sys[b], ev[b];
    RunAt(sys, ev, b, h);
    if e.Reconfigure? {
      LatchedAfterSync(s.eng.hosts[h].latches, e.rules[h], id);
      assert false;
    }
    var edges := sys[b + 1].eng.edges;
    LatchedAfterStep(s.cfg.hosts[h], s.rules[h], s.eng.hosts[h],
                     MainsBack(s.cfg.mainsBackMin, edges, e.now), edges, e.obs, e.now, id);
  }

  /** With no re-arm time set, a host fires at most once in a whole run. */
  lemma NoRearmFiresAtMostOnce(sys: seq<System>, ev: seq<Event>, i: nat, j: nat, h: nat)
    requires IsRun(sys, ev) && Booted(sys[0]) && i < |ev| && j < |ev| && h < MAX_HOSTS
    requires forall m | 0 <= m < |sys| :: sys[m].cfg.mainsBackMin == 0
    requires HostFires(sys[i], ev[i], h) && HostFires(sys[j], ev[j], h)
    ensures i == j
  {
    if i < j {
      HostFiresOnce(sys, ev, i, j, h);
    } else if j < i {
      HostFiresOnce(sys, ev, j, i, h);
    }
  }

  /** Nor does a guest, while it stays configured. */
  lemma NoRearmGuestFiresAtMostOnce(sys: seq<System>, ev: seq<Event>, i: nat, j: nat, h: nat, id: int)
    requires IsRun(sys, ev) && Booted(sys[0]) && i < |ev| && j < |ev| && h < MAX_HOSTS
    requires forall m | 0 <= m < |sys| :: sys[m].cfg.mainsBackMin == 0 && Configured(sys[m].rules[h], id)
    requires GuestFires(sys[i], ev[i], h, id) && GuestFires(sys[j], ev[j], h, id)
    ensures i == j
  {
    if i < j {
      GuestFiresOnce(sys, ev, i, j, h, id);
    } else if j < i {
      GuestFiresOnce(sys, ev, j, i, h, id);
    }
  }
}
