/**
 Laws of the shutdown engine that relate hosts, guests, rule edits and the
 countdowns shown to the user, over whole runs.
 */
module PveLaws {
  import opened PveEngine
  import opened PveRuns

  // ---------------------------------------------------------------------
  // The guest states stay matched to the configured rules
  // ---------------------------------------------------------------------

  predicate Matches(latches: seq<Latch>, rules: seq<GuestRule>)
  {
    |latches| == |rules| && forall k | 0 <= k < |rules| :: latches[k].id == rules[k].id
  }

  ghost predicate InSync(s: System)
    requires Ok(s)
  {
    forall h | 0 <= h < MAX_HOSTS :: Matches(s.eng.hosts[h].latches, s.rules[h])
  }

  lemma {:induction false} AlwaysInSync(sys: seq<System>, ev: seq<Event>, n: nat)
    requires IsRun(sys, ev) && Booted(sys[0]) && n <= |ev|
    ensures InSync(sys[n])
  {
    if n > 0 {
      AlwaysInSync(sys, ev, n - 1);
      forall h | 0 <= h < MAX_HOSTS ensures Matches(sys[n].eng.hosts[h].latches, sys[n].rules[h]) {
        RunAt(sys, ev, n - 1, h);
      }
    }
  }

  lemma TrackedIffConfigured(latches: seq<Latch>, rules: seq<GuestRule>, id: int)
    requires Matches(latches, rules)
    ensures Find(latches, id) >= 0 <==> Configured(rules, id)
  {
  }

  // ---------------------------------------------------------------------
  // A node that goes takes its guests with it
  // ---------------------------------------------------------------------

  /** Every guest configured on a latched host is latched itself. */
  ghost predicate SweptUp(s: System)
    requires Ok(s)
  {
    forall h, id | 0 <= h < MAX_HOSTS && s.eng.hosts[h].fired && Configured(s.rules[h], id) ::
      Latched(s.eng.hosts[h].latches, id)
  }

  lemma ObserveKeepsSweep(s: System, e: Event)
    requires Ok(s) && EventOk(e) && InSync(s) && SweptUp(s) && e.Observe?
    ensures SweptUp(Step(s, e))
  {
    var t := Step(s, e);
    forall h, id | 0 <= h < MAX_HOSTS && t.eng.hosts[h].fired && Configured(t.rules[h], id)
      ensures Latched(t.eng.hosts[h].latches, id)
    {
      StepAt(s, e, h);
      if s.cfg.enabled {
        var edges := t.eng.edges;
        LatchedAfterStep(s.cfg.hosts[h], s.rules[h], s.eng.hosts[h],
                         MainsBack(s.cfg.mainsBackMin, edges, e.now), edges, e.obs, e.now, id);
        TrackedIffConfigured(s.eng.hosts[h].latches, s.rules[h], id);
      }
    }
  }

  /** The edit adds no guest to a host that has already fired. */
  ghost predicate SparesLatched(s: System, rules: seq<seq<GuestRule>>)
    requires Ok(s) && |rules| == MAX_HOSTS
  {
    forall h, id | 0 <= h < MAX_HOSTS && s.eng.hosts[h].fired && Configured(rules[h], id) ::
      Configured(s.rules[h], id)
  }

  /** A rule edit keeps the guarantee exactly when it adds no guest to a latched host. */
  lemma EditKeepsSweepIff(s: System, e: Event)
    requires Ok(s) && EventOk(e) && InSync(s) && SweptUp(s) && e.Reconfigure?
    ensures SweptUp(Step(s, e)) <==> SparesLatched(s, e.rules)
  {
    var t := Step(s, e);
    forall h, id | 0 <= h < MAX_HOSTS
      ensures t.eng.hosts[h].fired == s.eng.hosts[h].fired
      ensures Latched(t.eng.hosts[h].latches, id) <==>
                Configured(e.rules[h], id) && Latched(s.eng.hosts[h].latches, id)
      ensures Latched(s.eng.hosts[h].latches, id) ==> Configured(s.rules[h], id)
    {
      StepAt(s, e, h);
      LatchedAfterSync(s.eng.hosts[h].latches, e.rules[h], id);
      TrackedIffConfigured(s.eng.hosts[h].latches, s.rules[h], id);
    }
    if SweptUp(t) {
      forall h, id | 0 <= h < MAX_HOSTS && s.eng.hosts[h].fired && Configured(e.rules[h], id)
        ensures Configured(s.rules[h], id)
      {
        assert Latched(t.eng.hosts[h].latches, id);
      }
    }
  }

  /** One observation fires host `h`; an edit then gives it a guest more, which is left running. */
  lemma LateGuestIsLeftBehind(s: System, h: nat, obs: Obs, now: int, late: GuestRule) returns (sys: seq<System>, ev: seq<Event>)
    requires Booted(s) && h < MAX_HOSTS && s.cfg.enabled && s.cfg.hosts[h].enabled && ChargeDue(s.cfg.hosts[h].trigger, obs)
    requires !Configured(s.rules[h], late.id)
    ensures IsRun(sys, ev) && sys[0] == s && ev == [Observe(obs, now), Reconfigure(s.cfg, s.rules[h := s.rules[h] + [late]])]
    ensures var t := sys[2];
            && t.eng.hosts[h].fired && Configured(t.rules[h], late.id) && !Latched(t.eng.hosts[h].latches, late.id)
            && !SweptUp(t)
  {
    var rules := s.rules[h := s.rules[h] + [late]];
    ev := [Observe(obs, now), Reconfigure(s.cfg, rules)];
    var t := Step(s, ev[0]);
    sys := [s, t, Step(t, ev[1])];
    assert Follows(sys, ev, 0) && Follows(sys, ev, 1);
    StepAt(s, ev[0], h);
    StepAt(t, ev[1], h);
    LateRule(s.rules[h], late);
    NotTracked(s, ev[0], h, late.id);
    LatchedAfterSync(t.eng.hosts[h].latches, rules[h], late.id);
  }

  lemma LateRule(rules: seq<GuestRule>, late: GuestRule)
    ensures Configured(rules + [late], late.id)
  {
    assert (rules + [late])[|rules|] == late;
  }

  /** A guest not configured is not latched, at the first step. */
  lemma NotTracked(s: System, e: Event, h: nat, id: int)
    requires Booted(s) && h < MAX_HOSTS && e.Observe? && !Configured(s.rules[h], id)
    ensures !Latched(Step(s, e).eng.hosts[h].latches, id)
  {
    StepAt(s, e, h);
    TrackedIffConfigured(s.eng.hosts[h].latches, s.rules[h], id);
    SameIdsSameFind(s.eng.hosts[h].latches, Step(s, e).eng.hosts[h].latches, id);
  }

  ghost predicate EditsSpareLatched(sys: seq<System>, ev: seq<Event>, n: nat)
    requires IsRun(sys, ev) && n <= |ev|
  {
    forall i | 0 <= i < n && ev[i].Reconfigure? :: SparesLatched(sys[i], ev[i].rules)
  }

  lemma {:induction false} AlwaysSweptUp(sys: seq<System>, ev: seq<Event>, n: nat)
    requires IsRun(sys, ev) && Booted(sys[0]) && n <= |ev|
    requires EditsSpareLatched(sys, ev, n)
    ensures SweptUp(sys[n])
  {
    if n > 0 {
      AlwaysSweptUp(sys, ev, n - 1);
      AlwaysInSync(sys, ev, n - 1);
      RunAt(sys, ev, n - 1, 0);
      if ev[n - 1].Observe? {
        ObserveKeepsSweep(sys[n - 1], ev[n - 1]);
      } else {
        EditKeepsSweepIff(sys[n - 1], ev[n - 1]);
      }
    }
  }

  // ---------------------------------------------------------------------
  // Countdowns
  // ---------------------------------------------------------------------

  /** The countdown is read at time `now` just before event `m`; the settings do not change after that. */
  ghost predicate ReadAt(sys: seq<System>, ev: seq<Event>, m: nat, now: int)
    requires IsRun(sys, ev) && m <= |ev|
  {
    && Booted(sys[0])
    && (forall j | 0 <= j < m && ev[j].Observe? :: ev[j].now <= now)
    && (forall j | m <= j < |ev| :: ev[j].Observe? && now <= ev[j].now)
  }

  ghost predicate StaysOffMains(ev: seq<Event>, m: nat, i: nat)
    requires m <= i <= |ev|
  {
    forall j | m <= j < i :: ev[j].Observe? && !ev[j].obs.power.Line?
  }

  lemma {:induction false} SameSettings(sys: seq<System>, ev: seq<Event>, m: nat, i: nat)
    requires IsRun(sys, ev) && m <= i <= |ev|
    requires forall j | m <= j < i :: ev[j].Observe?
    ensures sys[i].cfg == sys[m].cfg && sys[i].rules == sys[m].rules
  {
    if m < i {
      SameSettings(sys, ev, m, i - 1);
      RunAt(sys, ev, i - 1, 0);
    }
  }

  /** With `n` seconds showing on a running timer, that timer is not due before `n` seconds have passed. */
  lemma TimerNotEarly(sys: seq<System>, ev: seq<Event>, m: nat, now: int, t: Trigger, i: nat)
    requires IsRun(sys, ev) && m <= i < |ev| && ReadAt(sys, ev, m, now)
    requires sys[m].eng.edges.onBattery
    requires ev[i].now < now + Seconds(SecondsLeft(t, sys[m].eng.edges, now))
    ensures !TimerDue(t, sys[i + 1].eng.edges, ev[i].now)
  {
    OutageIsHistory(sys, ev, m);
    OutageIsHistory(sys, ev, i + 1);
    if sys[i + 1].eng.edges.onBattery {
      var k0: nat :| OutageEdge(sys, ev, m, k0);
      var k: nat :| OutageEdge(sys, ev, i + 1, k);
      if k < m {
        assert OutageEdge(sys, ev, m, k);
      }
    }
  }

  /** Off the mains, an outage keeps its edge and no latch is released. */
  lemma {:induction false} OutageHolds(sys: seq<System>, ev: seq<Event>, m: nat, i: nat, h: nat, id: int)
    requires IsRun(sys, ev) && m <= i <= |ev| && h < MAX_HOSTS && StaysOffMains(ev, m, i)
    requires sys[m].cfg.enabled && sys[m].eng.edges.onBattery
    ensures sys[i].cfg == sys[m].cfg && sys[i].rules == sys[m].rules
    ensures sys[i].eng.edges.onBattery && sys[i].eng.edges.onBatterySince == sys[m].eng.edges.onBatterySince
    ensures sys[m].eng.hosts[h].fired ==> sys[i].eng.hosts[h].fired
    ensures Latched(sys[m].eng.hosts[h].latches, id) ==> Latched(sys[i].eng.hosts[h].latches, id)
  {
    if m < i {
      OutageHolds(sys, ev, m, i - 1, h, id);
      RunAt(sys, ev, i - 1, h);
      var s, e, edges := sys[i - 1], ev[i - 1], sys[i].eng.edges;
      LatchedAfterStep(s.cfg.hosts[h], s.rules[h], s.eng.hosts[h],
                       MainsBack(s.cfg.mainsBackMin, edges, e.now), edges, e.obs, e.now, id);
    }
  }

  /** A host showing `n` seconds cannot fire on its timer for `n` seconds. */
  lemma HostCountdownNotEarly(sys: seq<System>, ev: seq<Event>, m: nat, now: int, h: nat, i: nat)
    requires IsRun(sys, ev) && m <= i < |ev| && h < MAX_HOSTS && ReadAt(sys, ev, m, now)
    requires var n := CountdownS(sys[m].cfg, sys[m].eng, h, now);
             n >= 0 && ev[i].now < now + Seconds(n)
    ensures HostFires(sys[i], ev[i], h) ==> ChargeDue(sys[i].cfg.hosts[h].trigger, ev[i].obs)
  {
    SameSettings(sys, ev, m, i);
    TimerNotEarly(sys, ev, m, now, sys[m].cfg.hosts[h].trigger, i);
    RunAt(sys, ev, i, h);
  }

  /** ...and is down by the first evaluation more than `n` seconds later, if the mains have not come back. */
  lemma HostCountdownCertain(sys: seq<System>, ev: seq<Event>, m: nat, now: int, h: nat, i: nat)
    requires IsRun(sys, ev) && m <= i < |ev| && h < MAX_HOSTS
    requires StaysOffMains(ev, m, i + 1)
    requires var n := CountdownS(sys[m].cfg, sys[m].eng, h, now);
             n >= 0 && ev[i].now >= now + Seconds(n + 1)
    ensures sys[i + 1].eng.hosts[h].fired
  {
    OutageHolds(sys, ev, m, i, h, 0);
    RunAt(sys, ev, i, h);
  }

  /** The same for a guest's own countdown: its own rule is not due early... */
  lemma GuestCountdownNotEarly(sys: seq<System>, ev: seq<Event>, m: nat, now: int, h: nat, id: int, i: nat)
    requires IsRun(sys, ev) && m <= i < |ev| && h < MAX_HOSTS && ReadAt(sys, ev, m, now)
    requires forall a, b | 0 <= a < b < |sys[m].rules[h]| :: sys[m].rules[h][a].id != sys[m].rules[h][b].id
    requires var n := GuestCountdownS(sys[m].cfg, sys[m].eng, sys[m].rules[h], h, id, now);
             n >= 0 && ev[i].now < now + Seconds(n)
    ensures GuestFires(sys[i], ev[i], h, id) ==>
              || TriggerMet(sys[i].cfg.hosts[h].trigger, sys[i + 1].eng.edges, ev[i].obs, ev[i].now)
              || exists r | 0 <= r < |sys[i].rules[h]| ::
                   sys[i].rules[h][r].id == id && ChargeDue(sys[i].rules[h][r].trigger, ev[i].obs)
  {
    var rules := sys[m].rules[h];
    var g := FindRule(rules, id, 0);
    SameSettings(sys, ev, m, i);
    TimerNotEarly(sys, ev, m, now, rules[g].trigger, i);
    RunAt(sys, ev, i, h);
    if sys[i].cfg.enabled {
      var s, e, edges := sys[i], ev[i], sys[i + 1].eng.edges;
      LatchedAfterStep(s.cfg.hosts[h], s.rules[h], s.eng.hosts[h],
                       MainsBack(s.cfg.mainsBackMin, edges, e.now), edges, e.obs, e.now, id);
    }
  }

  /** ...and it is down by then, on its own account or with its node: no latched node leaves it behind. */
  lemma GuestCountdownCertain(sys: seq<System>, ev: seq<Event>, m: nat, now: int, h: nat, id: int, i: nat)
    requires IsRun(sys, ev) && Booted(sys[0]) && m <= i < |ev| && h < MAX_HOSTS
    requires StaysOffMains(ev, m, i + 1) && EditsSpareLatched(sys, ev, m)
    requires var n := GuestCountdownS(sys[m].cfg, sys[m].eng, sys[m].rules[h], h, id, now);
             n >= 0 && ev[i].now >= now + Seconds(n + 1)
    ensures Latched(sys[i + 1].eng.hosts[h].latches, id)
  {
    var g := FindRule(sys[m].rules[h], id, 0);
    OutageHolds(sys, ev, m, i, h, id);
    RunAt(sys, ev, i, h);
    AlwaysSweptUp(sys, ev, i);
    AlwaysInSync(sys, ev, i);
    var s, e, edges := sys[i], ev[i], sys[i + 1].eng.edges;
    TrackedIffConfigured(s.eng.hosts[h].latches, s.rules[h], id);
    LatchedAfterStep(s.cfg.hosts[h], s.rules[h], s.eng.hosts[h],
                     MainsBack(s.cfg.mainsBackMin, edges, e.now), edges, e.obs, e.now, id);
    assert s.rules[h][g].id == id && TimerDue(s.rules[h][g].trigger, edges, e.now);
  }

  // ---------------------------------------------------------------------
  // Hosts on their own, and hosts compared
  // ---------------------------------------------------------------------

  /** Two systems agree on everything host `h` depends on. */
  ghost predicate AgreeOn(s: System, t: System, h: nat)
    requires Ok(s) && Ok(t) && h < MAX_HOSTS
  {
    && s.cfg.enabled == t.cfg.enabled && s.cfg.mainsBackMin == t.cfg.mainsBackMin
    && s.cfg.hosts[h] == t.cfg.hosts[h] && s.rules[h] == t.rules[h]
    && s.eng.edges == t.eng.edges && s.eng.hosts[h] == t.eng.hosts[h]
  }

  ghost predicate SameNewsFor(e: Event, f: Event, h: nat)
    requires EventOk(e) && EventOk(f) && h < MAX_HOSTS
  {
    match e
    case Observe(_, _) => e == f
    case Reconfigure(cfg, rules) =>
      && f.Reconfigure?
      && cfg.enabled == f.cfg.enabled && cfg.mainsBackMin == f.cfg.mainsBackMin
      && cfg.hosts[h] == f.cfg.hosts[h] && rules[h] == f.rules[h]
  }

  /** Whatever is done to the other hosts' settings and guests, host `h` lives the same run. */
  lemma {:induction false} HostsDoNotInterfere(sys: seq<System>, ev: seq<Event>, sys': seq<System>, ev': seq<Event>,
                                               h: nat, n: nat)
    requires IsRun(sys, ev) && IsRun(sys', ev') && |ev| == |ev'| && h < MAX_HOSTS && n <= |ev|
    requires AgreeOn(sys[0], sys'[0], h)
    requires forall i | 0 <= i < |ev| :: SameNewsFor(ev[i], ev'[i], h)
    ensures AgreeOn(sys[n], sys'[n], h)
    ensures n < |ev| ==> (HostFires(sys[n], ev[n], h) <==> HostFires(sys'[n], ev'[n], h))
  {
    if n > 0 {
      HostsDoNotInterfere(sys, ev, sys', ev', h, n - 1);
      RunAt(sys, ev, n - 1, h);
      RunAt(sys', ev', n - 1, h);
    }
    if n < |ev| {
      StepAt(sys[n], ev[n], h);
      StepAt(sys'[n], ev'[n], h);
    }
  }

  /** Whenever `b` would fire, `a` would too. */
  predicate Dominates(a: HostRule, b: HostRule)
  {
    && (b.enabled ==> a.enabled)
    && (b.trigger.onBatteryMin > 0 ==> 0 < a.trigger.onBatteryMin <= b.trigger.onBatteryMin)
    && b.trigger.chargePct <= a.trigger.chargePct
  }

  /** A host set to go earlier is never outlived: if the later one is down, so is the earlier. */
  lemma {:induction false} DominantGoesFirst(sys: seq<System>, ev: seq<Event>, n: nat, a: nat, b: nat)
    requires IsRun(sys, ev) && Booted(sys[0]) && n <= |ev| && a < MAX_HOSTS && b < MAX_HOSTS
    requires forall i | 0 <= i <= n :: Dominates(sys[i].cfg.hosts[a], sys[i].cfg.hosts[b])
    ensures sys[n].eng.hosts[b].fired ==> sys[n].eng.hosts[a].fired
  {
    if n > 0 {
      DominantGoesFirst(sys, ev, n - 1, a, b);
      assert Dominates(sys[n - 1].cfg.hosts[a], sys[n - 1].cfg.hosts[b]);
      DominantStep(sys[n - 1], ev[n - 1], a, b);
      RunAt(sys, ev, n - 1, a);
    }
  }

  lemma DominantStep(s: System, e: Event, a: nat, b: nat)
    requires Ok(s) && EventOk(e) && a < MAX_HOSTS && b < MAX_HOSTS && Dominates(s.cfg.hosts[a], s.cfg.hosts[b])
    requires s.eng.hosts[b].fired ==> s.eng.hosts[a].fired
    ensures Step(s, e).eng.hosts[b].fired ==> Step(s, e).eng.hosts[a].fired
  {
    StepAt(s, e, a);
    StepAt(s, e, b);
  }

  // ---------------------------------------------------------------------
  // Latches follow ids
  // ---------------------------------------------------------------------

  ghost predicate SameRules(p: seq<GuestRule>, q: seq<GuestRule>)
  {
    forall r :: r in p <==> r in q
  }

  lemma SameRulesSameDue(p: seq<GuestRule>, q: seq<GuestRule>, id: int, hostDue: bool, e: Edges, obs: Obs, now: int)
    requires SameRules(p, q)
    ensures RuleDue(p, id, hostDue, e, obs, now) <==> RuleDue(q, id, hostDue, e, obs, now)
    ensures Configured(p, id) <==> Configured(q, id)
  {
    assert forall k | 0 <= k < |p| :: p[k] in q;
    assert forall k | 0 <= k < |q| :: q[k] in p;
  }

  /** Same settings and latches by id; the rule lists may be ordered differently. */
  ghost predicate SameById(s: System, t: System)
    requires Ok(s) && Ok(t)
  {
    && s.cfg == t.cfg && s.eng.edges == t.eng.edges
    && forall h | 0 <= h < MAX_HOSTS ::
         && SameRules(s.rules[h], t.rules[h])
         && s.eng.hosts[h].fired == t.eng.hosts[h].fired
         && forall id :: Latched(s.eng.hosts[h].latches, id) <==> Latched(t.eng.hosts[h].latches, id)
  }

  ghost predicate SameNewsById(e: Event, f: Event)
    requires EventOk(e) && EventOk(f)
  {
    match e
    case Observe(_, _) => e == f
    case Reconfigure(cfg, rules) =>
      f.Reconfigure? && cfg == f.cfg && forall h | 0 <= h < MAX_HOSTS :: SameRules(rules[h], f.rules[h])
  }

  /** However a host's rules are ordered, every id is latched in the one run iff in the other. */
  lemma {:induction false} OrderDoesNotMatter(sys: seq<System>, ev: seq<Event>, sys': seq<System>, ev': seq<Event>, n: nat)
    requires IsRun(sys, ev) && IsRun(sys', ev') && |ev| == |ev'| && n <= |ev|
    requires Booted(sys[0]) && Booted(sys'[0]) && SameById(sys[0], sys'[0])
    requires forall i | 0 <= i < |ev| :: SameNewsById(ev[i], ev'[i])
    ensures SameById(sys[n], sys'[n])
  {
    if n > 0 {
      OrderDoesNotMatter(sys, ev, sys', ev', n - 1);
      AlwaysInSync(sys, ev, n - 1);
      AlwaysInSync(sys', ev', n - 1);
      RunAt(sys, ev, n - 1, 0);
      RunAt(sys', ev', n - 1, 0);
      assert SameNewsById(ev[n - 1], ev'[n - 1]);
      SameByIdAfter(sys[n - 1], sys'[n - 1], ev[n - 1], ev'[n - 1]);
    }
  }

  lemma SameByIdAfter(s: System, s': System, e: Event, e': Event)
    requires Ok(s) && Ok(s') && EventOk(e) && EventOk(e')
    requires InSync(s) && InSync(s') && SameById(s, s') && SameNewsById(e, e')
    ensures SameById(Step(s, e), Step(s', e'))
  {
    var t, t' := Step(s, e), Step(s', e');
    forall h | 0 <= h < MAX_HOSTS
      ensures SameRules(t.rules[h], t'.rules[h])
      ensures t.eng.hosts[h].fired == t'.eng.hosts[h].fired
    {
      StepAt(s, e, h);
      StepAt(s', e', h);
    }
    forall h, id | 0 <= h < MAX_HOSTS
      ensures Latched(t.eng.hosts[h].latches, id) <==> Latched(t'.eng.hosts[h].latches, id)
    {
      SameLatchAfter(s, s', e, e', h, id);
    }
  }

  lemma SameLatchAfter(s: System, s': System, e: Event, e': Event, h: nat, id: int)
    requires Ok(s) && Ok(s') && EventOk(e) && EventOk(e') && h < MAX_HOSTS
    requires InSync(s) && InSync(s') && SameById(s, s') && SameNewsById(e, e')
    ensures Latched(Step(s, e).eng.hosts[h].latches, id) <==> Latched(Step(s', e').eng.hosts[h].latches, id)
  {
    var l, l' := s.eng.hosts[h].latches, s'.eng.hosts[h].latches;
    StepAt(s, e, h);
    StepAt(s', e', h);
    if e.Reconfigure? {
      LatchedAfterSync(l, e.rules[h], id);
      LatchedAfterSync(l', e'.rules[h], id);
      SameRulesSameDue(e.rules[h], e'.rules[h], id, true, s.eng.edges, Obs(Unknown, -1), 0);
    } else if s.cfg.enabled {
      var edges := Step(s, e).eng.edges;
      var back := MainsBack(s.cfg.mainsBackMin, edges, e.now);
      LatchedAfterStep(s.cfg.hosts[h], s.rules[h], s.eng.hosts[h], back, edges, e.obs, e.now, id);
      LatchedAfterStep(s'.cfg.hosts[h], s'.rules[h], s'.eng.hosts[h], back, edges, e.obs, e.now, id);
      TrackedIffConfigured(l, s.rules[h], id);
      TrackedIffConfigured(l', s'.rules[h], id);
      SameRulesSameDue(s.rules[h], s'.rules[h], id, TriggerMet(s.cfg.hosts[h].trigger, edges, e.obs, e.now),
                       edges, e.obs, e.now);
    }
  }
}
