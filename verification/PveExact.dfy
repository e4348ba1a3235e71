/**
 When exactly the engine fires and releases, and what exactly its countdowns show, over
 whole runs: in terms of the readings taken and the settings, with every limit in microseconds.
 */
module PveExact {
  import opened PveEngine
  import opened PveRuns
  import opened PveLaws

  /** A trigger is met exactly when it is justified by the readings so far. */
  lemma MetIffJustified(sys: seq<System>, ev: seq<Event>, i: nat, t: Trigger)
    requires IsRun(sys, ev) && Booted(sys[0]) && i < |ev| && ev[i].Observe? && sys[i].cfg.enabled
    ensures TriggerMet(t, sys[i + 1].eng.edges, ev[i].obs, ev[i].now) <==> Justified(sys, ev, i, t)
  {
    OutageIsHistory(sys, ev, i + 1);
    RunAt(sys, ev, i, 0);
  }

  // ---------------------------------------------------------------------
  // Fires
  // ---------------------------------------------------------------------

  /**
   A host fires exactly when, with feature and host enabled and its latch open, its time on battery is up
   or a BATTERY reading shows a charge at or below its limit.
   */
  lemma HostFiresIff(sys: seq<System>, ev: seq<Event>, i: nat, h: nat)
    requires IsRun(sys, ev) && Booted(sys[0]) && i < |ev| && h < MAX_HOSTS
    ensures HostFires(sys[i], ev[i], h) <==>
              && ev[i].Observe? && sys[i].cfg.enabled && sys[i].cfg.hosts[h].enabled && !sys[i].eng.hosts[h].fired
              && Justified(sys, ev, i, sys[i].cfg.hosts[h].trigger)
  {
    RunAt(sys, ev, i, h);
    if ev[i].Observe? && sys[i].cfg.enabled {
      MetIffJustified(sys, ev, i, sys[i].cfg.hosts[h].trigger);
    }
  }

  /** Some rule for the guest is justified, or its node's trigger is. */
  ghost predicate GuestJustified(sys: seq<System>, ev: seq<Event>, i: nat, h: nat, id: int)
    requires IsRun(sys, ev) && i < |ev| && ev[i].Observe? && h < MAX_HOSTS
  {
    exists r | 0 <= r < |sys[i].rules[h]| ::
      && sys[i].rules[h][r].id == id
      && (Justified(sys, ev, i, sys[i].cfg.hosts[h].trigger) || Justified(sys, ev, i, sys[i].rules[h][r].trigger))
  }

  lemma DueIffJustified(sys: seq<System>, ev: seq<Event>, i: nat, h: nat, id: int)
    requires IsRun(sys, ev) && Booted(sys[0]) && i < |ev| && h < MAX_HOSTS && ev[i].Observe? && sys[i].cfg.enabled
    ensures var edges, t := sys[i + 1].eng.edges, sys[i].cfg.hosts[h].trigger;
            RuleDue(sys[i].rules[h], id, TriggerMet(t, edges, ev[i].obs, ev[i].now), edges, ev[i].obs, ev[i].now)
            <==> GuestJustified(sys, ev, i, h, id)
  {
    var rules := sys[i].rules[h];
    MetIffJustified(sys, ev, i, sys[i].cfg.hosts[h].trigger);
    forall r | 0 <= r < |rules|
      ensures TriggerMet(rules[r].trigger, sys[i + 1].eng.edges, ev[i].obs, ev[i].now) <==> Justified(sys, ev, i, rules[r].trigger)
    {
      MetIffJustified(sys, ev, i, rules[r].trigger);
    }
  }

  /** What one observation with the feature enabled makes of a guest's latch. */
  lemma GuestAfter(sys: seq<System>, ev: seq<Event>, i: nat, h: nat, id: int)
    requires IsRun(sys, ev) && Booted(sys[0]) && i < |ev| && h < MAX_HOSTS && ev[i].Observe? && sys[i].cfg.enabled
    ensures var s, back := sys[i], MainsBack(sys[i].cfg.mainsBackMin, sys[i + 1].eng.edges, ev[i].now);
            Latched(sys[i + 1].eng.hosts[h].latches, id) <==>
              || (Latched(s.eng.hosts[h].latches, id) && !back)
              || (s.cfg.hosts[h].enabled && !s.eng.hosts[h].fired && GuestJustified(sys, ev, i, h, id))
  {
    var s, e, edges := sys[i], ev[i], sys[i + 1].eng.edges;
    RunAt(sys, ev, i, h);
    AlwaysInSync(sys, ev, i);
    TrackedIffConfigured(s.eng.hosts[h].latches, s.rules[h], id);
    DueIffJustified(sys, ev, i, h, id);
    LatchedAfterStep(s.cfg.hosts[h], s.rules[h], s.eng.hosts[h],
                     MainsBack(s.cfg.mainsBackMin, edges, e.now), edges, e.obs, e.now, id);
  }

  /** A guest fires exactly when, on an enabled host not yet fired, one of its rules or the node's trigger is justified. */
  lemma GuestFiresIff(sys: seq<System>, ev: seq<Event>, i: nat, h: nat, id: int)
    requires IsRun(sys, ev) && Booted(sys[0]) && i < |ev| && h < MAX_HOSTS
    ensures GuestFires(sys[i], ev[i], h, id) <==>
              && ev[i].Observe? && sys[i].cfg.enabled && sys[i].cfg.hosts[h].enabled && !sys[i].eng.hosts[h].fired
              && !Latched(sys[i].eng.hosts[h].latches, id) && GuestJustified(sys, ev, i, h, id)
  {
    RunAt(sys, ev, i, h);
    if ev[i].Reconfigure? {
      LatchedAfterSync(sys[i].eng.hosts[h].latches, ev[i].rules[h], id);
    } else if sys[i].cfg.enabled {
      GuestAfter(sys, ev, i, h, id);
    }
  }

  // ---------------------------------------------------------------------
  // Releases
  // ---------------------------------------------------------------------

  /** Readings carry the time of a clock that does not go back. */
  ghost predicate Monotone(ev: seq<Event>)
  {
    forall a: nat, b: nat | a < b < |ev| && ev[a].Observe? && ev[b].Observe? :: ev[a].now <= ev[b].now
  }

  lemma StretchIsUnbroken(sys: seq<System>, ev: seq<Event>, a: nat, i: nat)
    requires |sys| == |ev| + 1 && i < |ev| && ev[i].Observe?
    ensures LineStretch(sys, ev, a, i) <==> Unbroken(sys, ev, a, i + 1)
  {
  }

  /** The mains count as back exactly when LINE readings have gone on for the re-arm time, from the first of them. */
  lemma BackIffRearmed(sys: seq<System>, ev: seq<Event>, i: nat)
    requires IsRun(sys, ev) && Booted(sys[0]) && i < |ev| && ev[i].Observe? && sys[i].cfg.enabled
    ensures MainsBack(sys[i].cfg.mainsBackMin, sys[i + 1].eng.edges, ev[i].now) <==> RearmedAt(sys, ev, i)
    ensures Monotone(ev) ==> (RearmedAt(sys, ev, i) <==> exists a: nat :: Rearms(sys, ev, a, i))
  {
    var n := i + 1;
    var first := MainsIsHistory(sys, ev, n);
    RunAt(sys, ev, i, 0);
    forall a: nat ensures LineStretch(sys, ev, a, i) <==> Unbroken(sys, ev, a, n) {
      StretchIsUnbroken(sys, ev, a, i);
    }
    forall a: nat | MainsEdge(sys, ev, n, a) ensures a == first {
      assert Unbroken(sys, ev, a, n);
    }
    if Monotone(ev) {
      forall a: nat | Rearms(sys, ev, a, i) ensures RearmedAt(sys, ev, i) {
        assert Unbroken(sys, ev, a, n) && MainsEdge(sys, ev, n, first);
      }
    }
  }

  /** The stretch of LINE readings going on at `i`, counted from its first, is long enough to re-arm. */
  ghost predicate RearmedAt(sys: seq<System>, ev: seq<Event>, i: nat)
    requires |sys| == |ev| + 1 && i < |ev|
  {
    var n := i + 1;
    exists a: nat :: MainsEdge(sys, ev, n, a) && Rearms(sys, ev, a, i)
  }

  /** A host's latch opens exactly when the mains have been back for the re-arm time. */
  lemma HostReleasedIff(sys: seq<System>, ev: seq<Event>, i: nat, h: nat)
    requires IsRun(sys, ev) && Booted(sys[0]) && i < |ev| && h < MAX_HOSTS && ev[i].Observe? && sys[i].cfg.enabled
    requires sys[i].eng.hosts[h].fired
    ensures !sys[i + 1].eng.hosts[h].fired <==> RearmedAt(sys, ev, i)
    ensures Monotone(ev) ==> (!sys[i + 1].eng.hosts[h].fired <==> exists a: nat :: Rearms(sys, ev, a, i))
  {
    RunAt(sys, ev, i, h);
    BackIffRearmed(sys, ev, i);
  }

  /** And so does the latch of a configured guest. */
  lemma GuestReleasedIff(sys: seq<System>, ev: seq<Event>, i: nat, h: nat, id: int)
    requires IsRun(sys, ev) && Booted(sys[0]) && i < |ev| && h < MAX_HOSTS && ev[i].Observe? && sys[i].cfg.enabled
    requires Latched(sys[i].eng.hosts[h].latches, id)
    ensures !Latched(sys[i + 1].eng.hosts[h].latches, id) <==> RearmedAt(sys, ev, i)
    ensures Monotone(ev) ==> (!Latched(sys[i + 1].eng.hosts[h].latches, id) <==> exists a: nat :: Rearms(sys, ev, a, i))
  {
    GuestAfter(sys, ev, i, h, id);
    BackIffRearmed(sys, ev, i);
    if RearmedAt(sys, ev, i) && GuestJustified(sys, ev, i, h, id) {
      DueIffJustified(sys, ev, i, h, id);
      RunAt(sys, ev, i, h);
      assert false;
    }
  }

  /** Between readings nothing opens a latch but the removal of the guest itself. */
  lemma EditReleasesIff(sys: seq<System>, ev: seq<Event>, i: nat, h: nat, id: int)
    requires IsRun(sys, ev) && i < |ev| && h < MAX_HOSTS && (ev[i].Reconfigure? || !sys[i].cfg.enabled)
    ensures sys[i + 1].eng.hosts[h].fired == sys[i].eng.hosts[h].fired
    ensures Latched(sys[i].eng.hosts[h].latches, id) ==>
              (!Latched(sys[i + 1].eng.hosts[h].latches, id) <==> ev[i].Reconfigure? && !Configured(ev[i].rules[h], id))
  {
    RunAt(sys, ev, i, h);
    if ev[i].Reconfigure? {
      LatchedAfterSync(sys[i].eng.hosts[h].latches, ev[i].rules[h], id);
    }
  }

  // ---------------------------------------------------------------------
  // Countdowns
  // ---------------------------------------------------------------------

  /** `n` is the whole seconds from `now` to `due`, none if that is past. */
  predicate WholeSeconds(n: int, due: int, now: int)
  {
    if due > now then n * 1_000_000 <= due - now < (n + 1) * 1_000_000 else n == 0
  }

  lemma SecondsAreWhole(t: Trigger, e: Edges, now: int)
    ensures WholeSeconds(SecondsLeft(t, e, now), e.onBatterySince + 60_000_000 * t.onBatteryMin, now)
  {
  }

  /** A host shows a countdown exactly while a timer of its own is running, and then the time left to its limit. */
  lemma HostCountdownIff(sys: seq<System>, ev: seq<Event>, n: nat, h: int, now: int)
    requires IsRun(sys, ev) && Booted(sys[0]) && n <= |ev|
    ensures var s, left := sys[n], CountdownS(sys[n].cfg, sys[n].eng, h, now);
            && left >= -1
            && (left >= 0 <==>
                  && 0 <= h < 4 && s.cfg.enabled && s.cfg.hosts[h].enabled && s.cfg.hosts[h].trigger.onBatteryMin > 0
                  && !s.eng.hosts[h].fired && exists k: nat :: OutageEdge(sys, ev, n, k))
            && forall k: nat | left >= 0 && OutageEdge(sys, ev, n, k) ::
                 WholeSeconds(left, ev[k].now + 60_000_000 * s.cfg.hosts[h].trigger.onBatteryMin, now)
  {
    OutageIsHistory(sys, ev, n);
    if 0 <= h < MAX_HOSTS {
      SecondsAreWhole(sys[n].cfg.hosts[h].trigger, sys[n].eng.edges, now);
    }
  }

  /** The first rule the host has for the guest. */
  predicate FirstRule(rules: seq<GuestRule>, id: int, r: nat)
  {
    r < |rules| && rules[r].id == id && forall j | 0 <= j < r :: rules[j].id != id
  }

  lemma {:induction false} FindsFirst(rules: seq<GuestRule>, id: int, from: nat)
    requires from <= |rules| && forall j | 0 <= j < from :: rules[j].id != id
    ensures var g := FindRule(rules, id, from);
            if g < 0 then !Configured(rules, id) else FirstRule(rules, id, g)
    decreases |rules| - from
  {
    if from < |rules| && rules[from].id != id {
      FindsFirst(rules, id, from + 1);
    }
  }

  /** A guest shows one exactly while the timer of its first rule is running on an enabled host, and it is not latched. */
  lemma GuestCountdownIff(sys: seq<System>, ev: seq<Event>, n: nat, h: int, id: int, now: int)
    requires IsRun(sys, ev) && Booted(sys[0]) && n <= |ev|
    ensures var s := sys[n];
            var left := if 0 <= h < 4 then GuestCountdownS(s.cfg, s.eng, s.rules[h], h, id, now)
                        else GuestCountdownS(s.cfg, s.eng, [], h, id, now);
            && left >= -1
            && (left >= 0 <==>
                  && 0 <= h < 4 && s.cfg.enabled && s.cfg.hosts[h].enabled
                  && (exists r: nat :: FirstRule(s.rules[h], id, r) && s.rules[h][r].trigger.onBatteryMin > 0)
                  && (forall j | 0 <= j < |s.eng.hosts[h].latches| && s.eng.hosts[h].latches[j].id == id ::
                        !s.eng.hosts[h].latches[j].fired)
                  && exists k: nat :: OutageEdge(sys, ev, n, k))
            && forall k: nat, r: nat | left >= 0 && OutageEdge(sys, ev, n, k) && FirstRule(s.rules[h], id, r) ::
                 WholeSeconds(left, ev[k].now + 60_000_000 * s.rules[h][r].trigger.onBatteryMin, now)
  {
    OutageIsHistory(sys, ev, n);
    if 0 <= h < MAX_HOSTS {
      var rules := sys[n].rules[h];
      FindsFirst(rules, id, 0);
      var g := FindRule(rules, id, 0);
      if g >= 0 {
        SecondsAreWhole(rules[g].trigger, sys[n].eng.edges, now);
        forall r: nat | FirstRule(rules, id, r) ensures r == g {
        }
      }
    }
  }
}
