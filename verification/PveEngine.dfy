/**
 The shutdown decision engine (`components/pve_shutdown/pve_engine.c`).

 One outage is timed for every host from a shared pair of edges; each host and
 each configured guest has its own thresholds and its own fire-once latch.  The
 functions below give, in closed form, what one evaluation does to one host; the
 class `Engine` is the code that does it in place, loop by loop.
 */
module PveEngine {

  const MAX_HOSTS: nat := 4

  datatype Power = Unknown | Line | Battery

  /** One reading of the unit; `socPct` is -1 when the charge is unknown. */
  datatype Obs = Obs(power: Power, socPct: int)

  /** Minutes on battery and a charge limit in percent; 0 switches either off. */
  datatype Trigger = Trigger(onBatteryMin: nat, chargePct: nat)

  datatype GuestRule = GuestRule(id: int, trigger: Trigger)

  /** `hasUrl`, `pinned` and `shutdownNode` matter only once a fire is acted on. */
  datatype HostRule = HostRule(enabled: bool, trigger: Trigger,
                               hasUrl: bool, pinned: bool, shutdownNode: bool)

  datatype Config = Config(enabled: bool, armed: bool, mainsBackMin: nat, hosts: seq<HostRule>)

  datatype Latch = Latch(id: int, fired: bool, firedNow: bool)

  /** The shared clock edges, in microseconds of the device's own clock. */
  datatype Edges = Edges(onBattery: bool, onBatterySince: int, onMains: bool, mainsSince: int)

  datatype HostState = HostState(fired: bool, latches: seq<Latch>)

  datatype State = State(edges: Edges, hosts: seq<HostState>)

  function Minutes(n: nat): (us: int)
  {
    n * 60_000_000
  }

  function Seconds(n: int): (us: int)
  {
    n * 1_000_000
  }

  /** The on-battery timer: needs no live reading, only a confirmed outage. */
  predicate TimerDue(t: Trigger, e: Edges, now: int)
  {
    t.onBatteryMin > 0 && e.onBattery && now - e.onBatterySince >= Minutes(t.onBatteryMin)
  }

  /** The charge limit: needs a live reading on battery. */
  predicate ChargeDue(t: Trigger, obs: Obs)
  {
    obs.power.Battery? && t.chargePct > 0 && 0 <= obs.socPct <= t.chargePct
  }

  predicate TriggerMet(t: Trigger, e: Edges, obs: Obs, now: int)
  {
    TimerDue(t, e, now) || ChargeDue(t, obs)
  }

  /** How one reading moves the shared edges while the feature is enabled. */
  function Observed(e: Edges, p: Power, now: int): (r: Edges)
  {
    match p
    case Battery =>
      if e.onBattery then e.(onMains := false)
      else e.(onBattery := true, onBatterySince := now, onMains := false)
    case Line =>
      if e.onMains then e.(onBattery := false)
      else e.(onBattery := false, onMains := true, mainsSince := now)
    case Unknown => e.(onMains := false)
  }

  predicate MainsBack(mainsBackMin: nat, e: Edges, now: int)
  {
    mainsBackMin > 0 && e.onMains && now - e.mainsSince >= Minutes(mainsBackMin)
  }

  /** Entry `k` is the one a search by id finds: no earlier entry has its id. */
  predicate First(latches: seq<Latch>, k: nat)
    requires k < |latches|
  {
    forall j | 0 <= j < k :: latches[j].id != latches[k].id
  }

  /** Some rule for `id` is due: by its own trigger, or because the node goes. */
  predicate RuleDue(rules: seq<GuestRule>, id: int, hostDue: bool, e: Edges, obs: Obs, now: int)
  {
    exists r | 0 <= r < |rules| ::
      rules[r].id == id && (hostDue || TriggerMet(rules[r].trigger, e, obs, now))
  }

  /** A latch after the start-of-evaluation housekeeping. */
  function Released(l: Latch, back: bool): (r: Latch)
  {
    Latch(l.id, l.fired && !back, false)
  }

  function LatchStep(latches: seq<Latch>, k: nat, rules: seq<GuestRule>, back: bool, active: bool,
                     hostDue: bool, e: Edges, obs: Obs, now: int): (r: Latch)
    requires k < |latches|
  {
    var l := Released(latches[k], back);
    if active && First(latches, k) && !l.fired && RuleDue(rules, l.id, hostDue, e, obs, now)
    then Latch(l.id, true, true)
    else l
  }

  /** One host's share of an evaluation, `e` being the edges already moved. */
  function HostStep(h: HostRule, rules: seq<GuestRule>, hs: HostState,
                    back: bool, e: Edges, obs: Obs, now: int): (r: HostState)
    ensures |r.latches| == |hs.latches| && forall k | 0 <= k < |hs.latches| :: r.latches[k].id == hs.latches[k].id
  {
    var active := !hs.fired && h.enabled;
    var hostDue := active && TriggerMet(h.trigger, e, obs, now);
    HostState(
      if hs.fired then !back else hostDue,
      seq(|hs.latches|, k requires 0 <= k < |hs.latches| =>
        LatchStep(hs.latches, k, rules, back, active, hostDue, e, obs, now)))
  }

  lemma HostStepAt(h: HostRule, rules: seq<GuestRule>, hs: HostState,
                   back: bool, e: Edges, obs: Obs, now: int, k: nat)
    requires k < |hs.latches|
    ensures var active := !hs.fired && h.enabled;
            HostStep(h, rules, hs, back, e, obs, now).latches[k] ==
            LatchStep(hs.latches, k, rules, back, active, active && TriggerMet(h.trigger, e, obs, now), e, obs, now)
  {
  }

  predicate Sized(cfg: Config, rules: seq<seq<GuestRule>>, st: State)
  {
    |cfg.hosts| == |rules| == |st.hosts| == MAX_HOSTS
  }

  /** The whole evaluation: edges first, then every host on its own. */
  function Eval(cfg: Config, rules: seq<seq<GuestRule>>, st: State, obs: Obs, now: int): (r: State)
    requires Sized(cfg, rules, st)
  {
    if !cfg.enabled then
      st.(edges := st.edges.(onBattery := false, onMains := false))
    else
      var e := Observed(st.edges, obs.power, now);
      var back := MainsBack(cfg.mainsBackMin, e, now);
      State(e, seq(MAX_HOSTS, i requires 0 <= i < MAX_HOSTS =>
        HostStep(cfg.hosts[i], rules[i], st.hosts[i], back, e, obs, now)))
  }

  /** Position of the first entry with `id`, or -1. */
  function Find(latches: seq<Latch>, id: int): (k: int)
    ensures -1 <= k < |latches|
    ensures k >= 0 ==> latches[k].id == id && First(latches, k)
    ensures k < 0 ==> forall j | 0 <= j < |latches| :: latches[j].id != id
  {
    FindFrom(latches, id, 0)
  }

  function FindFrom(latches: seq<Latch>, id: int, from: nat): (k: int)
    requires from <= |latches|
    requires forall j | 0 <= j < from :: latches[j].id != id
    ensures -1 <= k < |latches|
    ensures k >= 0 ==> latches[k].id == id && First(latches, k)
    ensures k < 0 ==> forall j | 0 <= j < |latches| :: latches[j].id != id
    decreases |latches| - from
  {
    if from == |latches| then -1
    else if latches[from].id == id then from
    else FindFrom(latches, id, from + 1)
  }

  predicate Latched(latches: seq<Latch>, id: int)
  {
    var k := Find(latches, id);
    k >= 0 && latches[k].fired
  }

  /** Fresh entries for the configured list, carrying each surviving latch over by id. */
  function Synced(latches: seq<Latch>, rules: seq<GuestRule>): (r: seq<Latch>)
  {
    seq(|rules|, k requires 0 <= k < |rules| =>
      Latch(rules[k].id, Latched(latches, rules[k].id), false))
  }

  /** Whole seconds until host `i`'s timer fires, or -1 when none is running. */
  function CountdownS(cfg: Config, st: State, i: int, now: int): (s: int)
    requires |cfg.hosts| == |st.hosts| == MAX_HOSTS
  {
    if i < 0 || i >= MAX_HOSTS then -1
    else
      var h := cfg.hosts[i];
      if !cfg.enabled || !h.enabled || h.trigger.onBatteryMin == 0 ||
         !st.edges.onBattery || st.hosts[i].fired then -1
      else SecondsLeft(h.trigger, st.edges, now)
  }

  function SecondsLeft(t: Trigger, e: Edges, now: int): (s: nat)
  {
    var left := e.onBatterySince + Minutes(t.onBatteryMin) - now;
    if left > 0 then left / 1_000_000 else 0
  }

  /** The first configured rule for `id`, as the countdown looks it up. */
  function FindRule(rules: seq<GuestRule>, id: int, from: nat): (k: int)
    requires from <= |rules|
    ensures k == -1 || from <= k < |rules|
    ensures k >= 0 ==> rules[k].id == id
    decreases |rules| - from
  {
    if from == |rules| then -1
    else if rules[from].id == id then from
    else FindRule(rules, id, from + 1)
  }

  function GuestCountdownS(cfg: Config, st: State, rules: seq<GuestRule>, i: int, id: int, now: int): (s: int)
    requires |cfg.hosts| == |st.hosts| == MAX_HOSTS
  {
    if i < 0 || i >= MAX_HOSTS || !cfg.enabled || !cfg.hosts[i].enabled || !st.edges.onBattery then -1
    else
      var g := FindRule(rules, id, 0);
      if g < 0 || rules[g].trigger.onBatteryMin == 0 then -1
      else if exists k | 0 <= k < |st.hosts[i].latches| ::
                st.hosts[i].latches[k].id == id && st.hosts[i].latches[k].fired then -1
      else SecondsLeft(rules[g].trigger, st.edges, now)
  }

  // ---------------------------------------------------------------------
  // What one evaluation does to the latch of one id
  // ---------------------------------------------------------------------

  predicate Configured(rules: seq<GuestRule>, id: int)
  {
    exists r | 0 <= r < |rules| :: rules[r].id == id
  }

  lemma FirstIsFind(latches: seq<Latch>, k: nat)
    requires k < |latches| && First(latches, k)
    ensures Find(latches, latches[k].id) == k
  {
    var f := Find(latches, latches[k].id);
  }

  /** The latch of an id moves by its own law, wherever its entry sits. */
  lemma LatchedAfterStep(h: HostRule, rules: seq<GuestRule>, hs: HostState,
                         back: bool, e: Edges, obs: Obs, now: int, id: int)
    ensures var r := HostStep(h, rules, hs, back, e, obs, now);
            var active := !hs.fired && h.enabled;
            Latched(r.latches, id) <==>
              (Latched(hs.latches, id) && !back) ||
              (active && Find(hs.latches, id) >= 0 &&
               RuleDue(rules, id, TriggerMet(h.trigger, e, obs, now), e, obs, now))
  {
    var r := HostStep(h, rules, hs, back, e, obs, now);
    SameIdsSameFind(hs.latches, r.latches, id);
    var k := Find(hs.latches, id);
    if k >= 0 {
      HostStepAt(h, rules, hs, back, e, obs, now, k);
    }
  }

  lemma SameIdsSameFind(a: seq<Latch>, b: seq<Latch>, id: int)
    requires |a| == |b| && forall k | 0 <= k < |a| :: a[k].id == b[k].id
    ensures Find(a, id) == Find(b, id)
  {
    var i, j := Find(a, id), Find(b, id);
    assert i >= 0 ==> b[i].id == id;
    assert j >= 0 ==> a[j].id == id;
  }

  /** After a rule edit an id is latched iff it is still configured and was latched. */
  lemma LatchedAfterSync(latches: seq<Latch>, rules: seq<GuestRule>, id: int)
    ensures Latched(Synced(latches, rules), id) <==> Configured(rules, id) && Latched(latches, id)
    ensures Find(Synced(latches, rules), id) >= 0 <==> Configured(rules, id)
  {
    var s := Synced(latches, rules);
    assert forall r | 0 <= r < |rules| :: s[r].id == rules[r].id;
  }

  // ---------------------------------------------------------------------
  // The code
  // ---------------------------------------------------------------------

  /** The loop that marks every rule's guest, restricted to the first `n` rules. */
  ghost predicate Marked(before: seq<Latch>, after: seq<Latch>, rules: seq<GuestRule>, n: nat,
                         sweep: bool, e: Edges, obs: Obs, now: int)
    requires n <= |rules|
  {
    |after| == |before| &&
    forall k | 0 <= k < |before| ::
      after[k] == if First(before, k) && !before[k].fired && RuleDue(rules[..n], before[k].id, sweep, e, obs, now)
                  then Latch(before[k].id, true, true) else before[k]
  }

  class Engine {
    var onBattery: bool
    var onBatterySince: int
    var onMains: bool
    var mainsSince: int
    const fired: array<bool>
    const guests: array<seq<Latch>>

    ghost predicate Valid()
      reads this
    {
      fired.Length == MAX_HOSTS && guests.Length == MAX_HOSTS
    }

    function CurrentEdges(): (e: Edges)
      reads this
    {
      Edges(onBattery, onBatterySince, onMains, mainsSince)
    }

    ghost function Host(i: nat): (hs: HostState)
      requires Valid() && i < MAX_HOSTS
      reads this, fired, guests
    {
      HostState(fired[i], guests[i])
    }

    ghost function View(): (st: State)
      requires Valid()
      reads this, fired, guests
      ensures |st.hosts| == MAX_HOSTS && forall i | 0 <= i < MAX_HOSTS :: st.hosts[i] == Host(i)
    {
      State(CurrentEdges(), seq(MAX_HOSTS, i requires 0 <= i < MAX_HOSTS reads this, fired, guests => Host(i)))
    }

    constructor ()
      ensures Valid() && fresh(fired) && fresh(guests)
      ensures View() == State(Edges(false, 0, false, 0), seq(MAX_HOSTS, i => HostState(false, [])))
    {
      onBattery, onBatterySince, onMains, mainsSince := false, 0, false, 0;
      fired := new bool[MAX_HOSTS](_ => false);
      guests := new seq<Latch>[MAX_HOSTS](_ => []);
    }

    /** `pve_engine_sync_guests` for host `i`. */
    method SyncGuests(i: nat, rules: seq<GuestRule>)
      requires Valid() && i < MAX_HOSTS
      modifies guests
      ensures guests[i] == Synced(old(guests[i]), rules)
      ensures forall j | 0 <= j < MAX_HOSTS && j != i :: guests[j] == old(guests[j])
    {
      var latches := guests[i];
      var built: seq<Latch> := [];
      for k := 0 to |rules|
        invariant built == Synced(latches, rules)[..k]
      {
        var one := Latch(rules[k].id, false, false);
        var j := 0;
        while j < |latches|
          invariant 0 <= j <= |latches|
          invariant one == Latch(rules[k].id, false, false)
          invariant forall m | 0 <= m < j :: latches[m].id != rules[k].id
        {
          if latches[j].id == rules[k].id {
            one := one.(fired := latches[j].fired);
            break;
          }
          j := j + 1;
        }
        assert one == Synced(latches, rules)[k] by {
          if j < |latches| { FirstIsFind(latches, j); }
        }
        built := built + [one];
      }
      guests[i] := built;
    }

    /** Clears `firedNow`, and the latches too when the mains have been back long enough. */
    method Housekeep(i: nat, back: bool)
      requires Valid() && i < MAX_HOSTS
      modifies guests
      ensures guests[i] == seq(|old(guests[i])|, k requires 0 <= k < |old(guests[i])| => Released(old(guests[i])[k], back))
      ensures forall j | 0 <= j < MAX_HOSTS && j != i :: guests[j] == old(guests[j])
    {
      ghost var was := guests[i];
      for g := 0 to |guests[i]|
        invariant |guests[i]| == |was|
        invariant forall k | 0 <= k < g :: guests[i][k] == was[k].(firedNow := false)
        invariant forall k | g <= k < |was| :: guests[i][k] == was[k]
        invariant forall j | 0 <= j < MAX_HOSTS && j != i :: guests[j] == old(guests[j])
      {
        guests[i] := guests[i][g := guests[i][g].(firedNow := false)];
      }
      if back {
        for g := 0 to |guests[i]|
          invariant |guests[i]| == |was|
          invariant forall k | 0 <= k < g :: guests[i][k] == Released(was[k], true)
          invariant forall k | g <= k < |was| :: guests[i][k] == was[k].(firedNow := false)
          invariant forall j | 0 <= j < MAX_HOSTS && j != i :: guests[j] == old(guests[j])
        {
          if guests[i][g].fired {
            guests[i] := guests[i][g := guests[i][g].(fired := false)];
          }
        }
      }
    }

    /** Walks the rules in order and fires each guest that is due (`sweep`: every one left). */
    method MarkGuests(i: nat, rules: seq<GuestRule>, sweep: bool, obs: Obs, now: int)
      requires Valid() && i < MAX_HOSTS
      modifies guests
      ensures Marked(old(guests[i]), guests[i], rules, |rules|, sweep, CurrentEdges(), obs, now)
      ensures forall j | 0 <= j < MAX_HOSTS && j != i :: guests[j] == old(guests[j])
    {
      ghost var was := guests[i];
      for g := 0 to |rules|
        invariant Marked(was, guests[i], rules, g, sweep, CurrentEdges(), obs, now)
        invariant forall j | 0 <= j < MAX_HOSTS && j != i :: guests[j] == old(guests[j])
      {
        ghost var mid := guests[i];
        var k := Find(guests[i], rules[g].id);
        if k >= 0 && !guests[i][k].fired && (sweep || TriggerMet(rules[g].trigger, CurrentEdges(), obs, now)) {
          guests[i] := guests[i][k := Latch(guests[i][k].id, true, true)];
        }
        MarkOne(was, mid, guests[i], rules, g, sweep, CurrentEdges(), obs, now);
      }
      assert rules[..|rules|] == rules;
    }

    /** `pve_eval`: folds one observation into the engine; returns the hosts whose own trigger fired. */
    method EvalStep(cfg: Config, rules: seq<seq<GuestRule>>, obs: Obs, now: int) returns (out: set<nat>)
      requires Valid() && |cfg.hosts| == |rules| == MAX_HOSTS
      modifies this, fired, guests
      ensures View() == Eval(cfg, rules, old(View()), obs, now)
      ensures out == set i: nat | i < MAX_HOSTS && !old(fired[i]) && fired[i]
    {
      out := {};
      if !cfg.enabled {
        onBattery, onMains := false, false;
        assert View().hosts == old(View()).hosts;
        return;
      }
      match obs.power {
        case Battery =>
          if !onBattery {
            onBattery, onBatterySince := true, now;
          }
          onMains := false;
        case Line =>
          onBattery := false;
          if !onMains {
            onMains, mainsSince := true, now;
          }
        case Unknown =>
          onMains := false;
      }
      var back := MainsBack(cfg.mainsBackMin, CurrentEdges(), now);
      ghost var e := Observed(old(CurrentEdges()), obs.power, now);
      assert CurrentEdges() == e;

      for i := 0 to MAX_HOSTS
        invariant CurrentEdges() == e
        invariant forall j | 0 <= j < i ::
                    HostState(fired[j], guests[j]) == HostStep(cfg.hosts[j], rules[j], old(Host(j)), back, e, obs, now)
        invariant forall j | i <= j < MAX_HOSTS :: fired[j] == old(fired[j]) && guests[j] == old(guests[j])
        invariant forall j: nat :: j in out <==> j < i && !old(fired[j]) && fired[j]
      {
        var fires := EvalHost(i, cfg.hosts[i], rules[i], back, obs, now);
        if fires {
          out := out + {i};
        }
      }
      assert View().hosts == Eval(cfg, rules, old(View()), obs, now).hosts;
    }

    /** The body of the per-host loop of `pve_eval`. */
    method EvalHost(i: nat, h: HostRule, rules: seq<GuestRule>, back: bool, obs: Obs, now: int) returns (fires: bool)
      requires Valid() && i < MAX_HOSTS
      modifies fired, guests
      ensures Host(i) == HostStep(h, rules, old(Host(i)), back, CurrentEdges(), obs, now)
      ensures fires <==> !old(fired[i]) && fired[i]
      ensures forall j | 0 <= j < MAX_HOSTS && j != i :: fired[j] == old(fired[j]) && guests[j] == old(guests[j])
    {
      fires := false;
      ghost var was := guests[i];
      ghost var e := CurrentEdges();
      ghost var goal := HostStep(h, rules, Host(i), back, e, obs, now);
      forall k | 0 <= k < |was| {
        HostStepAt(h, rules, Host(i), back, e, obs, now, k);
      }
      Housekeep(i, back);
      ghost var kept := guests[i];
      if fired[i] {
        if back {
          fired[i] := false;
        }
        assert guests[i] == goal.latches;
        return;
      }
      if !h.enabled {
        assert guests[i] == goal.latches;
        return;
      }
      MarkGuests(i, rules, false, obs, now);
      ghost var own := guests[i];
      if !TriggerMet(h.trigger, CurrentEdges(), obs, now) {
        OwnPass(was, kept, own, rules, back, e, obs, now);
        assert guests[i] == goal.latches;
        return;
      }
      fired[i] := true;
      fires := true;
      MarkGuests(i, rules, true, obs, now);
      BothPasses(was, kept, own, guests[i], rules, back, e, obs, now);
      assert guests[i] == goal.latches;
    }
  }

  /** One more rule handled extends the marked prefix by that rule. */
  lemma MarkOne(was: seq<Latch>, mid: seq<Latch>, after: seq<Latch>, rules: seq<GuestRule>, g: nat,
                sweep: bool, e: Edges, obs: Obs, now: int)
    requires g < |rules|
    requires Marked(was, mid, rules, g, sweep, e, obs, now)
    requires var k := Find(mid, rules[g].id);
             after == if k >= 0 && !mid[k].fired && (sweep || TriggerMet(rules[g].trigger, e, obs, now))
                      then mid[k := Latch(mid[k].id, true, true)] else mid
    ensures Marked(was, after, rules, g + 1, sweep, e, obs, now)
  {
    SameIdsSameFind(was, mid, rules[g].id);
    forall k | 0 <= k < |was|
      ensures after[k] == if First(was, k) && !was[k].fired && RuleDue(rules[..g + 1], was[k].id, sweep, e, obs, now)
                          then Latch(was[k].id, true, true) else was[k]
    {
      RuleDueOneMore(rules, g, was[k].id, sweep, e, obs, now);
      if First(was, k) {
        FirstIsFind(was, k);
      }
    }
  }

  lemma RuleDueOneMore(rules: seq<GuestRule>, g: nat, id: int, sweep: bool, e: Edges, obs: Obs, now: int)
    requires g < |rules|
    ensures RuleDue(rules[..g + 1], id, sweep, e, obs, now) <==>
              RuleDue(rules[..g], id, sweep, e, obs, now) ||
              (rules[g].id == id && (sweep || TriggerMet(rules[g].trigger, e, obs, now)))
  {
    assert rules[..g + 1][g] == rules[g];
    assert forall r | 0 <= r < g :: rules[..g + 1][r] == rules[..g][r];
  }

  lemma OwnPass(was: seq<Latch>, kept: seq<Latch>, own: seq<Latch>, rules: seq<GuestRule>,
                back: bool, e: Edges, obs: Obs, now: int)
    requires |kept| == |was| && forall k | 0 <= k < |was| :: kept[k] == Released(was[k], back)
    requires Marked(kept, own, rules, |rules|, false, e, obs, now)
    ensures |own| == |was|
    ensures forall k | 0 <= k < |was| :: own[k] == LatchStep(was, k, rules, back, true, false, e, obs, now)
  {
    assert rules[..|rules|] == rules;
    assert forall k | 0 <= k < |was| :: First(kept, k) <==> First(was, k);
  }

  /** Own triggers first, then the sweep: together one closed-form step. */
  lemma BothPasses(was: seq<Latch>, kept: seq<Latch>, own: seq<Latch>, swept: seq<Latch>, rules: seq<GuestRule>,
                   back: bool, e: Edges, obs: Obs, now: int)
    requires |kept| == |was| && forall k | 0 <= k < |was| :: kept[k] == Released(was[k], back)
    requires Marked(kept, own, rules, |rules|, false, e, obs, now)
    requires Marked(own, swept, rules, |rules|, true, e, obs, now)
    ensures |swept| == |was|
    ensures forall k | 0 <= k < |was| :: swept[k] == LatchStep(was, k, rules, back, true, true, e, obs, now)
  {
    assert rules[..|rules|] == rules;
  }
}
