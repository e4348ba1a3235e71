/**
 Telegram alerts raised from UPS status strings (`components/notify/notify.c`), and
 the string itself as `main/main.c` composes it. Whether a raised message is then
 delivered is not modelled.
 */
module Notify {
  const REPEAT_GUARD_US: int := 60_000_000

  datatype Power = Unknown | Line | Battery | Offline

  datatype Config = Config(enabled: bool, onPower: bool, onLink: bool, onLowBatt: bool, onBatteryPct: bool)

  /** One call of `notify_ups_status`, with the settings and the clock at that moment. */
  datatype Obs = Obs(cfg: Config, status: string, soc: int, now: int)

  datatype Message = MainsLost | MainsRestored | UnitBack(onBattery: bool) | ContactLost
                   | BatteryLow | BatteryFine | StillOnBattery(decile: int)

  datatype State = State(power: Power, lowBatt: bool, lastEvent: Power, lastEventUs: int, decile: int)

  /** `strstr`. */
  predicate Has(s: string, sub: string)
  {
    exists i | 0 <= i <= |s| :: StartsWith(s[i..], sub)
  }

  predicate StartsWith(s: string, sub: string)
  {
    |sub| <= |s| && s[..|sub|] == sub
  }

  /** The power state a status stands for; Unknown if it is no observation of one. */
  function Classify(status: string): (p: Power)
  {
    if Has(status, "WAIT") then Unknown
    else if StartsWith(status, "OFF") then Offline
    else if Has(status, "OB") then Battery
    else if Has(status, "OL") then Line
    else Unknown
  }

  /** The observation is acted on. */
  predicate Taken(o: Obs)
  {
    o.cfg.enabled && Classify(o.status) != Unknown
  }

  /** Division as C has it, towards zero: an unknown charge of -1 is in the lowest decile. */
  function Decile(soc: int): (d: int)
    ensures soc >= -9 ==> d >= 0
    ensures soc <= 100 ==> d <= 10
  {
    if soc >= 0 then soc / 10 else -(-soc / 10)
  }

  // ---------------------------------------------------------------------
  // The step
  // ---------------------------------------------------------------------

  predicate GuardAllows(s: State, p: Power, now: int)
  {
    !(p == s.lastEvent && now - s.lastEventUs < REPEAT_GUARD_US)
  }

  /** A change from a known power state reaches the guard. */
  predicate Changes(s: State, p: Power)
  {
    p != s.power && s.power != Unknown
  }

  /** The alert for one change of power state. */
  function ChangeAlert(cfg: Config, was: Power, p: Power): (ms: seq<Message>)
  {
    if p == Battery then
      (if was == Line && cfg.onPower then [MainsLost] else if was == Offline && cfg.onLink then [UnitBack(true)] else [])
    else if p == Line then
      (if was == Battery && cfg.onPower then [MainsRestored] else if was == Offline && cfg.onLink then [UnitBack(false)] else [])
    else if p == Offline && cfg.onLink then [ContactLost]
    else []
  }

  function LowAlert(cfg: Config, was: bool, low: bool, p: Power): (ms: seq<Message>)
  {
    if low && !was && cfg.onLowBatt then [BatteryLow]
    else if !low && was && cfg.onLowBatt && p == Line then [BatteryFine]
    else []
  }

  predicate Reminds(s: State, o: Obs)
  {
    Taken(o) && Classify(o.status) == Battery && o.cfg.onBatteryPct && s.decile >= 0 && Decile(o.soc) < s.decile
  }

  function DecileAfter(s: State, o: Obs, p: Power): (d: int)
  {
    if p != Battery then -1
    else if o.cfg.onBatteryPct && (s.decile < 0 || Decile(o.soc) < s.decile) then Decile(o.soc)
    else s.decile
  }

  function Next(s: State, o: Obs): (t: State)
  {
    var p := Classify(o.status);
    if !Taken(o) then s
    else
      var allowed := Changes(s, p) && GuardAllows(s, p, o.now);
      State(p, Has(o.status, "LB"), if allowed then p else s.lastEvent, if allowed then o.now else s.lastEventUs, DecileAfter(s, o, p))
  }

  function Raised(s: State, o: Obs): (ms: seq<Message>)
  {
    var p := Classify(o.status);
    if !Taken(o) then []
    else
      (if Changes(s, p) && GuardAllows(s, p, o.now) then ChangeAlert(o.cfg, s.power, p) else []) +
      LowAlert(o.cfg, s.lowBatt, Has(o.status, "LB"), p) +
      (if Reminds(s, o) then [StillOnBattery(Decile(o.soc))] else [])
  }

  // ---------------------------------------------------------------------
  // The code
  // ---------------------------------------------------------------------

  class Notifier {
    var power: Power
    var lowBatt: bool
    var lastEvent: Power
    var lastEventUs: int
    var decile: int

    ghost function View(): (s: State)
      reads this
    {
      State(power, lowBatt, lastEvent, lastEventUs, decile)
    }

    constructor ()
      ensures View() == INITIAL
    {
      power, lowBatt, lastEvent, lastEventUs, decile := Unknown, false, Unknown, 0, -1;
    }

    /** `guard_allows`. */
    method Guard(p: Power, now: int) returns (ok: bool)
      modifies this`lastEvent, this`lastEventUs
      ensures ok == GuardAllows(old(View()), p, now)
      ensures lastEvent == (if ok then p else old(lastEvent)) && lastEventUs == (if ok then now else old(lastEventUs))
    {
      if p == lastEvent && now - lastEventUs < REPEAT_GUARD_US {
        return false;
      }
      lastEvent, lastEventUs := p, now;
      return true;
    }

    /** `notify_ups_status`. */
    method UpsStatus(o: Obs) returns (sent: seq<Message>)
      modifies this
      ensures View() == Next(old(View()), o) && sent == Raised(old(View()), o)
    {
      sent := [];
      var now := Classify(o.status);
      if !o.cfg.enabled || now == Unknown {
        return;
      }
      var low, was := Has(o.status, "LB"), power;
      if now != was && was != Unknown {
        var ok := Guard(now, o.now);
        if ok {
          sent := ChangeAlert(o.cfg, was, now);
        }
      }
      if low && !lowBatt && o.cfg.onLowBatt {
        sent := sent + [BatteryLow];
      }
      if !low && lowBatt && o.cfg.onLowBatt && now == Line {
        sent := sent + [BatteryFine];
      }
      if now == Battery && o.cfg.onBatteryPct {
        if decile < 0 {
          decile := Decile(o.soc);
        } else if Decile(o.soc) < decile {
          decile := Decile(o.soc);
          sent := sent + [StillOnBattery(decile)];
        }
      } else if now != Battery {
        decile := -1;
      }
      power, lowBatt := now, low;
    }
  }

  // ---------------------------------------------------------------------
  // Whole runs
  // ---------------------------------------------------------------------

  const INITIAL: State := State(Unknown, false, Unknown, 0, -1)

  /** The state after the first `n` observations. */
  function After(obs: seq<Obs>, n: nat): (s: State)
    requires n <= |obs|
  {
    if n == 0 then INITIAL else Next(After(obs, n - 1), obs[n - 1])
  }

  /** The last power state observed among the first `n`, Unknown if none was. */
  function LastPower(obs: seq<Obs>, n: nat): (p: Power)
    requires n <= |obs|
  {
    if n == 0 then Unknown
    else if Taken(obs[n - 1]) then Classify(obs[n - 1].status)
    else LastPower(obs, n - 1)
  }

  function LastLow(obs: seq<Obs>, n: nat): (low: bool)
    requires n <= |obs|
  {
    if n == 0 then false
    else if Taken(obs[n - 1]) then Has(obs[n - 1].status, "LB")
    else LastLow(obs, n - 1)
  }

  /** Once there has been a change, the last event is the state still in force. */
  lemma {:induction false} StateIsHistory(obs: seq<Obs>, n: nat)
    requires n <= |obs|
    ensures var s := After(obs, n);
            s.power == LastPower(obs, n) && s.lowBatt == LastLow(obs, n) && (s.lastEvent == Unknown || s.lastEvent == s.power)
  {
    if n > 0 {
      StateIsHistory(obs, n - 1);
    }
  }

  /** So the one-minute guard never holds anything back. */
  lemma GuardNeverBlocks(obs: seq<Obs>, n: nat)
    requires n < |obs| && Taken(obs[n]) && Changes(After(obs, n), Classify(obs[n].status))
    ensures GuardAllows(After(obs, n), Classify(obs[n].status), obs[n].now)
  {
    StateIsHistory(obs, n);
  }

  /** Mains alerts are exactly the changes between LINE and BATTERY from one observation taken to the next. */
  lemma MainsAlertsAreEdges(obs: seq<Obs>, n: nat)
    requires n < |obs|
    ensures var ms, was, now := Raised(After(obs, n), obs[n]), LastPower(obs, n), Classify(obs[n].status);
            && (MainsLost in ms <==> Taken(obs[n]) && obs[n].cfg.onPower && was == Line && now == Battery)
            && (MainsRestored in ms <==> Taken(obs[n]) && obs[n].cfg.onPower && was == Battery && now == Line)
  {
    StateIsHistory(obs, n);
  }

  /** Contact alerts: lost on going OFF from a known state, back on leaving it. */
  lemma LinkAlertsAreEdges(obs: seq<Obs>, n: nat)
    requires n < |obs|
    ensures var ms, was, now := Raised(After(obs, n), obs[n]), LastPower(obs, n), Classify(obs[n].status);
            && (ContactLost in ms <==> Taken(obs[n]) && obs[n].cfg.onLink && now == Offline && was in {Line, Battery})
            && forall b :: (UnitBack(b) in ms <==> Taken(obs[n]) && obs[n].cfg.onLink && was == Offline && now == if b then Battery else Line)
  {
    StateIsHistory(obs, n);
  }

  /** The low-battery alert is the edge of the LB flag. */
  lemma LowAlertIsEdge(obs: seq<Obs>, n: nat)
    requires n < |obs|
    ensures BatteryLow in Raised(After(obs, n), obs[n]) <==>
            Taken(obs[n]) && obs[n].cfg.onLowBatt && Has(obs[n].status, "LB") && !LastLow(obs, n)
  {
    StateIsHistory(obs, n);
  }

  /** A supply that flips with every observation. */
  ghost predicate Flaps(obs: seq<Obs>)
  {
    forall i: nat | i < |obs| :: FlapsTo(obs[i], if i % 2 == 0 then Line else Battery)
  }

  predicate FlapsTo(o: Obs, p: Power)
  {
    o.cfg.enabled && o.cfg.onPower && Classify(o.status) == p
  }

  /** Each flip raises its alert, however close together: repeats within the minute are not suppressed. */
  lemma FlappingIsNotSuppressed(obs: seq<Obs>, n: nat)
    requires Flaps(obs) && 0 < n < |obs|
    ensures (if n % 2 == 0 then MainsRestored else MainsLost) in Raised(After(obs, n), obs[n])
  {
    if n % 2 == 0 {
      FlipRaises(obs, n, Battery, Line);
    } else {
      FlipRaises(obs, n, Line, Battery);
    }
  }

  lemma FlipRaises(obs: seq<Obs>, n: nat, was: Power, now: Power)
    requires 0 < n < |obs| && FlapsTo(obs[n - 1], was) && FlapsTo(obs[n], now)
    ensures was == Line && now == Battery ==> MainsLost in Raised(After(obs, n), obs[n])
    ensures was == Battery && now == Line ==> MainsRestored in Raised(After(obs, n), obs[n])
  {
    assert was != Unknown ==> LastPower(obs, n) == was;
    MainsAlertsAreEdges(obs, n);
  }

  // ---------------------------------------------------------------------
  // Reminders
  // ---------------------------------------------------------------------

  /** No observation in between says the battery is not in use. */
  ghost predicate OnBattery(obs: seq<Obs>, a: nat, b: nat)
    requires b <= |obs|
  {
    forall i: nat | a <= i < b :: Taken(obs[i]) ==> Classify(obs[i].status) == Battery
  }

  /** The values at those of the steps `a` to `b` that have one. */
  function Collected(at: nat -> bool, value: nat -> int, a: nat, b: nat): (ds: seq<int>)
    decreases b
  {
    if a >= b then [] else Collected(at, value, a, b - 1) + if at(b - 1) then [value(b - 1)] else []
  }

  /** Whether an observation of the run raises a reminder, at what decile, and the decile kept before it. */
  function RemindsAt(obs: seq<Obs>): (at: nat -> bool)
  {
    (n: nat) => n < |obs| && Reminds(After(obs, n), obs[n])
  }

  function DecileAt(obs: seq<Obs>): (value: nat -> int)
  {
    (n: nat) => if n < |obs| then Decile(obs[n].soc) else 0
  }

  function KeptAt(obs: seq<Obs>): (level: nat -> int)
  {
    (n: nat) => if n <= |obs| then After(obs, n).decile else 0
  }

  /** The deciles of the reminders raised by observations `a` to `b`. */
  function Reminders(obs: seq<Obs>, a: nat, b: nat): (ds: seq<int>)
    requires a <= b <= |obs|
  {
    Collected(RemindsAt(obs), DecileAt(obs), a, b)
  }

  predicate Falling(ds: seq<int>)
  {
    forall i, j | 0 <= i < j < |ds| :: ds[i] > ds[j]
  }

  /** Charges are percentages, or -1 for unknown. */
  predicate Percentages(obs: seq<Obs>)
  {
    forall i: nat | i < |obs| :: -1 <= obs[i].soc <= 100
  }

  lemma {:induction false} DecileRange(obs: seq<Obs>, n: nat)
    requires n <= |obs| && Percentages(obs)
    ensures -1 <= After(obs, n).decile <= 10
  {
    if n > 0 {
      DecileRange(obs, n - 1);
    }
  }

  /** What one observation on battery does to the decile last told. */
  lemma DecileStep(s: State, o: Obs)
    requires -1 <= o.soc <= 100 && (Taken(o) ==> Classify(o.status) == Battery)
    ensures Reminds(s, o) ==> 0 <= Next(s, o).decile == Decile(o.soc) < s.decile
    ensures !Reminds(s, o) && s.decile >= 0 ==> Next(s, o).decile == s.decile
  {
  }

  /** Strictly falling deciles below ten, the last of them `d`. */
  predicate FallsTo(ds: seq<int>, d: int)
  {
    && Falling(ds) && (forall i | 0 <= i < |ds| :: d <= ds[i])
    && (|ds| > 0 ==> 0 <= d <= 10 - |ds|)
  }

  lemma OneLower(ds: seq<int>, d: int, e: int)
    requires FallsTo(ds, d) && 0 <= e < d <= 10
    ensures FallsTo(ds + [e], e)
  {
  }

  /** Step `n` has a value only if it is lower than the level so far, which it then becomes. */
  ghost predicate Lowers(at: nat -> bool, value: nat -> int, level: nat -> int, n: nat)
  {
    && (at(n) ==> 0 <= level(n + 1) == value(n) < level(n) <= 10)
    && (!at(n) && level(n) >= 0 ==> level(n + 1) == level(n))
  }

  lemma {:induction false} CollectedFall(at: nat -> bool, value: nat -> int, level: nat -> int, a: nat, b: nat)
    requires forall n: nat | a <= n < b :: Lowers(at, value, level, n)
    ensures FallsTo(Collected(at, value, a, b), level(b))
    decreases b
  {
    if a < b {
      CollectedFall(at, value, level, a, b - 1);
      assert Lowers(at, value, level, b - 1);
      FallOn(Collected(at, value, a, b - 1), level(b - 1), at(b - 1), value(b - 1), level(b));
    }
  }

  lemma FallOn(ds: seq<int>, d: int, at: bool, v: int, e: int)
    requires FallsTo(ds, d) && (at ==> 0 <= e == v < d <= 10) && (!at && d >= 0 ==> e == d)
    ensures FallsTo(ds + if at then [v] else [], e)
  {
    if at {
      OneLower(ds, d, v);
    } else {
      assert ds + [] == ds;
    }
  }

  lemma LowersAt(obs: seq<Obs>, n: nat)
    requires n < |obs| && Percentages(obs) && (Taken(obs[n]) ==> Classify(obs[n].status) == Battery)
    ensures Lowers(RemindsAt(obs), DecileAt(obs), KeptAt(obs), n)
  {
    DecileRange(obs, n);
    DecileStep(After(obs, n), obs[n]);
    AfterNext(obs, n);
  }

  lemma AfterNext(obs: seq<Obs>, n: nat)
    requires n < |obs|
    ensures After(obs, n + 1) == Next(After(obs, n), obs[n])
  {
  }

  lemma RemindersFall(obs: seq<Obs>, a: nat, b: nat)
    requires a <= b <= |obs| && Percentages(obs) && OnBattery(obs, a, b)
    ensures FallsTo(Reminders(obs, a, b), KeptAt(obs)(b))
  {
    forall n: nat | a <= n < b
      ensures Lowers(RemindsAt(obs), DecileAt(obs), KeptAt(obs), n)
    {
      LowersAt(obs, n);
    }
    CollectedFall(RemindsAt(obs), DecileAt(obs), KeptAt(obs), a, b);
  }

  /** Within one stretch on battery the reminders' deciles strictly fall, so there are at most ten. */
  lemma AtMostTenReminders(obs: seq<Obs>, a: nat, b: nat)
    requires a <= b <= |obs| && Percentages(obs) && OnBattery(obs, a, b)
    ensures Falling(Reminders(obs, a, b)) && |Reminders(obs, a, b)| <= 10
  {
    RemindersFall(obs, a, b);
  }

  /** The tens of a charge; an unknown charge of -1 counts as empty. */
  function Tens(soc: int): (d: nat)
    requires -1 <= soc <= 100
  {
    if soc < 10 then 0 else soc / 10
  }

  /** Observation `j` counts towards the reminders of the stretch on battery still going on at `n`. */
  ghost predicate Counts(obs: seq<Obs>, j: nat, n: nat)
    requires n <= |obs|
  {
    && j < n && Taken(obs[j]) && Classify(obs[j].status) == Battery && obs[j].cfg.onBatteryPct
    && OnBattery(obs, j, n)
  }

  lemma CountsGrows(obs: seq<Obs>, j: nat, m: nat)
    requires m < |obs|
    ensures Counts(obs, j, m + 1) <==>
              || (Counts(obs, j, m) && (Taken(obs[m]) ==> Classify(obs[m].status) == Battery))
              || (j == m && Taken(obs[m]) && Classify(obs[m].status) == Battery && obs[m].cfg.onBatteryPct)
  {
    if Counts(obs, j, m) && (Taken(obs[m]) ==> Classify(obs[m].status) == Battery) {
      forall i: nat | j <= i < m + 1 ensures Taken(obs[i]) ==> Classify(obs[i].status) == Battery {
      }
    }
    if Counts(obs, j, m + 1) && j < m {
      assert OnBattery(obs, j, m);
    }
  }

  /** The decile kept is the lowest of those that count, -1 if none does. */
  lemma {:induction false} KeptIsLowest(obs: seq<Obs>, n: nat)
    requires n <= |obs| && Percentages(obs)
    ensures var d := After(obs, n).decile;
            && (forall j: nat | Counts(obs, j, n) :: 0 <= d <= Tens(obs[j].soc))
            && (d != -1 ==> exists j: nat :: Counts(obs, j, n) && d == Tens(obs[j].soc))
  {
    if n > 0 {
      var m, d := n - 1, After(obs, n).decile;
      KeptIsLowest(obs, m);
      AfterNext(obs, m);
      forall j: nat ensures Counts(obs, j, n) <==>
              || (Counts(obs, j, m) && (Taken(obs[m]) ==> Classify(obs[m].status) == Battery))
              || (j == m && Taken(obs[m]) && Classify(obs[m].status) == Battery && obs[m].cfg.onBatteryPct) {
        CountsGrows(obs, j, m);
      }
      KeptNext(obs, m);
      if d != -1 && d == After(obs, m).decile {
        var j: nat :| Counts(obs, j, m) && d == Tens(obs[j].soc);
        assert Counts(obs, j, n);
      }
    }
  }

  /** How one observation moves it. */
  lemma KeptNext(obs: seq<Obs>, m: nat)
    requires m < |obs| && Percentages(obs)
    ensures var was, d, o := After(obs, m).decile, After(obs, m + 1).decile, obs[m];
            if !Taken(o) then d == was
            else if Classify(o.status) != Battery then d == -1
            else if o.cfg.onBatteryPct && (was < 0 || Tens(o.soc) < was) then d == Tens(o.soc)
            else d == was
  {
    AfterNext(obs, m);
  }

  /**
   On battery, with these reminders wanted, one is raised exactly when the tens of the charge are below those of every
   earlier observation of this stretch made with reminders wanted, and there has been one; and it tells those tens.
   */
  lemma RemindedIff(obs: seq<Obs>, n: nat, d: int)
    requires n < |obs| && Percentages(obs)
    ensures StillOnBattery(d) in Raised(After(obs, n), obs[n]) <==>
              && Taken(obs[n]) && Classify(obs[n].status) == Battery && obs[n].cfg.onBatteryPct && d == Tens(obs[n].soc)
              && (exists j: nat :: Counts(obs, j, n))
              && forall j: nat | Counts(obs, j, n) :: Tens(obs[n].soc) < Tens(obs[j].soc)
  {
    KeptIsLowest(obs, n);
    RaisedReminder(After(obs, n), obs[n], d);
    if j: nat :| Counts(obs, j, n) {
      assert After(obs, n).decile >= 0;
    }
  }

  lemma RaisedReminder(s: State, o: Obs, d: int)
    requires -1 <= o.soc <= 100
    ensures StillOnBattery(d) in Raised(s, o) <==>
              && Taken(o) && Classify(o.status) == Battery && o.cfg.onBatteryPct
              && d == Tens(o.soc) && s.decile > Tens(o.soc)
  {
  }

  /** The all-clear for a low battery comes with the mains, on the first observation without LB after one with it. */
  lemma FineIsEdge(obs: seq<Obs>, n: nat)
    requires n < |obs|
    ensures BatteryFine in Raised(After(obs, n), obs[n]) <==>
            && Taken(obs[n]) && obs[n].cfg.onLowBatt && !Has(obs[n].status, "LB") && LastLow(obs, n)
            && Classify(obs[n].status) == Line
  {
    StateIsHistory(obs, n);
  }

  // ---------------------------------------------------------------------
  // The status string
  // ---------------------------------------------------------------------

  /** The status `publish_nut_from_bluetti` composes once the sweep is over. */
  method Compose(present: bool, charging: bool, low: bool) returns (status: string)
    ensures Classify(status) == if present then Line else Battery
    ensures Has(status, "LB") <==> low && !present
    ensures status == if present then (if charging then "OL CHRG" else "OL")
                      else if low then (if charging then "OB LB CHRG" else "OB LB DISCHRG")
                      else (if charging then "OB CHRG" else "OB DISCHRG")
  {
    status := Words(present, charging, low);
    ReadsAs(status, present, low);
  }

  method Words(present: bool, charging: bool, low: bool) returns (status: string)
    ensures Spells(status, present, low)
    ensures status == if present then (if charging then "OL CHRG" else "OL")
                      else if low then (if charging then "OB LB CHRG" else "OB LB DISCHRG")
                      else (if charging then "OB CHRG" else "OB DISCHRG")
  {
    if present {
      status := "OL";
      if charging {
        status := status + " CHRG";
      }
    } else {
      status := "OB";
      if low {
        status := status + " LB";
      }
      status := status + if charging then " CHRG" else " DISCHRG";
    }
  }

  /** The letters that matter, and no others of their kind. */
  predicate Spells(s: string, present: bool, low: bool)
  {
    && |s| >= 2 && s[0] == 'O' && s[1] == (if present then 'L' else 'B')
    && (forall i | 2 <= i < |s| :: s[i] != 'O' && s[i] != 'W' && s[i] != 'F')
    && (present ==> forall i | 0 <= i < |s| :: s[i] != 'B')
    && (!present && !low ==> forall i | 0 <= i < |s| :: s[i] != 'L')
    && (!present && low ==> |s| >= 5 && s[3] == 'L' && s[4] == 'B')
  }

  /** Whether the two characters stand at one place. */
  predicate PairAt(s: string, i: int, a: char, b: char)
  {
    0 <= i < |s| - 1 && s[i] == a && s[i + 1] == b
  }

  lemma HasPair(s: string, sub: string, a: char, b: char)
    requires sub == [a, b]
    ensures Has(s, sub) <==> exists i :: PairAt(s, i, a, b)
  {
    forall i | 0 <= i <= |s|
      ensures StartsWith(s[i..], sub) <==> PairAt(s, i, a, b)
    {
      if i + 2 <= |s| {
        assert s[i..][..2] == [s[i], s[i + 1]];
      }
    }
  }

  lemma NoWait(s: string)
    requires forall i | 0 <= i < |s| :: s[i] != 'W'
    ensures !Has(s, "WAIT")
  {
    forall i | 0 <= i <= |s|
      ensures !StartsWith(s[i..], "WAIT")
    {
      if i < |s| {
        assert s[i..][0] == s[i];
      }
    }
  }

  lemma ReadsAs(s: string, present: bool, low: bool)
    requires Spells(s, present, low)
    ensures Classify(s) == if present then Line else Battery
    ensures Has(s, "LB") <==> low && !present
  {
    NoWait(s);
    HasPair(s, "OB", 'O', 'B');
    HasPair(s, "OL", 'O', 'L');
    HasPair(s, "LB", 'L', 'B');
    assert PairAt(s, 0, 'O', if present then 'L' else 'B');
    assert !StartsWith(s, "OFF") by {
      assert |s| >= 3 ==> s[..3][1] == s[1];
    }
    assert !present && low ==> PairAt(s, 3, 'L', 'B');
  }

  // ---------------------------------------------------------------------
  // A flapping supply
  // ---------------------------------------------------------------------

  const ALL_ALERTS: Config := Config(true, true, true, true, true)

  /** The mains come and go every second. */
  function EverySecond(n: nat): (obs: seq<Obs>)
  {
    seq(n, i requires 0 <= i < n => Obs(ALL_ALERTS, if i % 2 == 0 then "OL" else "OB DISCHRG", 50, 1_000_000 * i))
  }

  /** Though only a second apart, far within the guard's minute, each change raises its alert. */
  lemma AlertEverySecond(n: nat, k: nat)
    requires 0 < k < n
    ensures var obs := EverySecond(n);
            && Flaps(obs) && obs[k].now - obs[k - 1].now == 1_000_000 < REPEAT_GUARD_US
            && (if k % 2 == 0 then MainsRestored else MainsLost) in Raised(After(obs, k), obs[k])
  {
    ReadsAs("OL", true, false);
    ReadsAs("OB DISCHRG", false, false);
    FlappingIsNotSuppressed(EverySecond(n), k);
  }

  /** Waiting is no observation, and OFF is the loss of contact. */
  lemma OtherWords()
    ensures Classify("OL WAIT") == Unknown && Classify("OFF") == Offline
  {
    NoWait("OFF");
    assert "OL WAIT"[3..] == "WAIT" && StartsWith("OL WAIT"[3..], "WAIT");
  }
}
