/**
 What one snapshot of the unit is turned into (`main/main.c`): an observation for the
 shutdown engine and a status for NUT clients and alerts.
 */
module Publish {
  import opened Regs
  import opened Poller
  import PveEngine
  import Notify

  /** Low on either measure; an unknown charge or runtime is never low. */
  predicate LowBattery(raw: Raw, lowPct: int, runtimeLowS: nat)
  {
    || 0 <= raw.soc <= lowPct
    || (runtimeLowS > 0 && raw.minutes >= 0 && raw.minutes * 60 <= runtimeLowS)
  }

  function AlertPower(p: PveEngine.Power): (q: Notify.Power)
  {
    match p
    case Unknown => Notify.Unknown
    case Line => Notify.Line
    case Battery => Notify.Battery
  }

  /** `publish_nut_from_bluetti`: the engine and the alerts are never told different things about the mains. */
  method Publish(t: Link, lowPct: int, runtimeLowS: nat) returns (obs: PveEngine.Obs, status: string)
    ensures obs == Gate(t) && Notify.Classify(status) == AlertPower(obs.power)
    ensures !t.sweepDone ==> obs == PveEngine.Obs(PveEngine.Unknown, -1) && status == "OL WAIT"
    ensures t.sweepDone ==>
              var raw, d := t.state.raw, t.state.derived;
              && obs.socPct == raw.soc && (obs.power.Line? <==> d.acInputPresent) && (obs.power.Battery? <==> !d.acInputPresent)
              && (Notify.Has(status, "LB") <==>
                    !d.acInputPresent &&
                    ((raw.soc >= 0 && raw.soc <= lowPct) ||
                     (runtimeLowS > 0 && raw.minutes >= 0 && raw.minutes * 60 <= runtimeLowS)))
              && (status in ["OL CHRG", "OB CHRG", "OB LB CHRG"] <==> d.charging)
  {
    if !t.sweepDone {
      Notify.OtherWords();
      return PveEngine.Obs(PveEngine.Unknown, -1), "OL WAIT";
    }
    var d := t.state.derived;
    obs := PveEngine.Obs(if d.acInputPresent then PveEngine.Line else PveEngine.Battery, t.state.raw.soc);
    status := Notify.Compose(d.acInputPresent, d.charging, LowBattery(t.state.raw, lowPct, runtimeLowS));
  }
}
