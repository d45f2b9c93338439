/** When a ground object will lose a satellite: bracket, then bisect
    (satgonetem/utils/custom_connection_strategies.py:197-228). Elevation is any function of the seconds from
    now; times are real numbers. */
module Disconnection {
  import opened Wrappers

  const FIRST_GUESS: real := 300.0
  const RESOLUTION: real := 0.001

  function MinReal(a: real, b: real): real { if a <= b then a else b }

  /** Doubling until the elevation is not above the minimum, or the time is up. */
  function Bracket(elev: real -> real, min: real, maxTime: real, high: real): real
    requires high >= MinReal(FIRST_GUESS, maxTime)
    decreases if high < maxTime then ((maxTime - high) / FIRST_GUESS).Floor + 1 else 0
  {
    if elev(high) > min && high < maxTime then Bracket(elev, min, maxTime, MinReal(high * 2.0, maxTime)) else high
  }

  function Bisect(elev: real -> real, min: real, low: real, high: real): real
    decreases ((high - low) * 1000.0).Floor
  {
    if high - low > RESOLUTION then
      var mid := 0.5 * (low + high);
      Halving(low, high);
      if elev(mid) > min then Bisect(elev, min, mid, high) else Bisect(elev, min, low, mid)
    else high
  }

  lemma Halving(low: real, high: real)
    requires high - low > RESOLUTION
    ensures var mid := 0.5 * (low + high);
            && low < mid < high && high - mid == mid - low == (high - low) / 2.0
            && 0 <= ((high - mid) * 1000.0).Floor < ((high - low) * 1000.0).Floor
  {
    var x := (high - low) * 1000.0;
    assert (high - 0.5 * (low + high)) * 1000.0 == x / 2.0;
    assert x > 1.0 && x.Floor >= 1;
    if x >= 2.0 {
      assert x / 2.0 <= x - 1.0 < x.Floor as real;
    }
  }

  function Estimate(elev: real -> real, min: real, maxTime: real): Result<real> {
    if elev(0.0) < min then Err(ValueError)
    else
      var high := Bracket(elev, min, maxTime, MinReal(FIRST_GUESS, maxTime));
      if elev(high) > min then Ok(maxTime) else Ok(Bisect(elev, min, 0.0, high))
  }

  // ---- What the estimate means ----

  lemma {:induction false} BracketEnds(elev: real -> real, min: real, maxTime: real, high: real)
    requires MinReal(FIRST_GUESS, maxTime) <= high <= maxTime
    ensures var h := Bracket(elev, min, maxTime, high);
            high <= h <= maxTime && (elev(h) > min ==> h == maxTime)
    decreases if high < maxTime then ((maxTime - high) / FIRST_GUESS).Floor + 1 else 0
  {
    if elev(high) > min && high < maxTime {
      BracketEnds(elev, min, maxTime, MinReal(high * 2.0, maxTime));
    }
  }

  /** A time at which the satellite is not above the minimum, and one at most a millisecond earlier that is above
      it or is now. */
  predicate Crossing(elev: real -> real, min: real, t: real, u: real) {
    elev(t) <= min && 0.0 <= u <= t <= u + RESOLUTION && (u == 0.0 || elev(u) > min)
  }

  lemma {:induction false} BisectFinds(elev: real -> real, min: real, low: real, high: real) returns (u: real)
    requires 0.0 <= low <= high && elev(high) <= min && (low == 0.0 || elev(low) > min)
    ensures Crossing(elev, min, Bisect(elev, min, low, high), u) && low <= u && Bisect(elev, min, low, high) <= high
    decreases ((high - low) * 1000.0).Floor
  {
    if high - low > RESOLUTION {
      var mid := 0.5 * (low + high);
      Halving(low, high);
      if elev(mid) > min {
        u := BisectFinds(elev, min, mid, high);
      } else {
        u := BisectFinds(elev, min, low, mid);
      }
    } else {
      u := low;
    }
  }

  /** For any elevation and any positive limit: an error exactly when the satellite is already below the minimum;
      otherwise the limit, if it is still above the minimum then, or a crossing up to the limit. */
  lemma EstimateIsCrossing(elev: real -> real, min: real, maxTime: real) returns (u: real)
    requires maxTime > 0.0
    ensures Estimate(elev, min, maxTime).Err? <==> elev(0.0) < min
    ensures match Estimate(elev, min, maxTime)
            case Err(e) => e == ValueError
            case Ok(t) => t <= maxTime && (Crossing(elev, min, t, u) || (t == maxTime && elev(t) > min))
  {
    u := 0.0;
    var high := Bracket(elev, min, maxTime, MinReal(FIRST_GUESS, maxTime));
    BracketEnds(elev, min, maxTime, MinReal(FIRST_GUESS, maxTime));
    if elev(0.0) >= min && elev(high) <= min {
      u := BisectFinds(elev, min, 0.0, high);
    }
  }

  /** The first of the doubled times that is not before a time, or the limit. */
  function BracketPoint(setting: real, maxTime: real, high: real): (h: real)
    requires high >= MinReal(FIRST_GUESS, maxTime)
    ensures h >= high && (h >= setting || h >= maxTime)
    decreases if high < maxTime then ((maxTime - high) / FIRST_GUESS).Floor + 1 else 0
  {
    if high < setting && high < maxTime then BracketPoint(setting, maxTime, MinReal(high * 2.0, maxTime)) else high
  }

  /** The last time the estimate looks at, for a satellite that sets at a time. */
  function Horizon(setting: real, maxTime: real): real {
    BracketPoint(setting, maxTime, MinReal(FIRST_GUESS, maxTime))
  }

  /** The horizon is five minutes, or less than twice the setting time. */
  lemma {:induction false} HorizonBound(setting: real, maxTime: real, high: real)
    requires MinReal(FIRST_GUESS, maxTime) <= high <= maxTime && (high <= FIRST_GUESS || high < 2.0 * setting)
    ensures var h := BracketPoint(setting, maxTime, high);
            h <= maxTime && (h <= FIRST_GUESS || h < 2.0 * setting)
    decreases if high < maxTime then ((maxTime - high) / FIRST_GUESS).Floor + 1 else 0
  {
    if high < setting && high < maxTime {
      HorizonBound(setting, maxTime, MinReal(high * 2.0, maxTime));
    }
  }

  /** Up to a time the satellite is above the minimum exactly before it sets. */
  ghost predicate SetsBy(elev: real -> real, min: real, setting: real, until: real) {
    forall u | 0.0 <= u <= until :: elev(u) > min <==> u < setting
  }

  lemma {:induction false} BracketIsPoint(elev: real -> real, min: real, maxTime: real, setting: real, high: real)
    requires maxTime > 0.0 && high >= MinReal(FIRST_GUESS, maxTime)
    requires SetsBy(elev, min, setting, BracketPoint(setting, maxTime, high))
    ensures Bracket(elev, min, maxTime, high) == BracketPoint(setting, maxTime, high)
    decreases if high < maxTime then ((maxTime - high) / FIRST_GUESS).Floor + 1 else 0
  {
    assert elev(high) > min <==> high < setting;
    if high < setting && high < maxTime {
      BracketIsPoint(elev, min, maxTime, setting, MinReal(high * 2.0, maxTime));
    }
  }

  /** The estimate is the setting time or at most a millisecond later; or the limit, if the satellite sets after
      it. */
  ghost predicate FindsSetting(elev: real -> real, min: real, maxTime: real, setting: real) {
    var r := Estimate(elev, min, maxTime);
    && r.Ok?
    && if setting > maxTime then r.value == maxTime else setting <= r.value <= setting + RESOLUTION
  }

  /** A satellite that sets and does not rise again before the horizon is found, whatever it does later. */
  lemma SettingIsFound(elev: real -> real, min: real, maxTime: real, setting: real)
    requires maxTime > 0.0 && setting > 0.0 && SetsBy(elev, min, setting, Horizon(setting, maxTime))
    ensures FindsSetting(elev, min, maxTime, setting)
  {
    var high := Horizon(setting, maxTime);
    HorizonBound(setting, maxTime, MinReal(FIRST_GUESS, maxTime));
    BracketIsPoint(elev, min, maxTime, setting, MinReal(FIRST_GUESS, maxTime));
    assert elev(0.0) > min;
    assert elev(high) > min <==> high < setting;
    if elev(high) <= min {
      var u := BisectFinds(elev, min, 0.0, high);
      var t := Bisect(elev, min, 0.0, high);
      assert elev(t) > min <==> t < setting;
      assert elev(u) > min <==> u < setting;
    }
  }

  /** The satellite is above the minimum until it sets and not above it until it may rise again. */
  ghost predicate SetsThenRises(elev: real -> real, min: real, setting: real, rising: real) {
    && (forall u | 0.0 <= u < setting :: elev(u) > min)
    && forall u | setting <= u < rising :: elev(u) <= min
  }

  /** A satellite that is up again at the horizon, and stays up, is reported to stay for the whole time. */
  lemma {:induction false} RisenIsMissed(elev: real -> real, min: real, maxTime: real, setting: real, rising: real,
                                         high: real)
    requires MinReal(FIRST_GUESS, maxTime) <= high <= maxTime && high > 0.0 && setting > 0.0
    requires forall u | u >= 0.0 :: elev(u) > min <==> (u < setting || u >= rising)
    requires rising <= BracketPoint(setting, maxTime, high)
    ensures Bracket(elev, min, maxTime, high) == maxTime
    decreases if high < maxTime then ((maxTime - high) / FIRST_GUESS).Floor + 1 else 0
  {
    assert elev(high) > min;
    if high < maxTime {
      RisenIsMissed(elev, min, maxTime, setting, rising, MinReal(high * 2.0, maxTime));
    }
  }

  /** Exactly when the first setting is found, whatever the satellite does after it may rise again: it rises
      only behind the horizon, or the limit is within the millisecond. */
  lemma FirstSettingExact(min: real, maxTime: real, setting: real, rising: real)
    requires maxTime > 0.0 && 0.0 < setting < rising
    ensures (forall elev | SetsThenRises(elev, min, setting, rising) :: FindsSetting(elev, min, maxTime, setting))
            <==> rising > Horizon(setting, maxTime) || maxTime <= setting + RESOLUTION
  {
    HorizonBound(setting, maxTime, MinReal(FIRST_GUESS, maxTime));
    if rising > Horizon(setting, maxTime) {
      forall elev | SetsThenRises(elev, min, setting, rising) ensures FindsSetting(elev, min, maxTime, setting) {
        SettingIsFound(elev, min, maxTime, setting);
      }
    } else if maxTime <= setting + RESOLUTION {
      forall elev | SetsThenRises(elev, min, setting, rising) ensures FindsSetting(elev, min, maxTime, setting) {
        LimitIsNear(elev, min, maxTime, setting, rising);
      }
    } else {
      var elev := (u: real) => if u < setting || u >= rising then min + 1.0 else min;
      assert SetsThenRises(elev, min, setting, rising);
      RisenIsMissed(elev, min, maxTime, setting, rising, MinReal(FIRST_GUESS, maxTime));
      assert elev(maxTime) > min;
      assert Estimate(elev, min, maxTime) == Ok(maxTime);
      assert !FindsSetting(elev, min, maxTime, setting);
    }
  }

  lemma LimitIsNear(elev: real -> real, min: real, maxTime: real, setting: real, rising: real)
    requires 0.0 < setting < rising && 0.0 < maxTime <= setting + RESOLUTION && rising <= Horizon(setting, maxTime)
    requires SetsThenRises(elev, min, setting, rising)
    ensures FindsSetting(elev, min, maxTime, setting)
  {
    HorizonBound(setting, maxTime, MinReal(FIRST_GUESS, maxTime));
    var u := EstimateIsCrossing(elev, min, maxTime);
    assert elev(0.0) > min;
    var t := Estimate(elev, min, maxTime).value;
    assert 0.0 <= t < setting ==> elev(t) > min;
  }

  /** For instance a satellite that dips in the first five minutes but is up at their end: the estimate is a
      crossing after them. */
  lemma DipIsMissed(elev: real -> real, min: real, maxTime: real, dip: real)
    requires maxTime >= 600.0 && elev(0.0) >= min && 0.0 < dip < 300.0 && elev(dip) <= min
    requires elev(300.0) > min && elev(600.0) <= min
    ensures Estimate(elev, min, maxTime).Ok? && Estimate(elev, min, maxTime).value > 300.0 > dip
  {
    assert Bracket(elev, min, maxTime, 600.0) == 600.0;
    assert Bracket(elev, min, maxTime, 300.0) == 600.0;
    var u := BisectFinds(elev, min, 300.0, 600.0);
    assert Bisect(elev, min, 0.0, 600.0) == Bisect(elev, min, 300.0, 600.0);
  }

  // ---- The loops ----

  method FindBracket(elev: real -> real, min: real, maxTime: real) returns (high: real)
    ensures high == Bracket(elev, min, maxTime, MinReal(FIRST_GUESS, maxTime))
  {
    high := MinReal(FIRST_GUESS, maxTime);
    while elev(high) > min && high < maxTime
      invariant high >= MinReal(FIRST_GUESS, maxTime)
      invariant Bracket(elev, min, maxTime, high) == Bracket(elev, min, maxTime, MinReal(FIRST_GUESS, maxTime))
      decreases if high < maxTime then ((maxTime - high) / FIRST_GUESS).Floor + 1 else 0
    {
      high := MinReal(high * 2.0, maxTime);
    }
  }

  method FindCrossing(elev: real -> real, min: real, bracket: real) returns (high: real)
    ensures high == Bisect(elev, min, 0.0, bracket)
  {
    var low := 0.0;
    high := bracket;
    while high - low > RESOLUTION
      invariant Bisect(elev, min, low, high) == Bisect(elev, min, 0.0, bracket)
      decreases ((high - low) * 1000.0).Floor
    {
      var mid := 0.5 * (low + high);
      Halving(low, high);
      if elev(mid) > min {
        low := mid;
      } else {
        high := mid;
      }
    }
  }

  method EstimateTimeUntilDisconnection(elev: real -> real, min: real, maxTime: real) returns (r: Result<real>)
    ensures r == Estimate(elev, min, maxTime)
  {
    if elev(0.0) < min {
      return Err(ValueError);
    }
    var high := FindBracket(elev, min, maxTime);
    if elev(high) > min {
      return Ok(maxTime);
    }
    var t := FindCrossing(elev, min, high);
    return Ok(t);
  }
}
