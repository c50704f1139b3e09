/**
 * The unitized portfolio's value per unit. The reference visits every day: value at the
 * start of the day, units issued or redeemed for the day's cashflow, value at the end. The
 * application visits only the days that have a cashflow and fills the runs in between.
 */
module NavCurve {
  import opened UnitReplay

  datatype Outcome<+T> = Done(value: T) | DivisionByZero

  /** Portfolio units outstanding and the value of one. */
  datatype Fund = Fund(units: real, nav: real)

  datatype Progress = Progress(fund: Fund, curve: seq<real>)

  const OPENING := Fund(0.0, 100.0)

  /** One day: revalue, issue or redeem at that value, revalue. A zero value cannot be divided by. */
  function DayStep(s: Fund, mvSod: real, cash: real, mvEod: real): Outcome<Fund> {
    var opening := if s.units > 0.0 then mvSod / s.units else s.nav;
    if cash != 0.0 && opening == 0.0 then DivisionByZero
    else
      var units := if cash > 0.0 then s.units + cash / opening
                   else if cash < 0.0 then MaxZero(s.units - (-cash) / opening)
                   else s.units;
      Done(Fund(units, if units > 0.0 then mvEod / units else opening))
  }

  datatype Values = Values(sod: seq<real>, cash: seq<real>, eod: seq<real>) {
    predicate Valid(days: nat) {
      |sod| == days && |cash| == days && |eod| == days
    }
  }

  /** The state after the first `k` days, and the curve drawn so far. */
  function After(v: Values, days: nat, k: nat): (r: Outcome<Progress>)
    requires v.Valid(days) && k <= days
    ensures r.Done? ==> |r.value.curve| == k
  {
    if k == 0 then Done(Progress(OPENING, []))
    else
      match After(v, days, k - 1)
      case DivisionByZero => DivisionByZero
      case Done(p) =>
        match DayStep(p.fund, v.sod[k - 1], v.cash[k - 1], v.eod[k - 1])
        case DivisionByZero => DivisionByZero
        case Done(f) => Done(Progress(f, p.curve + [f.nav]))
  }

  lemma {:induction false} StaysFailed(v: Values, days: nat, k: nat, m: nat)
    requires v.Valid(days) && k <= m <= days && After(v, days, k).DivisionByZero?
    ensures After(v, days, m).DivisionByZero?
    decreases m - k
  {
    if k < m {
      StaysFailed(v, days, k, m - 1);
    }
  }

  /** The recorded value on a day without cashflow, given the state before it. */
  function Idle(s: Fund, mvEod: real): real {
    if s.units > 0.0 then mvEod / s.units else s.nav
  }

  /** The values recorded over a run of such days. */
  function Filled(s: Fund, eod: seq<real>, from: nat, end: nat): (r: seq<real>)
    requires from <= end <= |eod|
    ensures |r| == end - from && forall i | 0 <= i < |r| :: r[i] == Idle(s, eod[from + i])
  {
    seq(end - from, i requires 0 <= i < end - from => Idle(s, eod[from + i]))
  }

  /** A run without cashflow keeps the units and is drawn from the closing values alone. */
  lemma {:induction false} Run(v: Values, days: nat, from: nat, end: nat, s: Fund, curve: seq<real>)
    requires v.Valid(days) && from <= end <= days && After(v, days, from) == Done(Progress(s, curve))
    requires forall d | from <= d < end :: v.cash[d] == 0.0
    ensures After(v, days, end) == Done(Progress(
      Fund(s.units, if from < end then Idle(s, v.eod[end - 1]) else s.nav), curve + Filled(s, v.eod, from, end)))
    decreases end
  {
    if from < end {
      Run(v, days, from, end - 1, s, curve);
      assert curve + Filled(s, v.eod, from, end)
          == (curve + Filled(s, v.eod, from, end - 1)) + [Idle(s, v.eod[end - 1])];
    } else {
      assert curve + Filled(s, v.eod, from, end) == curve;
    }
  }

  /** Days with a cashflow, in order. */
  function CashDays(cash: seq<real>): (r: seq<nat>)
    ensures Increasing(r) && forall i | 0 <= i < |r| :: r[i] < |cash| && cash[r[i]] != 0.0
    ensures forall d | 0 <= d < |cash| && cash[d] != 0.0 :: d in r
  {
    if cash == [] then []
    else
      var d := |cash| - 1;
      var r := CashDays(cash[..d]);
      if cash[d] != 0.0 then
        assert forall x | 0 <= x < |cash| && cash[x] != 0.0 && x < d :: cash[..d][x] != 0.0;
        r + [d]
      else
        assert forall x | 0 <= x < |cash| && cash[x] != 0.0 :: cash[..d][x] != 0.0;
        r
  }

  /** Between neighbouring cashflow days there is none. */
  lemma QuietBetween(cash: seq<real>, t: nat, d: nat)
    requires t <= |CashDays(cash)| && d < |cash|
    requires t > 0 ==> CashDays(cash)[t - 1] < d
    requires t < |CashDays(cash)| ==> d < CashDays(cash)[t]
    ensures cash[d] == 0.0
  {
    hide CashDays;
  }

  /** A cashflow day, in the application's order: start of day, issue or redeem, end of day. */
  method TradeDay(portUnits: real, portNav: real, sod: real, net: real, eod: real)
    returns (ok: bool, units: real, nav: real)
    requires net != 0.0
    ensures DayStep(Fund(portUnits, portNav), sod, net, eod) == if ok then Done(Fund(units, nav)) else DivisionByZero
  {
    units, nav := portUnits, portNav;
    if units > 0.0 {
      nav := sod / units;
    }
    if nav == 0.0 {
      return false, units, nav;
    }
    if net > 0.0 {
      units := units + net / nav;
    } else if net < 0.0 {
      units := units - (-net) / nav;
      units := MaxZero(units);
    }
    if units > 0.0 {
      nav := eod / units;
    }
    ok := true;
  }

  lemma AfterNext(v: Values, days: nat, d: nat, s: Fund, curve: seq<real>)
    requires v.Valid(days) && d < days && After(v, days, d) == Done(Progress(s, curve))
    ensures After(v, days, d + 1) ==
      match DayStep(s, v.sod[d], v.cash[d], v.eod[d])
      case DivisionByZero => DivisionByZero
      case Done(f) => Done(Progress(f, curve + [f.nav]))
  {}

  /** The application's curve: step over cashflow days, fill the runs between them. */
  method PortfolioCurve(v: Values, days: nat) returns (r: Outcome<seq<real>>)
    requires v.Valid(days)
    ensures r == match After(v, days, days) case DivisionByZero => DivisionByZero case Done(p) => Done(p.curve)
  {
    hide CashDays, After, DayStep;
    var curve: seq<real> := [];
    var portUnits, portNav := 0.0, 100.0;
    var cursor, t := 0, 0;
    var cashDays := CashDays(v.cash);
    AfterNone(v, days);
    while t < |cashDays|
      invariant 0 <= t <= |cashDays| && 0 <= cursor <= days
      invariant cursor == if t == 0 then 0 else cashDays[t - 1] + 1
      invariant After(v, days, cursor) == Done(Progress(Fund(portUnits, portNav), curve)) && |curve| == cursor
    {
      var ck := cashDays[t];
      assert cursor <= ck;
      forall d | cursor <= d < ck ensures v.cash[d] == 0.0 {
        QuietBetween(v.cash, t, d);
      }
      Run(v, days, cursor, ck, Fund(portUnits, portNav), curve);
      if ck > cursor {
        curve := curve + Filled(Fund(portUnits, portNav), v.eod, cursor, ck);
        if portUnits > 0.0 {
          portNav := curve[ck - 1];
        }
      } else {
        assert curve + Filled(Fund(portUnits, portNav), v.eod, cursor, ck) == curve;
      }
      AfterNext(v, days, ck, Fund(portUnits, portNav), curve);
      var ok;
      ok, portUnits, portNav := TradeDay(portUnits, portNav, v.sod[ck], v.cash[ck], v.eod[ck]);
      if !ok {
        StaysFailed(v, days, ck + 1, days);
        return DivisionByZero;
      }
      curve := curve + [portNav];
      cursor, t := ck + 1, t + 1;
    }
    forall d | cursor <= d < days ensures v.cash[d] == 0.0 {
      QuietBetween(v.cash, t, d);
    }
    Run(v, days, cursor, days, Fund(portUnits, portNav), curve);
    return Done(curve + Filled(Fund(portUnits, portNav), v.eod, cursor, days));
  }

  lemma AfterNone(v: Values, days: nat)
    requires v.Valid(days)
    ensures After(v, days, 0) == Done(Progress(OPENING, []))
  {}
}
