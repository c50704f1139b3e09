/**
 * The whole simulation: a day-by-day loop as the reference, the application's three-layer
 * computation proved to draw the same curve, and what the curve means.
 */
module PortfolioSimulation {
  import opened Common
  import opened UnitReplay
  import opened NavCurve

  // ----- prices -----

  datatype Quote = Quote(day: int, nav: real)

  function Days(s: seq<Quote>): (r: seq<int>)
    ensures |r| == |s| && forall i | 0 <= i < |s| :: r[i] == s[i].day
  {
    seq(|s|, i requires 0 <= i < |s| => s[i].day)
  }

  /** The latest price on or before `day`; the first one when there is none. */
  function PriceOn(s: seq<Quote>, day: int): real
    requires s != []
  {
    if |s| == 1 || s[|s| - 1].day <= day then s[|s| - 1].nav else PriceOn(s[..|s| - 1], day)
  }

  /** One sorted search, clamped at the first entry, finds that price. */
  lemma {:induction false} SearchFindsPrice(s: seq<Quote>, day: int)
    requires s != []
    ensures var c := CountUpTo(Days(s), day); s[if c == 0 then 0 else c - 1].nav == PriceOn(s, day)
  {
    if |s| > 1 && s[|s| - 1].day > day {
      SearchFindsPrice(s[..|s| - 1], day);
      assert Days(s)[..|s| - 1] == Days(s[..|s| - 1]);
    } else if |s| == 1 && s[0].day > day {
      assert CountUpTo(Days(s)[..0], day) == 0;
    }
  }

  function Dot(u: seq<real>, p: seq<real>): real
    requires |u| == |p|
  {
    if u == [] then 0.0 else Dot(u[..|u| - 1], p[..|u| - 1]) + u[|u| - 1] * p[|u| - 1]
  }

  /** One row of prices per day, one column per fund. */
  predicate Prices(navs: seq<seq<real>>, funds: nat) {
    forall d | 0 <= d < |navs| :: |navs[d]| == funds
  }

  // ----- the reference: every step on every day -----

  datatype Evening = Evening(units: seq<real>, fund: Fund, curve: seq<real>)

  /** The state after the first `k` days of the day-by-day loop. */
  function LoopTo(ledger: seq<Row>, navs: seq<seq<real>>, funds: nat, k: nat): (r: Outcome<Evening>)
    requires Fits(ledger, funds) && Prices(navs, funds) && k <= |navs|
    ensures r.Done? ==> |r.value.units| == funds && |r.value.curve| == k
  {
    if k == 0 then Done(Evening(NoUnits(funds), OPENING, []))
    else
      match LoopTo(ledger, navs, funds, k - 1)
      case DivisionByZero => DivisionByZero
      case Done(e) =>
        var book := ApplyAll(OfDay(ledger, k - 1), Book(e.units, 0.0));
        match DayStep(e.fund, Dot(e.units, navs[k - 1]), book.cash, Dot(book.units, navs[k - 1]))
        case DivisionByZero => DivisionByZero
        case Done(f) => Done(Evening(book.units, f, e.curve + [f.nav]))
  }

  // ----- the application -----

  /** The daily values are those of the units held on the day, at the day's prices. */
  ghost predicate ValuesOf(v: Values, ledger: seq<Row>, navs: seq<seq<real>>, funds: nat)
    requires Fits(ledger, funds) && Prices(navs, funds)
  {
    && v.Valid(|navs|)
    && forall d | 0 <= d < |navs| ::
         && v.sod[d] == Dot(UnitsAt(ledger, funds, d - 1), navs[d])
         && v.cash[d] == DayBook(ledger, funds, d).cash
         && v.eod[d] == Dot(UnitsAt(ledger, funds, d), navs[d])
  }

  lemma {:induction false} LayersAreTheLoop(v: Values, ledger: seq<Row>, navs: seq<seq<real>>, funds: nat, k: nat)
    requires Fits(ledger, funds) && Prices(navs, funds) && ValuesOf(v, ledger, navs, funds) && k <= |navs|
    ensures LoopTo(ledger, navs, funds, k) ==
      match After(v, |navs|, k)
      case DivisionByZero => DivisionByZero
      case Done(p) => Done(Evening(UnitsAt(ledger, funds, k - 1), p.fund, p.curve))
  {
    hide OfDay, ApplyAll, DayStep, Dot;
    if k > 0 {
      LayersAreTheLoop(v, ledger, navs, funds, k - 1);
    }
  }

  /** Unit layer, value layer, then the curve, as the application computes them. */
  method Simulate(ledger: seq<Row>, navs: seq<seq<real>>, funds: nat) returns (r: Outcome<seq<real>>)
    requires Fits(ledger, funds) && Prices(navs, funds)
    ensures r == match LoopTo(ledger, navs, funds, |navs|)
                 case DivisionByZero => DivisionByZero
                 case Done(e) => Done(e.curve)
  {
    hide After, LoopTo, ApplyAll, OfDay;
    var days := |navs|;
    var unitsEod, cashflow := ReplayLedger(ledger, funds, days);
    var unitsSod := if days == 0 then [] else [NoUnits(funds)] + unitsEod[..days - 1];
    var sod := seq(days, d requires 0 <= d < days && |unitsSod[d]| == |navs[d]| => Dot(unitsSod[d], navs[d]));
    var eod := seq(days, d requires 0 <= d < days && |unitsEod[d]| == |navs[d]| => Dot(unitsEod[d], navs[d]));
    var v := Values(sod, cashflow, eod);
    LayersAreTheLoop(v, ledger, navs, funds, days);
    r := PortfolioCurve(v, days);
  }

  // ----- what the curve means -----

  /** Outstanding units times their value is the market value of the holding, every evening with units. */
  lemma UnitsTimesNavIsMarketValue(ledger: seq<Row>, navs: seq<seq<real>>, funds: nat, k: nat)
    requires Fits(ledger, funds) && Prices(navs, funds) && 0 < k <= |navs|
    requires LoopTo(ledger, navs, funds, k).Done? && LoopTo(ledger, navs, funds, k).value.fund.units > 0.0
    ensures var e := LoopTo(ledger, navs, funds, k).value;
      e.fund.units * e.curve[k - 1] == Dot(e.units, navs[k - 1])
  {
    hide OfDay, ApplyAll, Dot;
  }

  lemma {:induction false} DotUpdate(u: seq<real>, p: seq<real>, j: nat, x: real)
    requires |u| == |p| && j < |u|
    ensures Dot(u[j := x], p) == Dot(u, p) + (x - u[j]) * p[j]
  {
    var n := |u| - 1;
    if j < n {
      assert u[j := x][..n] == u[..n][j := x];
      DotUpdate(u[..n], p[..n], j, x);
    } else {
      assert u[j := x][..n] == u[..n];
    }
  }

  lemma {:induction false} DotPositive(u: seq<real>, p: seq<real>, q: seq<real>)
    requires |u| == |p| == |q|
    requires forall i | 0 <= i < |u| :: u[i] >= 0.0 && p[i] > 0.0 && q[i] > 0.0
    ensures Dot(u, q) >= 0.0
    ensures Dot(u, p) > 0.0 ==> Dot(u, q) > 0.0
  {
    if u != [] {
      DotPositive(u[..|u| - 1], p[..|u| - 1], q[..|u| - 1]);
    }
  }

  lemma {:induction false} HoldingsAreNotNegative(rows: seq<Row>, b: Book)
    requires Fits(rows, |b.units|) && forall i | 0 <= i < |b.units| :: b.units[i] >= 0.0
    ensures forall i | 0 <= i < |b.units| :: ApplyAll(rows, b).units[i] >= 0.0
  {
    hide MentionsAny;
    if rows != [] {
      HoldingsAreNotNegative(rows[..|rows| - 1], b);
    }
  }

  lemma {:induction false} UnitsAreNotNegative(ledger: seq<Row>, funds: nat, day: int)
    requires Fits(ledger, funds) && day >= -1
    ensures forall i | 0 <= i < funds :: UnitsAt(ledger, funds, day)[i] >= 0.0
    decreases day + 1
  {
    if day >= 0 {
      UnitsAreNotNegative(ledger, funds, day - 1);
      HoldingsAreNotNegative(OfDay(ledger, day), Book(UnitsAt(ledger, funds, day - 1), 0.0));
    }
  }

  // ----- what one day does, with and without portfolio units -----

  /** What `v` portfolio units are issued and redeemed at on day `k`: the opening value or the carried one. */
  predicate IsDayValue(ledger: seq<Row>, navs: seq<seq<real>>, funds: nat, e: Evening, k: nat, v: real)
    requires Fits(ledger, funds) && Prices(navs, funds) && k < |navs| && |e.curve| == k
  {
    if e.fund.units > 0.0 then e.fund.units * v == Dot(UnitsAt(ledger, funds, k - 1), navs[k])
    else v == if k == 0 then 100.0 else e.curve[k - 1]
  }

  /**
   * What a day at value `v` does: units change by the cash at that value, redemption stops at
   * zero units, units outstanding are worth the holding in the evening, and without any the
   * day's value is carried on.
   */
  predicate IsStep(s: Fund, v: real, cash: real, eod: real, n: Fund) {
    && (cash == 0.0 ==> n.units == s.units)
    && (cash > 0.0 ==> (n.units - s.units) * v == cash)
    && (cash < 0.0 ==>
          && n.units >= 0.0
          && (n.units > 0.0 ==> (n.units - s.units) * v == cash)
          && (n.units == 0.0 && v > 0.0 ==> s.units * v + cash <= 0.0)
          && (n.units == 0.0 && v < 0.0 ==> s.units * v + cash >= 0.0))
    && if n.units > 0.0 then n.units * n.nav == eod else n.nav == v
  }

  /** Day `k`, from the evening before to its outcome: only cash at a value of zero fails. */
  predicate IsDay(
    ledger: seq<Row>, navs: seq<seq<real>>, funds: nat, e: Evening, k: nat, v: real, r: Outcome<Evening>)
    requires Fits(ledger, funds) && Prices(navs, funds) && k < |navs| && |e.curve| == k
  {
    var cash := DayBook(ledger, funds, k).cash;
    && (r.DivisionByZero? <==> cash != 0.0 && v == 0.0)
    && (r.Done? ==>
          var n := r.value;
          && n.units == UnitsAt(ledger, funds, k) && |n.curve| == k + 1 && n.curve[..k] == e.curve
          && IsStep(e.fund, v, cash, Dot(UnitsAt(ledger, funds, k), navs[k]), Fund(n.fund.units, n.curve[k])))
  }

  lemma {:induction false} FundCarriesLastValue(ledger: seq<Row>, navs: seq<seq<real>>, funds: nat, k: nat)
    requires Fits(ledger, funds) && Prices(navs, funds) && k <= |navs| && LoopTo(ledger, navs, funds, k).Done?
    ensures var e := LoopTo(ledger, navs, funds, k).value;
      && e.fund.nav == (if k == 0 then 100.0 else e.curve[k - 1])
      && (k == 0 ==> e.fund.units == 0.0)
  {
    hide OfDay, ApplyAll, DayStep, Dot;
  }

  /** Every day of the loop, in every state it reaches, at the one value there is for that day. */
  lemma EveryDayIsADay(ledger: seq<Row>, navs: seq<seq<real>>, funds: nat, k: nat, v: real)
    requires Fits(ledger, funds) && Prices(navs, funds) && k < |navs| && LoopTo(ledger, navs, funds, k).Done?
    requires IsDayValue(ledger, navs, funds, LoopTo(ledger, navs, funds, k).value, k, v)
    ensures IsDay(ledger, navs, funds, LoopTo(ledger, navs, funds, k).value, k, v, LoopTo(ledger, navs, funds, k + 1))
  {
    hide OfDay, ApplyAll, Dot, DayStep, IsStep;
    var e := LoopTo(ledger, navs, funds, k).value;
    LoopHoldsUnits(ledger, navs, funds, k);
    FundCarriesLastValue(ledger, navs, funds, k);
    var sod := Dot(UnitsAt(ledger, funds, k - 1), navs[k]);
    if e.fund.units > 0.0 {
      SameQuotient(sod, e.fund.units, v);
    }
    StepAtValue(e.fund, v, sod, DayBook(ledger, funds, k).cash, Dot(UnitsAt(ledger, funds, k), navs[k]));
  }

  lemma StepAtValue(s: Fund, v: real, sod: real, cash: real, eod: real)
    requires v == if s.units > 0.0 then sod / s.units else s.nav
    ensures var r := DayStep(s, sod, cash, eod);
      && (r.DivisionByZero? <==> cash != 0.0 && v == 0.0)
      && (r.Done? ==> IsStep(s, v, cash, eod, r.value))
  {
    hide IsStep;
    var r := DayStep(s, sod, cash, eod);
    if r.Done? {
      var n := r.value;
      if n.units > 0.0 {
        Quotient(eod, n.units);
      }
      if cash == 0.0 {
        StepWithoutCash(s, v, eod, n);
      } else {
        var q := cash / v;
        CashBuys(cash, v, q);
        StepWithCash(s, v, cash, q, eod, n);
      }
    }
  }

  lemma CashBuys(cash: real, v: real, q: real)
    requires v != 0.0 && q == cash / v
    ensures q * v == cash && (-cash) / v == -q
  {
    assert q * v == cash;
    assert (-q) * v == -cash;
  }

  lemma StepWithoutCash(s: Fund, v: real, eod: real, n: Fund)
    requires n.units == s.units
    requires if n.units > 0.0 then n.units * n.nav == eod else n.nav == v
    ensures IsStep(s, v, 0.0, eod, n)
  {}

  lemma StepWithCash(s: Fund, v: real, cash: real, q: real, eod: real, n: Fund)
    requires v != 0.0 && cash != 0.0 && q * v == cash
    requires n.units == if cash > 0.0 then s.units + q else MaxZero(s.units + q)
    requires if n.units > 0.0 then n.units * n.nav == eod else n.nav == v
    ensures IsStep(s, v, cash, eod, n)
  {
    var x := s.units + q;
    assert x * v == s.units * v + cash;
    assert (x - s.units) * v == cash;
    SignOfProduct(x, v);
  }

  lemma SignOfProduct(x: real, y: real)
    ensures x <= 0.0 && y > 0.0 ==> x * y <= 0.0
    ensures x <= 0.0 && y < 0.0 ==> x * y >= 0.0
  {}

  /**
   * After a full exit, and before the first deposit, the last value is carried: it is what
   * idle days record, what money out leaves, and what the next deposit is issued at.
   */
  lemma ValueIsCarriedWithoutUnits(ledger: seq<Row>, navs: seq<seq<real>>, funds: nat, k: nat)
    requires Fits(ledger, funds) && Prices(navs, funds) && k < |navs| && LoopTo(ledger, navs, funds, k).Done?
    requires LoopTo(ledger, navs, funds, k).value.fund.units == 0.0
    ensures var v := if k == 0 then 100.0 else LoopTo(ledger, navs, funds, k).value.curve[k - 1];
      var cash := DayBook(ledger, funds, k).cash; var next := LoopTo(ledger, navs, funds, k + 1);
      && (next.DivisionByZero? <==> cash != 0.0 && v == 0.0)
      && (next.Done? && (cash == 0.0 || (cash < 0.0 && v > 0.0)) ==>
            next.value.fund.units == 0.0 && next.value.curve[k] == v)
      && (next.Done? && cash > 0.0 ==> next.value.fund.units * v == cash)
  {
    hide LoopTo, OfDay, ApplyAll, Dot;
    var e := LoopTo(ledger, navs, funds, k).value;
    var v := if k == 0 then 100.0 else e.curve[k - 1];
    EveryDayIsADay(ledger, navs, funds, k, v);
    var next := LoopTo(ledger, navs, funds, k + 1);
    if next.Done? && v > 0.0 {
      SignOfProduct(-next.value.fund.units, v);
      assert next.value.fund.units > 0.0 ==> next.value.fund.units * v > 0.0;
    }
  }

  // ----- what a row moves besides cash -----

  /** Value a row adds to the holding at this price, less the money it moves in. */
  function Slip(r: Row, held: real, price: real): real {
    (Held(r, held) - held) * price - Cash(r)
  }

  /** Where slips come from: units without money, money without units, and units sold but not held. */
  lemma SlipByKind(r: Row, held: real, price: real)
    requires held >= 0.0
    ensures Slip(r, held, price) ==
      if IsUnitsOnly(r) then Abs(r.units) * price
      else if IsIn(r) then Abs(r.units) * price - Money(r)
      else if IsOut(r) then Money(r) - Abs(r.units) * price + MaxZero(Abs(r.units) - held) * price
      else if MentionsAny(r.kind, CHARGE) || MentionsAny(r.kind, PAYOUT) then Money(r)
      else 0.0
  {
    hide MentionsAny, Money;
    var u := Abs(r.units);
    if IsOut(r) && u > held {
      assert (0.0 - held) * price == -u * price + (u - held) * price;
    }
  }

  /** The slips of rows replayed one after the other. */
  function SlipOf(rows: seq<Row>, b: Book, p: seq<real>): real
    requires Fits(rows, |b.units|) && |p| == |b.units|
  {
    if rows == [] then 0.0
    else
      var init, r := rows[..|rows| - 1], rows[|rows| - 1];
      SlipOf(init, b, p)
      + match r.fund
        case None => 0.0
        case Some(j) => Slip(r, ApplyAll(init, b).units[j], p[j])
  }

  /** Any rows move the holding's value by their cash and their slips. */
  lemma {:induction false} RowsMoveValueByCashAndSlip(rows: seq<Row>, b: Book, p: seq<real>)
    requires Fits(rows, |b.units|) && |p| == |b.units|
    ensures Dot(ApplyAll(rows, b).units, p) - Dot(b.units, p) == ApplyAll(rows, b).cash - b.cash + SlipOf(rows, b, p)
  {
    hide Held, Cash, Dot;
    if rows != [] {
      var init, r := rows[..|rows| - 1], rows[|rows| - 1];
      RowsMoveValueByCashAndSlip(init, b, p);
      var mid := ApplyAll(init, b);
      if r.fund.Some? {
        var j := r.fund.value;
        DotUpdate(mid.units, p, j, Held(r, mid.units[j]));
      }
    }
  }

  /** Every row buys, or sells no more than is held, at its fund's price of the day. */
  predicate Priced(rows: seq<Row>, b: Book, p: seq<real>)
    requires Fits(rows, |b.units|) && |p| == |b.units|
  {
    rows == [] ||
    (var init, r := rows[..|rows| - 1], rows[|rows| - 1];
     && Priced(init, b, p)
     && (r.fund.Some? ==>
           && !IsUnitsOnly(r)
           && (IsIn(r) || (IsOut(r) && Abs(r.units) <= ApplyAll(init, b).units[r.fund.value]))
           && Money(r) == Abs(r.units) * p[r.fund.value]))
  }

  lemma {:induction false} PricedRowsDoNotSlip(rows: seq<Row>, b: Book, p: seq<real>)
    requires Fits(rows, |b.units|) && |p| == |b.units| && Priced(rows, b, p)
    requires forall i | 0 <= i < |b.units| :: b.units[i] >= 0.0
    ensures SlipOf(rows, b, p) == 0.0
  {
    hide MentionsAny, Money, Slip, Held;
    if rows != [] {
      var init, r := rows[..|rows| - 1], rows[|rows| - 1];
      PricedRowsDoNotSlip(init, b, p);
      HoldingsAreNotNegative(init, b);
      if r.fund.Some? {
        SlipByKind(r, ApplyAll(init, b).units[r.fund.value], p[r.fund.value]);
      }
    }
  }

  /**
   * Issuing or redeeming at the opening value leaves that value unchanged exactly when the
   * closing value is the opening one plus the cash, or when all units are redeemed.
   */
  lemma CashIsNeutralExactly(s: Fund, sod: real, cash: real, eod: real)
    requires s.units > 0.0 && sod > 0.0
    ensures DayStep(s, sod, cash, eod).Done?
    ensures DayStep(s, sod, cash, eod).value.units > 0.0 <==> sod + cash > 0.0
    ensures DayStep(s, sod, cash, eod).value.nav == sod / s.units
      <==> eod == sod + cash || sod + cash <= 0.0
  {
    var u := s.units;
    var nav := sod / u;
    Quotient(sod, u);
    var units := u + cash / nav;
    Quotient(cash, nav);
    assert cash < 0.0 ==> (-cash) / nav == -(cash / nav);
    assert units * nav == u * nav + (cash / nav) * nav;
    assert units * nav == sod + cash;
    if sod + cash > 0.0 {
      PositiveFactor(units, nav);
      Quotient(eod, units);
      if eod == sod + cash {
        SameQuotient(eod, units, nav);
      }
    } else {
      NoFactor(units, nav);
    }
  }

  lemma NoFactor(x: real, y: real)
    requires y > 0.0 && x * y <= 0.0
    ensures x <= 0.0
  {}

  lemma Quotient(x: real, y: real)
    requires y > 0.0
    ensures (x / y) * y == x && (x > 0.0 ==> x / y > 0.0)
  {}

  lemma PositiveFactor(x: real, y: real)
    requires y > 0.0 && x * y > 0.0
    ensures x > 0.0
  {}

  lemma SameQuotient(x: real, y: real, z: real)
    requires y > 0.0 && y * z == x
    ensures x / y == z
  {}

  /** Day `d`'s trades are all made at day `d`'s prices. */
  predicate PricedDay(ledger: seq<Row>, navs: seq<seq<real>>, funds: nat, d: nat)
    requires Fits(ledger, funds) && Prices(navs, funds) && d < |navs|
  {
    Priced(OfDay(ledger, d), Book(UnitsAt(ledger, funds, d - 1), 0.0), navs[d])
  }

  /** What day `d`'s rows move besides cash. */
  function DaySlip(ledger: seq<Row>, navs: seq<seq<real>>, funds: nat, d: nat): real
    requires Fits(ledger, funds) && Prices(navs, funds) && d < |navs|
  {
    SlipOf(OfDay(ledger, d), Book(UnitsAt(ledger, funds, d - 1), 0.0), navs[d])
  }

  /** Yesterday's units at day `d`'s prices, and with day `d`'s net cashflow. */
  function OpeningAt(ledger: seq<Row>, navs: seq<seq<real>>, funds: nat, d: nat): real
    requires Fits(ledger, funds) && Prices(navs, funds) && d < |navs|
  {
    Dot(UnitsAt(ledger, funds, d - 1), navs[d])
  }

  function FundedAt(ledger: seq<Row>, navs: seq<seq<real>>, funds: nat, d: nat): real
    requires Fits(ledger, funds) && Prices(navs, funds) && d < |navs|
  {
    OpeningAt(ledger, navs, funds, d) + DayBook(ledger, funds, d).cash
  }

  /** Market value on the evening of day `d`. */
  function ValueAt(ledger: seq<Row>, navs: seq<seq<real>>, funds: nat, d: nat): real
    requires Fits(ledger, funds) && Prices(navs, funds) && d < |navs|
  {
    Dot(UnitsAt(ledger, funds, d), navs[d])
  }

  lemma {:induction false} LoopHoldsUnits(ledger: seq<Row>, navs: seq<seq<real>>, funds: nat, k: nat)
    requires Fits(ledger, funds) && Prices(navs, funds) && k <= |navs| && LoopTo(ledger, navs, funds, k).Done?
    ensures LoopTo(ledger, navs, funds, k).value.units == UnitsAt(ledger, funds, k - 1)
  {
    hide OfDay, ApplyAll, DayStep, Dot;
    if k > 0 {
      LoopHoldsUnits(ledger, navs, funds, k - 1);
    }
  }

  lemma RatioOfQuotients(x: real, y: real, u: real)
    requires x > 0.0 && y > 0.0 && u > 0.0
    ensures (x / u) / (y / u) == x / y
  {
    Quotient(x, u);
    Quotient(y, u);
    Quotient(x, y);
    var a, b, c := x / u, y / u, x / y;
    assert (c * b) * u == c * (b * u);
    assert (c * b) * u == a * u;
    SameFactor(c * b, a, u);
    SameQuotient(a, b, c);
  }

  lemma SameFactor(x: real, y: real, u: real)
    requires u > 0.0 && x * u == y * u
    ensures x == y
  {
    SameQuotient(y * u, u, y);
    SameQuotient(x * u, u, x);
  }

  /** The step of the curve into day `d` is the price change of the units held the evening before. */
  predicate FollowsPrices(ledger: seq<Row>, navs: seq<seq<real>>, funds: nat, curve: seq<real>, d: nat)
    requires Fits(ledger, funds) && Prices(navs, funds) && 1 <= d < |navs| && d < |curve|
    requires ValueAt(ledger, navs, funds, d - 1) > 0.0
  {
    && curve[d - 1] > 0.0
    && curve[d] / curve[d - 1]
       == Dot(UnitsAt(ledger, funds, d - 1), navs[d]) / Dot(UnitsAt(ledger, funds, d - 1), navs[d - 1])
  }

  /** The day opens with a value, and its cash does not redeem all portfolio units. */
  predicate StaysFunded(ledger: seq<Row>, navs: seq<seq<real>>, funds: nat, d: nat)
    requires Fits(ledger, funds) && Prices(navs, funds) && d < |navs|
  {
    && d >= 1 && ValueAt(ledger, navs, funds, d - 1) > 0.0
    && OpeningAt(ledger, navs, funds, d) > 0.0 && FundedAt(ledger, navs, funds, d) > 0.0
  }

  /**
   * One day on: the value per unit moves by the price change of the units already held
   * exactly when the day's rows do not slip, or the day's cash redeems all portfolio units.
   */
  lemma NextDayFollowsPricesExactly(ledger: seq<Row>, navs: seq<seq<real>>, funds: nat, d: nat)
    requires Fits(ledger, funds) && Prices(navs, funds) && 1 <= d < |navs|
    requires LoopTo(ledger, navs, funds, d).Done? && LoopTo(ledger, navs, funds, d).value.fund.units > 0.0
    requires ValueAt(ledger, navs, funds, d - 1) > 0.0 && OpeningAt(ledger, navs, funds, d) > 0.0
    ensures LoopTo(ledger, navs, funds, d + 1).Done?
    ensures var e := LoopTo(ledger, navs, funds, d + 1).value;
      && (e.fund.units > 0.0 <==> FundedAt(ledger, navs, funds, d) > 0.0)
      && (FollowsPrices(ledger, navs, funds, e.curve, d)
          <==> DaySlip(ledger, navs, funds, d) == 0.0 || FundedAt(ledger, navs, funds, d) <= 0.0)
  {
    hide OfDay, ApplyAll, Dot, DayStep, SlipOf;
    var e := LoopTo(ledger, navs, funds, d).value;
    LoopHoldsUnits(ledger, navs, funds, d);
    var held := UnitsAt(ledger, funds, d - 1);
    var sod, before := Dot(held, navs[d]), Dot(held, navs[d - 1]);
    RowsMoveValueByCashAndSlip(OfDay(ledger, d), Book(held, 0.0), navs[d]);
    CashIsNeutralExactly(e.fund, sod, DayBook(ledger, funds, d).cash, ValueAt(ledger, navs, funds, d));
    UnitsTimesNavIsMarketValue(ledger, navs, funds, d);
    SameQuotient(before, e.fund.units, e.curve[d - 1]);
    Quotient(before, e.fund.units);
    SameRatio(LoopTo(ledger, navs, funds, d + 1).value.fund.nav, sod, before, e.fund.units);
  }

  lemma SameRatio(nav: real, sod: real, before: real, u: real)
    requires sod > 0.0 && before > 0.0 && u > 0.0 && before / u > 0.0
    ensures nav / (before / u) == sod / before <==> nav == sod / u
  {
    RatioOfQuotients(sod, before, u);
    var b, ratio := before / u, sod / before;
    Quotient(nav, b);
    Quotient(sod / u, b);
  }

  /**
   * Over any run of days that open with a value and leave portfolio units outstanding, the
   * curve follows the prices on exactly the days whose rows do not slip, whatever is
   * deposited or redeemed.
   */
  lemma {:induction false} CurveFollowsPricesExactly(
    ledger: seq<Row>, navs: seq<seq<real>>, funds: nat, first: nat, last: nat)
    requires Fits(ledger, funds) && Prices(navs, funds) && 1 <= first <= last <= |navs|
    requires LoopTo(ledger, navs, funds, first).Done? && LoopTo(ledger, navs, funds, first).value.fund.units > 0.0
    requires forall d | first <= d < last :: StaysFunded(ledger, navs, funds, d)
    ensures LoopTo(ledger, navs, funds, last).Done? && LoopTo(ledger, navs, funds, last).value.fund.units > 0.0
    ensures var curve := LoopTo(ledger, navs, funds, last).value.curve;
      forall d | first <= d < last && StaysFunded(ledger, navs, funds, d) ::
        FollowsPrices(ledger, navs, funds, curve, d) <==> DaySlip(ledger, navs, funds, d) == 0.0
    decreases last
  {
    hide OfDay, ApplyAll, Dot, DayStep, UnitsAt, ValueAt, OpeningAt, FundedAt, DaySlip;
    if first < last {
      CurveFollowsPricesExactly(ledger, navs, funds, first, last - 1);
      assert StaysFunded(ledger, navs, funds, last - 1);
      NextDayFollowsPricesExactly(ledger, navs, funds, last - 1);
      var shorter := LoopTo(ledger, navs, funds, last - 1).value.curve;
      var curve := LoopTo(ledger, navs, funds, last).value.curve;
      forall d | first <= d < last - 1 && StaysFunded(ledger, navs, funds, d)
        ensures FollowsPrices(ledger, navs, funds, curve, d) == FollowsPrices(ledger, navs, funds, shorter, d)
      {
        assert curve[d] == shorter[d] && curve[d - 1] == shorter[d - 1];
      }
    }
  }

  /**
   * So deposits and redemptions made at the day's prices never move the curve, as long as no
   * more is sold than is held: each day's return is yesterday's units at today's prices over
   * yesterday's units at yesterday's prices.
   */
  lemma CashflowsNeverMoveTheCurve(ledger: seq<Row>, navs: seq<seq<real>>, funds: nat, first: nat, last: nat)
    requires Fits(ledger, funds) && Prices(navs, funds) && 1 <= first <= last <= |navs|
    requires forall d, j | 0 <= d < |navs| && 0 <= j < funds :: navs[d][j] > 0.0
    requires LoopTo(ledger, navs, funds, first).Done? && LoopTo(ledger, navs, funds, first).value.fund.units > 0.0
    requires forall d | first <= d < last :: PricedDay(ledger, navs, funds, d)
    requires forall d | first - 1 <= d < last :: ValueAt(ledger, navs, funds, d) > 0.0
    ensures LoopTo(ledger, navs, funds, last).Done? && LoopTo(ledger, navs, funds, last).value.fund.units > 0.0
    ensures var curve := LoopTo(ledger, navs, funds, last).value.curve;
      forall d | first <= d < last :: FollowsPrices(ledger, navs, funds, curve, d)
  {
    hide LoopTo, OfDay, ApplyAll, Dot, SlipOf, Priced, FollowsPrices, UnitsAt, DayBook;
    forall d | first <= d < last
      ensures DaySlip(ledger, navs, funds, d) == 0.0 && StaysFunded(ledger, navs, funds, d)
    {
      PricedDayIsFunded(ledger, navs, funds, d);
    }
    CurveFollowsPricesExactly(ledger, navs, funds, first, last);
  }

  lemma PricedDayIsFunded(ledger: seq<Row>, navs: seq<seq<real>>, funds: nat, d: nat)
    requires Fits(ledger, funds) && Prices(navs, funds) && 1 <= d < |navs| && PricedDay(ledger, navs, funds, d)
    requires forall x, j | d - 1 <= x <= d && 0 <= j < funds :: navs[x][j] > 0.0
    requires ValueAt(ledger, navs, funds, d - 1) > 0.0
    ensures DaySlip(ledger, navs, funds, d) == 0.0 && OpeningAt(ledger, navs, funds, d) > 0.0
    ensures FundedAt(ledger, navs, funds, d) == ValueAt(ledger, navs, funds, d)
  {
    hide OfDay, ApplyAll, Dot, SlipOf, Priced;
    var book := Book(UnitsAt(ledger, funds, d - 1), 0.0);
    UnitsAreNotNegative(ledger, funds, d - 1);
    DotPositive(book.units, navs[d - 1], navs[d]);
    PricedRowsDoNotSlip(OfDay(ledger, d), book, navs[d]);
    RowsMoveValueByCashAndSlip(OfDay(ledger, d), book, navs[d]);
  }

  // ----- a day that slips -----

  const FLAT := [1.0, 1.0]
  const BUY1 := Row(0, Some(0), "", 1.0, 1.0, 1.0)
  const BUY9 := Row(0, Some(1), "", 9.0, 9.0, 1.0)
  const OVERSOLD := Row(1, Some(0), "", 2.0, -2.0, 1.0)
  const LEDGER := [BUY1, BUY9, OVERSOLD]

  /**
   * Selling more than is held at the day's price: the clamp stops the units at zero while all
   * the money leaves, and the curve rises on unchanged prices.
   */
  lemma OversellingMovesTheCurve()
    ensures var navs := [FLAT, FLAT];
      && Fits(LEDGER, 2) && Prices(navs, 2)
      && LoopTo(LEDGER, navs, 2, 2).Done? && LoopTo(LEDGER, navs, 2, 2).value.curve == [100.0, 112.5]
      && DaySlip(LEDGER, navs, 2, 1) == 1.0
  {
    hide LoopTo, OfDay, ApplyAll, Dot, DayStep, SlipOf;
    var navs := [FLAT, FLAT];
    DaysOfExample();
    BooksOfExample();
    StepsOfExample();
    assert NoUnits(2) == [0.0, 0.0];
    LoopStart(LEDGER, navs, 2);
    LoopNext(LEDGER, navs, 2, 0);
    LoopNext(LEDGER, navs, 2, 1);
    LoopHoldsUnits(LEDGER, navs, 2, 1);
    RowsMoveValueByCashAndSlip([OVERSOLD], Book([1.0, 9.0], 0.0), FLAT);
  }

  lemma LoopStart(ledger: seq<Row>, navs: seq<seq<real>>, funds: nat)
    requires Fits(ledger, funds) && Prices(navs, funds)
    ensures LoopTo(ledger, navs, funds, 0) == Done(Evening(NoUnits(funds), OPENING, []))
  {}

  lemma LoopNext(ledger: seq<Row>, navs: seq<seq<real>>, funds: nat, k: nat)
    requires Fits(ledger, funds) && Prices(navs, funds) && k < |navs| && LoopTo(ledger, navs, funds, k).Done?
    ensures var e := LoopTo(ledger, navs, funds, k).value;
      var book := ApplyAll(OfDay(ledger, k), Book(e.units, 0.0));
      LoopTo(ledger, navs, funds, k + 1) ==
      match DayStep(e.fund, Dot(e.units, navs[k]), book.cash, Dot(book.units, navs[k]))
      case DivisionByZero => DivisionByZero
      case Done(f) => Done(Evening(book.units, f, e.curve + [f.nav]))
  {
    hide OfDay, ApplyAll, Dot, DayStep;
  }

  lemma DaysOfExample()
    ensures OfDay(LEDGER, 0) == [BUY1, BUY9] && OfDay(LEDGER, 1) == [OVERSOLD]
  {
    hide OfDay;
    assert OfDay([], 0) == [] && OfDay([], 1) == [] by {
      NoneOfDay([], 0);
      NoneOfDay([], 1);
    }
    forall day ensures OfDay(LEDGER, day) == OfDay([], day) + (if day == 0 then [BUY1] else [])
        + (if day == 0 then [BUY9] else []) + (if day == 1 then [OVERSOLD] else [])
    {
      OfDayAppend([], BUY1, day);
      OfDayAppend([BUY1], BUY9, day);
      OfDayAppend([BUY1, BUY9], OVERSOLD, day);
      assert [] + [BUY1] == [BUY1] && [BUY1] + [BUY9] == [BUY1, BUY9];
      assert [BUY1, BUY9] + [OVERSOLD] == LEDGER;
    }
  }

  /** Rows without a type are classified by the sign of their units. */
  lemma PlainRow(r: Row, b: Book)
    requires r.kind == "" && r.units != 0.0 && r.amount != 0.0 && r.fund.Some? && r.fund.value < |b.units|
    ensures var j := r.fund.value;
      Apply(r, b) == if r.units > 0.0 then Book(b.units[j := b.units[j] + r.units], b.cash + Abs(r.amount))
                     else Book(b.units[j := MaxZero(b.units[j] + r.units)], b.cash - Abs(r.amount))
  {
    NothingMentioned(UNITS_ONLY);
  }

  lemma NothingMentioned(words: seq<string>)
    requires forall i | 0 <= i < |words| :: words[i] != ""
    ensures !MentionsAny("", words)
  {}

  lemma BooksOfExample()
    ensures ApplyAll([BUY1, BUY9], Book([0.0, 0.0], 0.0)) == Book([1.0, 9.0], 10.0)
    ensures ApplyAll([OVERSOLD], Book([1.0, 9.0], 0.0)) == Book([0.0, 9.0], -2.0)
  {
    hide Apply, Held, Cash;
    PlainRow(BUY1, Book([0.0, 0.0], 0.0));
    PlainRow(BUY9, Book([1.0, 0.0], 1.0));
    PlainRow(OVERSOLD, Book([1.0, 9.0], 0.0));
    assert [BUY1, BUY9][..1] == [BUY1] && [BUY1][..0] == [] && [OVERSOLD][..0] == [];
    assert ApplyAll([BUY1], Book([0.0, 0.0], 0.0)) == Book([1.0, 0.0], 1.0);
  }

  lemma DotOfTwo(x: real, y: real)
    ensures Dot([x, y], FLAT) == x + y
  {
    assert [x, y][..1] == [x] && [x][..0] == [] && FLAT[..1] == [1.0] && [1.0][..0] == [];
    assert Dot([x], [1.0]) == x;
  }

  lemma StepsOfExample()
    ensures Dot([0.0, 0.0], FLAT) == 0.0 && Dot([1.0, 9.0], FLAT) == 10.0 && Dot([0.0, 9.0], FLAT) == 9.0
    ensures DayStep(OPENING, 0.0, 10.0, 10.0) == Done(Fund(0.1, 100.0))
    ensures DayStep(Fund(0.1, 100.0), 10.0, -2.0, 9.0) == Done(Fund(0.08, 112.5))
  {
    DotOfTwo(0.0, 0.0);
    DotOfTwo(1.0, 9.0);
    DotOfTwo(0.0, 9.0);
  }
}
