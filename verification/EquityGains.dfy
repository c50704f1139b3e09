/**
 * Realised capital gains on shares: first-in first-out over lots, bucketed by the financial
 * year of the sale. The reference keeps single units instead of lots. Quantities are in the
 * smallest tradable unit and prices are per such unit.
 */
module EquityGains {
  import opened Common

  const LTCG_HOLDING_DAYS := 365

  /** A calendar date; `ordinal` numbers the days. */
  datatype Date = Date(year: int, month: int, ordinal: int)

  datatype Side = Buy | Sell | Other

  datatype Trade = Trade(date: Date, side: Side, qty: int, price: real)

  datatype Lot = Lot(date: Date, qty: nat, price: real)

  datatype Bucket = Bucket(stcg: real, ltcg: real)

  /** The calendar year in which the financial year of a date begins: 1 April to 31 March. */
  function FinancialYear(d: Date): (y: int)
    ensures 1 <= d.month <= 12 ==> 12 * y + 4 <= 12 * d.year + d.month < 12 * (y + 1) + 4
  {
    if d.month < 4 then d.year - 1 else d.year
  }

  // ----- the reference: unit by unit -----

  /** One unit held, with what it cost. */
  datatype Unit = Unit(date: Date, price: real)

  /** One unit sold. */
  datatype Match = Match(bought: Unit, date: Date, price: real)

  /** Units held, oldest first; units sold, in order; and units sold that were never bought. */
  datatype Book = Book(queue: seq<Unit>, matches: seq<Match>, unmatched: nat)

  const EMPTY := Book([], [], 0)

  function Copies(u: Unit, n: nat): (r: seq<Unit>)
    ensures |r| == n && forall i | 0 <= i < n :: r[i] == u
  {
    seq(n, _ => u)
  }

  /** The sale of these units by trade `t`. */
  function Sold(units: seq<Unit>, t: Trade): (r: seq<Match>)
    ensures |r| == |units| && forall i | 0 <= i < |r| :: r[i] == Match(units[i], t.date, t.price)
  {
    seq(|units|, i requires 0 <= i < |units| => Match(units[i], t.date, t.price))
  }

  function Trade1(b: Book, t: Trade): Book {
    if t.qty <= 0 || t.side == Other then b
    else if t.side == Buy then b.(queue := b.queue + Copies(Unit(t.date, t.price), t.qty))
    else
      var k := Min(t.qty, |b.queue|);
      Book(b.queue[k..], b.matches + Sold(b.queue[..k], t), b.unmatched + (t.qty - k))
  }

  function Replay(trades: seq<Trade>): Book {
    if trades == [] then EMPTY else Trade1(Replay(trades[..|trades| - 1]), trades[|trades| - 1])
  }

  /** The units a trade buys, and how many it sells. */
  function BoughtBy(t: Trade): seq<Unit> {
    if t.side == Buy && t.qty > 0 then Copies(Unit(t.date, t.price), t.qty) else []
  }

  function SoldBy(t: Trade): nat {
    if t.side == Sell && t.qty > 0 then t.qty else 0
  }

  /** Every unit ever bought, in order of purchase. */
  function Bought(trades: seq<Trade>): seq<Unit> {
    if trades == [] then []
    else
      Bought(trades[..|trades| - 1]) + BoughtBy(trades[|trades| - 1])
  }

  function QtySold(trades: seq<Trade>): nat {
    if trades == [] then 0
    else
      QtySold(trades[..|trades| - 1]) + SoldBy(trades[|trades| - 1])
  }

  function Purchases(ms: seq<Match>): (r: seq<Unit>)
    ensures |r| == |ms| && forall i | 0 <= i < |r| :: r[i] == ms[i].bought
  {
    seq(|ms|, i requires 0 <= i < |ms| => ms[i].bought)
  }

  /**
   * First in, first out: the units sold so far, in the order they were sold, followed by
   * the units still held, are the units bought, in the order they were bought. Quantities
   * balance on both sides.
   */
  lemma {:induction false} OldestUnitsAreSoldFirst(trades: seq<Trade>)
    ensures var b := Replay(trades);
      && Purchases(b.matches) + b.queue == Bought(trades)
      && |Bought(trades)| == |b.matches| + |b.queue|
      && QtySold(trades) == |b.matches| + b.unmatched
  {
    hide Trade1, Purchases, Copies;
    if trades != [] {
      var init, t := trades[..|trades| - 1], trades[|trades| - 1];
      OldestUnitsAreSoldFirst(init);
      TradeKeepsOrder(Replay(init), t);
    }
  }

  lemma TradeKeepsOrder(b: Book, t: Trade)
    ensures var after := Trade1(b, t);
      && Purchases(after.matches) + after.queue == Purchases(b.matches) + b.queue + BoughtBy(t)
      && |after.matches| + after.unmatched == |b.matches| + b.unmatched + SoldBy(t)
  {
    hide Copies, Purchases, Sold;
    if t.qty > 0 && t.side == Sell {
      SellMovesOldest(b, t, Min(t.qty, |b.queue|));
    }
  }

  lemma SellMovesOldest(b: Book, t: Trade, k: nat)
    requires k <= |b.queue|
    ensures Purchases(b.matches + Sold(b.queue[..k], t)) + b.queue[k..] == Purchases(b.matches) + b.queue
  {
    assert Purchases(b.matches + Sold(b.queue[..k], t)) == Purchases(b.matches) + b.queue[..k];
    assert b.queue == b.queue[..k] + b.queue[k..];
  }

  // ----- gains -----

  predicate IsLongTerm(m: Match) {
    m.date.ordinal - m.bought.date.ordinal > LTCG_HOLDING_DAYS
  }

  function GainOf(m: Match): real {
    m.price - m.bought.price
  }

  /** Gain of one kind over the sales of one financial year. */
  function YearGain(ms: seq<Match>, year: int, longTerm: bool): real {
    if ms == [] then 0.0
    else
      var m := ms[|ms| - 1];
      YearGain(ms[..|ms| - 1], year, longTerm)
      + (if FinancialYear(m.date) == year && IsLongTerm(m) == longTerm then GainOf(m) else 0.0)
  }

  function Proceeds(ms: seq<Match>): real {
    if ms == [] then 0.0 else Proceeds(ms[..|ms| - 1]) + ms[|ms| - 1].price
  }

  function Cost(us: seq<Unit>): real {
    if us == [] then 0.0 else Cost(us[..|us| - 1]) + us[|us| - 1].price
  }

  /** Short and long term together, over the financial years from `first` up to `end`. */
  function GainsOver(ms: seq<Match>, first: int, end: int): real
    requires first <= end
    decreases end - first
  {
    if first == end then 0.0
    else GainsOver(ms, first, end - 1) + YearGain(ms, end - 1, false) + YearGain(ms, end - 1, true)
  }

  lemma {:induction false} CostOfJoin(a: seq<Unit>, b: seq<Unit>)
    ensures Cost(a + b) == Cost(a) + Cost(b)
  {
    if b == [] {
      assert a + b == a;
    } else {
      assert (a + b)[..|a + b| - 1] == a + b[..|b| - 1];
      CostOfJoin(a, b[..|b| - 1]);
    }
  }

  lemma {:induction false} OneMoreMatch(ms: seq<Match>, m: Match, first: int, end: int)
    requires first <= end
    ensures GainsOver(ms + [m], first, end)
         == GainsOver(ms, first, end) + (if first <= FinancialYear(m.date) < end then GainOf(m) else 0.0)
    decreases end - first
  {
    assert (ms + [m])[..|ms|] == ms;
    if first < end {
      OneMoreMatch(ms, m, first, end - 1);
    }
  }

  lemma {:induction false} YearsAddUp(ms: seq<Match>, first: int, end: int)
    requires first <= end && forall i | 0 <= i < |ms| :: first <= FinancialYear(ms[i].date) < end
    ensures GainsOver(ms, first, end) == Proceeds(ms) - Cost(Purchases(ms))
  {
    if ms == [] {
      NoGains(first, end);
    } else {
      var init, m := ms[..|ms| - 1], ms[|ms| - 1];
      YearsAddUp(init, first, end);
      OneMoreMatch(init, m, first, end);
      assert ms == init + [m];
      assert Purchases(ms)[..|ms| - 1] == Purchases(init);
    }
  }

  lemma {:induction false} NoGains(first: int, end: int)
    requires first <= end
    ensures GainsOver([], first, end) == 0.0
    decreases end - first
  {
    if first < end {
      NoGains(first, end - 1);
    }
  }

  // ----- the application's engine -----

  /** The units that a queue of lots stands for. */
  function Expand(lots: seq<Lot>): seq<Unit> {
    if lots == [] then [] else Copies(Unit(lots[0].date, lots[0].price), lots[0].qty) + Expand(lots[1..])
  }

  lemma {:induction false} ExpandAppend(lots: seq<Lot>, l: Lot)
    ensures Expand(lots + [l]) == Expand(lots) + Copies(Unit(l.date, l.price), l.qty)
  {
    if lots == [] {
      assert lots + [l] == [l] && Expand([l][1..]) == [];
    } else {
      ExpandAppend(lots[1..], l);
      assert (lots + [l])[1..] == lots[1..] + [l];
    }
  }

  lemma YearGainAppend(ms: seq<Match>, m: Match, year: int, longTerm: bool)
    ensures YearGain(ms + [m], year, longTerm) == YearGain(ms, year, longTerm)
      + (if FinancialYear(m.date) == year && IsLongTerm(m) == longTerm then GainOf(m) else 0.0)
  {
    assert (ms + [m])[..|ms|] == ms;
  }

  lemma OneMoreTime(n: nat, g: real)
    ensures (n + 1) as real * g == n as real * g + g
  {}

  lemma {:induction false} ChunkGain(ms: seq<Match>, u: Unit, n: nat, t: Trade, year: int, longTerm: bool)
    ensures var m := Match(u, t.date, t.price);
      YearGain(ms + Sold(Copies(u, n), t), year, longTerm) == YearGain(ms, year, longTerm)
        + (if FinancialYear(t.date) == year && IsLongTerm(m) == longTerm then n as real * GainOf(m) else 0.0)
  {
    hide YearGain, IsLongTerm, GainOf, FinancialYear;
    var m := Match(u, t.date, t.price);
    var all := ms + Sold(Copies(u, n), t);
    if n == 0 {
      assert all == ms;
    } else {
      ChunkGain(ms, u, n - 1, t, year, longTerm);
      var shorter := ms + Sold(Copies(u, n - 1), t);
      assert all == shorter + [m];
      YearGainAppend(shorter, m, year, longTerm);
      OneMoreTime(n - 1, GainOf(m));
    }
  }

  lemma {:induction false} GainsAddUp(a: seq<Match>, b: seq<Match>, year: int, longTerm: bool)
    ensures YearGain(a + b, year, longTerm) == YearGain(a, year, longTerm) + YearGain(b, year, longTerm)
  {
    if b == [] {
      assert a + b == a;
    } else {
      var init, m := b[..|b| - 1], b[|b| - 1];
      GainsAddUp(a, init, year, longTerm);
      assert a + b == (a + init) + [m] && b == init + [m];
      YearGainAppend(a + init, m, year, longTerm);
      YearGainAppend(init, m, year, longTerm);
    }
  }

  /**
   * The smallest case, in plain numbers: units bought once and sold later. What was bought
   * covers the sale as far as it goes; the gain falls into the year of the sale, long-term
   * after more than 365 days and short-term otherwise. `GainsAddUp` does the rest.
   */
  lemma OnePurchaseOneSale(bought: Date, cost: real, q: nat, sold: Date, price: real, n: nat, year: int, longTerm: bool)
    requires q > 0 && n > 0
    ensures var b := Replay([Trade(bought, Buy, q, cost), Trade(sold, Sell, n, price)]);
      var k := if n <= q then n else q;
      && |b.queue| == q - k && b.unmatched == n - k
      && YearGain(b.matches, year, longTerm) ==
           if FinancialYear(sold) == year && longTerm == (sold.ordinal - bought.ordinal > 365)
           then k as real * (price - cost) else 0.0
  {
    hide YearGain, Copies;
    var buy, sell := Trade(bought, Buy, q, cost), Trade(sold, Sell, n, price);
    var trades := [buy, sell];
    assert trades[..1] == [buy] && [buy][..0] == [];
    var u := Unit(bought, cost);
    var k := if n <= q then n else q;
    var queue := Copies(u, q);
    assert Replay([buy]) == Book([] + queue, [], 0) && [] + queue == queue;
    assert queue[..k] == Copies(u, k);
    assert [] + Sold(queue[..k], sell) == Sold(queue[..k], sell);
    ChunkGain([], u, k, sell, year, longTerm);
    NothingGained(year, longTerm);
  }

  lemma NothingGained(year: int, longTerm: bool)
    ensures YearGain([], year, longTerm) == 0.0
  {}

  /** The year buckets hold exactly the gains of the sales `ms`. */
  ghost predicate Buckets(byYear: map<int, Bucket>, ms: seq<Match>) {
    forall y: int ::
      (if y in byYear then byYear[y] else Bucket(0.0, 0.0)) == Bucket(YearGain(ms, y, false), YearGain(ms, y, true))
  }

  /** One sale against the lots: the inner loop. */
  method SellFifo(lots: seq<Lot>, t: Trade, byYear: map<int, Bucket>, ghost ms: seq<Match>)
    returns (lots': seq<Lot>, byYear': map<int, Bucket>, unmatched: nat)
    requires t.qty > 0 && Buckets(byYear, ms) && forall i | 0 <= i < |lots| :: lots[i].qty > 0
    ensures forall i | 0 <= i < |lots'| :: lots'[i].qty > 0
    ensures var k := Min(t.qty, |Expand(lots)|);
      && Expand(lots') == Expand(lots)[k..] && unmatched == t.qty - k
      && Buckets(byYear', ms + Sold(Expand(lots)[..k], t))
    ensures byYear'.Keys == byYear.Keys + {FinancialYear(t.date)}
  {
    hide YearGain, Buckets, IsLongTerm, GainOf, Expand, Copies, FinancialYear;
    var fy := FinancialYear(t.date);
    ghost var queue := Expand(lots);
    ghost var done := 0;
    lots', byYear' := lots, byYear;
    if fy !in byYear' {
      OpenBucket(byYear, ms, fy);
      byYear' := byYear'[fy := Bucket(0.0, 0.0)];
    }
    var remaining: nat := t.qty;
    assert Sold(queue[..0], t) == [];
    assert ms + [] == ms;
    while remaining > 0 && lots' != []
      invariant forall i | 0 <= i < |lots'| :: lots'[i].qty > 0
      invariant 0 <= done <= |queue| && remaining == t.qty - done
      invariant Expand(lots') == queue[done..]
      invariant fy in byYear' && byYear'.Keys == byYear.Keys + {fy}
      invariant Buckets(byYear', ms + Sold(queue[..done], t))
      decreases remaining
    {
      var oldest := lots'[0];
      var matched := if remaining <= oldest.qty then remaining else oldest.qty;
      var gain := matched as real * (t.price - oldest.price);
      var bucket := byYear'[fy];
      AddChunk(byYear', ms + Sold(queue[..done], t), oldest, matched, t);
      if t.date.ordinal - oldest.date.ordinal > LTCG_HOLDING_DAYS {
        byYear' := byYear'[fy := bucket.(ltcg := bucket.ltcg + gain)];
      } else {
        byYear' := byYear'[fy := bucket.(stcg := bucket.stcg + gain)];
      }
      TakeFront(lots', matched);
      TakeMore(queue, done, matched, oldest, t, ms);
      remaining := remaining - matched;
      if matched >= oldest.qty {
        lots' := lots'[1..];
      } else {
        lots' := [Lot(oldest.date, oldest.qty - matched, oldest.price)] + lots'[1..];
      }
      assert queue[done..][matched..] == queue[done + matched..];
      done := done + matched;
    }
    unmatched := remaining;
    ExpandNone();
    assert lots' == [] ==> done == |queue|;
  }

  lemma ExpandNone()
    ensures Expand([]) == []
  {}

  lemma OpenBucket(byYear: map<int, Bucket>, ms: seq<Match>, fy: int)
    requires Buckets(byYear, ms) && fy !in byYear
    ensures Buckets(byYear[fy := Bucket(0.0, 0.0)], ms)
  {
    hide YearGain;
  }

  /** Taking `matched` units off the front lot takes them off the front of the queue. */
  lemma TakeFront(lots: seq<Lot>, matched: nat)
    requires lots != [] && matched <= lots[0].qty
    ensures var l := lots[0];
      && |Expand(lots)| >= matched
      && Expand(lots)[..matched] == Copies(Unit(l.date, l.price), matched)
      && Expand([Lot(l.date, l.qty - matched, l.price)] + lots[1..]) == Expand(lots)[matched..]
      && (matched == l.qty ==> Expand(lots[1..]) == Expand(lots)[matched..])
  {
    var l := lots[0];
    var shorter := [Lot(l.date, l.qty - matched, l.price)] + lots[1..];
    assert shorter[1..] == lots[1..];
  }

  lemma TakeMore(queue: seq<Unit>, done: nat, matched: nat, l: Lot, t: Trade, ms: seq<Match>)
    requires done + matched <= |queue|
    requires queue[done..][..matched] == Copies(Unit(l.date, l.price), matched)
    ensures ms + Sold(queue[..done + matched], t)
         == ms + Sold(queue[..done], t) + Sold(Copies(Unit(l.date, l.price), matched), t)
  {
    assert queue[..done + matched] == queue[..done] + queue[done..][..matched];
  }

  /** Adding the chunk's gain to its year's bucket. */
  lemma AddChunk(byYear: map<int, Bucket>, ms: seq<Match>, l: Lot, n: nat, t: Trade)
    requires Buckets(byYear, ms) && FinancialYear(t.date) in byYear
    ensures var fy := FinancialYear(t.date);
      var gain := n as real * (t.price - l.price);
      var b := byYear[fy];
      var b' := if t.date.ordinal - l.date.ordinal > LTCG_HOLDING_DAYS
                then b.(ltcg := b.ltcg + gain) else b.(stcg := b.stcg + gain);
      Buckets(byYear[fy := b'], ms + Sold(Copies(Unit(l.date, l.price), n), t))
  {
    hide YearGain;
    forall y: int, long: bool
      ensures YearGain(ms + Sold(Copies(Unit(l.date, l.price), n), t), y, long) == YearGain(ms, y, long)
        + (if FinancialYear(t.date) == y && (t.date.ordinal - l.date.ordinal > LTCG_HOLDING_DAYS) == long
           then n as real * (t.price - l.price) else 0.0)
    {
      ChunkGain(ms, Unit(l.date, l.price), n, t, y, long);
    }
  }

  function AllMatches(groups: seq<seq<Trade>>): seq<Match> {
    if groups == [] then [] else AllMatches(groups[..|groups| - 1]) + Replay(groups[|groups| - 1]).matches
  }

  function AllUnmatched(groups: seq<seq<Trade>>): nat {
    if groups == [] then 0 else AllUnmatched(groups[..|groups| - 1]) + Replay(groups[|groups| - 1]).unmatched
  }

  /** Every year in which something was sold has a bucket. */
  predicate Covers(byYear: map<int, Bucket>, ms: seq<Match>) {
    forall i | 0 <= i < |ms| :: FinancialYear(ms[i].date) in byYear
  }

  lemma CoversMore(byYear: map<int, Bucket>, after: map<int, Bucket>, ms: seq<Match>, units: seq<Unit>, t: Trade)
    requires Covers(byYear, ms) && after.Keys == byYear.Keys + {FinancialYear(t.date)}
    ensures Covers(after, ms + Sold(units, t))
  {
    hide FinancialYear;
  }

  /** One symbol's trades in date order. */
  method MatchSymbol(group: seq<Trade>, byYear: map<int, Bucket>, ghost ms: seq<Match>)
    returns (byYear': map<int, Bucket>, unmatched: nat, lots: seq<Lot>)
    requires Buckets(byYear, ms) && Covers(byYear, ms)
    ensures Buckets(byYear', ms + Replay(group).matches) && Covers(byYear', ms + Replay(group).matches)
    ensures unmatched == Replay(group).unmatched && Expand(lots) == Replay(group).queue
  {
    hide YearGain, Buckets, Expand, Covers;
    lots, byYear', unmatched := [], byYear, 0;
    NothingYet(ms);
    assert group[..0] == [];
    for i := 0 to |group|
      invariant forall j | 0 <= j < |lots| :: lots[j].qty > 0
      invariant Expand(lots) == Replay(group[..i]).queue && unmatched == Replay(group[..i]).unmatched
      invariant Buckets(byYear', ms + Replay(group[..i]).matches) && Covers(byYear', ms + Replay(group[..i]).matches)
    {
      var t := group[i];
      ghost var before := Replay(group[..i]);
      assert group[..i + 1][..i] == group[..i];
      if t.qty > 0 {
        if t.side == Buy {
          ExpandAppend(lots, Lot(t.date, t.qty, t.price));
          lots := lots + [Lot(t.date, t.qty, t.price)];
        } else if t.side == Sell {
          var missing;
          ghost var k := Min(t.qty, |before.queue|);
          ghost var years := byYear';
          lots, byYear', missing := SellFifo(lots, t, byYear', ms + before.matches);
          CoversMore(years, byYear', ms + before.matches, before.queue[..k], t);
          assert ms + before.matches + Sold(before.queue[..k], t) == ms + (before.matches + Sold(before.queue[..k], t));
          if missing > 0 {
            unmatched := unmatched + missing;
          }
        }
      }
    }
    assert group[..|group|] == group;
  }

  lemma NothingYet(ms: seq<Match>)
    ensures Expand([]) == [] && Replay([]) == EMPTY && ms + [] == ms
  {}

  // ----- lifetime totals -----

  /** Gain of one kind over all sales. */
  function KindGain(ms: seq<Match>, longTerm: bool): real {
    if ms == [] then 0.0
    else
      var m := ms[|ms| - 1];
      KindGain(ms[..|ms| - 1], longTerm) + (if IsLongTerm(m) == longTerm then GainOf(m) else 0.0)
  }

  /** Gain of one kind over the sales of the given years. */
  function KindGainIn(ms: seq<Match>, years: set<int>, longTerm: bool): real {
    if ms == [] then 0.0
    else
      var m := ms[|ms| - 1];
      KindGainIn(ms[..|ms| - 1], years, longTerm)
      + (if FinancialYear(m.date) in years && IsLongTerm(m) == longTerm then GainOf(m) else 0.0)
  }

  lemma {:induction false} OneMoreYear(ms: seq<Match>, years: set<int>, year: int, longTerm: bool)
    requires year !in years
    ensures KindGainIn(ms, years + {year}, longTerm) == KindGainIn(ms, years, longTerm) + YearGain(ms, year, longTerm)
  {
    if ms != [] {
      OneMoreYear(ms[..|ms| - 1], years, year, longTerm);
    }
  }

  lemma {:induction false} NoYears(ms: seq<Match>, longTerm: bool)
    ensures KindGainIn(ms, {}, longTerm) == 0.0
  {
    if ms != [] {
      NoYears(ms[..|ms| - 1], longTerm);
    }
  }

  lemma {:induction false} AllYears(ms: seq<Match>, years: set<int>, longTerm: bool)
    requires forall i | 0 <= i < |ms| :: FinancialYear(ms[i].date) in years
    ensures KindGainIn(ms, years, longTerm) == KindGain(ms, longTerm)
  {
    if ms != [] {
      AllYears(ms[..|ms| - 1], years, longTerm);
    }
  }

  lemma {:induction false} KindsAddUp(ms: seq<Match>)
    ensures KindGain(ms, false) + KindGain(ms, true) == Proceeds(ms) - Cost(Purchases(ms))
  {
    if ms != [] {
      KindsAddUp(ms[..|ms| - 1]);
      assert Purchases(ms)[..|ms| - 1] == Purchases(ms[..|ms| - 1]);
    }
  }

  function AllSold(groups: seq<seq<Trade>>): nat {
    if groups == [] then 0 else AllSold(groups[..|groups| - 1]) + QtySold(groups[|groups| - 1])
  }

  /** Every unit sold was either matched with a purchase or is counted as unmatched. */
  lemma {:induction false} QuantitiesAddUp(groups: seq<seq<Trade>>)
    ensures |AllMatches(groups)| + AllUnmatched(groups) == AllSold(groups)
    ensures |AllMatches(groups)| + |AllHeld(groups)| == |AllBought(groups)|
  {
    hide Replay, Bought, QtySold;
    if groups != [] {
      QuantitiesAddUp(groups[..|groups| - 1]);
      OldestUnitsAreSoldFirst(groups[|groups| - 1]);
    }
  }

  /** The units of all symbols: bought, and still held. */
  function AllBought(groups: seq<seq<Trade>>): seq<Unit> {
    if groups == [] then [] else AllBought(groups[..|groups| - 1]) + Bought(groups[|groups| - 1])
  }

  function AllHeld(groups: seq<seq<Trade>>): seq<Unit> {
    if groups == [] then [] else AllHeld(groups[..|groups| - 1]) + Replay(groups[|groups| - 1]).queue
  }

  lemma {:induction false} MatchedCost(groups: seq<seq<Trade>>)
    ensures Cost(Purchases(AllMatches(groups))) == Cost(AllBought(groups)) - Cost(AllHeld(groups))
  {
    hide Purchases, Replay, Bought, Cost;
    if groups == [] {
      NothingBought();
    } else {
      var init, g := groups[..|groups| - 1], groups[|groups| - 1];
      MatchedCost(init);
      MatchedCostOf(g);
      PurchasesOfJoin(AllMatches(init), Replay(g).matches);
      CostOfJoin(Purchases(AllMatches(init)), Purchases(Replay(g).matches));
      CostOfJoin(AllBought(init), Bought(g));
      CostOfJoin(AllHeld(init), Replay(g).queue);
    }
  }

  lemma NothingBought()
    ensures Purchases([]) == [] && Cost([]) == 0.0
  {}

  lemma PurchasesOfJoin(a: seq<Match>, b: seq<Match>)
    ensures Purchases(a + b) == Purchases(a) + Purchases(b)
  {}

  lemma MatchedCostOf(trades: seq<Trade>)
    ensures Cost(Purchases(Replay(trades).matches)) == Cost(Bought(trades)) - Cost(Replay(trades).queue)
  {
    hide Replay, Bought, Cost;
    OldestUnitsAreSoldFirst(trades);
    CostOfJoin(Purchases(Replay(trades).matches), Replay(trades).queue);
  }

  lemma SomeMember<T>(s: set<T>) returns (x: T)
    requires s != {}
    ensures x in s
  {
    x :| x in s;
  }

  /** The totals over all year buckets, as they are summed from the finished map. */
  method LifetimeGains(byYear: map<int, Bucket>, ghost ms: seq<Match>) returns (stcg: real, ltcg: real)
    requires Buckets(byYear, ms) && Covers(byYear, ms)
    ensures stcg == KindGain(ms, false) && ltcg == KindGain(ms, true)
  {
    hide KindGain, KindGainIn, YearGain;
    stcg, ltcg := 0.0, 0.0;
    var todo := byYear.Keys;
    ghost var done: set<int> := {};
    NoYears(ms, false);
    NoYears(ms, true);
    while todo != {}
      invariant todo <= byYear.Keys && done == byYear.Keys - todo
      invariant stcg == KindGainIn(ms, done, false) && ltcg == KindGainIn(ms, done, true)
      decreases |todo|
    {
      ghost var some := SomeMember(todo);
      var year :| year in todo;
      OneMoreYear(ms, done, year, false);
      OneMoreYear(ms, done, year, true);
      stcg, ltcg := stcg + byYear[year].stcg, ltcg + byYear[year].ltcg;
      todo, done := todo - {year}, done + {year};
    }
    assert done == byYear.Keys;
    AllYears(ms, done, false);
    AllYears(ms, done, true);
  }

  /**
   * Realised gains by financial year over all symbols, their lifetime totals, and the
   * quantity sold without a matching purchase. Nothing is lost between years and symbols:
   * the totals come to the matched proceeds less the cost of what was bought and is no
   * longer held.
   */
  method CapitalGains(groups: seq<seq<Trade>>)
    returns (byYear: map<int, Bucket>, stcg: real, ltcg: real, unmatched: nat)
    ensures forall y | y in byYear ::
      && byYear[y].stcg == YearGain(AllMatches(groups), y, false)
      && byYear[y].ltcg == YearGain(AllMatches(groups), y, true)
    ensures Buckets(byYear, AllMatches(groups)) && unmatched == AllUnmatched(groups)
    ensures stcg == KindGain(AllMatches(groups), false) && ltcg == KindGain(AllMatches(groups), true)
    ensures |AllMatches(groups)| + unmatched == AllSold(groups)
    ensures stcg + ltcg == Proceeds(AllMatches(groups)) - (Cost(AllBought(groups)) - Cost(AllHeld(groups)))
  {
    hide Buckets, KindGain, Proceeds, Cost;
    byYear, unmatched := map[], 0;
    NoBuckets();
    assert groups[..0] == [];
    for i := 0 to |groups|
      invariant Buckets(byYear, AllMatches(groups[..i])) && Covers(byYear, AllMatches(groups[..i]))
      invariant unmatched == AllUnmatched(groups[..i])
    {
      assert groups[..i + 1][..i] == groups[..i];
      var missing, rest;
      byYear, missing, rest := MatchSymbol(groups[i], byYear, AllMatches(groups[..i]));
      unmatched := unmatched + missing;
    }
    assert groups[..|groups|] == groups;
    stcg, ltcg := LifetimeGains(byYear, AllMatches(groups));
    BucketsHold(byYear, AllMatches(groups));
    KindsAddUp(AllMatches(groups));
    MatchedCost(groups);
    QuantitiesAddUp(groups);
  }

  lemma BucketsHold(byYear: map<int, Bucket>, ms: seq<Match>)
    requires Buckets(byYear, ms)
    ensures forall y | y in byYear ::
      byYear[y].stcg == YearGain(ms, y, false) && byYear[y].ltcg == YearGain(ms, y, true)
  {
    hide YearGain;
    forall y | y in byYear ensures byYear[y] == Bucket(YearGain(ms, y, false), YearGain(ms, y, true)) {
    }
  }

  lemma NoBuckets()
    ensures Buckets(map[], [])
  {}
}
