/**
 * Which funds to trim: split each holding's lots into short and long term, leave locked
 * units alone, and sell from the funds with the largest long-term share first.
 */
module SellSelection {
  import opened Common
  import opened FundLots
  import opened Sorting
  import opened UnitReplay

  // ----- one holding -----

  datatype Treatment = Debt | OtherAsset | Equity

  /** The statutory holding periods, in days, and the day the debt regime changed. */
  datatype Rules = Rules(elssLockin: int, equityLongTerm: int, debtLongTerm: int, otherLongTerm: int, debtCutoff: int)

  datatype Holding = Holding(nav: real, treatment: Treatment, elss: bool, today: int)

  datatype Breakdown = Breakdown(stcgGain: real, ltcgGain: real, stcgValue: real, ltcgValue: real, lockedValue: real)

  /** Lots that are valued at all. */
  predicate Counts(h: Holding, l: Lot) {
    l.units > 0.0 && h.nav > 0.0
  }

  predicate IsLocked(rules: Rules, h: Holding, l: Lot) {
    h.elss && h.today - l.day < rules.elssLockin
  }

  predicate IsLong(rules: Rules, h: Holding, l: Lot) {
    match h.treatment
    case Debt => l.day < rules.debtCutoff && h.today - l.day >= rules.debtLongTerm
    case OtherAsset => h.today - l.day >= rules.otherLongTerm
    case Equity => h.today - l.day >= rules.equityLongTerm
  }

  function ValueOf(h: Holding, l: Lot): real {
    if Counts(h, l) then l.units * h.nav else 0.0
  }

  function GainOf(h: Holding, l: Lot): real {
    if Counts(h, l) then l.units * h.nav - l.cost * l.units else 0.0
  }

  datatype Class = Long | Short | Locked

  predicate InClass(rules: Rules, h: Holding, l: Lot, c: Class) {
    match c
    case Long => IsLong(rules, h, l)
    case Short => !IsLong(rules, h, l)
    case Locked => IsLocked(rules, h, l)
  }

  /** Value of the lots of one class. */
  function ValueIn(lots: seq<Lot>, h: Holding, rules: Rules, c: Class): real {
    if lots == [] then 0.0
    else
      var l := lots[|lots| - 1];
      ValueIn(lots[..|lots| - 1], h, rules, c) + (if InClass(rules, h, l, c) then ValueOf(h, l) else 0.0)
  }

  function GainIn(lots: seq<Lot>, h: Holding, rules: Rules, c: Class): real {
    if lots == [] then 0.0
    else
      var l := lots[|lots| - 1];
      GainIn(lots[..|lots| - 1], h, rules, c) + (if InClass(rules, h, l, c) then GainOf(h, l) else 0.0)
  }

  function ValueInAll(lots: seq<Lot>, h: Holding): real {
    if lots == [] then 0.0 else ValueInAll(lots[..|lots| - 1], h) + ValueOf(h, lots[|lots| - 1])
  }

  function BreakdownOf(lots: seq<Lot>, h: Holding, rules: Rules): Breakdown {
    Breakdown(GainIn(lots, h, rules, Short), GainIn(lots, h, rules, Long),
              ValueIn(lots, h, rules, Short), ValueIn(lots, h, rules, Long), ValueIn(lots, h, rules, Locked))
  }

  /** The breakdown of a holding: each bucket holds exactly the lots of its class. */
  method HoldingTaxBreakdown(lots: seq<Lot>, h: Holding, rules: Rules) returns (b: Breakdown)
    ensures b == BreakdownOf(lots, h, rules)
  {
    hide IsLong, IsLocked;
    b := Breakdown(0.0, 0.0, 0.0, 0.0, 0.0);
    assert lots[..0] == [];
    for i := 0 to |lots|
      invariant b == BreakdownOf(lots[..i], h, rules)
    {
      var lot := lots[i];
      assert lots[..i + 1][..i] == lots[..i];
      if Counts(h, lot) {
        var cost := lot.cost * lot.units;
        var value := lot.units * h.nav;
        var gain := value - cost;
        if IsLocked(rules, h, lot) {
          b := b.(lockedValue := b.lockedValue + value);
        }
        if IsLong(rules, h, lot) {
          b := b.(ltcgGain := b.ltcgGain + gain, ltcgValue := b.ltcgValue + value);
        } else {
          b := b.(stcgGain := b.stcgGain + gain, stcgValue := b.stcgValue + value);
        }
      }
    }
    assert lots[..|lots|] == lots;
  }

  /** The two terms cover the holding once, and the locked part is part of it. */
  lemma {:induction false} ClassesPartition(lots: seq<Lot>, h: Holding, rules: Rules)
    ensures var b := BreakdownOf(lots, h, rules);
      && b.ltcgValue + b.stcgValue == ValueInAll(lots, h)
      && b.ltcgValue >= 0.0 && b.stcgValue >= 0.0 && 0.0 <= b.lockedValue <= b.ltcgValue + b.stcgValue
  {
    hide IsLong, IsLocked;
    if lots != [] {
      ClassesPartition(lots[..|lots| - 1], h, rules);
      ValueIsNotNegative(h, lots[|lots| - 1]);
    }
  }

  lemma ValueIsNotNegative(h: Holding, l: Lot)
    ensures ValueOf(h, l) >= 0.0
  {}

  /**
   * One lot, in plain terms. It counts when it has units and a price; its term is decided by
   * the days it was held, for debt only if it was bought before the regime changed; it is
   * locked while an ELSS lot is younger than the lock-in.
   */
  lemma OneLotBreakdown(l: Lot, h: Holding, rules: Rules)
    ensures var days := h.today - l.day;
      var value, cost := l.units * h.nav, l.units * l.cost;
      var long := match h.treatment
        case Equity => days >= rules.equityLongTerm
        case OtherAsset => days >= rules.otherLongTerm
        case Debt => l.day < rules.debtCutoff && days >= rules.debtLongTerm;
      var locked := if h.elss && days < rules.elssLockin then value else 0.0;
      BreakdownOf([l], h, rules) ==
        if l.units <= 0.0 || h.nav <= 0.0 then Breakdown(0.0, 0.0, 0.0, 0.0, 0.0)
        else if long then Breakdown(0.0, value - cost, 0.0, value, locked)
        else Breakdown(value - cost, 0.0, value, 0.0, locked)
  {
    hide ValueIn, GainIn;
    SingleLot(l, h, rules, Long);
    SingleLot(l, h, rules, Short);
    SingleLot(l, h, rules, Locked);
    assert l.units * l.cost == l.cost * l.units;
  }

  lemma SingleLot(l: Lot, h: Holding, rules: Rules, c: Class)
    ensures ValueIn([l], h, rules, c) == if InClass(rules, h, l, c) then ValueOf(h, l) else 0.0
    ensures GainIn([l], h, rules, c) == if InClass(rules, h, l, c) then GainOf(h, l) else 0.0
  {
    assert [l][..0] == [];
  }

  /** Lots are judged one by one: the breakdown of all is the sum of the parts. */
  lemma {:induction false} BreakdownsAdd(a: seq<Lot>, b: seq<Lot>, h: Holding, rules: Rules)
    ensures var x, y, both := BreakdownOf(a, h, rules), BreakdownOf(b, h, rules), BreakdownOf(a + b, h, rules);
      both == Breakdown(x.stcgGain + y.stcgGain, x.ltcgGain + y.ltcgGain,
                        x.stcgValue + y.stcgValue, x.ltcgValue + y.ltcgValue, x.lockedValue + y.lockedValue)
  {
    hide InClass, ValueOf, GainOf;
    if b == [] {
      assert a + b == a;
    } else {
      BreakdownsAdd(a, b[..|b| - 1], h, rules);
      assert (a + b)[..|a + b| - 1] == a + b[..|b| - 1];
    }
  }

  // ----- choosing what to sell -----

  /** A fund with something to sell, and the long-term share of its value. */
  datatype Candidate = Candidate(fund: string, unlocked: real, share: real)

  /** The candidate a breakdown gives, if any of the holding is unlocked. */
  function CandidateOf(fund: string, b: Breakdown): (c: Option<Candidate>)
    ensures c.Some? && b.ltcgValue >= 0.0 && b.stcgValue >= 0.0 && b.lockedValue >= 0.0 ==>
      c.value.unlocked > 0.0 && 0.0 <= c.value.share <= 1.0
  {
    var total := b.ltcgValue + b.stcgValue;
    var unlocked := if total - b.lockedValue > 0.0 then total - b.lockedValue else 0.0;
    if unlocked <= 0.0 then None
    else
      var share := if total > 0.0 then b.ltcgValue / total else 0.0;
      assert total > 0.0 && b.ltcgValue >= 0.0 && b.stcgValue >= 0.0 ==> 0.0 <= share <= 1.0 by {
        if total > 0.0 && b.ltcgValue >= 0.0 && b.stcgValue >= 0.0 {
          ShareOfTotal(b.ltcgValue, total);
        }
      }
      Some(Candidate(fund, unlocked, share))
  }

  lemma ShareOfTotal(part: real, total: real)
    requires total > 0.0 && 0.0 <= part <= total
    ensures 0.0 <= part / total <= 1.0
  {
    var q := part / total;
    assert q * total == part;
  }

  /** Larger long-term share first, then larger unlocked value. */
  predicate Before(a: Candidate, b: Candidate) {
    a.share > b.share || (a.share == b.share && a.unlocked >= b.unlocked)
  }

  function SortCandidates(cs: seq<Candidate>): seq<Candidate> {
    Sort(cs, Before)
  }

  predicate ByShare(cs: seq<Candidate>) {
    forall i, j | 0 <= i < j < |cs| :: cs[i].share >= cs[j].share
  }

  lemma SortingSorts(cs: seq<Candidate>)
    ensures Sorted(SortCandidates(cs), Before) && ByShare(SortCandidates(cs))
    ensures var s := SortCandidates(cs);
      forall i, j | 0 <= i < j < |s| && s[i].share == s[j].share :: s[i].unlocked >= s[j].unlocked
    ensures multiset(SortCandidates(cs)) == multiset(cs)
  {
    hide Sort;
    assert IsOrder(Before);
    SortSorts(cs, Before);
    var s := SortCandidates(cs);
    forall i, j | 0 <= i < j < |s| ensures s[i].share >= s[j].share {
      assert Before(s[i], s[j]);
    }
  }

  function Total(xs: seq<real>): real {
    if xs == [] then 0.0 else xs[0] + Total(xs[1..])
  }

  /** Long-term value drawn by selling `xs[i]` of each candidate. */
  function Drawn(cs: seq<Candidate>, xs: seq<real>): real
    requires |cs| == |xs|
  {
    if cs == [] then 0.0 else xs[0] * cs[0].share + Drawn(cs[1..], xs[1..])
  }

  /** A sale that takes no more of any fund than is unlocked. */
  predicate Feasible(cs: seq<Candidate>, xs: seq<real>) {
    |cs| == |xs| && forall i | 0 <= i < |xs| :: 0.0 <= xs[i] <= cs[i].unlocked
  }

  function Smaller(x: real, y: real): real {
    if x <= y then x else y
  }

  function Takes(cs: seq<Candidate>, amount: real): (r: seq<real>)
    ensures |r| == |cs|
  {
    if cs == [] then []
    else
      var take := if amount <= 0.0 then 0.0 else Smaller(amount, cs[0].unlocked);
      [take] + Takes(cs[1..], amount - take)
  }

  datatype Pick = Pick(fund: string, amount: real)

  /** The selection loop over the sorted candidates. */
  method PickInOrder(cs: seq<Candidate>, amount: real) returns (picks: seq<Pick>, remaining: real)
    requires amount > 0.0 && forall i | 0 <= i < |cs| :: cs[i].unlocked > 0.0
    ensures |picks| <= |cs|
    ensures forall i | 0 <= i < |picks| :: picks[i] == Pick(cs[i].fund, Takes(cs, amount)[i])
    ensures forall i | |picks| <= i < |cs| :: Takes(cs, amount)[i] == 0.0
    ensures Total(Takes(cs, amount)) + remaining == amount && remaining >= 0.0
  {
    hide Takes, Total;
    picks, remaining := [], amount;
    ghost var takes := Takes(cs, amount);
    var i := 0;
    assert takes[0..] == takes && cs[0..] == cs;
    while i < |cs| && remaining > 0.0
      invariant 0 <= i <= |cs| && |picks| == i && remaining >= 0.0
      invariant forall j | 0 <= j < i :: picks[j] == Pick(cs[j].fund, takes[j])
      invariant takes[i..] == Takes(cs[i..], remaining)
      invariant Total(takes) == (amount - remaining) + Total(takes[i..])
    {
      var c := cs[i];
      var take := Smaller(remaining, c.unlocked);
      TakeOne(cs[i..], remaining);
      assert cs[i..][1..] == cs[i + 1..] && takes[i..][1..] == takes[i + 1..];
      assert takes[i] == takes[i..][0];
      picks := picks + [Pick(c.fund, take)];
      remaining := remaining - take;
      i := i + 1;
    }
    NothingLeft(cs[i..], remaining);
    assert forall j | i <= j < |cs| :: takes[j] == takes[i..][j - i];
  }

  lemma TakeOne(cs: seq<Candidate>, amount: real)
    requires cs != [] && amount > 0.0
    ensures var take := Smaller(amount, cs[0].unlocked); var takes := Takes(cs, amount);
      takes[0] == take && takes[1..] == Takes(cs[1..], amount - take) && Total(takes) == take + Total(takes[1..])
  {}

  lemma {:induction false} NothingLeft(cs: seq<Candidate>, amount: real)
    requires cs == [] || amount <= 0.0
    ensures Total(Takes(cs, amount)) == 0.0
    ensures forall i | 0 <= i < |cs| :: Takes(cs, amount)[i] == 0.0
  {
    if cs != [] {
      NothingLeft(cs[1..], amount);
      assert Takes(cs, amount)[1..] == Takes(cs[1..], amount);
    }
  }

  /** What is sold is the amount asked for, as far as unlocked value allows. */
  lemma {:induction false} TakesAreFeasible(cs: seq<Candidate>, amount: real)
    requires amount >= 0.0 && forall i | 0 <= i < |cs| :: cs[i].unlocked > 0.0
    ensures Feasible(cs, Takes(cs, amount))
    ensures Total(Takes(cs, amount)) == Smaller(amount, Unlocked(cs))
  {
    hide Takes, Total, FirstTake;
    if cs == [] {
      NoTakes(amount);
    } else {
      var take := FirstTake(cs[0], amount);
      FirstTakeGrows(cs[0], amount, amount);
      TakesNext(cs, amount);
      TakesAreFeasible(cs[1..], amount - take);
      UnlockedIsNotNegative(cs[1..]);
      var takes, rest := Takes(cs, amount), Takes(cs[1..], amount - take);
      forall i | 0 <= i < |takes| ensures 0.0 <= takes[i] <= cs[i].unlocked {
        if i > 0 {
          assert takes[i] == rest[i - 1] && cs[i] == cs[1..][i - 1];
        }
      }
    }
  }

  lemma NoTakes(amount: real)
    ensures Takes([], amount) == [] && Total([]) == 0.0
  {}

  lemma TakesNext(cs: seq<Candidate>, amount: real)
    requires cs != [] && amount >= 0.0 && cs[0].unlocked > 0.0
    ensures var take := FirstTake(cs[0], amount);
      && take == Smaller(amount, cs[0].unlocked)
      && Takes(cs, amount) == [take] + Takes(cs[1..], amount - take)
      && Total(Takes(cs, amount)) == take + Total(Takes(cs[1..], amount - take))
  {
    var take := FirstTake(cs[0], amount);
    assert ([take] + Takes(cs[1..], amount - take))[1..] == Takes(cs[1..], amount - take);
  }

  function Unlocked(cs: seq<Candidate>): real {
    if cs == [] then 0.0 else cs[0].unlocked + Unlocked(cs[1..])
  }

  lemma {:induction false} UnlockedIsNotNegative(cs: seq<Candidate>)
    requires forall i | 0 <= i < |cs| :: cs[i].unlocked > 0.0
    ensures Unlocked(cs) >= 0.0
  {
    if cs != [] {
      UnlockedIsNotNegative(cs[1..]);
    }
  }

  lemma ScaledBy(x: real, y: real, s: real)
    requires x <= y && s >= 0.0
    ensures x * s <= y * s
  {}

  function FirstTake(c: Candidate, amount: real): real {
    if amount <= 0.0 then 0.0 else Smaller(amount, c.unlocked)
  }

  lemma FirstTakeGrows(c: Candidate, low: real, high: real)
    requires 0.0 <= low <= high && c.unlocked > 0.0
    ensures var a, b := FirstTake(c, low), FirstTake(c, high); a <= b && 0.0 <= low - a <= high - b
  {}

  lemma DrawnByTakes(cs: seq<Candidate>, amount: real)
    requires cs != []
    ensures var take := FirstTake(cs[0], amount);
      Drawn(cs, Takes(cs, amount)) == take * cs[0].share + Drawn(cs[1..], Takes(cs[1..], amount - take))
  {
    var take := FirstTake(cs[0], amount);
    assert Takes(cs, amount)[1..] == Takes(cs[1..], amount - take);
  }

  /** Asking for more draws at most the best share more, and never less. */
  lemma {:induction false} DrawnGrowsSlowly(cs: seq<Candidate>, low: real, high: real, best: real)
    requires 0.0 <= low <= high && best >= 0.0
    requires forall i | 0 <= i < |cs| :: cs[i].unlocked > 0.0 && 0.0 <= cs[i].share <= best
    ensures Drawn(cs, Takes(cs, low)) <= Drawn(cs, Takes(cs, high))
    ensures Drawn(cs, Takes(cs, high)) <= Drawn(cs, Takes(cs, low)) + best * (high - low)
  {
    hide Takes, Drawn, FirstTake;
    if cs == [] {
      NothingDrawn(low);
      NothingDrawn(high);
      ScaledBy(0.0, high - low, best);
    } else {
      var a, b := FirstTake(cs[0], low), FirstTake(cs[0], high);
      FirstTakeGrows(cs[0], low, high);
      DrawnGrowsSlowly(cs[1..], low - a, high - b, best);
      DrawnByTakes(cs, low);
      DrawnByTakes(cs, high);
      var s := cs[0].share;
      Increase(a, b, s, best, low, high);
      assert Drawn(cs, Takes(cs, low)) == a * s + Drawn(cs[1..], Takes(cs[1..], low - a));
      assert Drawn(cs, Takes(cs, high)) == b * s + Drawn(cs[1..], Takes(cs[1..], high - b));
    }
  }

  lemma NothingDrawn(amount: real)
    ensures Drawn([], Takes([], amount)) == 0.0
  {}

  lemma Increase(a: real, b: real, s: real, best: real, low: real, high: real)
    requires a <= b && 0.0 <= s <= best
    ensures a * s <= b * s
    ensures b * s - a * s + best * ((high - b) - (low - a)) <= best * (high - low)
  {
    ScaledBy(a, b, s);
    ScaledBy(s, best, b - a);
    Shift(s, a, b, 0.0);
    assert (high - low) == ((high - b) - (low - a)) + (b - a);
    Spread(best, (high - b) - (low - a), b - a);
  }

  /**
   * Selling by long-term share is optimal: no other feasible sale of the same amount, or of
   * less, draws more long-term value.
   */
  lemma {:induction false} NoSaleDrawsMore(cs: seq<Candidate>, xs: seq<real>, amount: real)
    requires ByShare(cs) && forall i | 0 <= i < |cs| :: cs[i].unlocked > 0.0 && cs[i].share >= 0.0
    requires Feasible(cs, xs) && Total(xs) <= amount
    ensures Drawn(cs, xs) <= Drawn(cs, Takes(cs, amount))
  {
    hide Takes;
    if cs == [] {
      NothingDrawn(amount);
    } else {
      var x, s := xs[0], cs[0].share;
      TotalIsNotNegative(xs[1..]);
      var take := FirstTake(cs[0], amount);
      assert x <= take;
      NoSaleDrawsMore(cs[1..], xs[1..], amount - x);
      DrawnGrowsSlowly(cs[1..], amount - take, amount - x, s);
      DrawnByTakes(cs, amount);
      Shift(s, x, take, amount);
    }
  }

  lemma Spread(x: real, y: real, z: real)
    ensures x * (y + z) == x * y + x * z
  {}

  lemma Shift(s: real, x: real, take: real, amount: real)
    ensures s * ((amount - x) - (amount - take)) == take * s - x * s
  {}

  lemma {:induction false} TotalIsNotNegative(xs: seq<real>)
    requires forall i | 0 <= i < |xs| :: xs[i] >= 0.0
    ensures Total(xs) >= 0.0
  {
    if xs != [] {
      TotalIsNotNegative(xs[1..]);
    }
  }

  /**
   * The selection as a whole: the picks are the first of the candidates in sorted order,
   * none exceeds its unlocked value, picks and remainder make up the amount, nothing
   * remains unless everything unlocked is sold, and no other sale draws more long-term value.
   */
  ghost predicate IsBestSale(candidates: seq<Candidate>, amount: real, picks: seq<Pick>, remaining: real) {
    var cs := SortCandidates(candidates);
    var takes := Takes(cs, amount);
    && ByShare(cs) && multiset(cs) == multiset(candidates) && Feasible(cs, takes)
    && |picks| <= |cs|
    && (forall i | 0 <= i < |picks| :: picks[i] == Pick(cs[i].fund, takes[i]))
    && (forall i | |picks| <= i < |cs| :: takes[i] == 0.0)
    && Total(takes) + remaining == amount
    && Total(takes) == Smaller(amount, Unlocked(cs))
    && forall xs | Feasible(cs, xs) && Total(xs) <= amount :: Drawn(cs, xs) <= Drawn(cs, takes)
  }

  method SelectSellCandidates(candidates: seq<Candidate>, amount: real) returns (picks: seq<Pick>, remaining: real)
    requires amount > 0.0
    requires forall i | 0 <= i < |candidates| :: candidates[i].unlocked > 0.0 && candidates[i].share >= 0.0
    ensures IsBestSale(candidates, amount, picks, remaining)
  {
    hide Takes, SortCandidates, Drawn, Total, Unlocked, ByShare;
    SortingSorts(candidates);
    var cs := SortCandidates(candidates);
    forall i | 0 <= i < |cs| ensures cs[i].unlocked > 0.0 && cs[i].share >= 0.0 {
      assert cs[i] in multiset(cs);
      assert cs[i] in candidates;
    }
    TakesAreFeasible(cs, amount);
    forall xs | Feasible(cs, xs) && Total(xs) <= amount ensures Drawn(cs, xs) <= Drawn(cs, Takes(cs, amount)) {
      NoSaleDrawsMore(cs, xs, amount);
    }
    picks, remaining := PickInOrder(cs, amount);
  }

  // ----- from ledgers to a sale -----

  /** A fund of the category, with its transactions in order of date. */
  datatype Fund = Fund(name: string, holding: Holding, ledger: seq<Row>)

  function BreakdownOfFund(f: Fund, rules: Rules): Breakdown {
    BreakdownOf(LotsOf(f.ledger), f.holding, rules)
  }

  /** The funds with something unlocked, in the order given. */
  function CandidatesOf(funds: seq<Fund>, rules: Rules): seq<Candidate> {
    if funds == [] then []
    else
      var f := funds[|funds| - 1];
      var c := CandidateOf(f.name, BreakdownOfFund(f, rules));
      CandidatesOf(funds[..|funds| - 1], rules) + (if c.Some? then [c.value] else [])
  }

  /**
   * A fund is a candidate exactly when not all of its value is locked; what it offers is the
   * rest, and its share of the whole is the part of its lots held for the long term.
   */
  lemma CandidateIsWhatIsUnlocked(f: Fund, rules: Rules)
    ensures var lots := LotsOf(f.ledger); var c := CandidateOf(f.name, BreakdownOfFund(f, rules));
      var value, locked := ValueInAll(lots, f.holding), ValueIn(lots, f.holding, rules, Locked);
      && (c.Some? <==> locked < value)
      && (c.Some? ==> c.value.unlocked == value - locked > 0.0 && 0.0 <= c.value.share <= 1.0
                      && c.value.share * value == ValueIn(lots, f.holding, rules, Long))
  {
    hide LotsOf, ValueIn, ValueInAll, GainIn;
    ClassesPartition(LotsOf(f.ledger), f.holding, rules);
    var b := BreakdownOfFund(f, rules);
    var total := b.ltcgValue + b.stcgValue;
    if total > 0.0 {
      var q := b.ltcgValue / total;
      assert q * total == b.ltcgValue;
    }
  }

  /** Value of the lots that are held for the long term and can be sold. */
  function SellableLong(lots: seq<Lot>, h: Holding, rules: Rules): real {
    if lots == [] then 0.0
    else
      var l := lots[|lots| - 1];
      SellableLong(lots[..|lots| - 1], h, rules)
      + (if InClass(rules, h, l, Long) && !InClass(rules, h, l, Locked) then ValueOf(h, l) else 0.0)
  }

  /** Locked lots are ELSS lots; once the lock-in is the longer period, what is unlocked is long-term. */
  lemma {:induction false} UnlockedIsLong(lots: seq<Lot>, h: Holding, rules: Rules)
    requires h.elss ==> h.treatment == Equity && rules.elssLockin >= rules.equityLongTerm
    ensures !h.elss ==>
      && ValueIn(lots, h, rules, Locked) == 0.0
      && SellableLong(lots, h, rules) == ValueIn(lots, h, rules, Long)
    ensures SellableLong(lots, h, rules) <= ValueIn(lots, h, rules, Long)
    ensures h.elss ==> SellableLong(lots, h, rules) == ValueInAll(lots, h) - ValueIn(lots, h, rules, Locked)
  {
    if lots != [] {
      ValueIsNotNegative(h, lots[|lots| - 1]);
      UnlockedIsLong(lots[..|lots| - 1], h, rules);
    }
  }

  /**
   * The share a fund is ranked by is taken of its whole holding. It is the long-term share of
   * what can be sold exactly when nothing is locked or nothing is short-term.
   */
  lemma ShareIsOfWhatCanBeSoldExactly(f: Fund, rules: Rules)
    requires f.holding.elss ==> f.holding.treatment == Equity && rules.elssLockin >= rules.equityLongTerm
    requires CandidateOf(f.name, BreakdownOfFund(f, rules)).Some?
    ensures var lots := LotsOf(f.ledger); var c := CandidateOf(f.name, BreakdownOfFund(f, rules)).value;
      c.share * c.unlocked == SellableLong(lots, f.holding, rules)
      <==> ValueIn(lots, f.holding, rules, Locked) == 0.0 || ValueIn(lots, f.holding, rules, Short) == 0.0
  {
    hide LotsOf, ValueIn, ValueInAll, GainIn, SellableLong, CandidateOf;
    var lots := LotsOf(f.ledger);
    CandidateIsWhatIsUnlocked(f, rules);
    ClassesPartition(lots, f.holding, rules);
    UnlockedIsLong(lots, f.holding, rules);
    var c := CandidateOf(f.name, BreakdownOfFund(f, rules)).value;
    var long, short := ValueIn(lots, f.holding, rules, Long), ValueIn(lots, f.holding, rules, Short);
    var locked := ValueIn(lots, f.holding, rules, Locked);
    var value := ValueInAll(lots, f.holding);
    assert value == long + short;
    ShareOfPart(c.share, value, long, locked);
  }

  /** With `long` of `total`, the same share of what is left without `locked`. */
  lemma ShareOfPart(share: real, total: real, long: real, locked: real)
    requires share * total == long && 0.0 <= locked < total
    ensures share * (total - locked) == total - locked <==> long == total
    ensures locked == 0.0 ==> share * (total - locked) == long
  {
    var left := total - locked;
    OnlyFactor(share, total, long);
    OnlyFactor(share, left, share * left);
  }

  lemma OnlyFactor(x: real, y: real, product: real)
    requires y > 0.0 && x * y == product
    ensures product == y <==> x == 1.0
  {
    assert product - y == (x - 1.0) * y;
  }

  /** Not all of the fund's value is locked. */
  predicate HasUnlocked(f: Fund, rules: Rules) {
    ValueIn(LotsOf(f.ledger), f.holding, rules, Locked) < ValueInAll(LotsOf(f.ledger), f.holding)
  }

  /** The candidate offers the fund's unlocked value, ranked by its long-term share. */
  predicate IsOffer(c: Candidate, f: Fund, rules: Rules) {
    var lots := LotsOf(f.ledger);
    var value := ValueInAll(lots, f.holding);
    && c.fund == f.name && c.unlocked == value - ValueIn(lots, f.holding, rules, Locked) > 0.0
    && c.share * value == ValueIn(lots, f.holding, rules, Long)
  }

  lemma CandidateHasItsName(f: Fund, rules: Rules)
    ensures var c := CandidateOf(f.name, BreakdownOfFund(f, rules)); c.Some? ==> c.value.fund == f.name
  {
    hide BreakdownOfFund;
  }

  /** `cs` are the offers of the funds at `from`, in order, and no fund with something unlocked is missing. */
  predicate AreOffers(cs: seq<Candidate>, from: seq<nat>, funds: seq<Fund>, rules: Rules) {
    && |from| == |cs| && (forall i, j | 0 <= i < j < |from| :: from[i] < from[j])
    && (forall i | 0 <= i < |from| :: from[i] < |funds| && IsOffer(cs[i], funds[from[i]], rules))
    && (forall i | 0 <= i < |funds| && HasUnlocked(funds[i], rules) :: i in from)
  }

  lemma OneMoreOffer(cs: seq<Candidate>, from: seq<nat>, funds: seq<Fund>, f: Fund, c: Candidate, rules: Rules)
    requires AreOffers(cs, from, funds, rules) && IsOffer(c, f, rules)
    ensures AreOffers(cs + [c], from + [|funds|], funds + [f], rules)
  {
    hide IsOffer, HasUnlocked;
    var next := from + [|funds|];
    assert next[|from|] == |funds|;
    forall i | 0 <= i < |funds + [f]| && HasUnlocked((funds + [f])[i], rules) ensures i in next {
      if i < |funds| {
        assert HasUnlocked(funds[i], rules) && i in from;
      }
    }
  }

  lemma NoMoreOffer(cs: seq<Candidate>, from: seq<nat>, funds: seq<Fund>, f: Fund, rules: Rules)
    requires AreOffers(cs, from, funds, rules) && !HasUnlocked(f, rules)
    ensures AreOffers(cs, from, funds + [f], rules)
  {
    hide IsOffer, HasUnlocked;
    forall i | 0 <= i < |funds + [f]| && HasUnlocked((funds + [f])[i], rules) ensures i in from {
      assert HasUnlocked(funds[i], rules);
    }
  }

  lemma NoOffers(rules: Rules)
    ensures AreOffers([], [], [], rules)
  {}

  /** Exactly the funds with something unlocked become candidates, each once and in the order given. */
  lemma {:induction false} FundsBecomeCandidates(funds: seq<Fund>, rules: Rules) returns (from: seq<nat>)
    ensures AreOffers(CandidatesOf(funds, rules), from, funds, rules)
  {
    hide AreOffers, IsOffer, HasUnlocked, CandidateOf, BreakdownOfFund;
    if funds == [] {
      NoOffers(rules);
      return [];
    }
    var init, f := funds[..|funds| - 1], funds[|funds| - 1];
    assert funds == init + [f];
    from := FundsBecomeCandidates(init, rules);
    OfferOfFund(f, rules);
    var c := CandidateOf(f.name, BreakdownOfFund(f, rules));
    if c.Some? {
      OneMoreOffer(CandidatesOf(init, rules), from, init, f, c.value, rules);
      from := from + [|init|];
    } else {
      NoMoreOffer(CandidatesOf(init, rules), from, init, f, rules);
      assert CandidatesOf(init, rules) + [] == CandidatesOf(init, rules);
    }
  }

  lemma OfferOfFund(f: Fund, rules: Rules)
    ensures var c := CandidateOf(f.name, BreakdownOfFund(f, rules));
      if c.Some? then IsOffer(c.value, f, rules) else !HasUnlocked(f, rules)
  {
    hide LotsOf, ValueIn, ValueInAll, CandidateOf, BreakdownOfFund;
    CandidateIsWhatIsUnlocked(f, rules);
    CandidateHasItsName(f, rules);
  }

  lemma {:induction false} CandidatesAreSellable(funds: seq<Fund>, rules: Rules)
    ensures forall i | 0 <= i < |CandidatesOf(funds, rules)| ::
      CandidatesOf(funds, rules)[i].unlocked > 0.0 && 0.0 <= CandidatesOf(funds, rules)[i].share <= 1.0
  {
    hide CandidateOf, BreakdownOfFund;
    if funds != [] {
      CandidatesAreSellable(funds[..|funds| - 1], rules);
      CandidateIsWhatIsUnlocked(funds[|funds| - 1], rules);
    }
  }

  /** The loop that builds the candidates from lots and breakdowns. */
  method BuildCandidates(funds: seq<Fund>, rules: Rules) returns (candidates: seq<Candidate>)
    ensures candidates == CandidatesOf(funds, rules)
  {
    hide LotsOf, BreakdownOf, CandidateOf;
    candidates := [];
    assert funds[..0] == [];
    for i := 0 to |funds|
      invariant candidates == CandidatesOf(funds[..i], rules)
    {
      assert funds[..i + 1][..i] == funds[..i];
      var f := funds[i];
      var lots := ComputeFundLots(f.ledger);
      var b := HoldingTaxBreakdown(lots, f.holding, rules);
      var c := CandidateOf(f.name, b);
      if c.Some? {
        candidates := candidates + [c.value];
      }
    }
    assert funds[..|funds|] == funds;
  }

  /** From the funds' ledgers to the sale: nothing for no amount, and otherwise the best one. */
  method SuggestSale(funds: seq<Fund>, rules: Rules, amount: real) returns (picks: seq<Pick>, remaining: real)
    ensures amount <= 0.0 ==> picks == []
    ensures amount > 0.0 ==> IsBestSale(CandidatesOf(funds, rules), amount, picks, remaining)
  {
    hide IsBestSale, CandidatesOf;
    if amount <= 0.0 {
      return [], amount;
    }
    var candidates := BuildCandidates(funds, rules);
    CandidatesAreSellable(funds, rules);
    picks, remaining := SelectSellCandidates(candidates, amount);
  }
}
