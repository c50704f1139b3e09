/**
 * Fund units held at the end of each day. The reference replays the ledger day by day; the
 * application sorts the ledger once, records the units only on days that have transactions,
 * and reads every other day off that step function.
 */
module UnitReplay {
  import opened Common
  import opened Sorting

  /** `fund` is the column of the row's fund, or None when the fund has no price series. */
  datatype Row = Row(day: int, fund: Option<nat>, kind: string, amount: real, units: real, nav: real)

  function Abs(x: real): real {
    if x < 0.0 then -x else x
  }

  function MaxZero(x: real): real {
    if x < 0.0 then 0.0 else x
  }

  predicate MentionsAny(text: string, words: seq<string>) {
    exists i | 0 <= i < |words| :: Mentions(text, words[i])
  }

  const INFLOW := ["BUY", "PURCHASE", "SIP", "STP-IN", "SWITCH-IN"]
  const OUTFLOW := ["SELL", "REDEMPTION", "SWP", "STP-OUT", "SWITCH-OUT"]
  const UNITS_ONLY := ["REINVEST", "BONUS", "SEGREGATION"]
  const CHARGE := ["TAX", "DUTY", "FEE", "STT"]
  const PAYOUT := ["DIVIDEND", "PAYOUT"]

  /** The row's money amount; imputed from units and price when it is missing. */
  function Money(r: Row): real {
    if r.amount == 0.0 && r.units != 0.0 && r.nav > 0.0 then Abs(r.units) * r.nav else Abs(r.amount)
  }

  predicate IsUnitsOnly(r: Row) {
    MentionsAny(r.kind, UNITS_ONLY)
  }

  predicate IsIn(r: Row) {
    r.units > 0.0 || (r.units == 0.0 && MentionsAny(r.kind, INFLOW))
  }

  predicate IsOut(r: Row) {
    r.units < 0.0 || (r.units == 0.0 && MentionsAny(r.kind, OUTFLOW))
  }

  /** Units of the row's fund after the row, given the units before it. */
  function Held(r: Row, held: real): real {
    if IsUnitsOnly(r) || IsIn(r) then held + Abs(r.units)
    else if IsOut(r) then MaxZero(held - Abs(r.units))
    else held
  }

  /** Money the row moves into the portfolio. */
  function Cash(r: Row): real {
    if IsUnitsOnly(r) then 0.0
    else if IsIn(r) then Money(r)
    else if IsOut(r) || MentionsAny(r.kind, CHARGE) || MentionsAny(r.kind, PAYOUT) then -Money(r)
    else 0.0
  }

  datatype Book = Book(units: seq<real>, cash: real)

  predicate Fits(rows: seq<Row>, funds: nat) {
    forall i | 0 <= i < |rows| :: rows[i].fund.Some? ==> rows[i].fund.value < funds
  }

  function Apply(r: Row, b: Book): (b': Book)
    requires r.fund.Some? ==> r.fund.value < |b.units|
    ensures |b'.units| == |b.units|
  {
    match r.fund
    case None => b
    case Some(j) => Book(b.units[j := Held(r, b.units[j])], b.cash + Cash(r))
  }

  function ApplyAll(rows: seq<Row>, b: Book): (b': Book)
    requires Fits(rows, |b.units|)
    ensures |b'.units| == |b.units|
  {
    if rows == [] then b
    else Apply(rows[|rows| - 1], ApplyAll(rows[..|rows| - 1], b))
  }

  // ----- what a row does, in plain terms -----

  predicate SaysOneOf(kind: string, a: string, b: string, c: string) {
    Mentions(kind, a) || Mentions(kind, b) || Mentions(kind, c)
  }

  lemma AnyOf(text: string, words: seq<string>)
    ensures |words| == 2 ==> (MentionsAny(text, words) <==> Mentions(text, words[0]) || Mentions(text, words[1]))
    ensures |words| == 3 ==> (MentionsAny(text, words) <==> SaysOneOf(text, words[0], words[1], words[2]))
    ensures |words| == 4 ==> (MentionsAny(text, words) <==>
              SaysOneOf(text, words[0], words[1], words[2]) || Mentions(text, words[3]))
    ensures |words| == 5 ==> (MentionsAny(text, words) <==>
              SaysOneOf(text, words[0], words[1], words[2]) || Mentions(text, words[3]) || Mentions(text, words[4]))
  {
    hide Mentions;
  }

  /** The size of an amount. */
  predicate IsSize(size: real, x: real) {
    size >= 0.0 && (size == x || size == -x)
  }

  /**
   * One row, by its sign and its words. Reinvested, bonus and segregated units are added
   * without money; bought units are added and paid for; sold units are taken off, down to
   * zero, and paid out; taxes, duties, fees, dividends and payouts only take money out; and
   * anything else does nothing.
   */
  lemma RowInPlainTerms(r: Row, b: Book, j: nat, units: real, amount: real)
    requires r.fund == Some(j) && j < |b.units| && IsSize(units, r.units) && IsSize(amount, r.amount)
    ensures var money := if r.amount == 0.0 && r.nav > 0.0 then units * r.nav else amount;
      var added, bare := SaysOneOf(r.kind, "REINVEST", "BONUS", "SEGREGATION"), r.units == 0.0;
      var bought := r.units > 0.0 || (bare &&
        (SaysOneOf(r.kind, "BUY", "PURCHASE", "SIP") || Mentions(r.kind, "STP-IN") || Mentions(r.kind, "SWITCH-IN")));
      var sold := r.units < 0.0 || (bare &&
        (SaysOneOf(r.kind, "SELL", "REDEMPTION", "SWP")
         || Mentions(r.kind, "STP-OUT") || Mentions(r.kind, "SWITCH-OUT")));
      var charged := SaysOneOf(r.kind, "TAX", "DUTY", "FEE") || SaysOneOf(r.kind, "STT", "DIVIDEND", "PAYOUT");
      var held := b.units[j];
      Apply(r, b) ==
      if added then Book(b.units[j := held + units], b.cash)
      else if bought then Book(b.units[j := held + units], b.cash + money)
      else if sold then Book(b.units[j := if held >= units then held - units else 0.0], b.cash - money)
      else if charged then Book(b.units, b.cash - money)
      else b
  {
    hide Mentions, MentionsAny;
    AnyOf(r.kind, INFLOW);
    AnyOf(r.kind, OUTFLOW);
    AnyOf(r.kind, UNITS_ONLY);
    AnyOf(r.kind, CHARGE);
    AnyOf(r.kind, PAYOUT);
    assert b.units[j := b.units[j]] == b.units;
    assert Abs(r.units) == units && Abs(r.amount) == amount;
    if r.units == 0.0 {
      assert units * r.nav == 0.0;
    }
  }

  // ----- the reference: one day after the other -----

  /** The rows of one day, in ledger order. */
  function OfDay(rows: seq<Row>, day: int): (r: seq<Row>)
    ensures forall i | 0 <= i < |r| :: r[i] in rows
  {
    if rows == [] then []
    else
      var last := rows[|rows| - 1];
      OfDay(rows[..|rows| - 1], day) + (if last.day == day then [last] else [])
  }

  /** Rows act one after the other, and a day keeps the ledger's order. */
  lemma {:induction false} RowsActInOrder(a: seq<Row>, b: seq<Row>, book: Book, day: int)
    requires Fits(a, |book.units|) && Fits(b, |book.units|)
    ensures Fits(a + b, |book.units|)
    ensures ApplyAll(a + b, book) == ApplyAll(b, ApplyAll(a, book))
    ensures OfDay(a + b, day) == OfDay(a, day) + OfDay(b, day)
  {
    hide Apply;
    if b == [] {
      assert a + b == a;
    } else {
      RowsActInOrder(a, b[..|b| - 1], book, day);
      assert (a + b)[..|a + b| - 1] == a + b[..|b| - 1];
    }
  }

  function NoUnits(funds: nat): (r: seq<real>)
    ensures |r| == funds && forall i | 0 <= i < funds :: r[i] == 0.0
  {
    seq(funds, _ => 0.0)
  }

  /** What replaying day `day` in ledger order does to the units held the evening before. */
  function DayBook(ledger: seq<Row>, funds: nat, day: nat): (b: Book)
    requires Fits(ledger, funds)
    ensures |b.units| == funds
    decreases day, 0
  {
    ApplyAll(OfDay(ledger, day), Book(UnitsAt(ledger, funds, day as int - 1), 0.0))
  }

  function UnitsAt(ledger: seq<Row>, funds: nat, day: int): (r: seq<real>)
    requires Fits(ledger, funds) && day >= -1
    ensures |r| == funds
    decreases day, 1
  {
    if day < 0 then NoUnits(funds) else DayBook(ledger, funds, day).units
  }

  lemma {:induction false} QuietDays(ledger: seq<Row>, funds: nat, a: int, b: int)
    requires Fits(ledger, funds) && -1 <= a <= b
    requires forall d | a < d <= b :: OfDay(ledger, d) == []
    ensures UnitsAt(ledger, funds, b) == UnitsAt(ledger, funds, a)
    decreases b - a
  {
    if a < b {
      QuietDays(ledger, funds, a, b - 1);
    }
  }

  // ----- sorting by day, keeping ledger order within a day -----

  predicate NotLater(a: Row, b: Row) {
    a.day <= b.day
  }

  predicate SortedByDay(rows: seq<Row>) {
    forall i, j | 0 <= i < j < |rows| :: rows[i].day <= rows[j].day
  }

  function StableByDay(rows: seq<Row>): seq<Row> {
    Sort(rows, NotLater)
  }

  function OnCalendar(rows: seq<Row>, days: nat): (r: seq<Row>)
    ensures forall i | 0 <= i < |r| :: r[i] in rows && 0 <= r[i].day < days
  {
    if rows == [] then []
    else
      var last := rows[|rows| - 1];
      OnCalendar(rows[..|rows| - 1], days) + (if 0 <= last.day < days then [last] else [])
  }

  lemma OfDayAppend(rows: seq<Row>, r: Row, day: int)
    ensures OfDay(rows + [r], day) == OfDay(rows, day) + (if r.day == day then [r] else [])
  {
    assert (rows + [r])[..|rows|] == rows;
  }

  lemma {:induction false} NoneOfDay(rows: seq<Row>, day: int)
    requires forall i | 0 <= i < |rows| :: rows[i].day != day
    ensures OfDay(rows, day) == []
  {
    if rows != [] {
      NoneOfDay(rows[..|rows| - 1], day);
    }
  }

  lemma {:induction false} InsertKeepsDays(rows: seq<Row>, r: Row, day: int)
    requires SortedByDay(rows)
    ensures OfDay(Insert(rows, r, NotLater), day) == OfDay(rows, day) + (if r.day == day then [r] else [])
  {
    hide OfDay;
    if rows == [] || rows[|rows| - 1].day <= r.day {
      OfDayAppend(rows, r, day);
    } else {
      var init, last := rows[..|rows| - 1], rows[|rows| - 1];
      InsertKeepsDays(init, r, day);
      OfDayAppend(Insert(init, r, NotLater), last, day);
      OfDayAppend(init, last, day);
      assert rows == init + [last];
    }
  }

  /** A stable sort by day only moves rows, and leaves each day's rows in ledger order. */
  lemma SortKeepsDays(rows: seq<Row>, day: int)
    ensures SortedByDay(StableByDay(rows)) && multiset(StableByDay(rows)) == multiset(rows)
    ensures OfDay(StableByDay(rows), day) == OfDay(rows, day)
  {
    hide OfDay;
    StableByDaySorts(rows);
    SortIsStable(rows, day);
  }

  lemma StableByDaySorts(rows: seq<Row>)
    ensures SortedByDay(StableByDay(rows)) && multiset(StableByDay(rows)) == multiset(rows)
  {
    hide Sort;
    assert IsOrder(NotLater);
    SortSorts(rows, NotLater);
    var s := StableByDay(rows);
    forall i, j | 0 <= i < j < |s| ensures s[i].day <= s[j].day {
      assert NotLater(s[i], s[j]);
    }
  }

  lemma {:induction false} SortIsStable(rows: seq<Row>, day: int)
    ensures OfDay(StableByDay(rows), day) == OfDay(rows, day)
  {
    hide OfDay, Insert, SortedByDay;
    if rows == [] {
      assert StableByDay(rows) == rows;
    } else {
      var init, last := rows[..|rows| - 1], rows[|rows| - 1];
      SortIsStable(init, day);
      StableByDaySorts(init);
      InsertKeepsDays(StableByDay(init), last, day);
      OfDayAppend(init, last, day);
      assert rows == init + [last];
    }
  }

  lemma {:induction false} CalendarKeepsDays(rows: seq<Row>, days: nat, day: int)
    ensures OfDay(OnCalendar(rows, days), day) == if 0 <= day < days then OfDay(rows, day) else []
  {
    if rows != [] {
      var init, last := rows[..|rows| - 1], rows[|rows| - 1];
      CalendarKeepsDays(init, days, day);
      if 0 <= last.day < days {
        OfDayAppend(OnCalendar(init, days), last, day);
      } else {
        assert OnCalendar(rows, days) == OnCalendar(init, days);
      }
    }
  }

  /** In sorted rows, the rows of a day are the contiguous block between the earlier and the later ones. */
  lemma {:induction false} DayIsBlock(rows: seq<Row>, lo: nat, hi: nat, day: int)
    requires lo <= hi <= |rows|
    requires forall i | 0 <= i < |rows| :: rows[i].day == day <==> lo <= i < hi
    ensures OfDay(rows, day) == rows[lo..hi]
    decreases |rows|
  {
    if rows == [] {
    } else if hi == |rows| && lo < hi {
      var init := rows[..|rows| - 1];
      DayIsBlock(init, lo, hi - 1, day);
      assert init[lo..hi - 1] + [rows[hi - 1]] == rows[lo..hi];
    } else if lo == hi {
      NoneOfDay(rows, day);
    } else {
      DayIsBlock(rows[..|rows| - 1], lo, hi, day);
    }
  }

  // ----- the application's replay -----

  /** How many of the increasing days `s` are at most `d`: a right-sided sorted search. */
  function CountUpTo(s: seq<int>, d: int): (c: nat)
    ensures c <= |s|
  {
    if s == [] then 0
    else if s[|s| - 1] <= d then |s|
    else CountUpTo(s[..|s| - 1], d)
  }

  predicate Increasing(s: seq<int>) {
    forall i, j | 0 <= i < j < |s| :: s[i] < s[j]
  }

  lemma {:induction false} CountUpToSplits(s: seq<int>, d: int)
    requires Increasing(s)
    ensures forall i | 0 <= i < |s| :: s[i] <= d <==> i < CountUpTo(s, d)
  {
    if s != [] && s[|s| - 1] > d {
      CountUpToSplits(s[..|s| - 1], d);
    }
  }

  /** The rows in the order the application visits them. */
  function Visited(ledger: seq<Row>, days: nat): seq<Row> {
    StableByDay(OnCalendar(ledger, days))
  }

  lemma VisitedFits(ledger: seq<Row>, funds: nat, days: nat)
    requires Fits(ledger, funds)
    ensures SortedByDay(Visited(ledger, days)) && Fits(Visited(ledger, days), funds)
    ensures forall i | 0 <= i < |Visited(ledger, days)| :: 0 <= Visited(ledger, days)[i].day < days
  {
    var rows := OnCalendar(ledger, days);
    var order := Visited(ledger, days);
    SortKeepsDays(rows, 0);
    forall i | 0 <= i < |order| ensures order[i] in rows {
      assert order[i] in multiset(order);
    }
  }

  lemma VisitedDay(ledger: seq<Row>, days: nat, day: nat)
    requires day < days
    ensures OfDay(Visited(ledger, days), day) == OfDay(ledger, day)
  {
    SortKeepsDays(OnCalendar(ledger, days), day);
    CalendarKeepsDays(ledger, days, day);
  }

  /** One row against the running units and the day's net cashflow. */
  method ReplayRow(r: Row, unitsNow: array<real>, cashflow: real) returns (netCashflow: real)
    requires r.fund.Some? ==> r.fund.value < unitsNow.Length
    modifies unitsNow
    ensures Book(unitsNow[..], netCashflow) == Apply(r, Book(old(unitsNow[..]), cashflow))
  {
    hide MentionsAny, Abs, MaxZero, Money, IsUnitsOnly, IsIn, IsOut;
    netCashflow := cashflow;
    if r.fund.Some? {
      var j := r.fund.value;
      if IsUnitsOnly(r) {
        unitsNow[j] := unitsNow[j] + Abs(r.units);
      } else if IsIn(r) {
        unitsNow[j] := unitsNow[j] + Abs(r.units);
        netCashflow := netCashflow + Money(r);
      } else if IsOut(r) {
        unitsNow[j] := unitsNow[j] - Abs(r.units);
        unitsNow[j] := MaxZero(unitsNow[j]);
        netCashflow := netCashflow - Money(r);
      } else if MentionsAny(r.kind, CHARGE) || MentionsAny(r.kind, PAYOUT) {
        netCashflow := netCashflow - Money(r);
      }
    }
  }

  /** Replays the rows of one day, which start at `from` in the visiting order. */
  method ReplayDay(order: seq<Row>, from: nat, unitsNow: array<real>) returns (m: nat, netCashflow: real)
    requires from < |order| && Fits(order, unitsNow.Length) && SortedByDay(order)
    modifies unitsNow
    ensures from < m <= |order|
    ensures forall i | from <= i < m :: order[i].day == order[from].day
    ensures m < |order| ==> order[m].day > order[from].day
    ensures Book(unitsNow[..], netCashflow) == ApplyAll(order[from..m], Book(old(unitsNow[..]), 0.0))
  {
    hide Apply;
    var k := order[from].day;
    m, netCashflow := from, 0.0;
    while m < |order| && order[m].day == k
      invariant from <= m <= |order|
      invariant forall i | from <= i < m :: order[i].day == k
      invariant Book(unitsNow[..], netCashflow) == ApplyAll(order[from..m], Book(old(unitsNow[..]), 0.0))
    {
      assert order[from..m + 1][..m - from] == order[from..m];
      netCashflow := ReplayRow(order[m], unitsNow, netCashflow);
      m := m + 1;
    }
  }

  /** No visited row falls on a day strictly between two neighbouring blocks. */
  lemma GapIsQuiet(ledger: seq<Row>, days: nat, m: nat, last: int, day: int)
    requires m <= |Visited(ledger, days)| && 0 <= day < days && last < day
    requires forall i | 0 <= i < m :: Visited(ledger, days)[i].day <= last
    requires forall i | m <= i < |Visited(ledger, days)| :: Visited(ledger, days)[i].day > day
    ensures OfDay(ledger, day) == []
  {
    VisitedDay(ledger, days, day);
    NoneOfDay(Visited(ledger, days), day);
  }

  /** A block of the visiting order is what the day-by-day replay does on that day. */
  lemma BlockIsDay(ledger: seq<Row>, funds: nat, days: nat, from: nat, to: nat, last: int)
    requires Fits(ledger, funds) && Fits(Visited(ledger, days), funds) && last >= -1
    requires from < to <= |Visited(ledger, days)|
    requires var order := Visited(ledger, days); var k := order[from].day;
      && last < k < days
      && (forall i | 0 <= i < from :: order[i].day <= last)
      && (forall i | from <= i < to :: order[i].day == k)
      && (forall i | to <= i < |order| :: order[i].day > k)
    ensures var order := Visited(ledger, days); var k := order[from].day;
      && (forall d | last < d < k :: OfDay(ledger, d) == [])
      && DayBook(ledger, funds, k) == ApplyAll(order[from..to], Book(UnitsAt(ledger, funds, last), 0.0))
  {
    hide Visited, OfDay, ApplyAll;
    var order := Visited(ledger, days);
    var k := order[from].day;
    forall d | last < d < k ensures OfDay(ledger, d) == [] {
      GapIsQuiet(ledger, days, from, last, d);
    }
    QuietDays(ledger, funds, last, k - 1);
    DayIsBlock(order, from, to, k);
    VisitedDay(ledger, days, k);
  }

  /**
   * Units at the end of every calendar day and each day's net cashflow, from one pass over
   * the sorted ledger.
   */
  method ReplayLedger(ledger: seq<Row>, funds: nat, days: nat)
    returns (unitsEod: seq<seq<real>>, cashflow: seq<real>)
    requires Fits(ledger, funds)
    ensures |unitsEod| == days && |cashflow| == days
    ensures forall d | 0 <= d < days :: unitsEod[d] == UnitsAt(ledger, funds, d)
    ensures forall d | 0 <= d < days :: cashflow[d] == DayBook(ledger, funds, d).cash
  {
    hide Visited, OfDay, ApplyAll, SortedByDay, DayBook;
    var order := Visited(ledger, days);
    VisitedFits(ledger, funds, days);
    cashflow := seq(days, _ => 0.0);
    var unitsNow := new real[funds](_ => 0.0);
    var changeDays: seq<nat> := [];
    var unitStates: seq<seq<real>> := [];
    var m := 0;
    ghost var last := -1;
    assert unitsNow[..] == NoUnits(funds);
    while m < |order|
      invariant 0 <= m <= |order| && -1 <= last < days && |cashflow| == days
      invariant forall i | 0 <= i < m :: order[i].day <= last
      invariant forall i | m <= i < |order| :: last < order[i].day
      invariant unitsNow[..] == UnitsAt(ledger, funds, last)
      invariant Recorded(ledger, funds, changeDays, unitStates, last)
      invariant forall d | 0 <= d <= last :: cashflow[d] == DayBook(ledger, funds, d).cash
      invariant forall d | last < d < days :: cashflow[d] == 0.0
    {
      var k := order[m].day;
      ghost var from := m;
      var net;
      m, net := ReplayDay(order, m, unitsNow);
      BlockIsDay(ledger, funds, days, from, m, last);
      assert Book(unitsNow[..], net) == DayBook(ledger, funds, k);
      QuietCash(ledger, funds, last, k);
      RecordNext(ledger, funds, changeDays, unitStates, last, k);
      cashflow := cashflow[k := net];
      changeDays := changeDays + [k];
      unitStates := unitStates + [unitsNow[..]];
      last := k;
    }
    forall d | last < d < days ensures OfDay(ledger, d) == [] {
      GapIsQuiet(ledger, days, m, last, d);
    }
    QuietCash(ledger, funds, last, days);
    var states := [seq(funds, _ => 0.0)] + unitStates;
    unitsEod := seq(days, d requires 0 <= d < days => states[CountUpTo(changeDays, d)]);
    forall d | 0 <= d < days ensures states[CountUpTo(changeDays, d)] == UnitsAt(ledger, funds, d) {
      ReadOff(ledger, funds, changeDays, unitStates, last, d);
      assert states[0] == NoUnits(funds);
    }
  }

  /** The step function recorded so far: one state for every day up to `last` that has rows. */
  ghost predicate Recorded(ledger: seq<Row>, funds: nat, changeDays: seq<nat>, unitStates: seq<seq<real>>, last: int)
    requires Fits(ledger, funds)
  {
    && |changeDays| == |unitStates| && Increasing(changeDays) && last >= -1
    && last == (if changeDays == [] then -1 else changeDays[|changeDays| - 1])
    && (forall c | 0 <= c < |changeDays| :: unitStates[c] == UnitsAt(ledger, funds, changeDays[c]))
    && (forall d | 0 <= d <= last && d !in changeDays :: OfDay(ledger, d) == [])
  }

  lemma RecordNext(ledger: seq<Row>, funds: nat, changeDays: seq<nat>, unitStates: seq<seq<real>>, last: int, k: nat)
    requires Fits(ledger, funds) && Recorded(ledger, funds, changeDays, unitStates, last) && last < k
    requires forall d | last < d < k :: OfDay(ledger, d) == []
    ensures Recorded(ledger, funds, changeDays + [k], unitStates + [UnitsAt(ledger, funds, k)], k)
  {
    hide OfDay, UnitsAt;
    var longer := changeDays + [k];
    assert Increasing(longer);
    forall d | 0 <= d <= k && d !in longer ensures OfDay(ledger, d) == [] {
      assert longer[|changeDays|] == k;
      assert forall i | 0 <= i < |changeDays| :: longer[i] == changeDays[i];
    }
  }

  lemma QuietCash(ledger: seq<Row>, funds: nat, last: int, k: int)
    requires Fits(ledger, funds) && last >= -1
    requires forall d | last < d < k :: OfDay(ledger, d) == []
    ensures forall d | last < d < k && 0 <= d :: DayBook(ledger, funds, d).cash == 0.0
  {}

  /** Any day's units are those of the latest recorded day that is not after it. */
  lemma ReadOff(ledger: seq<Row>, funds: nat, changeDays: seq<nat>, unitStates: seq<seq<real>>, last: int, d: nat)
    requires Fits(ledger, funds) && Recorded(ledger, funds, changeDays, unitStates, last)
    requires forall x | last < x <= d :: OfDay(ledger, x) == []
    ensures var c := CountUpTo(changeDays, d);
      UnitsAt(ledger, funds, d) == if c == 0 then NoUnits(funds) else unitStates[c - 1]
  {
    CountUpToSplits(changeDays, d);
    var c := CountUpTo(changeDays, d);
    var from := if c == 0 then -1 else changeDays[c - 1];
    forall x | from < x <= d ensures OfDay(ledger, x) == [] {
      if x <= last && x in changeDays {
        assert false;
      }
    }
    QuietDays(ledger, funds, from, d);
  }
}
