/**
 * Three readings of one fund's ledger that have to agree: the acquisition lots kept for tax,
 * the cost basis shown as "invested", and the unit count of the portfolio simulation. The
 * rows are those of one fund in date order; units and money are exact.
 */
module FundLots {
  import opened Common
  import opened UnitReplay

  datatype Lot = Lot(units: real, cost: real, day: int)

  const REINVESTED := ["REINVEST", "BONUS", "IDCW_REINVEST", "GROWTH_OPTION"]
  const SOLD := ["SELL", "REDEMPTION", "SWP-OUT", "STP-OUT", "SWITCH-OUT"]
  const UNIT_TOLERANCE := 0.000001
  const LOT_TOLERANCE := 0.000000001

  // ----- the type column -----

  /** The part after the last dot, or all of it when there is none. */
  function AfterLastDot(s: string): (r: string) {
    if '.' !in s then s else AfterLastDot(s[IndexOf(s, '.') + 1..])
  }

  function Hyphen(c: char): char {
    if c == '_' then '-' else c
  }

  /** Canonical transaction type: upper case, enum prefix dropped, underscores to hyphens. */
  function NormalizeTxnType(raw: string): (r: string)
    ensures '_' !in r
  {
    Map(AfterLastDot(Strip(Map(raw, Upper))), Hyphen)
  }

  lemma {:induction false} NoDotAfterLast(s: string)
    ensures '.' !in AfterLastDot(s)
    ensures forall c | c in AfterLastDot(s) :: c in s
    decreases |s|
  {
    if '.' in s {
      NoDotAfterLast(s[IndexOf(s, '.') + 1..]);
    }
  }

  lemma {:induction false} AfterDot(a: string, name: string)
    requires '.' !in name
    ensures AfterLastDot(a + "." + name) == name
    decreases |a|
  {
    var s := a + "." + name;
    assert s[|a|] == '.';
    if '.' in a {
      var k := IndexOf(a, '.');
      assert a == a[..k] + ['.'] + a[k + 1..] && s == a[..k] + ['.'] + (a[k + 1..] + "." + name);
      IndexOfPrefix(a[..k], '.', a[k + 1..] + "." + name);
      assert s[k + 1..] == a[k + 1..] + "." + name;
      AfterDot(a[k + 1..], name);
    } else {
      IndexOfPrefix(a, '.', name);
      assert s[|a| + 1..] == name;
    }
  }

  lemma {:induction false} TrimBeforeDot(a: string, name: string)
    requires name != "" && name[|name| - 1] != ' '
    ensures Strip(a + "." + name) == TrimLeft(a) + "." + name
  {
    var s := a + "." + name;
    assert s[|s| - 1] == name[|name| - 1];
    if a != "" && a[0] == ' ' {
      TrimBeforeDot(a[1..], name);
      assert s[1..] == a[1..] + "." + name;
    }
  }

  /** An enum prefix, whatever it is, makes no difference. */
  lemma PrefixIsDropped(prefix: string, name: string)
    requires name != "" && name[0] != ' ' && name[|name| - 1] != ' ' && '.' !in name
    ensures NormalizeTxnType(prefix + "." + name) == NormalizeTxnType(name)
  {
    hide TrimLeft, TrimRight, AfterLastDot;
    var p, n := Map(prefix, Upper), Map(name, Upper);
    assert Map(prefix + "." + name, Upper) == p + "." + n;
    TrimBeforeDot(p, n);
    AfterDot(TrimLeft(p), n);
    NothingAround(n);
    NoDotToDrop(n);
  }

  lemma NothingAround(s: string)
    requires s != "" && s[0] != ' ' && s[|s| - 1] != ' '
    ensures Strip(s) == s
  {}

  lemma NoDotToDrop(s: string)
    requires '.' !in s
    ensures AfterLastDot(s) == s
  {}

  lemma {:induction false} StripHyphens(s: string)
    ensures TrimLeft(Map(s, Hyphen)) == Map(TrimLeft(s), Hyphen)
    ensures TrimRight(Map(s, Hyphen)) == Map(TrimRight(s), Hyphen)
  {
    if s != "" {
      StripHyphens(s[1..]);
      StripHyphens(s[..|s| - 1]);
      assert Map(s, Hyphen)[1..] == Map(s[1..], Hyphen);
      assert Map(s, Hyphen)[..|s| - 1] == Map(s[..|s| - 1], Hyphen);
    }
  }

  lemma {:induction false} DotsAndHyphens(s: string)
    ensures AfterLastDot(Map(s, Hyphen)) == Map(AfterLastDot(s), Hyphen)
    decreases |s|
  {
    var t := Map(s, Hyphen);
    if '.' in s {
      var k := IndexOf(s, '.');
      assert t[k] == '.' && t == t[..k] + ['.'] + t[k + 1..];
      IndexOfPrefix(t[..k], '.', t[k + 1..]);
      assert t[k + 1..] == Map(s[k + 1..], Hyphen);
      DotsAndHyphens(s[k + 1..]);
    }
  }

  /** Underscores and hyphens are one spelling. */
  lemma SpellingsAgree(raw: string)
    ensures NormalizeTxnType(Map(raw, Hyphen)) == NormalizeTxnType(raw)
  {
    hide TrimLeft, TrimRight, AfterLastDot;
    var s := Map(raw, Upper);
    assert Map(Map(raw, Hyphen), Upper) == Map(s, Hyphen);
    StripHyphens(s);
    StripHyphens(TrimLeft(s));
    DotsAndHyphens(Strip(s));
    var r := AfterLastDot(Strip(s));
    assert Map(Map(r, Hyphen), Hyphen) == Map(r, Hyphen);
  }

  /** What is left is in upper case, without dots and underscores; spaces may remain. */
  lemma NormalizedIsCanonical(raw: string)
    ensures var r := NormalizeTxnType(raw);
      '_' !in r && '.' !in r && forall i | 0 <= i < |r| :: Upper(r[i]) == r[i]
  {
    hide TrimLeft, TrimRight, AfterLastDot;
    var s := Strip(Map(raw, Upper));
    NoDotAfterLast(s);
    StripKeeps(Map(raw, Upper));
    var t := AfterLastDot(s);
    forall i | 0 <= i < |t| ensures Upper(t[i]) == t[i] {
      assert t[i] in Map(raw, Upper);
    }
  }

  /** A type without dots and outer spaces, character by character. */
  lemma PlainTypesAreUppered(raw: string)
    requires '.' !in raw && (raw != "" ==> raw[0] != ' ' && raw[|raw| - 1] != ' ')
    ensures var r := NormalizeTxnType(raw);
      |r| == |raw| && forall i | 0 <= i < |raw| ::
        if raw[i] == '_' then r[i] == '-'
        else if 'a' <= raw[i] <= 'z' then r[i] as int == raw[i] as int - 32
        else r[i] == raw[i]
  {
    hide TrimLeft, TrimRight, AfterLastDot;
    var s := Map(raw, Upper);
    if raw == "" {
      NothingIn(s);
    } else {
      NothingAround(s);
    }
    NoDotToDrop(s);
  }

  lemma NothingIn(s: string)
    requires s == ""
    ensures Strip(s) == s
  {}

  lemma StripKeeps(s: string)
    ensures forall c | c in Strip(s) :: c in s
  {
    TrimKeeps(s);
    TrimKeeps(TrimLeft(s));
  }

  lemma {:induction false} TrimKeeps(s: string)
    ensures forall c | c in TrimLeft(s) :: c in s
    ensures forall c | c in TrimRight(s) :: c in s
  {
    if s != "" {
      TrimKeeps(s[1..]);
      TrimKeeps(s[..|s| - 1]);
    }
  }

  lemma {:induction false} MentionsItsCharacters(text: string, word: string, c: char)
    requires Mentions(text, word) && c in word
    ensures c in text
  {
    if word <= text {
      var i :| 0 <= i < |word| && word[i] == c;
      assert text[i] == c;
    } else {
      MentionsItsCharacters(text[1..], word, c);
    }
  }

  /** Two of the reinvestment words can never occur in a normalised type. */
  lemma ReinvestmentWords(kind: string)
    requires '_' !in kind
    ensures MentionsAny(kind, REINVESTED) <==> Mentions(kind, "REINVEST") || Mentions(kind, "BONUS")
  {
    if Mentions(kind, "IDCW_REINVEST") {
      assert "IDCW_REINVEST"[4] == '_';
      MentionsItsCharacters(kind, "IDCW_REINVEST", '_');
    }
    if Mentions(kind, "GROWTH_OPTION") {
      assert "GROWTH_OPTION"[6] == '_';
      MentionsItsCharacters(kind, "GROWTH_OPTION", '_');
    }
    assert Mentions(kind, "REINVEST") ==> Mentions(kind, REINVESTED[0]);
    assert Mentions(kind, "BONUS") ==> Mentions(kind, REINVESTED[1]);
  }

  // ----- acquisition lots -----

  predicate IsReinvested(r: Row) {
    MentionsAny(r.kind, REINVESTED)
  }

  predicate LooksBought(r: Row) {
    r.units > 0.0 || MentionsAny(r.kind, INFLOW)
  }

  predicate LooksSold(r: Row) {
    r.units < 0.0 || MentionsAny(r.kind, SOLD)
  }

  /** Units bought or sold when the units column does not say: amount over price. */
  function Implied(r: Row): real {
    if r.nav > 0.0 then Money(r) / r.nav else 0.0
  }

  /** Oldest lots give up `units`, within the engine's tolerances. */
  function Drain(lots: seq<Lot>, units: real): seq<Lot> {
    if units > UNIT_TOLERANCE && lots != [] then
      if lots[0].units <= units + LOT_TOLERANCE then Drain(lots[1..], units - lots[0].units)
      else [lots[0].(units := lots[0].units - units)] + lots[1..]
    else lots
  }

  function LotStep(lots: seq<Lot>, r: Row): seq<Lot> {
    if IsReinvested(r) then
      if r.units > 0.0 then lots + [Lot(r.units, if r.nav > 0.0 then r.nav else 0.0, r.day)] else lots
    else if LooksBought(r) && !LooksSold(r) then
      var bought := if r.units > 0.0 then r.units else Implied(r);
      if bought > 0.0 then lots + [Lot(bought, Money(r) / bought, r.day)] else lots
    else if LooksSold(r) then Drain(lots, if r.units < 0.0 then Abs(r.units) else Implied(r))
    else lots
  }

  function AllLots(rows: seq<Row>): seq<Lot> {
    if rows == [] then [] else LotStep(AllLots(rows[..|rows| - 1]), rows[|rows| - 1])
  }

  /** Lots with more than a residue left in them. */
  function Kept(lots: seq<Lot>): seq<Lot> {
    if lots == [] then [] else (if lots[0].units > UNIT_TOLERANCE then [lots[0]] else []) + Kept(lots[1..])
  }

  /** The lots still held. */
  function LotsOf(rows: seq<Row>): seq<Lot> {
    Kept(AllLots(rows))
  }

  // ----- what a row does to the lots, in plain terms -----

  /** Units bought or sold by a row that has none: its money over its price. */
  predicate IsImplied(units: real, r: Row, money: real) {
    if r.nav > 0.0 then units * r.nav == money else units == 0.0
  }

  /**
   * One row, by its sign and its words. Reinvested units become a lot at the price; bought
   * units one at what was paid for each; sold units come off the oldest lots.
   */
  lemma RowMakesLots(lots: seq<Lot>, r: Row, units: real, amount: real, implied: real)
    requires IsSize(units, r.units) && IsSize(amount, r.amount)
    requires IsImplied(implied, r, if r.amount == 0.0 && r.nav > 0.0 then units * r.nav else amount)
    ensures var money := if r.amount == 0.0 && r.nav > 0.0 then units * r.nav else amount;
      var again := SaysOneOf(r.kind, "REINVEST", "BONUS", "IDCW_REINVEST") || Mentions(r.kind, "GROWTH_OPTION");
      var buys := r.units > 0.0 || SaysOneOf(r.kind, "BUY", "PURCHASE", "SIP")
        || Mentions(r.kind, "STP-IN") || Mentions(r.kind, "SWITCH-IN");
      var sells := r.units < 0.0 || SaysOneOf(r.kind, "SELL", "REDEMPTION", "SWP-OUT")
        || Mentions(r.kind, "STP-OUT") || Mentions(r.kind, "SWITCH-OUT");
      var moved := if r.units == 0.0 then implied else units;
      var after := LotStep(lots, r);
      if again then
        after == if r.units > 0.0 then lots + [Lot(r.units, if r.nav > 0.0 then r.nav else 0.0, r.day)] else lots
      else if sells then after == Drain(lots, if r.units < 0.0 then units else implied)
      else if buys && moved > 0.0 then
        |after| == |lots| + 1 && after[..|lots|] == lots
        && after[|lots|].units == moved && after[|lots|].day == r.day && after[|lots|].cost * moved == money
      else after == lots
  {
    hide Mentions, MentionsAny, Drain, SaysOneOf, Money, Implied;
    AnyOf(r.kind, INFLOW);
    AnyOf(r.kind, SOLD);
    AnyOf(r.kind, REINVESTED);
    MoneyOfRow(r, units, amount, implied);
    var moved := if r.units == 0.0 then implied else units;
    if moved > 0.0 {
      PaidForEach(Money(r), moved);
    }
  }

  lemma MoneyOfRow(r: Row, units: real, amount: real, implied: real)
    requires IsSize(units, r.units) && IsSize(amount, r.amount)
    requires IsImplied(implied, r, if r.amount == 0.0 && r.nav > 0.0 then units * r.nav else amount)
    ensures Abs(r.units) == units && Money(r) == (if r.amount == 0.0 && r.nav > 0.0 then units * r.nav else amount)
    ensures Implied(r) == implied
  {
    if r.units == 0.0 {
      assert units * r.nav == 0.0;
    }
    if r.nav > 0.0 {
      Divided(Money(r), implied, r.nav);
    }
  }

  lemma PaidForEach(money: real, units: real)
    requires units > 0.0
    ensures (money / units) * units == money
  {}

  /**
   * Selling takes the oldest lots whole, as far as they go, and the rest off the next one,
   * which keeps its cost and its day. `left` is what remains to be sold behind the first `k`.
   */
  lemma {:induction false} OldestLotsGoFirst(lots: seq<Lot>, units: real) returns (k: nat, left: real)
    ensures k <= |lots| && left == units - UnitsOf(lots[..k]) && (k > 0 ==> left >= -0.000000001)
    ensures
      || (Drain(lots, units) == lots[k..] && (k == |lots| || left <= 0.000001))
      || (k < |lots| && 0.000001 < left < lots[k].units - 0.000000001
          && Drain(lots, units) == [Lot(lots[k].units - left, lots[k].cost, lots[k].day)] + lots[k + 1..])
  {
    assert lots[..0] == [];
    if units > UNIT_TOLERANCE && lots != [] && lots[0].units <= units + LOT_TOLERANCE {
      var k1, left1 := OldestLotsGoFirst(lots[1..], units - lots[0].units);
      assert lots[..k1 + 1][1..] == lots[1..][..k1];
      return k1 + 1, left1;
    }
    return 0, units;
  }

  /** What counts as held is every lot with more than a millionth of a unit, once for each. */
  lemma {:induction false} KeptAreTheRest(lots: seq<Lot>, l: Lot)
    ensures multiset(Kept(lots))[l] == if l.units > 0.000001 then multiset(lots)[l] else 0
  {
    if lots != [] {
      KeptAreTheRest(lots[1..], l);
      assert lots == [lots[0]] + lots[1..];
      assert multiset(lots)[l] == multiset(lots[1..])[l] + if l == lots[0] then 1 else 0;
    }
  }

  /** The draining loop. */
  method DrainLoop(lots0: seq<Lot>, units: real) returns (lots: seq<Lot>)
    ensures lots == Drain(lots0, units)
  {
    lots := lots0;
    var left := units;
    while left > UNIT_TOLERANCE && lots != []
      invariant Drain(lots, left) == Drain(lots0, units)
      decreases if left > UNIT_TOLERANCE then 1 else 0, |lots|
    {
      var oldest := lots[0];
      if oldest.units <= left + LOT_TOLERANCE {
        left := left - oldest.units;
        lots := lots[1..];
      } else {
        lots := [oldest.(units := oldest.units - left)] + lots[1..];
        left := 0.0;
      }
    }
  }

  method ComputeFundLots(rows: seq<Row>) returns (held: seq<Lot>)
    ensures held == LotsOf(rows)
  {
    hide MentionsAny, Money, Implied, Drain;
    var lots: seq<Lot> := [];
    assert rows[..0] == [];
    for i := 0 to |rows|
      invariant lots == AllLots(rows[..i])
    {
      var r := rows[i];
      assert rows[..i + 1][..i] == rows[..i];
      if IsReinvested(r) {
        if r.units > 0.0 {
          lots := lots + [Lot(r.units, if r.nav > 0.0 then r.nav else 0.0, r.day)];
        }
      } else if LooksBought(r) && !LooksSold(r) {
        var bought := if r.units > 0.0 then r.units else Implied(r);
        if bought > 0.0 {
          lots := lots + [Lot(bought, Money(r) / bought, r.day)];
        }
      } else if LooksSold(r) {
        lots := DrainLoop(lots, if r.units < 0.0 then Abs(r.units) else Implied(r));
      }
    }
    assert rows[..|rows|] == rows;
    held := Kept(lots);
  }

  // ----- cost basis -----

  /** Units still active and what each cost. */
  datatype Active = Active(units: real, cost: real)

  function Consume(active: seq<Active>, units: real): seq<Active> {
    if units > 0.0 && active != [] then
      if active[0].units <= units then Consume(active[1..], units - active[0].units)
      else [Active(active[0].units - units, active[0].cost)] + active[1..]
    else active
  }

  function ActiveStep(active: seq<Active>, r: Row): seq<Active> {
    if r.units > 0.0 then active + [Active(r.units, Money(r) / r.units)]
    else if r.units < 0.0 then Consume(active, Abs(r.units))
    else active
  }

  function ActiveBuys(rows: seq<Row>): seq<Active> {
    if rows == [] then [] else ActiveStep(ActiveBuys(rows[..|rows| - 1]), rows[|rows| - 1])
  }

  function CostBasis(active: seq<Active>): real {
    if active == [] then 0.0 else active[0].units * active[0].cost + CostBasis(active[1..])
  }

  /** The cost basis before it is rounded for display. */
  method EstimateInvested(rows: seq<Row>) returns (invested: real)
    ensures invested == CostBasis(ActiveBuys(rows))
  {
    hide Money;
    var active: seq<Active> := [];
    assert rows[..0] == [];
    for i := 0 to |rows|
      invariant active == ActiveBuys(rows[..i])
    {
      var r := rows[i];
      assert rows[..i + 1][..i] == rows[..i];
      if r.units > 0.0 {
        active := active + [Active(r.units, Money(r) / r.units)];
      } else if r.units < 0.0 {
        ghost var before := active;
        var left := Abs(r.units);
        while left > 0.0 && active != []
          invariant Consume(active, left) == Consume(before, Abs(r.units))
          decreases if left > 0.0 then 1 else 0, |active|
        {
          if active[0].units <= left {
            left := left - active[0].units;
            active := active[1..];
          } else {
            active := [Active(active[0].units - left, active[0].cost)] + active[1..];
            left := 0.0;
          }
        }
      }
    }
    assert rows[..|rows|] == rows;
    invested := CostBasis(active);
  }

  // ----- agreement -----

  /** A whole number of thousandths. */
  predicate IsMilli(x: real) {
    x * 1000.0 == (x * 1000.0).Floor as real
  }

  lemma MilliDifference(x: real, y: real)
    requires IsMilli(x) && IsMilli(y)
    ensures IsMilli(x - y) && IsMilli(-x)
    ensures x > 0.0 ==> x >= 0.001
  {
    var a, b := (x * 1000.0).Floor, (y * 1000.0).Floor;
    WholeFloor(a - b);
    WholeFloor(-a);
    assert (x - y) * 1000.0 == (a - b) as real;
    assert (-x) * 1000.0 == (-a) as real;
  }

  lemma WholeFloor(k: int)
    ensures (k as real).Floor == k
  {}

  /**
   * A ledger row as statements print it: units in thousandths, their sign agreeing with
   * the type, and reinvested units carrying no amount or their value.
   */
  predicate WellFormed(r: Row) {
    && '_' !in r.kind && r.units != 0.0 && IsMilli(r.units)
    && (r.units > 0.0 ==> !MentionsAny(r.kind, SOLD))
    && (r.units < 0.0 ==> !IsUnitsOnly(r))
    && (r.units > 0.0 && IsReinvested(r) ==>
          r.amount == 0.0 || (r.nav > 0.0 && Abs(r.amount) == r.units * r.nav))
  }

  function UnitsOf(lots: seq<Lot>): real {
    if lots == [] then 0.0 else lots[0].units + UnitsOf(lots[1..])
  }

  function CostOf(lots: seq<Lot>): real {
    if lots == [] then 0.0 else lots[0].units * lots[0].cost + CostOf(lots[1..])
  }

  /** The simulation's unit count for the fund. */
  function SimulatedUnits(rows: seq<Row>): real {
    if rows == [] then 0.0 else Held(rows[|rows| - 1], SimulatedUnits(rows[..|rows| - 1]))
  }

  /** Whole thousandths, none empty. */
  predicate Tidy(lots: seq<Lot>) {
    forall i | 0 <= i < |lots| :: lots[i].units > 0.0 && IsMilli(lots[i].units)
  }

  function Bare(lots: seq<Lot>): (r: seq<Active>)
    ensures |r| == |lots| && forall i | 0 <= i < |r| :: r[i] == Active(lots[i].units, lots[i].cost)
  {
    seq(|lots|, i requires 0 <= i < |lots| => Active(lots[i].units, lots[i].cost))
  }

  /** On whole thousandths the tolerances make no difference, and both queues drain alike. */
  lemma {:induction false} DrainsAgree(lots: seq<Lot>, units: real)
    requires Tidy(lots) && units >= 0.0 && IsMilli(units)
    ensures Tidy(Drain(lots, units))
    ensures Bare(Drain(lots, units)) == Consume(Bare(lots), units)
    ensures UnitsOf(Drain(lots, units)) == MaxZero(UnitsOf(lots) - units)
    ensures UnitsOf(lots) >= 0.0
    decreases |lots|
  {
    hide IsMilli;
    if lots != [] {
      var first := lots[0].units;
      MilliDifference(units, 0.0);
      MilliCompare(first, units);
      if first <= units {
        DrainsAgree(lots[1..], units - first);
        assert Bare(lots)[1..] == Bare(lots[1..]);
      } else {
        DrainsPart(lots, units);
      }
    }
  }

  lemma DrainsPart(lots: seq<Lot>, units: real)
    requires lots != [] && Tidy(lots) && 0.0 <= units < lots[0].units && (units > 0.0 ==> units >= 0.001)
    requires IsMilli(units) && IsMilli(lots[0].units - units)
    requires lots[0].units > units + LOT_TOLERANCE
    ensures Tidy(Drain(lots, units))
    ensures Bare(Drain(lots, units)) == Consume(Bare(lots), units)
    ensures UnitsOf(Drain(lots, units)) == MaxZero(UnitsOf(lots) - units)
    ensures UnitsOf(lots) >= 0.0
  {
    hide IsMilli;
    TidyTotal(lots[1..]);
    var part := lots[0].(units := lots[0].units - units);
    var rest := [part] + lots[1..];
    assert rest[1..] == lots[1..];
    assert Bare(rest) == [Active(part.units, part.cost)] + Bare(lots)[1..];
  }

  lemma MilliCompare(x: real, y: real)
    requires IsMilli(x) && IsMilli(y)
    ensures x <= y + LOT_TOLERANCE <==> x <= y
    ensures IsMilli(x - y) && IsMilli(y - x)
  {
    MilliDifference(x, y);
    MilliDifference(y, x);
    MilliDifference(x - y, 0.0);
  }

  lemma {:induction false} TidyTotal(lots: seq<Lot>)
    requires Tidy(lots)
    ensures UnitsOf(lots) >= 0.0
  {
    if lots != [] {
      TidyTotal(lots[1..]);
    }
  }

  lemma {:induction false} AppendLot(lots: seq<Lot>, l: Lot)
    ensures UnitsOf(lots + [l]) == UnitsOf(lots) + l.units
    ensures Bare(lots + [l]) == Bare(lots) + [Active(l.units, l.cost)]
  {
    if lots == [] {
      assert lots + [l] == [l] && UnitsOf([l][1..]) == 0.0;
    } else {
      AppendLot(lots[1..], l);
      assert (lots + [l])[1..] == lots[1..] + [l];
    }
  }

  lemma {:induction false} NothingToDrop(lots: seq<Lot>)
    requires Tidy(lots)
    ensures Kept(lots) == lots
  {
    if lots != [] {
      MilliDifference(lots[0].units, 0.0);
      NothingToDrop(lots[1..]);
    }
  }

  lemma {:induction false} CostsAgree(lots: seq<Lot>)
    ensures CostOf(lots) == CostBasis(Bare(lots))
  {
    if lots != [] {
      CostsAgree(lots[1..]);
      assert Bare(lots)[1..] == Bare(lots[1..]);
    }
  }

  /** A row that adds units adds one lot, at the same unit cost in both engines. */
  lemma BuysAgree(lots: seq<Lot>, r: Row)
    requires WellFormed(r) && r.units > 0.0
    ensures LotStep(lots, r) == lots + [Lot(r.units, Money(r) / r.units, r.day)]
  {
    hide MentionsAny;
    if IsReinvested(r) {
      var nav := if r.nav > 0.0 then r.nav else 0.0;
      assert Money(r) == nav * r.units;
      Divided(Money(r), nav, r.units);
    }
  }

  lemma Divided(m: real, x: real, y: real)
    requires y > 0.0 && m == x * y
    ensures m / y == x
  {}

  lemma SellIsSold(r: Row)
    requires WellFormed(r) && r.units < 0.0
    ensures !IsReinvested(r)
  {
    ReinvestmentWords(r.kind);
    assert UNITS_ONLY[0] == "REINVEST" && UNITS_ONLY[1] == "BONUS";
  }

  lemma {:induction false} StepsAgree(rows: seq<Row>)
    requires forall i | 0 <= i < |rows| :: WellFormed(rows[i])
    ensures Tidy(AllLots(rows))
    ensures Bare(AllLots(rows)) == ActiveBuys(rows)
    ensures UnitsOf(AllLots(rows)) == SimulatedUnits(rows)
  {
    hide MentionsAny, Money, Drain, Consume, IsMilli, IsUnitsOnly, IsReinvested;
    if rows != [] {
      var init, r := rows[..|rows| - 1], rows[|rows| - 1];
      StepsAgree(init);
      var lots := AllLots(init);
      if r.units > 0.0 {
        BuysAgree(lots, r);
        AppendLot(lots, Lot(r.units, Money(r) / r.units, r.day));
      } else {
        SellIsSold(r);
        MilliDifference(r.units, 0.0);
        DrainsAgree(lots, Abs(r.units));
      }
    }
  }

  /**
   * On every well-formed ledger the lots hold exactly the units the simulation counts, and
   * their cost is the cost basis.
   */
  lemma EnginesAgree(rows: seq<Row>)
    requires forall i | 0 <= i < |rows| :: WellFormed(rows[i])
    ensures UnitsOf(LotsOf(rows)) == SimulatedUnits(rows)
    ensures CostOf(LotsOf(rows)) == CostBasis(ActiveBuys(rows))
  {
    StepsAgree(rows);
    NothingToDrop(AllLots(rows));
    CostsAgree(AllLots(rows));
  }

  // ----- the same rows inside the whole-portfolio simulation -----

  function OfFund(rows: seq<Row>, fund: nat): seq<Row> {
    if rows == [] then []
    else
      OfFund(rows[..|rows| - 1], fund)
      + (if rows[|rows| - 1].fund == Some(fund) then [rows[|rows| - 1]] else [])
  }

  /** The fund's rows up to the end of `day`, in the order the day-by-day loop meets them. */
  function FundRows(ledger: seq<Row>, fund: nat, day: int): seq<Row>
    requires day >= -1
    decreases day + 1
  {
    if day < 0 then [] else FundRows(ledger, fund, day - 1) + OfFund(OfDay(ledger, day), fund)
  }

  lemma {:induction false} ColumnFollowsFund(rows: seq<Row>, b: Book, fund: nat, prior: seq<Row>)
    requires Fits(rows, |b.units|) && fund < |b.units| && b.units[fund] == SimulatedUnits(prior)
    ensures ApplyAll(rows, b).units[fund] == SimulatedUnits(prior + OfFund(rows, fund))
  {
    hide Held;
    if rows == [] {
      assert prior + [] == prior;
    } else {
      var init, r := rows[..|rows| - 1], rows[|rows| - 1];
      ColumnFollowsFund(init, b, fund, prior);
      var longer := prior + OfFund(rows, fund);
      if r.fund == Some(fund) {
        assert longer == (prior + OfFund(init, fund)) + [r];
        assert longer[..|longer| - 1] == prior + OfFund(init, fund);
      } else {
        assert longer == prior + OfFund(init, fund);
      }
    }
  }

  lemma {:induction false} SimulationCountsTheFund(ledger: seq<Row>, funds: nat, fund: nat, day: int)
    requires Fits(ledger, funds) && fund < funds && day >= -1
    ensures UnitsAt(ledger, funds, day)[fund] == SimulatedUnits(FundRows(ledger, fund, day))
    decreases day + 1
  {
    hide OfDay, ApplyAll;
    if day >= 0 {
      SimulationCountsTheFund(ledger, funds, fund, day - 1);
      ColumnFollowsFund(OfDay(ledger, day), Book(UnitsAt(ledger, funds, day - 1), 0.0), fund,
                        FundRows(ledger, fund, day - 1));
    }
  }

  /** The lots of a fund hold what the simulation shows for it that evening, at the invested cost. */
  lemma LotsMatchSimulation(ledger: seq<Row>, funds: nat, fund: nat, day: nat)
    requires Fits(ledger, funds) && fund < funds
    requires forall i | 0 <= i < |FundRows(ledger, fund, day)| :: WellFormed(FundRows(ledger, fund, day)[i])
    ensures UnitsOf(LotsOf(FundRows(ledger, fund, day))) == UnitsAt(ledger, funds, day)[fund]
    ensures CostOf(LotsOf(FundRows(ledger, fund, day))) == CostBasis(ActiveBuys(FundRows(ledger, fund, day)))
  {
    hide FundRows, LotsOf, UnitsAt, WellFormed;
    SimulationCountsTheFund(ledger, funds, fund, day);
    EnginesAgree(FundRows(ledger, fund, day));
  }
}
