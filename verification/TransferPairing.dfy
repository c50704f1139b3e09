/**
 * Telling movements between a user's own accounts from income and spending: pair each
 * debit with the best unused credit of the same amount in another account.
 */
module TransferPairing {
  import opened Common

  const MAX_LAG_DAYS := 4

  type Id = string

  datatype Kind = Debit | Credit | Other

  /** `day` is None when the date could not be read; `hints` counts transfer words in the narration. */
  datatype Txn = Txn(id: Id, day: Option<int>, amount: int, kind: Kind, account: string, hints: nat)

  datatype Pair = Pair(debit: Txn, credit: Txn)

  function Abs(x: int): nat {
    if x < 0 then -x else x
  }

  function Lag(d: Txn, c: Txn): int
    requires d.day.Some? && c.day.Some?
  {
    c.day.value - d.day.value
  }

  /** The two could be the legs of one movement. */
  predicate Compatible(d: Txn, c: Txn) {
    && d.kind == Debit && c.kind == Credit && d.day.Some? && c.day.Some?
    && d.amount == c.amount && d.account != c.account
    && -1 <= Lag(d, c) <= MAX_LAG_DAYS
  }

  /** Smaller lag first, then more hints. */
  predicate Ranks(d: Txn, a: Txn, b: Txn)
    requires d.day.Some? && a.day.Some? && b.day.Some?
  {
    Abs(Lag(d, a)) < Abs(Lag(d, b)) || (Abs(Lag(d, a)) == Abs(Lag(d, b)) && a.hints > b.hints)
  }

  predicate UniqueIds(rows: seq<Txn>) {
    forall i, j | 0 <= i < j < |rows| :: rows[i].id != rows[j].id
  }

  // ----- buckets -----

  function Dated(rows: seq<Txn>): (r: seq<Txn>)
    ensures forall t :: t in r <==> t in rows && t.day.Some?
  {
    if rows == [] then []
    else
      assert rows == rows[..|rows| - 1] + [rows[|rows| - 1]];
      Dated(rows[..|rows| - 1]) + (if rows[|rows| - 1].day.Some? then [rows[|rows| - 1]] else [])
  }

  /** The rows of one kind and amount, in row order. */
  function Bucket(rows: seq<Txn>, kind: Kind, amount: int): (r: seq<Txn>)
    ensures forall t :: t in r <==> t in rows && t.kind == kind && t.amount == amount
  {
    if rows == [] then []
    else
      var last := rows[|rows| - 1];
      assert rows == rows[..|rows| - 1] + [last];
      Bucket(rows[..|rows| - 1], kind, amount) + (if last.kind == kind && last.amount == amount then [last] else [])
  }

  /** Debit amounts in order of first appearance. */
  function Amounts(rows: seq<Txn>): (r: seq<int>)
    ensures forall a :: a in r <==> exists t | t in rows :: t.kind == Debit && t.amount == a
  {
    if rows == [] then []
    else
      var last := rows[|rows| - 1];
      var r := Amounts(rows[..|rows| - 1]);
      assert rows == rows[..|rows| - 1] + [last];
      if last.kind == Debit && last.amount !in r then r + [last.amount] else r
  }

  /** Debits bucket by bucket: the order in which they are offered a credit. */
  function Visit(rows: seq<Txn>, amounts: seq<int>): (r: seq<Txn>)
    ensures forall t :: t in r <==> t in rows && t.kind == Debit && t.amount in amounts
  {
    if amounts == [] then [] else Bucket(rows, Debit, amounts[0]) + Visit(rows, amounts[1..])
  }

  // ----- the reference pairing -----

  /** The best-ranked credit that is compatible and unused; the earliest of equals. */
  function Best(d: Txn, credits: seq<Txn>, used: set<Id>): (r: Option<Txn>)
    ensures r.Some? ==> r.value in credits && Compatible(d, r.value) && r.value.id !in used
    ensures r.Some? ==> forall c | c in credits && Compatible(d, c) && c.id !in used :: !Ranks(d, c, r.value)
    ensures r.None? ==> forall c | c in credits :: !Compatible(d, c) || c.id in used
  {
    if credits == [] then None
    else
      var last := credits[|credits| - 1];
      var r := Best(d, credits[..|credits| - 1], used);
      assert credits == credits[..|credits| - 1] + [last];
      if !Compatible(d, last) || last.id in used then r
      else if r.None? || Ranks(d, last, r.value) then Some(last)
      else r
  }

  function PairUp(debits: seq<Txn>, rows: seq<Txn>, used: set<Id>): seq<Pair> {
    if debits == [] then []
    else
      match Best(debits[0], Bucket(rows, Credit, debits[0].amount), used)
      case None => PairUp(debits[1..], rows, used)
      case Some(c) => [Pair(debits[0], c)] + PairUp(debits[1..], rows, used + {c.id})
  }

  /** The pairs found among all rows. */
  function Pairing(rows: seq<Txn>): seq<Pair> {
    var work := Dated(rows);
    PairUp(Visit(work, Amounts(work)), work, {})
  }

  // ----- the application -----

  lemma BestNext(d: Txn, candidates: seq<Txn>, i: nat, used: set<Id>)
    requires i < |candidates|
    ensures var r, c := Best(d, candidates[..i], used), candidates[i];
      Best(d, candidates[..i + 1], used) ==
        if !Compatible(d, c) || c.id in used then r
        else if r.None? || Ranks(d, c, r.value) then Some(c)
        else r
  {
    hide Ranks, Compatible;
    assert candidates[..i + 1][..i] == candidates[..i];
  }

  /** The scan over one debit's candidates. */
  method BestCredit(d: Txn, candidates: seq<Txn>, used: set<Id>) returns (best: Option<Txn>)
    requires d.kind == Debit && d.day.Some?
    requires forall c | c in candidates :: c.kind == Credit && c.amount == d.amount && c.day.Some?
    ensures best == Best(d, candidates, used)
  {
    hide Best, Ranks;
    best := None;
    NoneIsBest(d, used);
    assert candidates[..0] == [];
    for i := 0 to |candidates|
      invariant best == Best(d, candidates[..i], used)
    {
      var c := candidates[i];
      BestNext(d, candidates, i, used);
      assert c in candidates;
      if c.id in used || c.account == d.account {
        continue;
      }
      var lag := Lag(d, c);
      if lag < -1 || lag > MAX_LAG_DAYS {
        continue;
      }
      if best.None? || Ranks(d, c, best.value) {
        best := Some(c);
      }
    }
    assert candidates[..|candidates|] == candidates;
  }

  lemma NoneIsBest(d: Txn, used: set<Id>)
    ensures Best(d, [], used) == None
  {}

  function Stored(m: map<int, seq<Txn>>, amount: int): seq<Txn> {
    if amount in m then m[amount] else []
  }

  /** The dictionary holds the buckets of one kind, and only the non-empty ones. */
  ghost predicate BucketsOf(m: map<int, seq<Txn>>, rows: seq<Txn>, kind: Kind) {
    forall a: int :: Stored(m, a) == Bucket(rows, kind, a) && (a in m ==> m[a] != [])
  }

  lemma AddToBucket(m: map<int, seq<Txn>>, rows: seq<Txn>, kind: Kind, t: Txn)
    requires BucketsOf(m, rows, kind)
    ensures BucketsOf(if t.kind == kind then m[t.amount := Stored(m, t.amount) + [t]] else m, rows + [t], kind)
  {
    hide Bucket;
    forall a: int
      ensures Bucket(rows + [t], kind, a)
        == Bucket(rows, kind, a) + (if t.kind == kind && t.amount == a then [t] else [])
    {
      BucketAppend(rows, t, kind, a);
    }
  }

  lemma BucketAppend(rows: seq<Txn>, t: Txn, kind: Kind, a: int)
    ensures Bucket(rows + [t], kind, a) == Bucket(rows, kind, a) + (if t.kind == kind && t.amount == a then [t] else [])
  {
    assert (rows + [t])[..|rows|] == rows;
  }

  lemma AmountsAppend(rows: seq<Txn>, t: Txn)
    ensures Amounts(rows + [t]) ==
      if t.kind == Debit && t.amount !in Amounts(rows) then Amounts(rows) + [t.amount] else Amounts(rows)
  {
    assert (rows + [t])[..|rows|] == rows;
  }

  /** Fills the two dictionaries of buckets, remembering the order of the debit keys. */
  method FillBuckets(work: seq<Txn>)
    returns (order: seq<int>, debits: map<int, seq<Txn>>, credits: map<int, seq<Txn>>)
    ensures order == Amounts(work)
    ensures BucketsOf(debits, work, Debit) && BucketsOf(credits, work, Credit)
  {
    hide Amounts, BucketsOf, Stored;
    order, debits, credits := [], map[], map[];
    NoBuckets();
    assert work[..0] == [];
    for i := 0 to |work|
      invariant order == Amounts(work[..i])
      invariant BucketsOf(debits, work[..i], Debit) && BucketsOf(credits, work[..i], Credit)
    {
      var t := work[i];
      assert work[..i + 1] == work[..i] + [t];
      AmountsAppend(work[..i], t);
      AddToBucket(debits, work[..i], Debit, t);
      AddToBucket(credits, work[..i], Credit, t);
      if t.kind == Debit {
        debits := debits[t.amount := Stored(debits, t.amount) + [t]];
        if t.amount !in order {
          order := order + [t.amount];
        }
      } else if t.kind == Credit {
        credits := credits[t.amount := Stored(credits, t.amount) + [t]];
      }
    }
    assert work[..|work|] == work;
  }

  lemma NoBuckets()
    ensures Amounts([]) == [] && BucketsOf(map[], [], Debit) && BucketsOf(map[], [], Credit)
  {}

  /** Pairs the debits of one amount. */
  method PairBucket(debits: seq<Txn>, candidates: seq<Txn>, work: seq<Txn>, used0: set<Id>, rest: seq<Txn>)
    returns (pairs: seq<Pair>, used: set<Id>)
    requires forall d | d in debits :: d.kind == Debit && d.day.Some? && candidates == Bucket(work, Credit, d.amount)
    requires forall t | t in work :: t.day.Some?
    ensures PairUp(debits + rest, work, used0) == pairs + PairUp(rest, work, used)
  {
    hide Best, Bucket;
    pairs, used := [], used0;
    assert debits[0..] == debits;
    for i := 0 to |debits|
      invariant PairUp(debits + rest, work, used0) == pairs + PairUp(debits[i..] + rest, work, used)
    {
      var d := debits[i];
      assert d in debits;
      assert (debits[i..] + rest)[0] == d && (debits[i..] + rest)[1..] == debits[i + 1..] + rest;
      var best := BestCredit(d, candidates, used);
      if best.Some? {
        used := used + {best.value.id};
        pairs := pairs + [Pair(d, best.value)];
      }
    }
    assert debits[|debits|..] + rest == rest;
  }

  method DetectTransfers(rows: seq<Txn>) returns (pairs: seq<Pair>)
    ensures pairs == Pairing(rows)
  {
    hide Dated, Amounts, Bucket, Best, PairUp, Visit;
    var accounts := set t | t in rows :: t.account;
    if |accounts| < 2 {
      OneAccountPairsNothing(rows);
      return [];
    }
    var work := Dated(rows);
    var order, debits, credits := FillBuckets(work);
    var used: set<Id> := {};
    pairs := [];
    assert order[0..] == order;
    for i := 0 to |order|
      invariant Pairing(rows) == pairs + PairUp(Visit(work, order[i..]), work, used)
    {
      var a := order[i];
      var candidates := Stored(credits, a);
      var found;
      VisitNext(work, order, i);
      assert order[i] in order;
      found, used := PairBucket(Stored(debits, a), candidates, work, used, Visit(work, order[i + 1..]));
      pairs := pairs + found;
    }
    assert order[|order|..] == [];
    NothingToVisit(work, used);
  }

  lemma VisitNext(work: seq<Txn>, order: seq<int>, i: nat)
    requires i < |order|
    ensures Visit(work, order[i..]) == Bucket(work, Debit, order[i]) + Visit(work, order[i + 1..])
  {
    assert order[i..][1..] == order[i + 1..];
  }

  lemma NothingToVisit(work: seq<Txn>, used: set<Id>)
    ensures PairUp(Visit(work, []), work, used) == []
  {}

  lemma OneAccountPairsNothing(rows: seq<Txn>)
    requires |set t | t in rows :: t.account| < 2
    ensures Pairing(rows) == []
  {
    hide Dated, Amounts, Bucket, Best;
    var work := Dated(rows);
    var accounts := set t | t in rows :: t.account;
    forall d, c | d in work && c in work ensures !Compatible(d, c) {
      assert d.account in accounts && c.account in accounts;
      AtMostOne(accounts, d.account, c.account);
    }
    NothingCompatible(Visit(work, Amounts(work)), work, {});
  }

  lemma AtMostOne(s: set<string>, a: string, b: string)
    requires |s| < 2 && a in s && b in s
    ensures a == b
  {
    var rest := s - {a};
    assert |rest| == |s| - 1;
    assert |rest| == 0;
  }

  lemma {:induction false} NothingCompatible(debits: seq<Txn>, rows: seq<Txn>, used: set<Id>)
    requires forall d, c | d in debits && c in rows :: !Compatible(d, c)
    ensures PairUp(debits, rows, used) == []
  {
    hide Best, Bucket;
    if debits != [] {
      assert debits[0] in debits;
      NothingCompatible(debits[1..], rows, used);
    }
  }

  // ----- what the pairing guarantees -----

  /** A set of movements: each leg compatible with its partner and in no other pair. */
  predicate IsMatching(pairs: seq<Pair>, rows: seq<Txn>) {
    && (forall i | 0 <= i < |pairs| ::
          pairs[i].debit in rows && pairs[i].credit in rows && Compatible(pairs[i].debit, pairs[i].credit))
    && (forall i, j | 0 <= i < j < |pairs| ::
          pairs[i].debit.id != pairs[j].debit.id && pairs[i].credit.id != pairs[j].credit.id)
  }

  function DebitIds(pairs: seq<Pair>): (r: set<Id>)
    ensures forall i | 0 <= i < |pairs| :: pairs[i].debit.id in r
    ensures forall id | id in r :: exists i :: 0 <= i < |pairs| && pairs[i].debit.id == id
  {
    if pairs == [] then {} else DebitIds(pairs[..|pairs| - 1]) + {pairs[|pairs| - 1].debit.id}
  }

  function CreditIds(pairs: seq<Pair>): (r: set<Id>)
    ensures forall i | 0 <= i < |pairs| :: pairs[i].credit.id in r
    ensures forall id | id in r :: exists i :: 0 <= i < |pairs| && pairs[i].credit.id == id
  {
    if pairs == [] then {} else CreditIds(pairs[..|pairs| - 1]) + {pairs[|pairs| - 1].credit.id}
  }

  /** No compatible debit and credit are both left over. */
  predicate IsMaximal(pairs: seq<Pair>, rows: seq<Txn>) {
    forall d, c | d in rows && c in rows && Compatible(d, c) :: d.id in DebitIds(pairs) || c.id in CreditIds(pairs)
  }

  lemma {:induction false} VisitIsUnique(rows: seq<Txn>, amounts: seq<int>)
    requires UniqueIds(rows) && forall i, j | 0 <= i < j < |amounts| :: amounts[i] != amounts[j]
    ensures UniqueIds(Visit(rows, amounts))
  {
    if amounts != [] {
      VisitIsUnique(rows, amounts[1..]);
      BucketIsUnique(rows, Debit, amounts[0]);
      var a, b := Bucket(rows, Debit, amounts[0]), Visit(rows, amounts[1..]);
      forall i, j | 0 <= i < |a| && 0 <= j < |b| ensures a[i].id != b[j].id {
        assert a[i] in a && b[j] in b;
        IdsTellApart(rows, a[i], b[j]);
      }
    }
  }

  lemma IdsTellApart(rows: seq<Txn>, a: Txn, b: Txn)
    requires UniqueIds(rows) && a in rows && b in rows && a != b
    ensures a.id != b.id
  {}

  lemma {:induction false} BucketIsUnique(rows: seq<Txn>, kind: Kind, amount: int)
    requires UniqueIds(rows)
    ensures UniqueIds(Bucket(rows, kind, amount))
  {
    if rows != [] {
      var init, last := rows[..|rows| - 1], rows[|rows| - 1];
      BucketIsUnique(init, kind, amount);
      forall t | t in Bucket(init, kind, amount) ensures t.id != last.id {
        assert t in init;
      }
    }
  }

  lemma {:induction false} DatedIsUnique(rows: seq<Txn>)
    requires UniqueIds(rows)
    ensures UniqueIds(Dated(rows))
  {
    if rows != [] {
      var init, last := rows[..|rows| - 1], rows[|rows| - 1];
      DatedIsUnique(init);
      forall t | t in Dated(init) ensures t.id != last.id {
        assert t in init;
      }
    }
  }

  lemma {:induction false} AmountsAreDistinct(rows: seq<Txn>)
    ensures forall i, j | 0 <= i < j < |Amounts(rows)| :: Amounts(rows)[i] != Amounts(rows)[j]
  {
    if rows != [] {
      AmountsAreDistinct(rows[..|rows| - 1]);
    }
  }

  lemma {:induction false} PairUpMatches(debits: seq<Txn>, rows: seq<Txn>, used: set<Id>)
    requires UniqueIds(debits) && forall d | d in debits :: d in rows
    ensures IsMatching(PairUp(debits, rows, used), rows)
    ensures forall p | p in PairUp(debits, rows, used) :: p.debit in debits && p.credit.id !in used
  {
    hide Best, Bucket;
    if debits != [] {
      var d := debits[0];
      assert d in debits;
      match Best(d, Bucket(rows, Credit, d.amount), used) {
        case None => PairUpMatches(debits[1..], rows, used);
        case Some(c) =>
          PairUpMatches(debits[1..], rows, used + {c.id});
          var rest := PairUp(debits[1..], rows, used + {c.id});
          forall p | p in rest ensures p.debit.id != d.id && p.credit.id != c.id {
            HeadIsUnique(debits, p.debit);
          }
          PrependPair(Pair(d, c), rest, rows);
      }
    }
  }

  lemma HeadIsUnique(debits: seq<Txn>, t: Txn)
    requires debits != [] && UniqueIds(debits) && t in debits[1..]
    ensures t.id != debits[0].id
  {}

  lemma PrependPair(p: Pair, rest: seq<Pair>, rows: seq<Txn>)
    requires IsMatching(rest, rows) && p.debit in rows && p.credit in rows && Compatible(p.debit, p.credit)
    requires forall q | q in rest :: q.debit.id != p.debit.id && q.credit.id != p.credit.id
    ensures IsMatching([p] + rest, rows)
  {
    hide Compatible;
    assert forall i | 0 <= i < |rest| :: rest[i] in rest;
  }

  lemma MoreIds(pairs: seq<Pair>, rest: seq<Pair>)
    requires pairs != [] && pairs[1..] == rest
    ensures DebitIds(rest) <= DebitIds(pairs) && CreditIds(rest) <= CreditIds(pairs)
  {
    hide DebitIds, CreditIds;
    assert forall i | 0 <= i < |rest| :: pairs[i + 1] == rest[i];
  }

  lemma {:induction false} PairUpIsMaximal(debits: seq<Txn>, rows: seq<Txn>, used: set<Id>, d: Txn, c: Txn)
    requires d in debits && c in rows && Compatible(d, c)
    ensures var pairs := PairUp(debits, rows, used);
      d.id in DebitIds(pairs) || c.id in CreditIds(pairs) || c.id in used
  {
    hide Best, Bucket, DebitIds, CreditIds;
    var pairs := PairUp(debits, rows, used);
    match Best(debits[0], Bucket(rows, Credit, debits[0].amount), used) {
      case None =>
        if d != debits[0] {
          PairUpIsMaximal(debits[1..], rows, used, d, c);
        }
      case Some(best) =>
        assert pairs[0] == Pair(debits[0], best);
        if d != debits[0] {
          PairUpIsMaximal(debits[1..], rows, used + {best.id}, d, c);
          var rest := PairUp(debits[1..], rows, used + {best.id});
          MoreIds(pairs, rest);
        }
    }
  }

  /** The pairs are a matching of the rows, and no further pair can be added to it. */
  lemma PairingIsMaximalMatching(rows: seq<Txn>)
    requires UniqueIds(rows)
    ensures IsMatching(Pairing(rows), rows) && IsMaximal(Pairing(rows), rows)
  {
    hide Dated, Amounts, Bucket, Visit, PairUp;
    var work := Dated(rows);
    var debits := Visit(work, Amounts(work));
    DatedIsUnique(rows);
    AmountsAreDistinct(work);
    VisitIsUnique(work, Amounts(work));
    PairUpMatches(debits, work, {});
    forall d, c | d in rows && c in rows && Compatible(d, c)
      ensures d.id in DebitIds(Pairing(rows)) || c.id in CreditIds(Pairing(rows))
    {
      PairUpIsMaximal(debits, work, {}, d, c);
    }
  }

  // ----- the pairs in plain terms -----

  /** A debit and a credit of one amount in two accounts, the credit up to a day before and four days after. */
  predicate IsMovement(d: Txn, c: Txn) {
    && d.kind == Debit && c.kind == Credit && d.amount == c.amount && d.account != c.account
    && d.day.Some? && c.day.Some? && d.day.value - 1 <= c.day.value <= d.day.value + 4
  }

  /** The days between the two, either way. */
  function DaysApart(d: Txn, c: Txn): nat
    requires d.day.Some? && c.day.Some?
  {
    if d.day.value <= c.day.value then c.day.value - d.day.value else d.day.value - c.day.value
  }

  /** Fewer days apart, or as many and more transfer words. */
  predicate IsBetter(d: Txn, a: Txn, b: Txn)
    requires d.day.Some? && a.day.Some? && b.day.Some?
  {
    DaysApart(d, a) < DaysApart(d, b) || (DaysApart(d, a) == DaysApart(d, b) && a.hints > b.hints)
  }

  lemma MovementsAreCompatible()
    ensures forall d, c :: Compatible(d, c) <==> IsMovement(d, c)
  {}

  lemma BetterIsRanked(d: Txn, a: Txn, b: Txn)
    requires d.day.Some? && a.day.Some? && b.day.Some?
    ensures IsBetter(d, a, b) <==> Ranks(d, a, b)
  {}

  /**
   * What is paired are movements, no row twice; no movement is left with both its rows
   * unpaired; and no credit left over would have been better for a debit than its partner.
   */
  lemma PairsAreMovements(rows: seq<Txn>)
    requires UniqueIds(rows)
    ensures var pairs := Pairing(rows);
      && (forall i | 0 <= i < |pairs| ::
            pairs[i].debit in rows && pairs[i].credit in rows && IsMovement(pairs[i].debit, pairs[i].credit))
      && (forall i, j | 0 <= i < j < |pairs| ::
            pairs[i].debit.id != pairs[j].debit.id && pairs[i].credit.id != pairs[j].credit.id)
      && (forall d, c | d in rows && c in rows && IsMovement(d, c) ::
            d.id in DebitIds(pairs) || c.id in CreditIds(pairs))
  {
    hide Pairing, UniqueIds, DebitIds, CreditIds, Compatible, IsMovement;
    MovementsAreCompatible();
    PairingIsMaximalMatching(rows);
  }

  predicate IsLeftOver(pairs: seq<Pair>, c: Txn) {
    forall i | 0 <= i < |pairs| :: pairs[i].credit.id != c.id
  }

  /** No credit that is left over would have been better for a debit than the one it got. */
  lemma NoLeftoverIsBetter(rows: seq<Txn>, k: nat, c: Txn)
    requires UniqueIds(rows) && k < |Pairing(rows)| && IsLeftOver(Pairing(rows), c)
    requires c in rows && IsMovement(Pairing(rows)[k].debit, c)
    ensures var p := Pairing(rows)[k]; p.credit.day.Some? && !IsBetter(p.debit, c, p.credit)
  {
    hide Dated, Amounts, Bucket, Visit, PairUp, UniqueIds, IsBetter, IsLeftOver;
    var work := Dated(rows);
    LeftoverIsNoBetter(Visit(work, Amounts(work)), work, {}, k, c);
  }

  lemma {:induction false} LeftoverIsNoBetter(debits: seq<Txn>, rows: seq<Txn>, used: set<Id>, k: nat, c: Txn)
    requires k < |PairUp(debits, rows, used)| && IsLeftOver(PairUp(debits, rows, used), c) && c.id !in used
    requires c in rows && IsMovement(PairUp(debits, rows, used)[k].debit, c)
    ensures var p := PairUp(debits, rows, used)[k]; p.credit.day.Some? && !IsBetter(p.debit, c, p.credit)
    decreases debits
  {
    hide IsBetter, Compatible, IsMovement, PairUp, IsTaken;
    var pairs := PairUp(debits, rows, used);
    var taken := PairUpNext(debits, rows, used);
    if taken.None? {
      LeftoverIsNoBetter(debits[1..], rows, used, k, c);
    } else if k > 0 {
      assert pairs[1..][k - 1] == pairs[k];
      LeftoverIsNoBetter(debits[1..], rows, used + {taken.value.id}, k - 1, c);
    } else {
      ChosenOverLeftover(debits[0], rows, used, taken.value, c);
    }
  }

  lemma PairUpNext(debits: seq<Txn>, rows: seq<Txn>, used: set<Id>) returns (taken: Option<Txn>)
    requires PairUp(debits, rows, used) != []
    ensures debits != []
    ensures var pairs := PairUp(debits, rows, used);
      if taken.None? then pairs == PairUp(debits[1..], rows, used)
      else pairs[0] == Pair(debits[0], taken.value)
           && pairs[1..] == PairUp(debits[1..], rows, used + {taken.value.id})
           && IsTaken(debits[0], rows, used, taken.value)
  {
    hide Best, Bucket;
    return Best(debits[0], Bucket(rows, Credit, debits[0].amount), used);
  }

  predicate IsTaken(d: Txn, rows: seq<Txn>, used: set<Id>, best: Txn) {
    Best(d, Bucket(rows, Credit, d.amount), used) == Some(best)
  }

  lemma ChosenOverLeftover(d: Txn, rows: seq<Txn>, used: set<Id>, best: Txn, c: Txn)
    requires IsTaken(d, rows, used, best) && c in rows && IsMovement(d, c) && c.id !in used
    ensures best.day.Some? && !IsBetter(d, c, best)
  {
    hide Best, IsBetter, Ranks, Bucket;
    BetterIsRanked(d, c, best);
    var credits := Bucket(rows, Credit, d.amount);
    assert c in credits;
    BestBeats(d, credits, used, best, c);
  }

  lemma BestBeats(d: Txn, credits: seq<Txn>, used: set<Id>, best: Txn, c: Txn)
    requires Best(d, credits, used) == Some(best) && c in credits && Compatible(d, c) && c.id !in used
    ensures best.day.Some? && !Ranks(d, c, best)
  {
    hide Best, Ranks;
  }

  /** Of equally good credits the scan takes the first. */
  lemma {:induction false} FirstOfEquals(d: Txn, credits: seq<Txn>, used: set<Id>, j: nat)
    requires j < |credits| && IsMovement(d, credits[j]) && credits[j].id !in used
    requires forall c | c in credits && IsMovement(d, c) && c.id !in used :: !IsBetter(d, c, credits[j])
    requires forall i | 0 <= i < j && IsMovement(d, credits[i]) && credits[i].id !in used ::
      IsBetter(d, credits[j], credits[i])
    ensures Best(d, credits, used) == Some(credits[j])
  {
    var init, last := credits[..|credits| - 1], credits[|credits| - 1];
    assert credits == init + [last];
    if j < |init| {
      FirstOfEquals(d, init, used, j);
    } else {
      assert forall c | c in init && IsMovement(d, c) && c.id !in used :: IsBetter(d, last, c);
    }
  }

  /** Pairs whose debit is among `ids`, in a list where no debit repeats: no more than there are ids. */
  lemma {:induction false} FewDebitsAmong(pairs: seq<Pair>, ids: set<Id>)
    requires forall i, j | 0 <= i < j < |pairs| :: pairs[i].debit.id != pairs[j].debit.id
    ensures CountDebits(pairs, ids) <= |ids|
  {
    if pairs != [] {
      var init, last := pairs[..|pairs| - 1], pairs[|pairs| - 1];
      if last.debit.id in ids {
        FewDebitsAmong(init, ids - {last.debit.id});
        SameDebits(init, ids, last.debit.id);
      } else {
        FewDebitsAmong(init, ids);
      }
    }
  }

  function CountDebits(pairs: seq<Pair>, ids: set<Id>): nat {
    if pairs == [] then 0
    else CountDebits(pairs[..|pairs| - 1], ids) + (if pairs[|pairs| - 1].debit.id in ids then 1 else 0)
  }

  lemma {:induction false} SameDebits(pairs: seq<Pair>, ids: set<Id>, id: Id)
    requires forall i | 0 <= i < |pairs| :: pairs[i].debit.id != id
    ensures CountDebits(pairs, ids) == CountDebits(pairs, ids - {id})
  {
    if pairs != [] {
      SameDebits(pairs[..|pairs| - 1], ids, id);
    }
  }

  /** The same pairs seen from the other leg. */
  function Flipped(pairs: seq<Pair>): (r: seq<Pair>)
    ensures |r| == |pairs| && forall i | 0 <= i < |r| :: r[i] == Pair(pairs[i].credit, pairs[i].debit)
  {
    seq(|pairs|, i requires 0 <= i < |pairs| => Pair(pairs[i].credit, pairs[i].debit))
  }

  lemma {:induction false} EveryPairIsCounted(pairs: seq<Pair>, debits: set<Id>, credits: set<Id>)
    requires forall i | 0 <= i < |pairs| :: pairs[i].debit.id in debits || pairs[i].credit.id in credits
    ensures |pairs| <= CountDebits(pairs, debits) + CountDebits(Flipped(pairs), credits)
  {
    if pairs != [] {
      EveryPairIsCounted(pairs[..|pairs| - 1], debits, credits);
      assert Flipped(pairs)[..|pairs| - 1] == Flipped(pairs[..|pairs| - 1]);
    }
  }

  lemma OneMoreMember(s: set<Id>, id: Id)
    ensures |s + {id}| <= |s| + 1
  {
    if id in s {
      assert s + {id} == s;
    }
  }

  lemma {:induction false} NoMoreIdsThanPairs(pairs: seq<Pair>)
    ensures |DebitIds(pairs)| <= |pairs| && |CreditIds(pairs)| <= |pairs|
  {
    if pairs != [] {
      var init, last := pairs[..|pairs| - 1], pairs[|pairs| - 1];
      NoMoreIdsThanPairs(init);
      OneMoreMember(DebitIds(init), last.debit.id);
      OneMoreMember(CreditIds(init), last.credit.id);
    }
  }

  /** A maximal matching is at least half as large as any matching of the same rows. */
  lemma MaximalIsHalf(pairs: seq<Pair>, others: seq<Pair>, rows: seq<Txn>)
    requires IsMaximal(pairs, rows) && IsMatching(others, rows)
    ensures |others| <= 2 * |pairs|
  {
    hide Compatible;
    var debits, credits := DebitIds(pairs), CreditIds(pairs);
    EveryPairIsCounted(others, debits, credits);
    FewDebitsAmong(others, debits);
    FewDebitsAmong(Flipped(others), credits);
    NoMoreIdsThanPairs(pairs);
  }

  /**
   * However else the same rows could be paired off, that finds at most twice as many
   * transfers as the application does.
   */
  lemma PairingIsAtLeastHalf(rows: seq<Txn>, others: seq<Pair>)
    requires UniqueIds(rows) && IsMatching(others, rows)
    ensures |others| <= 2 * |Pairing(rows)|
  {
    hide Pairing;
    PairingIsMaximalMatching(rows);
    MaximalIsHalf(Pairing(rows), others, rows);
  }

  lemma SameRow(rows: seq<Txn>, a: Txn, b: Txn)
    requires UniqueIds(rows) && a in rows && b in rows
    ensures a.id == b.id ==> a == b
  {}

  // ----- not every consistent pairing is as good -----

  const D1 := Txn("d", Some(0), 100, Debit, "bank", 0)
  const D2 := Txn("dd", Some(0), 100, Debit, "wallet", 0)
  const C1 := Txn("ccc", Some(0), 100, Credit, "broker account", 0)
  const C2 := Txn("cccc", Some(1), 100, Credit, "wallet", 0)

  /**
   * Two transfers of the same amount can be paired so that only one of them is found: the
   * best-ranked credit of the first debit was the second debit's only one. The bound of
   * one half is met exactly.
   */
  lemma BestFirstCanMissTransfers()
    ensures var rows := [D1, D2, C1, C2];
      && UniqueIds(rows) && |Pairing(rows)| == 1 && IsMatching([Pair(D1, C2), Pair(D2, C1)], rows)
  {
    hide Pairing, Compatible, UniqueIds;
    OnePairFound();
    ExampleIdsAreUnique();
    TwoPairs();
  }

  lemma TwoPairs()
    ensures IsMatching([Pair(D1, C2), Pair(D2, C1)], [D1, D2, C1, C2])
  {
    hide Compatible, UniqueIds;
    LegsOfTheExample();
    var rows := [D1, D2, C1, C2];
    assert rows[0] == D1 && rows[1] == D2 && rows[2] == C1 && rows[3] == C2;
    DifferentLengths(D1.id, D2.id);
    DifferentLengths(C2.id, C1.id);
  }

  lemma OnePairFound()
    ensures Pairing([D1, D2, C1, C2]) == [Pair(D1, C1)]
  {
    hide PairUp, Best, Bucket, Amounts, Visit, Dated, Compatible, UniqueIds, Ranks;
    var rows := [D1, D2, C1, C2];
    DatedAll(rows);
    FourRows();
    LegsOfTheExample();
    FirstRanksBest(D1, C1, C2);
    FirstRanksBest(D2, C1, C2);
    BestOfTwo(D1, C1, C2, {});
    BestOfTwo(D2, C1, C2, {C1.id});
    NoDebits(rows, {C1.id});
    FirstDebit(D2, [], rows, {C1.id});
    FirstDebit(D1, [D2], rows, {});
    assert {} + {C1.id} == {C1.id};
    assert [D1] + [D2] == [D1, D2] && [D2] + [] == [D2];
  }

  lemma Legs(d: Txn, c: Txn)
    requires d.kind == Debit && c.kind == Credit && d.day == Some(0) && c.day.Some? && d.amount == c.amount
    requires 0 <= c.day.value <= MAX_LAG_DAYS
    ensures Compatible(d, c) <==> d.account != c.account
  {}

  lemma DifferentLengths(a: string, b: string)
    requires |a| != |b|
    ensures a != b
  {}

  lemma LegsOfTheExample()
    ensures Compatible(D1, C1) && Compatible(D1, C2) && Compatible(D2, C1) && !Compatible(D2, C2)
  {
    hide Compatible;
    DifferentLengths(D1.account, C1.account);
    DifferentLengths(D1.account, C2.account);
    DifferentLengths(D2.account, C1.account);
    Legs(D1, C1);
    Legs(D1, C2);
    Legs(D2, C1);
    Legs(D2, C2);
  }

  lemma ExampleIdsAreUnique()
    ensures UniqueIds([D1, D2, C1, C2])
  {
    DifferentLengths(D1.id, D2.id);
    DifferentLengths(D1.id, C1.id);
    DifferentLengths(D1.id, C2.id);
    DifferentLengths(D2.id, C1.id);
    DifferentLengths(D2.id, C2.id);
    DifferentLengths(C1.id, C2.id);
  }

  lemma FirstRanksBest(d: Txn, a: Txn, b: Txn)
    requires d.day == Some(0) && a.day == Some(0) && b.day.Some? && a.hints == b.hints
    ensures !Ranks(d, b, a)
  {}

  lemma NoDebits(rows: seq<Txn>, used: set<Id>)
    ensures PairUp([], rows, used) == []
  {}

  lemma FirstDebit(d: Txn, rest: seq<Txn>, rows: seq<Txn>, used: set<Id>)
    ensures PairUp([d] + rest, rows, used) ==
      match Best(d, Bucket(rows, Credit, d.amount), used)
      case None => PairUp(rest, rows, used)
      case Some(c) => [Pair(d, c)] + PairUp(rest, rows, used + {c.id})
  {
    assert ([d] + rest)[1..] == rest;
  }

  lemma BestOfTwo(d: Txn, a: Txn, b: Txn, used: set<Id>)
    requires d.day.Some? && a.day.Some? && b.day.Some? && !Ranks(d, b, a)
    ensures Best(d, [a, b], used) ==
      if Compatible(d, a) && a.id !in used then Some(a)
      else if Compatible(d, b) && b.id !in used then Some(b)
      else None
  {
    assert [a, b][..1] == [a] && [a][..0] == [];
    assert Best(d, [], used) == None;
    assert Best(d, [a], used) == if Compatible(d, a) && a.id !in used then Some(a) else None;
  }

  lemma {:induction false} DatedAll(rows: seq<Txn>)
    requires forall i | 0 <= i < |rows| :: rows[i].day.Some?
    ensures Dated(rows) == rows
  {
    hide Dated;
    if rows == [] {
      DatedNone();
    } else {
      DatedNext(rows);
      DatedAll(rows[..|rows| - 1]);
      assert rows == rows[..|rows| - 1] + [rows[|rows| - 1]];
    }
  }

  lemma DatedNone()
    ensures Dated([]) == []
  {}

  lemma DatedNext(rows: seq<Txn>)
    requires rows != [] && rows[|rows| - 1].day.Some?
    ensures Dated(rows) == Dated(rows[..|rows| - 1]) + [rows[|rows| - 1]]
  {}

  lemma FourRows()
    ensures var rows := [D1, D2, C1, C2];
      Amounts(rows) == [100] && Bucket(rows, Credit, 100) == [C1, C2] && Visit(rows, [100]) == [D1, D2]
  {
    hide Bucket, Amounts;
    var rows := [D1, D2, C1, C2];
    FourAmounts();
    FourInBucket(Debit);
    FourInBucket(Credit);
    assert [100][1..] == [];
    assert Visit(rows, []) == [];
  }

  lemma FourAmounts()
    ensures Amounts([D1, D2, C1, C2]) == [100]
  {
    hide Amounts;
    NothingIn(Debit);
    AmountsAppend([], D1);
    assert [] + [D1] == [D1];
    AmountsAppend([D1], D2);
    assert [D1] + [D2] == [D1, D2];
    AmountsAppend([D1, D2], C1);
    assert [D1, D2] + [C1] == [D1, D2, C1];
    AmountsAppend([D1, D2, C1], C2);
    assert [D1, D2, C1] + [C2] == [D1, D2, C1, C2];
  }

  lemma FourInBucket(k: Kind)
    ensures Bucket([D1, D2, C1, C2], k, 100) == if k == Debit then [D1, D2] else if k == Credit then [C1, C2] else []
  {
    hide Bucket;
    assert [D1, D2, C1, C2] == [D1, D2] + [C1, C2];
    BucketJoin([D1, D2], [C1, C2], k, 100);
    TwoInBucket(D1, D2, k);
    TwoInBucket(C1, C2, k);
  }

  lemma TwoInBucket(a: Txn, b: Txn, k: Kind)
    requires a.amount == 100 && b.amount == 100 && a.kind == b.kind
    ensures Bucket([a, b], k, 100) == if a.kind == k then [a, b] else []
  {
    hide Bucket;
    NothingIn(k);
    BucketAppend([], a, k, 100);
    assert [] + [a] == [a] && [a] + [b] == [a, b];
    BucketAppend([a], b, k, 100);
  }

  lemma {:induction false} BucketJoin(a: seq<Txn>, b: seq<Txn>, kind: Kind, amount: int)
    ensures Bucket(a + b, kind, amount) == Bucket(a, kind, amount) + Bucket(b, kind, amount)
  {
    hide Bucket;
    if b == [] {
      assert a + b == a;
      EmptyBucket(kind, amount);
    } else {
      var init, last := b[..|b| - 1], b[|b| - 1];
      assert b == init + [last] && a + b == a + init + [last];
      BucketJoin(a, init, kind, amount);
      BucketAppend(init, last, kind, amount);
      BucketAppend(a + init, last, kind, amount);
    }
  }

  lemma EmptyBucket(kind: Kind, amount: int)
    ensures Bucket([], kind, amount) == []
  {}

  lemma NothingIn(k: Kind)
    ensures Amounts([]) == [] && Bucket([], k, 100) == []
  {}
}
