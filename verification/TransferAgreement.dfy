/**
 * When it does not matter which consistent pairing is chosen: exactly when rows that share a
 * partner share all their partners.
 */
module TransferAgreement {
  import opened TransferPairing
  import opened TransferNetting

  /** If the second debit shares one compatible credit with the first, it shares them all. */
  predicate Alike(d: Txn, d': Txn, rows: seq<Txn>) {
    forall c, c' | c in rows && c' in rows && Compatible(d, c) && Compatible(d, c') && Compatible(d', c) ::
      Compatible(d', c')
  }

  /** Two debits that share one compatible credit share them all. */
  predicate Interchangeable(rows: seq<Txn>) {
    forall d, d' {:trigger Alike(d, d', rows)} | d in rows && d' in rows :: Alike(d, d', rows)
  }

  /** Every debit that could go with the credit has been paired. */
  predicate DebitsUsedUp(c: Txn, rows: seq<Txn>, pairs: seq<Pair>) {
    forall d | d in rows && Compatible(d, c) :: d.id in DebitIds(pairs)
  }

  /** The pairs of `some` at whose credit the debits are, or are not, used up. */
  function Where(some: seq<Pair>, rows: seq<Txn>, pairs: seq<Pair>, usedUp: bool): (r: seq<Pair>)
    ensures forall p :: p in r <==> p in some && DebitsUsedUp(p.credit, rows, pairs) == usedUp
  {
    if some == [] then []
    else
      var last := some[|some| - 1];
      assert some == some[..|some| - 1] + [last];
      Where(some[..|some| - 1], rows, pairs, usedUp)
      + (if DebitsUsedUp(last.credit, rows, pairs) == usedUp then [last] else [])
  }

  lemma {:induction false} WhereSplits(some: seq<Pair>, rows: seq<Txn>, pairs: seq<Pair>)
    ensures |Where(some, rows, pairs, true)| + |Where(some, rows, pairs, false)| == |some|
  {
    hide DebitsUsedUp;
    if some != [] {
      WhereSplits(some[..|some| - 1], rows, pairs);
    }
  }

  lemma PartnersAlike(rows: seq<Txn>, pairs: seq<Pair>, d: Txn, c: Txn, c': Txn)
    requires Interchangeable(rows) && d in rows && c in rows && c' in rows
    requires Compatible(d, c) && Compatible(d, c') && DebitsUsedUp(c', rows, pairs)
    ensures DebitsUsedUp(c, rows, pairs)
  {
    hide Compatible;
    forall d' | d' in rows && Compatible(d', c) ensures d'.id in DebitIds(pairs) {
      assert Alike(d, d', rows);
      assert Compatible(d', c');
    }
  }

  /** Where the debits are used up, the other pair's debit is taken; elsewhere its credit is. */
  lemma LegIsTaken(rows: seq<Txn>, pairs: seq<Pair>, other: Pair)
    requires UniqueIds(rows) && Interchangeable(rows) && IsMatching(pairs, rows) && IsMaximal(pairs, rows)
    requires other.debit in rows && other.credit in rows && Compatible(other.debit, other.credit)
    ensures other.debit.id in DebitIds(Where(pairs, rows, pairs, true))
         || other.credit.id in CreditIds(Where(pairs, rows, pairs, false))
  {
    hide Compatible, UniqueIds, Where, DebitIds, CreditIds, Interchangeable, IsMaximal;
    if DebitsUsedUp(other.credit, rows, pairs) {
      DebitIsTaken(rows, pairs, other);
    } else {
      CreditIsTaken(rows, pairs, other);
    }
  }

  lemma DebitIsTaken(rows: seq<Txn>, pairs: seq<Pair>, other: Pair)
    requires UniqueIds(rows) && Interchangeable(rows) && IsMatching(pairs, rows)
    requires other.debit in rows && other.credit in rows && Compatible(other.debit, other.credit)
    requires DebitsUsedUp(other.credit, rows, pairs)
    ensures other.debit.id in DebitIds(Where(pairs, rows, pairs, true))
  {
    hide Compatible, UniqueIds, Where, DebitIds, Interchangeable;
    assert other.debit.id in DebitIds(pairs);
    var j :| 0 <= j < |pairs| && pairs[j].debit.id == other.debit.id;
    SameRow(rows, pairs[j].debit, other.debit);
    PartnersAlike(rows, pairs, other.debit, pairs[j].credit, other.credit);
    assert pairs[j] in Where(pairs, rows, pairs, true);
  }

  lemma CreditIsTaken(rows: seq<Txn>, pairs: seq<Pair>, other: Pair)
    requires UniqueIds(rows) && Interchangeable(rows) && IsMatching(pairs, rows) && IsMaximal(pairs, rows)
    requires other.debit in rows && other.credit in rows && Compatible(other.debit, other.credit)
    requires !DebitsUsedUp(other.credit, rows, pairs)
    ensures other.credit.id in CreditIds(Where(pairs, rows, pairs, false))
  {
    hide Compatible, UniqueIds, Where, DebitIds, CreditIds;
    var d :| d in rows && Compatible(d, other.credit) && d.id !in DebitIds(pairs);
    var j :| 0 <= j < |pairs| && pairs[j].credit.id == other.credit.id;
    SameRow(rows, pairs[j].credit, other.credit);
    assert pairs[j] in Where(pairs, rows, pairs, false);
  }

  /** Where rows are interchangeable, a pairing that cannot be extended finds as many as any other. */
  lemma MaximalIsMaximum(rows: seq<Txn>, pairs: seq<Pair>, others: seq<Pair>)
    requires UniqueIds(rows) && Interchangeable(rows)
    requires IsMatching(pairs, rows) && IsMaximal(pairs, rows) && IsMatching(others, rows)
    ensures |others| <= |pairs|
  {
    hide Compatible, UniqueIds, Interchangeable, IsMaximal, Where, DebitIds, CreditIds, CountDebits, Flipped;
    var used, free := Where(pairs, rows, pairs, true), Where(pairs, rows, pairs, false);
    forall i | 0 <= i < |others|
      ensures others[i].debit.id in DebitIds(used) || others[i].credit.id in CreditIds(free)
    {
      LegIsTaken(rows, pairs, others[i]);
    }
    EveryPairIsCounted(others, DebitIds(used), CreditIds(free));
    FewDebitsAmong(others, DebitIds(used));
    FewDebitsAmong(Flipped(others), CreditIds(free));
    NoMoreIdsThanPairs(used);
    NoMoreIdsThanPairs(free);
    WhereSplits(pairs, rows, pairs);
  }

  /** So the application's pairing finds as many transfers as there can be. */
  lemma PairingIsMaximum(rows: seq<Txn>, others: seq<Pair>)
    requires UniqueIds(rows) && Interchangeable(rows) && IsMatching(others, rows)
    ensures |others| <= |Pairing(rows)|
  {
    hide Pairing, Interchangeable;
    PairingIsMaximalMatching(rows);
    MaximalIsMaximum(rows, Pairing(rows), others);
  }

  // ----- exactly when the choice does not matter -----

  /** A pairing that respects the rules and leaves no possible pair over. */
  predicate IsConsistent(pairs: seq<Pair>, rows: seq<Txn>) {
    IsMatching(pairs, rows) && IsMaximal(pairs, rows)
  }

  ghost predicate IsPartOf(part: seq<Txn>, rows: seq<Txn>) {
    UniqueIds(part) && forall t | t in part :: t in rows
  }

  /** On every part of the rows, all consistent pairings have as many pairs. */
  ghost predicate CountsAgree(rows: seq<Txn>) {
    forall part, a, b | IsPartOf(part, rows) && IsConsistent(a, part) && IsConsistent(b, part) :: |a| == |b|
  }

  /** On every part of the rows, all consistent pairings net out the same total. */
  ghost predicate TotalsAgree(rows: seq<Txn>) {
    forall part, a, b | IsPartOf(part, rows) && IsConsistent(a, part) && IsConsistent(b, part) :: Netted(a) == Netted(b)
  }

  lemma PartIsInterchangeable(part: seq<Txn>, rows: seq<Txn>)
    requires IsPartOf(part, rows) && Interchangeable(rows)
    ensures Interchangeable(part)
  {
    hide Compatible, UniqueIds;
    forall d, d' | d in part && d' in part ensures Alike(d, d', part) {
      assert Alike(d, d', rows);
    }
  }

  /**
   * Two debits and two credits of which only one debit and one credit do not go together
   * can be paired off once or twice.
   */
  lemma FourRowsDisagree(rows: seq<Txn>, d: Txn, d': Txn, c: Txn, c': Txn)
    requires UniqueIds(rows) && d in rows && d' in rows && c in rows && c' in rows
    requires Compatible(d, c) && Compatible(d, c') && Compatible(d', c) && !Compatible(d', c')
    ensures var part := [d, d', c, c'];
      && IsPartOf(part, rows)
      && IsConsistent([Pair(d, c)], part) && IsConsistent([Pair(d, c'), Pair(d', c)], part)
      && Netted([Pair(d, c)]) == d.amount && Netted([Pair(d, c'), Pair(d', c)]) == 2 * d.amount
  {
    FourRowsArePart(rows, d, d', c, c');
    OneMovement(d, d', c, c');
    TwoMovements(d, d', c, c');
  }

  lemma FourRowsArePart(rows: seq<Txn>, d: Txn, d': Txn, c: Txn, c': Txn)
    requires UniqueIds(rows) && d in rows && d' in rows && c in rows && c' in rows
    requires d.kind == Debit && d'.kind == Debit && c.kind == Credit && c'.kind == Credit && d != d' && c != c'
    ensures IsPartOf([d, d', c, c'], rows)
  {
    hide UniqueIds;
    IdsTellApart(rows, d, d');
    IdsTellApart(rows, d, c);
    IdsTellApart(rows, d, c');
    IdsTellApart(rows, d', c);
    IdsTellApart(rows, d', c');
    IdsTellApart(rows, c, c');
    FourIds(d, d', c, c');
  }

  lemma FourIds(a: Txn, b: Txn, c: Txn, d: Txn)
    requires a.id != b.id && a.id != c.id && a.id != d.id && b.id != c.id && b.id != d.id && c.id != d.id
    ensures UniqueIds([a, b, c, d])
  {}

  lemma OneMovement(d: Txn, d': Txn, c: Txn, c': Txn)
    requires Compatible(d, c) && !Compatible(d', c')
    requires d.kind == Debit && d'.kind == Debit && c.kind == Credit && c'.kind == Credit
    ensures IsConsistent([Pair(d, c)], [d, d', c, c']) && Netted([Pair(d, c)]) == d.amount
  {
    hide Compatible, DebitIds, CreditIds, Netted;
    var part, one := [d, d', c, c'], [Pair(d, c)];
    NettedOfOne(one[0]);
    Members(d, d', c, c');
    assert one[0].debit.id in DebitIds(one) && one[0].credit.id in CreditIds(one);
    forall x, y | x in part && y in part && Compatible(x, y) ensures x.id in DebitIds(one) || y.id in CreditIds(one) {
      LegKinds(x, y);
      WhichLeg(x, d, d', c, c');
      WhichLeg(y, d, d', c, c');
    }
  }

  lemma TwoMovements(d: Txn, d': Txn, c: Txn, c': Txn)
    requires Compatible(d, c') && Compatible(d', c) && d.amount == d'.amount && d.id != d'.id && c.id != c'.id
    requires d.kind == Debit && d'.kind == Debit && c.kind == Credit && c'.kind == Credit
    ensures var two := [Pair(d, c'), Pair(d', c)];
      IsConsistent(two, [d, d', c, c']) && Netted(two) == 2 * d.amount
  {
    hide Compatible, DebitIds, CreditIds, Netted, IsMatching;
    var part, two := [d, d', c, c'], [Pair(d, c'), Pair(d', c)];
    NettedOfTwo(two[0], two[1]);
    Members(d, d', c, c');
    TwoMatch(two[0], two[1], part);
    assert two[0].debit.id in DebitIds(two) && two[1].debit.id in DebitIds(two);
    forall x, y | x in part && y in part && Compatible(x, y) ensures x.id in DebitIds(two) || y.id in CreditIds(two) {
      LegKinds(x, y);
      WhichLeg(x, d, d', c, c');
    }
  }

  lemma TwoMatch(p: Pair, q: Pair, rows: seq<Txn>)
    requires p.debit in rows && p.credit in rows && q.debit in rows && q.credit in rows
    requires Compatible(p.debit, p.credit) && Compatible(q.debit, q.credit)
    requires p.debit.id != q.debit.id && p.credit.id != q.credit.id
    ensures IsMatching([p, q], rows)
  {
    hide Compatible;
  }

  lemma Members(d: Txn, d': Txn, c: Txn, c': Txn)
    ensures var part := [d, d', c, c']; d in part && d' in part && c in part && c' in part
  {
    var part := [d, d', c, c'];
    assert part[0] == d && part[1] == d' && part[2] == c && part[3] == c';
  }

  lemma WhichLeg(x: Txn, d: Txn, d': Txn, c: Txn, c': Txn)
    requires x in [d, d', c, c'] && d.kind == Debit && d'.kind == Debit && c.kind == Credit && c'.kind == Credit
    ensures x == (if x.kind == Debit then (if x == d then d else d') else if x == c then c else c')
  {}

  lemma LegKinds(d: Txn, c: Txn)
    requires Compatible(d, c)
    ensures d.kind == Debit && c.kind == Credit
  {}

  lemma NettedOfOne(p: Pair)
    ensures Netted([p]) == p.debit.amount
  {
    assert [p][..0] == [] && Netted([]) == 0;
  }

  lemma NettedOfTwo(p: Pair, q: Pair)
    ensures Netted([p, q]) == p.debit.amount + q.debit.amount
  {
    assert [p, q][..1] == [p];
    NettedOfOne(p);
  }

  /** All consistent pairings find as many transfers exactly when rows are interchangeable. */
  lemma CountsAgreeExactly(rows: seq<Txn>)
    requires UniqueIds(rows)
    ensures CountsAgree(rows) <==> Interchangeable(rows)
  {
    hide Compatible, UniqueIds, IsMatching, IsMaximal;
    if Interchangeable(rows) {
      forall part, a, b | IsPartOf(part, rows) && IsConsistent(a, part) && IsConsistent(b, part) ensures |a| == |b| {
        PartIsInterchangeable(part, rows);
        MaximalIsMaximum(part, a, b);
        MaximalIsMaximum(part, b, a);
      }
    } else {
      var d, d' :| d in rows && d' in rows && !Alike(d, d', rows);
      var c, c' :| c in rows && c' in rows
        && Compatible(d, c) && Compatible(d, c') && Compatible(d', c) && !Compatible(d', c');
      FourRowsDisagree(rows, d, d', c, c');
      assert |[Pair(d, c)]| != |[Pair(d, c'), Pair(d', c)]|;
    }
  }

  // ----- the same for totals -----

  /** The rows of one amount. */
  function AtAmount(rows: seq<Txn>, amount: int): (r: seq<Txn>)
    ensures forall t :: t in r <==> t in rows && t.amount == amount
  {
    if rows == [] then []
    else
      var last := rows[|rows| - 1];
      assert rows == rows[..|rows| - 1] + [last];
      AtAmount(rows[..|rows| - 1], amount) + (if last.amount == amount then [last] else [])
  }

  function PairsAt(pairs: seq<Pair>, amount: int): (r: seq<Pair>)
    ensures forall p :: p in r <==> p in pairs && p.debit.amount == amount
  {
    if pairs == [] then []
    else
      var last := pairs[|pairs| - 1];
      assert pairs == pairs[..|pairs| - 1] + [last];
      PairsAt(pairs[..|pairs| - 1], amount) + (if last.debit.amount == amount then [last] else [])
  }

  lemma {:induction false} AtAmountIsUnique(rows: seq<Txn>, amount: int)
    requires UniqueIds(rows)
    ensures UniqueIds(AtAmount(rows, amount))
  {
    if rows != [] {
      var init, last := rows[..|rows| - 1], rows[|rows| - 1];
      AtAmountIsUnique(init, amount);
      forall t | t in AtAmount(init, amount) ensures t.id != last.id {
        assert t in init;
      }
    }
  }

  lemma {:induction false} PairsAtMatch(pairs: seq<Pair>, rows: seq<Txn>, amount: int)
    requires IsMatching(pairs, rows)
    ensures IsMatching(PairsAt(pairs, amount), AtAmount(rows, amount))
  {
    if pairs != [] {
      var init, p := pairs[..|pairs| - 1], pairs[|pairs| - 1];
      PairsAtMatch(init, rows, amount);
      forall q | q in PairsAt(init, amount) ensures q.debit.id != p.debit.id && q.credit.id != p.credit.id {
        assert q in init;
      }
      if p.debit.amount == amount {
        AppendToMatching(PairsAt(init, amount), p, AtAmount(rows, amount));
      }
    }
  }

  lemma PairsAtAreMaximal(pairs: seq<Pair>, rows: seq<Txn>, amount: int)
    requires UniqueIds(rows) && IsMatching(pairs, rows) && IsMaximal(pairs, rows)
    ensures IsMaximal(PairsAt(pairs, amount), AtAmount(rows, amount))
  {
    hide UniqueIds, PairsAt, AtAmount, DebitIds, CreditIds;
    var some, part := PairsAt(pairs, amount), AtAmount(rows, amount);
    forall d, c | d in part && c in part && Compatible(d, c) ensures d.id in DebitIds(some) || c.id in CreditIds(some) {
      if d.id in DebitIds(pairs) {
        var j :| 0 <= j < |pairs| && pairs[j].debit.id == d.id;
        SameRow(rows, pairs[j].debit, d);
        assert pairs[j] in some;
      } else {
        var j :| 0 <= j < |pairs| && pairs[j].credit.id == c.id;
        SameRow(rows, pairs[j].credit, c);
        assert pairs[j] in some;
      }
    }
  }

  lemma CountsAtAmountAgree(rows: seq<Txn>, a: seq<Pair>, b: seq<Pair>, amount: int)
    requires UniqueIds(rows) && IsConsistent(a, rows) && IsConsistent(b, rows)
    requires Interchangeable(AtAmount(rows, amount))
    ensures |PairsAt(a, amount)| == |PairsAt(b, amount)|
  {
    hide UniqueIds, PairsAt, AtAmount, IsMatching, IsMaximal, Interchangeable;
    AtAmountIsUnique(rows, amount);
    PairsAtMatch(a, rows, amount);
    PairsAtMatch(b, rows, amount);
    PairsAtAreMaximal(a, rows, amount);
    PairsAtAreMaximal(b, rows, amount);
    MaximalIsMaximum(AtAmount(rows, amount), PairsAt(a, amount), PairsAt(b, amount));
    MaximalIsMaximum(AtAmount(rows, amount), PairsAt(b, amount), PairsAt(a, amount));
  }

  lemma {:induction false} NettedOfJoin(a: seq<Pair>, b: seq<Pair>)
    ensures Netted(a + b) == Netted(a) + Netted(b)
  {
    if b == [] {
      assert a + b == a;
    } else {
      assert (a + b)[..|a + b| - 1] == a + b[..|b| - 1];
      NettedOfJoin(a, b[..|b| - 1]);
    }
  }

  lemma {:induction false} PairsAtJoin(a: seq<Pair>, b: seq<Pair>, amount: int)
    ensures |PairsAt(a + b, amount)| == |PairsAt(a, amount)| + |PairsAt(b, amount)|
  {
    if b == [] {
      assert a + b == a;
    } else {
      assert (a + b)[..|a + b| - 1] == a + b[..|b| - 1];
      PairsAtJoin(a, b[..|b| - 1], amount);
    }
  }

  lemma {:induction false} NothingNetted(pairs: seq<Pair>)
    requires forall i | 0 <= i < |pairs| :: pairs[i].debit.amount == 0
    ensures Netted(pairs) == 0
  {
    if pairs != [] {
      NothingNetted(pairs[..|pairs| - 1]);
    }
  }

  /** Taking one pair out takes it out of the total and out of the count of its amount. */
  lemma TakePairOut(pairs: seq<Pair>, i: nat)
    requires i < |pairs|
    ensures var rest := pairs[..i] + pairs[i + 1..];
      && Netted(pairs) == Netted(rest) + pairs[i].debit.amount
      && forall amount: int :: |PairsAt(pairs, amount)|
           == |PairsAt(rest, amount)| + (if pairs[i].debit.amount == amount then 1 else 0)
  {
    hide Netted;
    var front, p, back := pairs[..i], pairs[i], pairs[i + 1..];
    assert pairs == front + ([p] + back);
    NettedOfOne(p);
    NettedOfJoin(front, [p] + back);
    NettedOfJoin([p], back);
    NettedOfJoin(front, back);
    forall amount: int
      ensures |PairsAt(pairs, amount)| == |PairsAt(front + back, amount)| + (if p.debit.amount == amount then 1 else 0)
    {
      PairsAtJoin(front, [p] + back, amount);
      PairsAtJoin([p], back, amount);
      PairsAtJoin(front, back, amount);
      assert [p][..0] == [];
    }
  }

  /** As many pairs of every amount that counts, so the same total. */
  lemma {:induction false} SameCountsSameTotal(a: seq<Pair>, b: seq<Pair>)
    requires forall amount: int | amount != 0 :: |PairsAt(a, amount)| == |PairsAt(b, amount)|
    ensures Netted(a) == Netted(b)
    decreases |a|
  {
    hide Netted, PairsAt;
    if a == [] {
      NoPairsAt();
      forall i | 0 <= i < |b| ensures b[i].debit.amount == 0 {
        assert b[i] in PairsAt(b, b[i].debit.amount);
      }
      NothingNetted(a);
      NothingNetted(b);
    } else {
      var k := |a| - 1;
      var amount := a[k].debit.amount;
      TakePairOut(a, k);
      assert a[..k] + a[k + 1..] == a[..k];
      if amount == 0 {
        SameCountsSameTotal(a[..k], b);
      } else {
        assert a[k] in PairsAt(a, amount);
        assert |PairsAt(b, amount)| > 0 && PairsAt(b, amount)[0] in b;
        var i :| 0 <= i < |b| && b[i].debit.amount == amount;
        TakePairOut(b, i);
        SameCountsSameTotal(a[..k], b[..i] + b[i + 1..]);
      }
    }
  }

  lemma NoPairsAt()
    ensures forall amount: int :: PairsAt([], amount) == []
  {}

  /** All consistent pairings net out the same exactly when rows of each amount are interchangeable. */
  lemma TotalsAgreeExactly(rows: seq<Txn>)
    requires UniqueIds(rows)
    ensures TotalsAgree(rows) <==> forall amount: int | amount != 0 :: Interchangeable(AtAmount(rows, amount))
  {
    hide Compatible, UniqueIds, IsMatching, IsMaximal, AtAmount, PairsAt, Netted;
    if forall amount: int | amount != 0 :: Interchangeable(AtAmount(rows, amount)) {
      forall part, a, b | IsPartOf(part, rows) && IsConsistent(a, part) && IsConsistent(b, part)
        ensures Netted(a) == Netted(b)
      {
        forall amount: int | amount != 0 ensures |PairsAt(a, amount)| == |PairsAt(b, amount)| {
          assert Interchangeable(AtAmount(rows, amount));
          PartAtAmount(part, rows, amount);
          CountsAtAmountAgree(part, a, b, amount);
        }
        SameCountsSameTotal(a, b);
      }
    } else {
      var amount: int :| amount != 0 && !Interchangeable(AtAmount(rows, amount));
      TotalsDisagree(rows, amount);
    }
  }

  lemma PartAtAmount(part: seq<Txn>, rows: seq<Txn>, amount: int)
    requires IsPartOf(part, rows) && Interchangeable(AtAmount(rows, amount))
    ensures Interchangeable(AtAmount(part, amount))
  {
    hide UniqueIds, AtAmount, Compatible;
    AtAmountIsUnique(part, amount);
    PartIsInterchangeable(AtAmount(part, amount), AtAmount(rows, amount));
  }

  lemma TotalsDisagree(rows: seq<Txn>, amount: int)
    requires UniqueIds(rows) && amount != 0 && !Interchangeable(AtAmount(rows, amount))
    ensures !TotalsAgree(rows)
  {
    hide Compatible, UniqueIds, IsMatching, IsMaximal, AtAmount, Netted;
    var some := AtAmount(rows, amount);
    var d, d' :| d in some && d' in some && !Alike(d, d', some);
    var c, c' :| c in some && c' in some
      && Compatible(d, c) && Compatible(d, c') && Compatible(d', c) && !Compatible(d', c');
    FourRowsDisagree(rows, d, d', c, c');
    assert Netted([Pair(d, c)]) != Netted([Pair(d, c'), Pair(d', c)]);
  }
}
