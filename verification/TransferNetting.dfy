/**
 * Taking transfers out of income and spending: which rows are marked once the user's own
 * decisions are applied, which pairs are kept, and what that does to the totals.
 */
module TransferNetting {
  import opened TransferPairing

  datatype Flag = IsTransfer | NotTransfer | Unknown

  /** Ids of the legs of the pairs. */
  function LegIds(pairs: seq<Pair>): set<Id> {
    if pairs == [] then {}
    else LegIds(pairs[..|pairs| - 1]) + {pairs[|pairs| - 1].debit.id, pairs[|pairs| - 1].credit.id}
  }

  function FlaggedAs(flags: map<Id, Flag>, flag: Flag): set<Id> {
    set id | id in flags && flags[id] == flag
  }

  /** The marked ids: both legs of every pair, with the user's decisions applied last. */
  function TransferIds(pairs: seq<Pair>, flags: map<Id, Flag>): set<Id> {
    (LegIds(pairs) + FlaggedAs(flags, IsTransfer)) - FlaggedAs(flags, NotTransfer)
  }

  predicate IsKept(p: Pair, flags: map<Id, Flag>) {
    && !(p.debit.id in flags && flags[p.debit.id] == NotTransfer)
    && !(p.credit.id in flags && flags[p.credit.id] == NotTransfer)
  }

  /** The pairs still shown as netted out. */
  function Kept(pairs: seq<Pair>, flags: map<Id, Flag>): (r: seq<Pair>)
    ensures forall p :: p in r <==> p in pairs && IsKept(p, flags)
  {
    if pairs == [] then []
    else
      assert pairs == pairs[..|pairs| - 1] + [pairs[|pairs| - 1]];
      Kept(pairs[..|pairs| - 1], flags) + (if IsKept(pairs[|pairs| - 1], flags) then [pairs[|pairs| - 1]] else [])
  }

  /** The user's decisions, one flag after the other. */
  method ApplyFlags(ids0: set<Id>, flags: map<Id, Flag>) returns (ids: set<Id>)
    ensures ids == (ids0 + FlaggedAs(flags, IsTransfer)) - FlaggedAs(flags, NotTransfer)
  {
    ids := ids0;
    var pending := flags.Keys;
    while pending != {}
      invariant pending <= flags.Keys
      invariant forall id | id !in flags || id in pending :: id in ids <==> id in ids0
      invariant forall id | id in flags && id !in pending ::
        id in ids <==> flags[id] == IsTransfer || (flags[id] == Unknown && id in ids0)
      decreases |pending|
    {
      var id :| id in pending;
      match flags[id] {
        case IsTransfer => ids := ids + {id};
        case NotTransfer => ids := ids - {id};
        case Unknown =>
      }
      pending := pending - {id};
    }
  }

  /** Marks the rows and reports the pairs kept. */
  method MarkTransfers(rows: seq<Txn>, pairs: seq<Pair>, flags: map<Id, Flag>)
    returns (marked: seq<bool>, kept: seq<Pair>)
    ensures |marked| == |rows| && forall i | 0 <= i < |rows| :: marked[i] <==> rows[i].id in TransferIds(pairs, flags)
    ensures kept == Kept(pairs, flags)
  {
    hide LegIds, Kept, FlaggedAs;
    var ids: set<Id> := {};
    assert pairs[..0] == [];
    NoLegs();
    for i := 0 to |pairs|
      invariant ids == LegIds(pairs[..i])
    {
      assert pairs[..i + 1] == pairs[..i] + [pairs[i]];
      LegsAppend(pairs[..i], pairs[i]);
      ids := ids + {pairs[i].debit.id, pairs[i].credit.id};
    }
    assert pairs[..|pairs|] == pairs;
    ids := ApplyFlags(ids, flags);
    marked := seq(|rows|, i requires 0 <= i < |rows| => rows[i].id in ids);
    kept := Kept(pairs, flags);
  }

  lemma NoLegs()
    ensures LegIds([]) == {}
  {}

  lemma LegsAppend(pairs: seq<Pair>, p: Pair)
    ensures LegIds(pairs + [p]) == LegIds(pairs) + {p.debit.id, p.credit.id}
  {
    assert (pairs + [p])[..|pairs|] == pairs;
  }

  predicate IsLeg(p: Pair, id: Id) {
    p.debit.id == id || p.credit.id == id
  }

  lemma {:induction false} LegsAreLegs(pairs: seq<Pair>)
    ensures forall id :: id in LegIds(pairs) <==> exists p | p in pairs :: IsLeg(p, id)
  {
    if pairs != [] {
      var init, last := pairs[..|pairs| - 1], pairs[|pairs| - 1];
      assert pairs == init + [last];
      LegsAreLegs(init);
      forall id ensures id in LegIds(pairs) <==> exists p | p in pairs :: IsLeg(p, id) {
        if id in LegIds(init) {
          var p :| p in init && IsLeg(p, id);
          assert p in pairs;
        } else if IsLeg(last, id) {
          assert last in pairs;
        }
      }
    }
  }

  /**
   * A row is marked exactly when the user says it is a transfer, or when it is a leg of a
   * pair and the user does not say that it is none. A pair is shown unless the user says so
   * of one of its legs.
   */
  lemma MarksInPlainTerms(pairs: seq<Pair>, flags: map<Id, Flag>, id: Id)
    ensures id in TransferIds(pairs, flags) <==>
      if id in flags && flags[id] != Unknown then flags[id] == IsTransfer
      else exists p | p in pairs :: p.debit.id == id || p.credit.id == id
    ensures forall p :: p in Kept(pairs, flags) <==>
      p in pairs && forall leg | leg in [p.debit.id, p.credit.id] && leg in flags :: flags[leg] != NotTransfer
  {
    hide LegIds, Kept;
    LegsAreLegs(pairs);
    assert (exists p | p in pairs :: p.debit.id == id || p.credit.id == id) <==> exists p | p in pairs :: IsLeg(p, id);
  }

  // ----- totals -----

  /** Amount of the rows of one kind whose id is in `ids`. */
  function SumOf(rows: seq<Txn>, kind: Kind, ids: set<Id>): int {
    if rows == [] then 0
    else
      var t := rows[|rows| - 1];
      SumOf(rows[..|rows| - 1], kind, ids) + (if t.kind == kind && t.id in ids then t.amount else 0)
  }

  /** Amount of the rows of one kind whose id is not in `ids`: the real flow. */
  function SumOutside(rows: seq<Txn>, kind: Kind, ids: set<Id>): int {
    if rows == [] then 0
    else
      var t := rows[|rows| - 1];
      SumOutside(rows[..|rows| - 1], kind, ids) + (if t.kind == kind && t.id !in ids then t.amount else 0)
  }

  function Netted(pairs: seq<Pair>): int {
    if pairs == [] then 0 else Netted(pairs[..|pairs| - 1]) + pairs[|pairs| - 1].debit.amount
  }

  lemma {:induction false} SumsSplit(rows: seq<Txn>, kind: Kind, ids: set<Id>)
    ensures SumOutside(rows, kind, {}) == SumOf(rows, kind, ids) + SumOutside(rows, kind, ids)
  {
    if rows != [] {
      SumsSplit(rows[..|rows| - 1], kind, ids);
    }
  }

  lemma {:induction false} DisjointSums(rows: seq<Txn>, kind: Kind, a: set<Id>, b: set<Id>)
    requires a !! b
    ensures SumOf(rows, kind, a + b) == SumOf(rows, kind, a) + SumOf(rows, kind, b)
  {
    if rows != [] {
      DisjointSums(rows[..|rows| - 1], kind, a, b);
    }
  }

  lemma {:induction false} SumOfAbsent(rows: seq<Txn>, kind: Kind, id: Id)
    requires forall i | 0 <= i < |rows| :: rows[i].id != id
    ensures SumOf(rows, kind, {id}) == 0
  {
    if rows != [] {
      SumOfAbsent(rows[..|rows| - 1], kind, id);
    }
  }

  lemma {:induction false} SumOfOne(rows: seq<Txn>, kind: Kind, t: Txn)
    requires UniqueIds(rows) && t in rows
    ensures SumOf(rows, kind, {t.id}) == if t.kind == kind then t.amount else 0
  {
    hide UniqueIds;
    var init, last := rows[..|rows| - 1], rows[|rows| - 1];
    LastIsUnique(rows, t);
    if last == t {
      SumOfAbsent(init, kind, t.id);
    } else {
      SumOfOne(init, kind, t);
    }
  }

  lemma LastIsUnique(rows: seq<Txn>, t: Txn)
    requires UniqueIds(rows) && t in rows
    ensures var init, last := rows[..|rows| - 1], rows[|rows| - 1];
      && UniqueIds(init)
      && (last == t ==> forall i | 0 <= i < |init| :: init[i].id != t.id)
      && (last != t ==> last.id != t.id && t in init)
  {
    hide Compatible;
    var init, last := rows[..|rows| - 1], rows[|rows| - 1];
    assert rows == init + [last];
  }

  /** Both legs of a matching weigh the same: its total. */
  lemma {:induction false} LegsBalance(pairs: seq<Pair>, rows: seq<Txn>)
    requires UniqueIds(rows) && IsMatching(pairs, rows)
    ensures SumOf(rows, Credit, LegIds(pairs)) == Netted(pairs) && SumOf(rows, Debit, LegIds(pairs)) == Netted(pairs)
  {
    hide LegIds, SumOf, UniqueIds, Compatible;
    if pairs == [] {
      NoLegs();
      NothingSummed(rows, Credit);
      NothingSummed(rows, Debit);
    } else {
      var init, p := pairs[..|pairs| - 1], pairs[|pairs| - 1];
      assert pairs == init + [p];
      LegsBalance(init, rows);
      LegsAppend(init, p);
      LegIsNew(pairs, rows, p.debit);
      LegIsNew(pairs, rows, p.credit);
      AddPair(rows, LegIds(init), p);
    }
  }

  lemma AddPair(rows: seq<Txn>, legs: set<Id>, p: Pair)
    requires UniqueIds(rows) && p.debit in rows && p.credit in rows && Compatible(p.debit, p.credit)
    requires p.debit.id !in legs && p.credit.id !in legs
    ensures forall k: Kind ::
      SumOf(rows, k, legs + {p.debit.id, p.credit.id})
      == SumOf(rows, k, legs) + (if k == Other then 0 else p.debit.amount)
  {
    hide SumOf, UniqueIds;
    SameRow(rows, p.debit, p.credit);
    assert legs + {p.debit.id, p.credit.id} == (legs + {p.debit.id}) + {p.credit.id};
    AddLeg(rows, legs, p.debit);
    AddLeg(rows, legs + {p.debit.id}, p.credit);
  }

  lemma {:induction false} NothingSummed(rows: seq<Txn>, kind: Kind)
    ensures SumOf(rows, kind, {}) == 0
  {
    if rows != [] {
      NothingSummed(rows[..|rows| - 1], kind);
    }
  }

  lemma AddLeg(rows: seq<Txn>, ids: set<Id>, t: Txn)
    requires UniqueIds(rows) && t in rows && t.id !in ids
    ensures forall k: Kind ::
      SumOf(rows, k, ids + {t.id}) == SumOf(rows, k, ids) + (if t.kind == k then t.amount else 0)
  {
    hide SumOf;
    forall k: Kind ensures SumOf(rows, k, ids + {t.id}) == SumOf(rows, k, ids) + (if t.kind == k then t.amount else 0) {
      DisjointSums(rows, k, ids, {t.id});
      SumOfOne(rows, k, t);
    }
  }

  /** A leg of the last pair is no leg of the earlier ones. */
  lemma LegIsNew(pairs: seq<Pair>, rows: seq<Txn>, t: Txn)
    requires UniqueIds(rows) && pairs != [] && IsMatching(pairs, rows)
    requires var p := pairs[|pairs| - 1]; t == p.debit || t == p.credit
    ensures t.id !in LegIds(pairs[..|pairs| - 1])
  {
    hide LegIds, UniqueIds;
    var init := pairs[..|pairs| - 1];
    LegsAreLegs(init);
    forall q | q in init ensures !IsLeg(q, t.id) {
      var i :| 0 <= i < |init| && init[i] == q;
      assert pairs[i] == q;
      SameRow(rows, q.debit, t);
      SameRow(rows, q.credit, t);
    }
  }

  /** Marked rows that are a leg of no kept pair: forced transfers, and legs whose partner was released. */
  function StrayIds(pairs: seq<Pair>, flags: map<Id, Flag>): set<Id> {
    TransferIds(pairs, flags) - LegIds(Kept(pairs, flags))
  }

  lemma {:induction false} KeptIsMatching(pairs: seq<Pair>, rows: seq<Txn>, flags: map<Id, Flag>)
    requires IsMatching(pairs, rows)
    ensures IsMatching(Kept(pairs, flags), rows)
  {
    if pairs != [] {
      var init, p := pairs[..|pairs| - 1], pairs[|pairs| - 1];
      KeptIsMatching(init, rows, flags);
      forall q | q in Kept(init, flags) ensures q.debit.id != p.debit.id && q.credit.id != p.credit.id {
        assert q in init;
      }
      AppendToMatching(Kept(init, flags), p, rows);
    }
  }

  lemma AppendToMatching(pairs: seq<Pair>, p: Pair, rows: seq<Txn>)
    requires IsMatching(pairs, rows) && p.debit in rows && p.credit in rows && Compatible(p.debit, p.credit)
    requires forall q | q in pairs :: q.debit.id != p.debit.id && q.credit.id != p.credit.id
    ensures IsMatching(pairs + [p], rows)
  {
    hide Compatible;
    assert forall i | 0 <= i < |pairs| :: pairs[i] in pairs;
  }

  lemma KeptLegsAreMarked(pairs: seq<Pair>, flags: map<Id, Flag>)
    ensures LegIds(Kept(pairs, flags)) <= TransferIds(pairs, flags)
  {
    hide LegIds, Kept;
    var kept := Kept(pairs, flags);
    LegsAreLegs(kept);
    LegsAreLegs(pairs);
    forall id | id in LegIds(kept) ensures id in TransferIds(pairs, flags) {
      var p :| p in kept && IsLeg(p, id);
      assert p in pairs && IsKept(p, flags);
    }
  }

  /**
   * For every set of flags: income and spending each drop by the kept pairs' total plus the
   * stray rows of their side. So the net flow is conserved exactly when the stray credits
   * and the stray debits come to the same.
   */
  lemma NettingIdentity(rows: seq<Txn>, pairs: seq<Pair>, flags: map<Id, Flag>)
    requires UniqueIds(rows) && IsMatching(pairs, rows)
    ensures var ids, stray := TransferIds(pairs, flags), StrayIds(pairs, flags);
      && SumOutside(rows, Credit, {}) - SumOutside(rows, Credit, ids)
         == Netted(Kept(pairs, flags)) + SumOf(rows, Credit, stray)
      && SumOutside(rows, Debit, {}) - SumOutside(rows, Debit, ids)
         == Netted(Kept(pairs, flags)) + SumOf(rows, Debit, stray)
      && (SumOutside(rows, Credit, ids) - SumOutside(rows, Debit, ids)
          == SumOutside(rows, Credit, {}) - SumOutside(rows, Debit, {})
          <==> SumOf(rows, Credit, stray) == SumOf(rows, Debit, stray))
  {
    hide SumOf, SumOutside, Netted, Kept, LegIds, TransferIds;
    var kept := Kept(pairs, flags);
    var ids, legs, stray := TransferIds(pairs, flags), LegIds(kept), StrayIds(pairs, flags);
    KeptIsMatching(pairs, rows, flags);
    LegsBalance(kept, rows);
    KeptLegsAreMarked(pairs, flags);
    assert ids == legs + stray && legs !! stray;
    SumsSplit(rows, Credit, ids);
    SumsSplit(rows, Debit, ids);
    DisjointSums(rows, Credit, legs, stray);
    DisjointSums(rows, Debit, legs, stray);
  }

  /** The user's decisions cover both legs of a pair or neither, and force nothing outside the pairs. */
  ghost predicate WholePairsOnly(pairs: seq<Pair>, flags: map<Id, Flag>) {
    && (forall p | p in pairs ::
          p.debit.id in FlaggedAs(flags, NotTransfer) <==> p.credit.id in FlaggedAs(flags, NotTransfer))
    && FlaggedAs(flags, IsTransfer) <= LegIds(pairs)
  }

  lemma NoStrays(rows: seq<Txn>, pairs: seq<Pair>, flags: map<Id, Flag>)
    requires WholePairsOnly(pairs, flags)
    ensures StrayIds(pairs, flags) == {}
  {
    hide LegIds, Kept;
    var kept := Kept(pairs, flags);
    LegsAreLegs(kept);
    LegsAreLegs(pairs);
    forall id | id in TransferIds(pairs, flags) ensures id in LegIds(kept) {
      assert id in LegIds(pairs);
      var p :| p in pairs && IsLeg(p, id);
      assert IsKept(p, flags);
      assert p in kept;
    }
  }

  /**
   * With decisions on whole pairs only, netting conserves the net flow, and income and
   * spending both drop by exactly the total of the kept pairs.
   */
  lemma NettingConservesNetFlow(rows: seq<Txn>, flags: map<Id, Flag>)
    requires UniqueIds(rows) && WholePairsOnly(Pairing(rows), flags)
    ensures var pairs := Pairing(rows); var ids := TransferIds(pairs, flags);
      && SumOutside(rows, Credit, {}) - SumOutside(rows, Credit, ids) == Netted(Kept(pairs, flags))
      && SumOutside(rows, Debit, {}) - SumOutside(rows, Debit, ids) == Netted(Kept(pairs, flags))
      && SumOutside(rows, Credit, ids) - SumOutside(rows, Debit, ids)
         == SumOutside(rows, Credit, {}) - SumOutside(rows, Debit, {})
  {
    hide Pairing, SumOf, SumOutside, Netted, Kept;
    var pairs := Pairing(rows);
    PairingIsMaximalMatching(rows);
    NettingIdentity(rows, pairs, flags);
    NoStrays(rows, pairs, flags);
    NothingSummed(rows, Credit);
    NothingSummed(rows, Debit);
  }
}
