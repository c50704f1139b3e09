/**
 * Booking long-term gains inside the yearly exemption, smallest gain first, with at most
 * one partial booking at the end.
 */
module GainHarvest {
  import opened Sorting

  const MIN_HOLDING_DAYS := 365
  const MIN_PARTIAL := 1000.0

  datatype Holding = Holding(fund: string, gain: real, days: int)

  datatype Action = Full | Partial

  datatype Booking = Booking(fund: string, gain: real, action: Action)

  predicate Eligible(h: Holding) {
    h.days >= MIN_HOLDING_DAYS && h.gain > 0.0
  }

  function EligibleOf(hs: seq<Holding>): (r: seq<Holding>)
    ensures forall i | 0 <= i < |r| :: Eligible(r[i])
    ensures multiset(r) <= multiset(hs)
  {
    if hs == [] then []
    else
      assert hs == hs[..|hs| - 1] + [hs[|hs| - 1]];
      EligibleOf(hs[..|hs| - 1]) + (if Eligible(hs[|hs| - 1]) then [hs[|hs| - 1]] else [])
  }

  lemma OneMoreOccurrence(hs: seq<Holding>, last: Holding, h: Holding)
    ensures multiset(hs + [last])[h] == multiset(hs)[h] + if h == last then 1 else 0
  {}

  /** Every holding held for 365 days or more with a gain is considered, as often as it is held; no other is. */
  lemma {:induction false} EligibleAreAll(hs: seq<Holding>, h: Holding)
    ensures multiset(EligibleOf(hs))[h] == if h.days >= 365 && h.gain > 0.0 then multiset(hs)[h] else 0
  {
    if hs != [] {
      var init, last := hs[..|hs| - 1], hs[|hs| - 1];
      EligibleAreAll(init, h);
      assert hs == init + [last];
      OneMoreOccurrence(init, last, h);
      OneMoreOccurrence(EligibleOf(init), last, h);
      assert EligibleOf(init) + [] == EligibleOf(init);
    }
  }

  predicate NoMore(a: Holding, b: Holding) {
    a.gain <= b.gain
  }

  /** Stable sort by gain, smallest first. */
  function ByGain(hs: seq<Holding>): seq<Holding> {
    Sort(hs, NoMore)
  }

  predicate Ascending(hs: seq<Holding>) {
    forall i, j | 0 <= i < j < |hs| :: hs[i].gain <= hs[j].gain
  }

  lemma SortingSorts(hs: seq<Holding>)
    ensures Ascending(ByGain(hs)) && multiset(ByGain(hs)) == multiset(hs)
  {
    hide Sort;
    assert IsOrder(NoMore);
    SortSorts(hs, NoMore);
    var s := ByGain(hs);
    forall i, j | 0 <= i < j < |s| ensures s[i].gain <= s[j].gain {
      assert NoMore(s[i], s[j]);
    }
  }

  /** The `k` smallest gains together. */
  function Prefix(hs: seq<Holding>, k: nat): real
    requires k <= |hs|
  {
    if k == 0 then 0.0 else Prefix(hs, k - 1) + hs[k - 1].gain
  }

  function Booked(bs: seq<Booking>): real {
    if bs == [] then 0.0 else Booked(bs[..|bs| - 1]) + bs[|bs| - 1].gain
  }

  /** The harvesting loop. */
  method Harvest(holdings: seq<Holding>, exemption: real) returns (bookings: seq<Booking>, cumulative: real, full: nat)
    ensures var hs := ByGain(EligibleOf(holdings));
      && full <= |hs| && cumulative == Prefix(hs, full)
      && (full > 0 ==> cumulative <= exemption)
      && (full < |hs| ==> Prefix(hs, full + 1) > exemption)
      && full <= |bookings| <= full + 1
      && (forall i | 0 <= i < full :: bookings[i] == Booking(hs[i].fund, hs[i].gain, Full))
      && (|bookings| == full + 1 <==> full < |hs| && exemption - cumulative > MIN_PARTIAL)
      && (|bookings| == full + 1 ==> bookings[full] == Booking(hs[full].fund, exemption - cumulative, Partial))
  {
    hide ByGain, EligibleOf;
    var hs := ByGain(EligibleOf(holdings));
    bookings, cumulative, full := [], 0.0, 0;
    while full < |hs|
      invariant 0 <= full <= |hs| && |bookings| == full
      invariant cumulative == Prefix(hs, full) && (full > 0 ==> cumulative <= exemption)
      invariant forall i | 0 <= i < full :: bookings[i] == Booking(hs[i].fund, hs[i].gain, Full)
    {
      var gain := hs[full].gain;
      if cumulative + gain <= exemption {
        bookings := bookings + [Booking(hs[full].fund, gain, Full)];
        cumulative := cumulative + gain;
        full := full + 1;
      } else {
        var partial := exemption - cumulative;
        if partial > MIN_PARTIAL {
          bookings := bookings + [Booking(hs[full].fund, partial, Partial)];
        }
        break;
      }
    }
  }

  lemma {:induction false} BookedIsPrefix(bs: seq<Booking>, hs: seq<Holding>, full: nat)
    requires full <= |hs| && full <= |bs| && forall i | 0 <= i < full :: bs[i].gain == hs[i].gain
    ensures Booked(bs[..full]) == Prefix(hs, full)
  {
    if full > 0 {
      BookedIsPrefix(bs, hs, full - 1);
      assert bs[..full][..full - 1] == bs[..full - 1];
    } else {
      assert bs[..0] == [];
    }
  }

  /** The gains booked, partial booking included, never come to more than the exemption. */
  lemma NeverOverTheExemption(bs: seq<Booking>, hs: seq<Holding>, full: nat, exemption: real)
    requires full <= |hs| && full <= |bs| <= full + 1
    requires forall i | 0 <= i < full :: bs[i].gain == hs[i].gain
    requires full > 0 ==> Prefix(hs, full) <= exemption
    requires |bs| == full + 1 ==> bs[full].gain == exemption - Prefix(hs, full)
    ensures Booked(bs) <= exemption || bs == []
  {
    BookedIsPrefix(bs, hs, full);
    assert bs[..|bs|] == bs;
  }

  /** With funds left over, at most the smallest partial amount of the exemption stays unused. */
  lemma LittleIsLeft(bs: seq<Booking>, hs: seq<Holding>, full: nat, exemption: real)
    requires full <= |hs| && full <= |bs| <= full + 1
    requires forall i | 0 <= i < full :: bs[i].gain == hs[i].gain
    requires |bs| == full + 1 <==> full < |hs| && exemption - Prefix(hs, full) > MIN_PARTIAL
    requires |bs| == full + 1 ==> bs[full].gain == exemption - Prefix(hs, full)
    ensures full < |hs| ==> exemption - Booked(bs) <= 1000.0
    ensures full < |hs| && exemption - Prefix(hs, full) > MIN_PARTIAL ==> Booked(bs) == exemption
  {
    hide Prefix;
    BookedIsPrefix(bs, hs, full);
    assert bs[..|bs|] == bs;
  }

  /** Which of the sorted holdings some other plan books in full. */
  function Chosen(pick: seq<bool>): nat {
    if pick == [] then 0 else Chosen(pick[..|pick| - 1]) + (if pick[|pick| - 1] then 1 else 0)
  }

  function PlanGain(hs: seq<Holding>, pick: seq<bool>): real
    requires |hs| == |pick|
  {
    if hs == [] then 0.0
    else
      PlanGain(hs[..|hs| - 1], pick[..|pick| - 1]) + (if pick[|pick| - 1] then hs[|hs| - 1].gain else 0.0)
  }

  /** Any `k` holdings gain at least what the `k` smallest do. */
  lemma {:induction false} SmallestAreCheapest(hs: seq<Holding>, pick: seq<bool>)
    requires |hs| == |pick| && Ascending(hs)
    ensures Chosen(pick) <= |hs| && Prefix(hs, Chosen(pick)) <= PlanGain(hs, pick)
  {
    if hs != [] {
      var n := |hs| - 1;
      SmallestAreCheapest(hs[..n], pick[..n]);
      var k := Chosen(pick[..n]);
      PrefixOfPrefix(hs, n, k);
      if pick[n] {
        assert Prefix(hs, k + 1) == Prefix(hs, k) + hs[k].gain;
        assert hs[k].gain <= hs[n].gain;
      }
    }
  }

  lemma {:induction false} PrefixOfPrefix(hs: seq<Holding>, n: nat, k: nat)
    requires k <= n <= |hs|
    ensures Prefix(hs[..n], k) == Prefix(hs, k)
  {
    if k > 0 {
      PrefixOfPrefix(hs, n, k - 1);
    }
  }

  lemma {:induction false} PrefixGrows(hs: seq<Holding>, a: nat, b: nat)
    requires a <= b <= |hs| && forall i | 0 <= i < |hs| :: hs[i].gain > 0.0
    ensures Prefix(hs, a) <= Prefix(hs, b)
    decreases b
  {
    if a < b {
      PrefixGrows(hs, a, b - 1);
    }
  }

  /**
   * Smallest first is optimal: a plan that books some of the eligible funds in full, within
   * the exemption, books no more funds than the harvest does.
   */
  lemma NoPlanHarvestsMore(hs: seq<Holding>, full: nat, exemption: real, pick: seq<bool>)
    requires Ascending(hs) && forall i | 0 <= i < |hs| :: hs[i].gain > 0.0
    requires full <= |hs| && (full < |hs| ==> Prefix(hs, full + 1) > exemption)
    requires |pick| == |hs| && PlanGain(hs, pick) <= exemption
    ensures Chosen(pick) <= full
  {
    SmallestAreCheapest(hs, pick);
    if Chosen(pick) > full {
      PrefixGrows(hs, full + 1, Chosen(pick));
    }
  }

  // ----- plans over the holdings as they are given -----

  function Times(k: nat, t: real): real {
    k as real * t
  }

  /** By how much the holdings below the threshold fall short of it, together, as a negative amount. */
  function Shortfall(hs: seq<Holding>, t: real): real {
    if hs == [] then 0.0
    else
      var last := hs[|hs| - 1];
      Shortfall(hs[..|hs| - 1], t) + (if last.gain < t then last.gain - t else 0.0)
  }

  lemma ShortfallOfSnoc(hs: seq<Holding>, h: Holding, t: real)
    ensures Shortfall(hs + [h], t) == Shortfall(hs, t) + (if h.gain < t then h.gain - t else 0.0)
  {
    assert (hs + [h])[..|hs|] == hs;
  }

  lemma {:induction false} ShortfallOfInsert(hs: seq<Holding>, h: Holding, t: real)
    ensures Shortfall(Insert(hs, h, NoMore), t) == Shortfall(hs + [h], t)
    decreases |hs|
  {
    hide Shortfall, NoMore;
    if hs != [] && !NoMore(hs[|hs| - 1], h) {
      var init, last := hs[..|hs| - 1], hs[|hs| - 1];
      ShortfallOfInsert(init, h, t);
      ShortfallOfSnoc(Insert(init, h, NoMore), last, t);
      ShortfallOfSnoc(init, h, t);
      ShortfallOfSnoc(init, last, t);
      ShortfallOfSnoc(hs, h, t);
      assert hs == init + [last];
    }
  }

  lemma {:induction false} ShortfallOfSorted(hs: seq<Holding>, t: real)
    ensures Shortfall(ByGain(hs), t) == Shortfall(hs, t)
    decreases |hs|
  {
    hide Shortfall, Insert;
    if hs != [] {
      var init, last := hs[..|hs| - 1], hs[|hs| - 1];
      ShortfallOfSorted(init, t);
      ShortfallOfInsert(ByGain(init), last, t);
      ShortfallOfSnoc(ByGain(init), last, t);
      ShortfallOfSnoc(init, last, t);
      assert hs == init + [last];
    }
  }

  /** A plan over the holdings as given: it books in full only what has been held long enough with a gain. */
  predicate IsPlan(hs: seq<Holding>, pick: seq<bool>) {
    |pick| == |hs| && forall i | 0 <= i < |hs| && pick[i] :: hs[i].days >= 365 && hs[i].gain > 0.0
  }

  /** Any plan gains at least what its number comes to at the threshold, less the shortfall of all eligible. */
  lemma {:induction false} PlanCoversShortfall(hs: seq<Holding>, pick: seq<bool>, t: real)
    requires IsPlan(hs, pick)
    ensures PlanGain(hs, pick) >= Times(Chosen(pick), t) + Shortfall(EligibleOf(hs), t)
    ensures Chosen(pick) <= |EligibleOf(hs)|
  {
    hide EligibleOf, Shortfall, PlanGain, Chosen, Times;
    if hs == [] {
      NothingPlanned(pick, t);
      OneMore(0, t);
    } else {
      var n := |hs| - 1;
      PlanCoversShortfall(hs[..n], pick[..n], t);
      NextEligible(hs, t);
      NextPick(hs, pick);
      assert pick[n] ==> hs[n].days >= 365 && hs[n].gain > 0.0;
      OneMore(Chosen(pick[..n]), t);
    }
  }

  lemma NothingPlanned(pick: seq<bool>, t: real)
    requires pick == []
    ensures PlanGain([], pick) == 0.0 && Chosen(pick) == 0 && Shortfall(EligibleOf([]), t) == 0.0
  {}

  lemma NextEligible(hs: seq<Holding>, t: real)
    requires hs != []
    ensures var init, last := hs[..|hs| - 1], hs[|hs| - 1];
      if last.days >= 365 && last.gain > 0.0
      then |EligibleOf(hs)| == |EligibleOf(init)| + 1
           && Shortfall(EligibleOf(hs), t)
              == Shortfall(EligibleOf(init), t) + (if last.gain < t then last.gain - t else 0.0)
      else EligibleOf(hs) == EligibleOf(init)
  {
    var rest, last := EligibleOf(hs[..|hs| - 1]), hs[|hs| - 1];
    assert (rest + [last])[..|rest|] == rest;
  }

  lemma NextPick(hs: seq<Holding>, pick: seq<bool>)
    requires hs != [] && |pick| == |hs|
    ensures var n := |hs| - 1;
      && PlanGain(hs, pick) == PlanGain(hs[..n], pick[..n]) + (if pick[n] then hs[n].gain else 0.0)
      && Chosen(pick) == Chosen(pick[..n]) + (if pick[n] then 1 else 0)
  {}

  lemma OneMore(k: nat, t: real)
    ensures Times(k + 1, t) == Times(k, t) + t && Times(0, t) == 0.0
  {}

  /** In ascending order the shortfall is that of the ones before the threshold. */
  lemma {:induction false} ShortfallOfAscending(hs: seq<Holding>, k: nat, t: real)
    requires k <= |hs|
    requires forall i | 0 <= i < k :: hs[i].gain <= t
    requires forall i | k <= i < |hs| :: hs[i].gain >= t
    ensures Shortfall(hs, t) == Prefix(hs, k) - Times(k, t)
  {
    hide Times;
    OneMore(k, t);
    if hs != [] {
      var n := |hs| - 1;
      if k == |hs| {
        ShortfallOfAscending(hs[..n], n, t);
        PrefixOfPrefix(hs, n, n);
        OneMore(n, t);
      } else {
        ShortfallOfAscending(hs[..n], k, t);
        PrefixOfPrefix(hs, n, k);
      }
    }
  }

  /** A plan over the holdings as given that books more than `full` of them gains what the smallest ones do. */
  lemma MoreFundsGainMore(holdings: seq<Holding>, full: nat, pick: seq<bool>)
    requires full < |ByGain(EligibleOf(holdings))|
    requires IsPlan(holdings, pick) && Chosen(pick) > full
    ensures PlanGain(holdings, pick) >= Prefix(ByGain(EligibleOf(holdings)), full + 1)
  {
    hide ByGain, EligibleOf, PlanGain, Shortfall, Times;
    var hs := ByGain(EligibleOf(holdings));
    SortingSorts(EligibleOf(holdings));
    var t := hs[full].gain;
    EligibleInOrder(holdings, full);
    PlanCoversShortfall(holdings, pick, t);
    ShortfallOfSorted(EligibleOf(holdings), t);
    ShortfallOfAscending(hs, full, t);
    MoreThan(Chosen(pick), full, t);
    assert Prefix(hs, full + 1) == Prefix(hs, full) + t;
  }

  /** No plan over the holdings as given, within the exemption, books more of them in full than the harvest. */
  lemma NoPlanOfAllHarvestsMore(holdings: seq<Holding>, full: nat, exemption: real, pick: seq<bool>)
    requires var hs := ByGain(EligibleOf(holdings));
      full <= |hs| && (full < |hs| ==> Prefix(hs, full + 1) > exemption)
    requires IsPlan(holdings, pick) && PlanGain(holdings, pick) <= exemption
    ensures Chosen(pick) <= full
  {
    hide ByGain, EligibleOf, PlanGain, Prefix, Times;
    var hs := ByGain(EligibleOf(holdings));
    SortingSorts(EligibleOf(holdings));
    SameLength(hs, EligibleOf(holdings));
    PlanCoversShortfall(holdings, pick, 0.0);
    if full < |hs| && Chosen(pick) > full {
      MoreFundsGainMore(holdings, full, pick);
    }
  }

  lemma SameLength(a: seq<Holding>, b: seq<Holding>)
    requires multiset(a) == multiset(b)
    ensures |a| == |b|
  {
    assert |a| == |multiset(a)| == |multiset(b)| == |b|;
  }

  lemma EligibleInOrder(holdings: seq<Holding>, i: nat)
    requires i < |ByGain(EligibleOf(holdings))|
    ensures ByGain(EligibleOf(holdings))[i].gain > 0.0
  {
    hide ByGain, EligibleOf;
    var hs := ByGain(EligibleOf(holdings));
    SortingSorts(EligibleOf(holdings));
    assert hs[i] in multiset(hs);
    assert hs[i] in EligibleOf(holdings);
  }

  lemma NotNegative(x: real, y: real)
    requires x >= 0.0 && y >= 0.0
    ensures x * y >= 0.0
  {}

  lemma MoreThan(m: nat, k: nat, t: real)
    requires m > k && t > 0.0
    ensures Times(m, t) >= Times(k, t) + t
  {
    var more := m as real - k as real - 1.0;
    NotNegative(more, t);
    assert m as real * t == (more + (k as real + 1.0)) * t == more * t + (k as real * t + t);
  }

  /**
   * The harvest of any holdings: within the exemption, with hardly any of it unused unless
   * every eligible fund is booked, and no plan over the holdings that stays within it harvests
   * more of them in full.
   */
  method HarvestWithinExemption(holdings: seq<Holding>, exemption: real)
    returns (bookings: seq<Booking>, full: nat, remaining: real)
    ensures Booked(bookings) <= exemption || bookings == []
    ensures var hs := ByGain(EligibleOf(holdings));
      && multiset(hs) == multiset(EligibleOf(holdings))
      && full <= |hs| && full <= |bookings| <= full + 1
      && (forall i | 0 <= i < full :: bookings[i] == Booking(hs[i].fund, hs[i].gain, Full))
      && (forall pick: seq<bool> | |pick| == |hs| && PlanGain(hs, pick) <= exemption :: Chosen(pick) <= full)
      && (forall h: Holding :: multiset(hs)[h] == if h.days >= 365 && h.gain > 0.0 then multiset(holdings)[h] else 0)
      && (full < |hs| ==> exemption - Booked(bookings) <= 1000.0)
      && (|bookings| == full + 1 <==> full < |hs| && exemption - Prefix(hs, full) > 1000.0)
      && (|bookings| == full + 1 ==>
            bookings[full] == Booking(hs[full].fund, exemption - Prefix(hs, full), Partial))
      && (forall pick: seq<bool> | IsPlan(holdings, pick) && PlanGain(holdings, pick) <= exemption ::
            Chosen(pick) <= full)
      && remaining == (if exemption - Prefix(hs, full) > 0.0 then exemption - Prefix(hs, full) else 0.0)
  {
    hide ByGain, EligibleOf, Booked, Prefix, PlanGain, Chosen;
    ghost var hs := ByGain(EligibleOf(holdings));
    SortingSorts(EligibleOf(holdings));
    forall i | 0 <= i < |hs| ensures hs[i].gain > 0.0 {
      assert hs[i] in multiset(hs);
      assert hs[i] in EligibleOf(holdings);
    }
    var cumulative;
    bookings, cumulative, full := Harvest(holdings, exemption);
    NeverOverTheExemption(bookings, hs, full, exemption);
    LittleIsLeft(bookings, hs, full, exemption);
    forall pick: seq<bool> | |pick| == |hs| && PlanGain(hs, pick) <= exemption ensures Chosen(pick) <= full {
      NoPlanHarvestsMore(hs, full, exemption, pick);
    }
    forall pick: seq<bool> | IsPlan(holdings, pick) && PlanGain(holdings, pick) <= exemption
      ensures Chosen(pick) <= full
    {
      NoPlanOfAllHarvestsMore(holdings, full, exemption, pick);
    }
    forall h: Holding
      ensures multiset(hs)[h] == if h.days >= 365 && h.gain > 0.0 then multiset(holdings)[h] else 0
    {
      EligibleAreAll(holdings, h);
    }
    remaining := if exemption - cumulative > 0.0 then exemption - cumulative else 0.0;
  }
}
