/**
 * What a failing match costs. A match is slow when it fails late: everything that follows a
 * repeat fails, and the engine comes back to try every other way. This counts all those
 * attempts, for patterns that never match as well, and bounds them for accepted patterns.
 */
module RegexTries {
  import opened Common
  import opened RegexScanner
  import opened RegexSyntax
  import opened RegexDerivations

  /** Atoms tested and iterations begun from `i` when whatever follows `e` fails every time. */
  function Tries(e: Regex, t: Subject, i: nat): nat
    requires WellFormed(e) && i <= t.size
    decreases e, 0, 0, 0
  {
    match e
    case Empty => 1
    case Single(_) => 1
    case Group(_, body) => Tries(body, t, i)
    case Repeat(body, q, _) => RoundTries(body, Least(q), Most(q), t, i)
    case Cat(first, second) => Tries(first, t, i) + TriesFromAll(second, t, Ends(first, t, i))
    case Alt(left, right) => Tries(left, t, i) + Tries(right, t, i)
  }

  function TriesFromAll(e: Regex, t: Subject, starts: seq<nat>): nat
    requires WellFormed(e) && Within(starts, 0, t.size)
    decreases e, 1, 0, |starts|
  {
    if starts == [] then 0 else Tries(e, t, starts[0]) + TriesFromAll(e, t, starts[1..])
  }

  /** The same for the rest of a repeat, of which `least` iterations are required. */
  function RoundTries(body: Regex, least: nat, most: Option<nat>, t: Subject, i: nat): nat
    requires WellFormed(body) && i <= t.size
    decreases body, 2 + least, t.size + 1 - i, 0
  {
    if least > 0 then
      1 + Tries(body, t, i) + RoundTriesFromAll(body, least - 1, OneFewer(most), t, Ends(body, t, i), i)
    else if most == Some(0) then 1
    else
      1 + Tries(body, t, i)
      + RoundTriesFromAll(body, 0, OneFewer(most), t, Past(Ends(body, t, i), i, t.size), i + 1)
  }

  function RoundTriesFromAll(body: Regex, least: nat, most: Option<nat>, t: Subject, starts: seq<nat>, low: nat): nat
    requires WellFormed(body) && low <= t.size + 1 && Within(starts, low, t.size)
    decreases body, 2 + least, t.size + 1 - low, |starts|
  {
    if starts == [] then 0
    else RoundTries(body, least, most, t, starts[0]) + RoundTriesFromAll(body, least, most, t, starts[1..], low)
  }

  /** Atoms, empty branches and repeats of the pattern. */
  function Weight(e: Regex): (w: nat)
    ensures w >= 1
  {
    match e
    case Empty => 1
    case Single(_) => 1
    case Group(_, body) => Weight(body)
    case Repeat(body, _, _) => 1 + Weight(body)
    case Cat(first, second) => Weight(first) + Weight(second)
    case Alt(left, right) => Weight(left) + Weight(right)
  }

  // ----- a flat body -----

  /** A body without repeats and alternations is run through at most once. */
  lemma {:induction false} FlatIsTriedOnce(e: Regex, t: Subject, i: nat)
    requires WellFormed(e) && i <= t.size && !Ambiguous(e)
    ensures Tries(e, t, i) <= Weight(e)
  {
    hide Ends, RoundTries;
    match e {
      case Group(_, body) => FlatIsTriedOnce(body, t, i);
      case Cat(first, second) =>
        FlatIsTriedOnce(first, t, i);
        FlatMatchesOneWay(first, t, i);
        var starts := Ends(first, t, i);
        if starts != [] {
          FlatIsTriedOnce(second, t, starts[0]);
          TriesFromOne(second, t, starts[0]);
        }
      case _ =>
    }
  }

  lemma TriesFromOne(e: Regex, t: Subject, k: nat)
    requires WellFormed(e) && k <= t.size
    ensures TriesFromAll(e, t, [k]) == Tries(e, t, k)
  {
    assert [k][1..] == [];
    assert TriesFromAll(e, t, []) == 0;
  }

  /** A repeat of such a body begins no more iterations than are required and there are positions. */
  lemma {:induction false} RoundsOfFlatAreFew(body: Regex, least: nat, most: Option<nat>, t: Subject, i: nat)
    requires WellFormed(body) && i <= t.size && !Ambiguous(body)
    ensures RoundTries(body, least, most, t, i) <= (1 + Weight(body)) * (least + t.size + 1 - i)
    decreases least, t.size - i
  {
    hide Ends, Tries, Weight, RoundTries, RoundTriesFromAll, Past;
    FlatMatchesOneWay(body, t, i);
    FlatIsTriedOnce(body, t, i);
    var w, rest := 1 + Weight(body), least + t.size - i;
    var starts := if least > 0 then Ends(body, t, i) else Past(Ends(body, t, i), i, t.size);
    var fewer := if least > 0 then least - 1 else 0;
    RoundUnfolded(body, least, most, t, i);
    if least == 0 {
      PastOne(Ends(body, t, i), i, t.size);
    }
    var tail := RoundTriesFromAll(body, fewer, OneFewer(most), t, starts, if least > 0 then i else i + 1);
    if starts == [] {
      NoRoundTries(body, fewer, OneFewer(most), t, if least > 0 then i else i + 1);
    } else {
      RoundsOfFlatAreFew(body, fewer, OneFewer(most), t, starts[0]);
      MulMono(w, fewer + t.size + 1 - starts[0], w, rest);
      RoundTriesFromOne(body, fewer, OneFewer(most), t, starts, if least > 0 then i else i + 1);
    }
    OneMoreFactor(w, rest, tail);
  }

  lemma RoundUnfolded(body: Regex, least: nat, most: Option<nat>, t: Subject, i: nat)
    requires WellFormed(body) && i <= t.size
    ensures RoundTries(body, least, most, t, i) <= 1 + Tries(body, t, i) +
      (if least > 0 then RoundTriesFromAll(body, least - 1, OneFewer(most), t, Ends(body, t, i), i)
       else RoundTriesFromAll(body, 0, OneFewer(most), t, Past(Ends(body, t, i), i, t.size), i + 1))
  {
    hide Ends, Tries, Past;
  }

  lemma NoRoundTries(body: Regex, least: nat, most: Option<nat>, t: Subject, low: nat)
    requires WellFormed(body) && low <= t.size + 1
    ensures RoundTriesFromAll(body, least, most, t, [], low) == 0
  {}

  lemma OneMoreFactor(w: nat, rest: nat, tail: nat)
    requires tail <= w * rest
    ensures w + tail <= w * (rest + 1)
  {}

  lemma PastOne(ends: seq<nat>, i: nat, high: nat)
    requires Within(ends, i, high) && |ends| <= 1
    ensures |Past(ends, i, high)| <= 1
  {}

  lemma RoundTriesFromOne(body: Regex, least: nat, most: Option<nat>, t: Subject, starts: seq<nat>, low: nat)
    requires WellFormed(body) && low <= t.size + 1 && Within(starts, low, t.size) && |starts| == 1
    ensures RoundTriesFromAll(body, least, most, t, starts, low) == RoundTries(body, least, most, t, starts[0])
  {
    assert starts[1..] == [];
    assert RoundTriesFromAll(body, least, most, t, [], low) == 0;
  }

  // ----- the bound -----

  lemma {:induction false} PowOfLarger(a: nat, b: nat, k: nat)
    requires a <= b
    ensures Pow(a, k) <= Pow(b, k)
  {
    if k > 0 {
      PowOfLarger(a, b, k - 1);
      MulMono(a, Pow(a, k - 1), b, Pow(b, k - 1));
    }
  }

  lemma BoundOfLarger(e: Regex, size: nat, more: nat)
    requires size <= more
    ensures Bound(e, size) <= Bound(e, more)
  {
    hide Pow;
    PowOfLarger(size + 1, more + 1, Repeats(e));
    MulMono(Pow(size + 1, Repeats(e)), Pow(2, Bars(e)), Pow(more + 1, Repeats(e)), Pow(2, Bars(e)));
  }

  lemma {:induction false} TriesFromAllBound(e: Regex, t: Subject, starts: seq<nat>, most: nat)
    requires WellFormed(e) && Within(starts, 0, t.size)
    requires forall k | 0 <= k <= t.size :: Tries(e, t, k) <= most
    ensures TriesFromAll(e, t, starts) <= |starts| * most
  {
    hide Tries, WellFormed;
    if starts != [] {
      TriesFromAllBound(e, t, starts[1..], most);
      OneMoreTime(|starts[1..]|, most);
    }
  }

  /** The bound with room for the required iterations, of which there are at most 1000. */
  function Room(e: Regex, t: Subject): (b: nat)
    ensures b >= 1
  {
    AtLeastOne(t.size + MAX_REPETITION + 1, Repeats(e), 2, Bars(e));
    Bound(e, t.size + MAX_REPETITION)
  }

  /** At most weight times (size+1001)^q * 2^a attempts, with q repeats and a bars. */
  lemma {:induction false} TriesBound(e: Regex, t: Subject, i: nat)
    requires WellFormed(e) && RepeatsAreFlat(e) && CountsAreSmall(e) && i <= t.size
    ensures Tries(e, t, i) <= Weight(e) * Room(e, t)
    decreases e, 1
  {
    hide Room, Ends, RoundTries, TriesFromAll, Ambiguous;
    match e {
      case Empty =>
      case Single(_) =>
      case Group(_, body) =>
        TriesBound(body, t, i);
        SameRoom(e, body, t);
      case Repeat(_, _, _) => TriesOfRepeat(e, t, i);
      case Cat(first, second) =>
        TriesBound(first, t, i);
        TriesOfSecond(e, t, i);
        RoomOfCat(e, t);
        AddTries(Weight(first), Weight(second), Room(first, t), Room(second, t));
      case Alt(left, right) =>
        TriesBound(left, t, i);
        TriesBound(right, t, i);
        RoomOfAlt(e, t);
        AddBranches(Weight(left), Weight(right), Room(left, t), Room(right, t), Room(e, t));
    }
  }

  lemma TriesOfRepeat(e: Regex, t: Subject, i: nat)
    requires WellFormed(e) && e.Repeat? && RepeatsAreFlat(e) && CountsAreSmall(e) && i <= t.size
    ensures Tries(e, t, i) <= Weight(e) * Room(e, t)
  {
    hide RoundTries, Room, Least, Most;
    RoundsOfFlatAreFew(e.body, Least(e.quantifier), Most(e.quantifier), t, i);
    RoomOfRepeat(e, t);
    MulMono(Weight(e), Least(e.quantifier) + t.size + 1 - i, Weight(e), Room(e, t));
  }

  lemma RoomOfAlt(e: Regex, t: Subject)
    requires e.Alt?
    ensures Room(e.left, t) <= Room(e, t) && Room(e.right, t) <= Room(e, t)
  {
    hide Bound;
    BoundOfAlt(e, t.size + MAX_REPETITION);
  }

  lemma AddBranches(v: nat, w: nat, a: nat, b: nat, room: nat)
    requires a <= room && b <= room
    ensures v * a + w * b <= (v + w) * room
  {
    MulMono(v, a, v, room);
    MulMono(w, b, w, room);
    assert v * room + w * room == (v + w) * room;
  }

  lemma SameRoom(e: Regex, body: Regex, t: Subject)
    requires e.Group? && e.body == body
    ensures Room(e, t) == Room(body, t)
  {}

  lemma RoomOfRepeat(e: Regex, t: Subject)
    requires WellFormed(e) && e.Repeat? && !Ambiguous(e.body) && CountIsSmall(e.quantifier)
    ensures Room(e, t) == t.size + MAX_REPETITION + 1 && Least(e.quantifier) <= MAX_REPETITION
  {
    FlatHasNoRepeats(e.body);
    var b := t.size + MAX_REPETITION + 1;
    assert Pow(b, 1) == b * Pow(b, 0) && Pow(b, 0) == 1 && Pow(2, 0) == 1;
  }

  lemma RoomOfCat(e: Regex, t: Subject)
    requires e.Cat?
    ensures Room(e, t) == Room(e.first, t) * Room(e.second, t)
  {
    BoundOfCat(e, t.size + MAX_REPETITION);
  }

  /** The second part is tried once for every way in which the first part matches. */
  lemma TriesOfSecond(e: Regex, t: Subject, i: nat)
    requires WellFormed(e) && e.Cat? && RepeatsAreFlat(e) && CountsAreSmall(e) && i <= t.size
    ensures TriesFromAll(e.second, t, Ends(e.first, t, i)) <= Room(e.first, t) * (Weight(e.second) * Room(e.second, t))
    decreases e, 0
  {
    hide Bound, Ends, Tries, TriesFromAll, Weight;
    var most := Weight(e.second) * Room(e.second, t);
    forall k | 0 <= k <= t.size ensures Tries(e.second, t, k) <= most {
      TriesBound(e.second, t, k);
    }
    TriesFromAllBound(e.second, t, Ends(e.first, t, i), most);
    DerivationBound(e.first, t, i);
    BoundOfLarger(e.first, t.size, t.size + MAX_REPETITION);
    MulMono(|Ends(e.first, t, i)|, most, Room(e.first, t), most);
  }

  lemma AddTries(v: nat, w: nat, a: nat, b: nat)
    requires b >= 1
    ensures v * a + a * (w * b) <= (v + w) * (a * b)
  {
    MulMono(a, 1, a, b);
    MulMono(v, a, v, a * b);
    assert a * (w * b) == w * (a * b);
    assert v * (a * b) + w * (a * b) == (v + w) * (a * b);
  }

  // ----- a whole search -----

  /** A search that finds nothing starts at every position. */
  function SearchTries(e: Regex, t: Subject, positions: nat): nat
    requires WellFormed(e) && positions <= t.size + 1
  {
    if positions == 0 then 0 else SearchTries(e, t, positions - 1) + Tries(e, t, positions - 1)
  }

  lemma {:induction false} SearchBound(e: Regex, t: Subject, positions: nat)
    requires WellFormed(e) && RepeatsAreFlat(e) && CountsAreSmall(e) && positions <= t.size + 1
    ensures SearchTries(e, t, positions) <= positions * (Weight(e) * Room(e, t))
  {
    hide Tries, Weight, Room, RepeatsAreFlat, CountsAreSmall, WellFormed;
    if positions > 0 {
      SearchBound(e, t, positions - 1);
      TriesBound(e, t, positions - 1);
      OneMoreTime(positions - 1, Weight(e) * Room(e, t));
    }
  }

  /**
   * An accepted pattern fails fast on every subject: the attempts of a whole search that
   * finds nothing are polynomially many in the length of the subject. Repetition counts of
   * up to 1000 enter the base, at most 20 repeats and the harmless `{,}` the exponent.
   */
  lemma AcceptedPatternsFailFast(e: Regex, t: Subject)
    requires WellFormed(e) && Harmless(e) && Scan(Print(e), START).Accepted?
    ensures SearchTries(e, t, t.size + 1)
         <= (t.size + 1)
             * (Weight(e) * (Pow(t.size + MAX_REPETITION + 1, MAX_QUANTIFIERS + BareBraces(e)) * Pow(2, Bars(e))))
  {
    hide Scan, Pow, Repeats, Bars, Counted, RepeatsAreFlat, CountsAreSmall, WellFormed, Print,
      BareBraces, Harmless, AsRead, SearchTries, Weight;
    ScannerDecidesSafety(e);
    FlatAsWritten(e);
    SearchBound(e, t, t.size + 1);
    RepeatsAsRead(e);
    var base, most := t.size + MAX_REPETITION + 1, MAX_QUANTIFIERS + BareBraces(e);
    PowMono(base, Repeats(e), most);
    MulMono(Pow(base, Repeats(e)), Pow(2, Bars(e)), Pow(base, most), Pow(2, Bars(e)));
    MulMono(Weight(e), Room(e, t), Weight(e), Pow(base, most) * Pow(2, Bars(e)));
    MulMono(t.size + 1, Weight(e) * Room(e, t), t.size + 1, Weight(e) * (Pow(base, most) * Pow(2, Bars(e))));
  }

  // ----- and where it does not -----

  lemma {:induction false} SomethingIsTried(e: Regex, t: Subject, starts: seq<nat>)
    requires WellFormed(e) && e.Single? && Within(starts, 0, t.size)
    ensures TriesFromAll(e, t, starts) == |starts|
  {
    if starts != [] {
      SomethingIsTried(e, t, starts[1..]);
    }
  }

  /** `(a+){,}` followed by anything that fails is tried at least 2^n times on n letters. */
  lemma BareBracesFailSlowly(last: Atom, t: Subject)
    requires AllHit(t) && WellFormedAtom(last)
    ensures WellFormed(Cat(BARE, Single(last))) && Tries(Cat(BARE, Single(last)), t, 0) >= Pow(2, t.size)
  {
    BareBracesDouble(t, 0);
    SomethingIsTried(Single(last), t, Ends(BARE, t, 0));
  }
}
