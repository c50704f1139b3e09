/**
 * What the scanner's verdict buys. `Ends` enumerates, in the order a backtracking matcher
 * tries them, the ways a pattern can match from a position; its length is the number of
 * derivations. For a pattern the scanner accepts that number is polynomial in the subject.
 */
module RegexDerivations {
  import opened Common
  import opened RegexScanner
  import opened RegexSyntax

  /** A text of `size` characters, and which atoms match at which of its positions. */
  datatype Subject = Subject(size: nat, hits: (Atom, nat) -> bool)

  /** Anchors and boundary escapes match the empty text; every other atom takes one character. */
  function Width(a: Atom): nat {
    match a
    case Char(c) => if c == '^' || c == '$' then 0 else 1
    case Escape(c) => if c in {'b', 'B', 'A', 'Z'} then 0 else 1
    case Class(_, _, _) => 1
  }

  function Least(q: Quantifier): nat
    requires WellFormedQuantifier(q)
  {
    match q
    case Star => 0
    case Plus => 1
    case Optional => 0
    case Exactly(count) => Value(count)
    case Between(least, _) => Value(least)
  }

  function Most(q: Quantifier): Option<nat>
    requires WellFormedQuantifier(q)
  {
    match q
    case Star => None
    case Plus => None
    case Optional => Some(1)
    case Exactly(count) => Some(Value(count))
    case Between(_, most) => if most == "" then None else Some(Value(most))
  }

  function OneFewer(most: Option<nat>): Option<nat> {
    match most
    case None => None
    case Some(m) => if m == 0 then Some(0) else Some(m - 1)
  }

  predicate Within(s: seq<nat>, low: nat, high: nat) {
    forall j | 0 <= j < |s| :: low <= s[j] <= high
  }

  /** The ends that lie past `i`: an iteration that is not required must consume something. */
  function Past(ends: seq<nat>, i: nat, high: nat): (r: seq<nat>)
    requires Within(ends, i, high)
    ensures Within(r, i + 1, high)
  {
    if ends == [] then []
    else (if ends[0] > i then [ends[0]] else []) + Past(ends[1..], i, high)
  }

  /** End positions of the matches of `e` from `i`, one per derivation, in the order tried. */
  function Ends(e: Regex, t: Subject, i: nat): (r: seq<nat>)
    requires WellFormed(e) && i <= t.size
    ensures Within(r, i, t.size)
    decreases e, 0, 0, 0
  {
    match e
    case Empty => [i]
    case Single(a) => if i + Width(a) <= t.size && t.hits(a, i) then [i + Width(a)] else []
    case Group(_, body) => Ends(body, t, i)
    case Repeat(body, q, lazy) => Rounds(body, Least(q), Most(q), lazy, t, i)
    case Cat(first, second) => EndsFromAll(second, t, Ends(first, t, i), i)
    case Alt(left, right) => Ends(left, t, i) + Ends(right, t, i)
  }

  function EndsFromAll(e: Regex, t: Subject, starts: seq<nat>, low: nat): (r: seq<nat>)
    requires WellFormed(e) && Within(starts, low, t.size)
    ensures Within(r, low, t.size)
    decreases e, 1, 0, |starts|
  {
    if starts == [] then [] else Ends(e, t, starts[0]) + EndsFromAll(e, t, starts[1..], low)
  }

  /** Repeated matches of `body`: `least` required ones, then up to `most` in all. */
  function Rounds(body: Regex, least: nat, most: Option<nat>, lazy: bool, t: Subject, i: nat): (r: seq<nat>)
    requires WellFormed(body) && i <= t.size
    ensures Within(r, i, t.size)
    decreases body, 2 + least, t.size + 1 - i, 0
  {
    if least > 0 then RoundsFromAll(body, least - 1, OneFewer(most), lazy, t, Ends(body, t, i), i)
    else if most == Some(0) then [i]
    else
      var more := RoundsFromAll(body, 0, OneFewer(most), lazy, t, Past(Ends(body, t, i), i, t.size), i + 1);
      if lazy then [i] + more else more + [i]
  }

  function RoundsFromAll(body: Regex, least: nat, most: Option<nat>, lazy: bool, t: Subject,
                         starts: seq<nat>, low: nat): (r: seq<nat>)
    requires WellFormed(body) && low <= t.size + 1 && Within(starts, low, t.size)
    ensures Within(r, low, t.size)
    decreases body, 2 + least, t.size + 1 - low, |starts|
  {
    if starts == [] then []
    else Rounds(body, least, most, lazy, t, starts[0]) + RoundsFromAll(body, least, most, lazy, t, starts[1..], low)
  }

  function Repeats(e: Regex): nat {
    match e
    case Empty => 0
    case Single(_) => 0
    case Group(_, body) => Repeats(body)
    case Repeat(body, _, _) => Repeats(body) + 1
    case Cat(first, second) => Repeats(first) + Repeats(second)
    case Alt(left, right) => Repeats(left) + Repeats(right)
  }

  /** Alternation bars in the pattern. */
  function Bars(e: Regex): nat {
    match e
    case Empty => 0
    case Single(_) => 0
    case Group(_, body) => Bars(body)
    case Repeat(body, _, _) => Bars(body)
    case Cat(first, second) => Bars(first) + Bars(second)
    case Alt(left, right) => Bars(left) + Bars(right) + 1
  }

  // ----- a flat body matches in at most one way -----

  /** Characters taken by a pattern without repeats and alternations. */
  function FixedWidth(e: Regex): nat {
    match e
    case Single(a) => Width(a)
    case Group(_, body) => FixedWidth(body)
    case Cat(first, second) => FixedWidth(first) + FixedWidth(second)
    case _ => 0
  }

  lemma {:induction false} FlatMatchesOneWay(e: Regex, t: Subject, i: nat)
    requires WellFormed(e) && i <= t.size && !Ambiguous(e)
    ensures Ends(e, t, i) == [] || Ends(e, t, i) == [i + FixedWidth(e)]
  {
    hide EndsFromAll, Rounds;
    match e {
      case Group(_, body) => FlatMatchesOneWay(body, t, i);
      case Cat(first, second) =>
        FlatMatchesOneWay(first, t, i);
        EndsFromNone(second, t, i);
        if Ends(first, t, i) != [] {
          var k := i + FixedWidth(first);
          assert Ends(first, t, i)[0] == k;
          FlatMatchesOneWay(second, t, k);
          EndsFromOne(second, t, k, i);
        }
      case _ =>
    }
  }

  lemma EndsFromNone(e: Regex, t: Subject, low: nat)
    requires WellFormed(e)
    ensures EndsFromAll(e, t, [], low) == []
  {}

  lemma EndsFromOne(e: Regex, t: Subject, k: nat, low: nat)
    requires WellFormed(e) && low <= k <= t.size
    ensures EndsFromAll(e, t, [k], low) == Ends(e, t, k)
  {
    assert [k][1..] == [];
    EndsFromNone(e, t, low);
  }

  /** A repeat of such a body has at most one derivation per position it can stop at. */
  lemma {:induction false} RoundsOfFlatBody(body: Regex, least: nat, most: Option<nat>, lazy: bool, t: Subject, i: nat)
    requires WellFormed(body) && i <= t.size && !Ambiguous(body)
    ensures |Rounds(body, least, most, lazy, t, i)| <= t.size + 1 - i
    decreases least, t.size - i
  {
    FlatMatchesOneWay(body, t, i);
    var starts := Ends(body, t, i);
    if least > 0 {
      if starts != [] {
        RoundsOfFlatBody(body, least - 1, OneFewer(most), lazy, t, starts[0]);
        assert RoundsFromAll(body, least - 1, OneFewer(most), lazy, t, starts[1..], i) == [];
      }
    } else if most != Some(0) {
      var onward := Past(starts, i, t.size);
      if onward != [] {
        assert onward == starts by {
          assert Past(starts[1..], i, t.size) == [];
        }
        RoundsOfFlatBody(body, 0, OneFewer(most), lazy, t, onward[0]);
        assert RoundsFromAll(body, 0, OneFewer(most), lazy, t, onward[1..], i + 1) == [];
      }
    }
  }

  // ----- the bound -----

  function Bound(e: Regex, size: nat): nat {
    Pow(size + 1, Repeats(e)) * Pow(2, Bars(e))
  }

  lemma {:induction false} EndsFromAllBound(e: Regex, t: Subject, starts: seq<nat>, low: nat, most: nat)
    requires WellFormed(e) && Within(starts, low, t.size)
    requires forall k | 0 <= k <= t.size :: |Ends(e, t, k)| <= most
    ensures |EndsFromAll(e, t, starts, low)| <= |starts| * most
  {
    hide Ends, WellFormed;
    if starts != [] {
      EndsFromAllBound(e, t, starts[1..], low, most);
      OneMoreTime(|starts[1..]|, most);
    }
  }

  lemma OneMoreTime(n: nat, most: nat)
    ensures (n + 1) * most == most + n * most
  {}

  lemma MulMono(a: nat, b: nat, c: nat, d: nat)
    requires a <= c && b <= d
    ensures a * b <= c * d
  {
    assert c * d - a * b == c * (d - b) + (c - a) * b;
  }

  lemma Rearrange(w: nat, x: nat, y: nat, z: nat)
    ensures (w * x) * (y * z) == (w * y) * (x * z)
  {
    calc {
      (w * x) * (y * z);
      w * (x * (y * z));
      { assert x * (y * z) == y * (x * z); }
      w * (y * (x * z));
      (w * y) * (x * z);
    }
  }

  lemma BoundOfCat(e: Regex, size: nat)
    requires e.Cat?
    ensures Bound(e, size) == Bound(e.first, size) * Bound(e.second, size)
  {
    hide Pow;
    var p, q := Repeats(e.first), Repeats(e.second);
    var a, b := Bars(e.first), Bars(e.second);
    PowAdd(size + 1, p, q);
    PowAdd(2, a, b);
    Rearrange(Pow(size + 1, p), Pow(size + 1, q), Pow(2, a), Pow(2, b));
  }

  lemma BoundOfAlt(e: Regex, size: nat)
    requires e.Alt?
    ensures Bound(e.left, size) + Bound(e.right, size) <= Bound(e, size)
  {
    hide Pow;
    var p, q := Repeats(e.left), Repeats(e.right);
    var a, b := Bars(e.left), Bars(e.right);
    BoundOfCat(Cat(e.left, e.right), size);
    PowNext(2, a + b);
    AtLeastOne(size + 1, p, 2, a);
    AtLeastOne(size + 1, q, 2, b);
    SumBelowTwiceProduct(Bound(e.left, size), Bound(e.right, size));
    TwiceInside(Pow(size + 1, p + q), Pow(2, a + b));
  }

  lemma TwiceInside(x: nat, y: nat)
    ensures x * (2 * y) == 2 * (x * y)
  {}

  lemma PowNext(b: nat, e: nat)
    ensures Pow(b, e + 1) == b * Pow(b, e)
  {}

  lemma AtLeastOne(a: nat, p: nat, b: nat, q: nat)
    requires a > 0 && b > 0
    ensures Pow(a, p) * Pow(b, q) >= 1
  {
    hide Pow;
    MulMono(1, 1, Pow(a, p), Pow(b, q));
  }

  lemma SumBelowTwiceProduct(a: nat, b: nat)
    requires a >= 1 && b >= 1
    ensures a + b <= 2 * (a * b)
  {
    MulMono(a, 1, a, b);
    MulMono(1, b, a, b);
  }

  /** At most (size+1)^q * 2^a derivations, with q repeats and a bars, wherever matching starts. */
  lemma {:induction false} DerivationBound(e: Regex, t: Subject, i: nat)
    requires WellFormed(e) && RepeatsAreFlat(e) && i <= t.size
    ensures |Ends(e, t, i)| <= Bound(e, t.size)
  {
    match e {
      case Empty =>
      case Single(_) =>
      case Group(_, body) => DerivationBound(body, t, i);
      case Repeat(body, q, lazy) =>
        RoundsOfFlatBody(body, Least(q), Most(q), lazy, t, i);
        FlatHasNoRepeats(body);
        assert Pow(t.size + 1, 1) == (t.size + 1) * Pow(t.size + 1, 0);
      case Cat(first, second) =>
        DerivationBound(first, t, i);
        forall k | 0 <= k <= t.size ensures |Ends(second, t, k)| <= Bound(second, t.size) {
          DerivationBound(second, t, k);
        }
        EndsFromAllBound(second, t, Ends(first, t, i), i, Bound(second, t.size));
        MulMono(|Ends(first, t, i)|, Bound(second, t.size), Bound(first, t.size), Bound(second, t.size));
        BoundOfCat(e, t.size);
      case Alt(left, right) =>
        DerivationBound(left, t, i);
        DerivationBound(right, t, i);
        BoundOfAlt(e, t.size);
    }
  }

  lemma {:induction false} FlatHasNoRepeats(e: Regex)
    requires !Ambiguous(e)
    ensures Repeats(e) == 0 && Bars(e) == 0
  {
    match e {
      case Group(_, body) => FlatHasNoRepeats(body);
      case Cat(first, second) => FlatHasNoRepeats(first); FlatHasNoRepeats(second);
      case _ =>
    }
  }

  lemma {:induction false} PowMono(b: nat, x: nat, y: nat)
    requires b >= 1 && x <= y
    ensures Pow(b, x) <= Pow(b, y)
  {
    if x < y {
      PowMono(b, x, y - 1);
      MulMono(1, Pow(b, y - 1), b, Pow(b, y - 1));
    }
  }

  /** Repeats written as `{,}`, which the scanner does not count. */
  function BareBraces(e: Regex): nat {
    match e
    case Empty => 0
    case Single(_) => 0
    case Group(_, body) => BareBraces(body)
    case Repeat(body, q, _) => (if IsBare(q) then 1 else 0) + BareBraces(body)
    case Cat(first, second) => BareBraces(first) + BareBraces(second)
    case Alt(left, right) => BareBraces(left) + BareBraces(right)
  }

  lemma {:induction false} RepeatsAsRead(e: Regex)
    requires WellFormed(e)
    ensures Repeats(e) <= Counted(AsRead(e)) + BareBraces(e)
  {
    match e {
      case Empty =>
      case Single(_) =>
      case Group(_, body) => RepeatsAsRead(body);
      case Repeat(body, _, _) => RepeatsAsRead(body); RepeatAsRead(e);
      case Cat(first, second) => RepeatsAsRead(first); RepeatsAsRead(second);
      case Alt(left, right) => RepeatsAsRead(left); RepeatsAsRead(right);
    }
  }

  lemma {:induction false} NoBareBracesIsHarmless(e: Regex)
    requires NoBareBraces(e)
    ensures Harmless(e) && BareBraces(e) == 0
  {
    match e {
      case Empty =>
      case Single(_) =>
      case Group(_, body) => NoBareBracesIsHarmless(body);
      case Repeat(body, _, _) => NoBareBracesIsHarmless(body); AsReadUnchanged(body);
      case Cat(first, second) => NoBareBracesIsHarmless(first); NoBareBracesIsHarmless(second);
      case Alt(left, right) => NoBareBracesIsHarmless(left); NoBareBracesIsHarmless(right);
    }
  }

  /**
   * What acceptance guarantees: on every subject and from every start, no more than
   * (size+1)^q derivations for each way of choosing alternatives, where q is at most 20 and
   * the number of harmless `{,}`, none of which the scanner counts.
   */
  lemma AcceptedPatternsCannotBlowUp(e: Regex, t: Subject, i: nat)
    requires WellFormed(e) && Harmless(e) && i <= t.size
    requires Scan(Print(e), START).Accepted?
    ensures |Ends(e, t, i)| <= Pow(t.size + 1, Repeats(e)) * Pow(2, Bars(e))
    ensures Repeats(e) <= MAX_QUANTIFIERS + BareBraces(e)
    ensures |Ends(e, t, i)| <= Pow(t.size + 1, MAX_QUANTIFIERS + BareBraces(e)) * Pow(2, Bars(e))
  {
    hide Scan, Pow, Ends, Repeats, Bars, Counted, RepeatsAreFlat, CountsAreSmall, WellFormed, Print,
      BareBraces, Harmless, AsRead;
    ScannerDecidesSafety(e);
    FlatAsWritten(e);
    DerivationBound(e, t, i);
    RepeatsAsRead(e);
    var most := MAX_QUANTIFIERS + BareBraces(e);
    PowMono(t.size + 1, Repeats(e), most);
    MulMono(Pow(t.size + 1, Repeats(e)), Pow(2, Bars(e)), Pow(t.size + 1, most), Pow(2, Bars(e)));
  }

  /** Without `{,}` that is a bound with exponent 20. */
  lemma AcceptedPatternsWithoutBareBraces(e: Regex, t: Subject, i: nat)
    requires WellFormed(e) && NoBareBraces(e) && i <= t.size
    requires Scan(Print(e), START).Accepted?
    ensures |Ends(e, t, i)| <= Pow(t.size + 1, MAX_QUANTIFIERS) * Pow(2, Bars(e))
  {
    hide Scan, Pow, Ends, Bars, WellFormed, Print, Harmless;
    NoBareBracesIsHarmless(e);
    AcceptedPatternsCannotBlowUp(e, t, i);
  }

  // ----- where the bound stops -----

  const LETTER := Single(Char('a'))
  const LETTERS := Repeat(LETTER, Plus, false)
  const BARE := Repeat(Group(Capturing, LETTERS), Between("", ""), false)

  /** A subject on which every atom matches everywhere. */
  ghost predicate AllHit(t: Subject) {
    forall a, i :: t.hits(a, i)
  }

  /** From `i`, `a*` can stop anywhere: at the end first, then ever earlier. */
  lemma {:induction false} LetterRun(t: Subject, i: nat)
    requires AllHit(t) && i <= t.size
    ensures Rounds(LETTER, 0, None, false, t, i) ==
      if i == t.size then [i] else Rounds(LETTER, 0, None, false, t, i + 1) + [i]
    ensures Ends(LETTERS, t, i) == if i == t.size then [] else Rounds(LETTER, 0, None, false, t, i + 1)
  {
    var one := Ends(LETTER, t, i);
    assert Ends(LETTERS, t, i) == RoundsFromAll(LETTER, 0, None, false, t, one, i);
    if i < t.size {
      assert one == [i + 1];
      assert Past(one, i, t.size) == [i + 1] by {
        assert Past(one[1..], i, t.size) == [];
      }
      RoundsFromOne(LETTER, t, i + 1, i);
      RoundsFromOne(LETTER, t, i + 1, i + 1);
    } else {
      assert one == [];
    }
  }

  lemma RoundsFromOne(body: Regex, t: Subject, k: nat, low: nat)
    requires WellFormed(body) && low <= k <= t.size
    ensures RoundsFromAll(body, 0, None, false, t, [k], low) == Rounds(body, 0, None, false, t, k)
  {
    assert [k][1..] == [];
    assert RoundsFromAll(body, 0, None, false, t, [], low) == [];
  }

  lemma {:induction false} RoundsFromJoined(body: Regex, t: Subject, a: seq<nat>, b: seq<nat>, low: nat)
    requires WellFormed(body) && low <= t.size + 1 && Within(a, low, t.size) && Within(b, low, t.size)
    ensures RoundsFromAll(body, 0, None, false, t, a + b, low)
         == RoundsFromAll(body, 0, None, false, t, a, low) + RoundsFromAll(body, 0, None, false, t, b, low)
  {
    hide Rounds, WellFormed, RoundsFromAll;
    if a == [] {
      assert a + b == b;
      RoundsFromNone(body, t, low);
    } else {
      RoundsFromJoined(body, t, a[1..], b, low);
      assert (a + b)[1..] == a[1..] + b && (a + b)[0] == a[0];
      RoundsFromNext(body, t, a, low);
      RoundsFromNext(body, t, a + b, low);
    }
  }

  lemma RoundsFromNext(body: Regex, t: Subject, starts: seq<nat>, low: nat)
    requires WellFormed(body) && low <= t.size + 1 && Within(starts, low, t.size) && starts != []
    ensures RoundsFromAll(body, 0, None, false, t, starts, low)
         == Rounds(body, 0, None, false, t, starts[0]) + RoundsFromAll(body, 0, None, false, t, starts[1..], low)
  {}

  lemma {:induction false} LowIsImmaterial(body: Regex, t: Subject, starts: seq<nat>, low: nat, low': nat)
    requires WellFormed(body) && low <= t.size + 1 && low' <= t.size + 1
    requires Within(starts, low, t.size) && Within(starts, low', t.size)
    ensures RoundsFromAll(body, 0, None, false, t, starts, low) == RoundsFromAll(body, 0, None, false, t, starts, low')
    decreases |starts|
  {
    if starts != [] {
      LowIsImmaterial(body, t, starts[1..], low, low');
    }
  }

  lemma {:induction false} PastKeepsAll(ends: seq<nat>, i: nat, high: nat)
    requires Within(ends, i + 1, high)
    ensures Within(ends, i, high) && Past(ends, i, high) == ends
  {
    assert Within(ends, i, high);
    if ends != [] {
      PastKeepsAll(ends[1..], i, high);
    }
  }

  /** One derivation for stopping at `i`, and those that go on from each end of a run of letters. */
  lemma BareFrom(t: Subject, i: nat)
    requires AllHit(t) && i <= t.size
    ensures WellFormed(BARE) && WellFormed(BARE.body)
    ensures Within(Ends(LETTERS, t, i), i + 1, t.size)
    ensures |Ends(BARE, t, i)| == 1 + |RoundsFromAll(BARE.body, 0, None, false, t, Ends(LETTERS, t, i), i + 1)|
  {
    var body := BARE.body;
    assert WellFormed(LETTERS) && WellFormed(body);
    LetterRun(t, i);
    var runs := Ends(body, t, i);
    assert runs == Ends(LETTERS, t, i);
    PastKeepsAll(runs, i, t.size);
    assert Ends(BARE, t, i) == Rounds(body, 0, None, false, t, i);
  }

  /** `(a+){,}` doubles its derivations with every further character. */
  lemma {:induction false} BareBracesDouble(t: Subject, i: nat)
    requires AllHit(t) && i <= t.size
    ensures WellFormed(BARE) && |Ends(BARE, t, i)| == Pow(2, t.size - i)
    decreases t.size - i
  {
    hide Rounds, RoundsFromAll, Ends, Past;
    BareFrom(t, i);
    LetterRun(t, i);
    var body := BARE.body;
    var runs := Ends(LETTERS, t, i);
    if i < t.size {
      BareBracesDouble(t, i + 1);
      BareFrom(t, i + 1);
      LetterRun(t, i + 1);
      var later := Ends(LETTERS, t, i + 1);
      assert runs == later + [i + 1];
      RoundsFromJoined(body, t, later, [i + 1], i + 1);
      RoundsFromOne(body, t, i + 1, i + 1);
      LowIsImmaterial(body, t, later, i + 1, i + 2);
      RepeatEnds(body, t, i + 1);
    } else {
      RoundsFromNone(body, t, i + 1);
    }
  }

  lemma RoundsFromNone(body: Regex, t: Subject, low: nat)
    requires WellFormed(body) && low <= t.size + 1
    ensures RoundsFromAll(body, 0, None, false, t, [], low) == []
  {}

  lemma RepeatEnds(body: Regex, t: Subject, i: nat)
    requires WellFormed(Repeat(body, Between("", ""), false)) && i <= t.size
    ensures Ends(Repeat(body, Between("", ""), false), t, i) == Rounds(body, 0, None, false, t, i)
  {}

  /** So the bare `{,}` has to be excluded: six characters are enough to leave the bound behind. */
  lemma BareBracesEscapeTheBound(t: Subject)
    requires AllHit(t) && t.size == 6
    ensures WellFormed(BARE) && Scan(Print(BARE), START).Accepted?
    ensures |Ends(BARE, t, 0)| > Pow(t.size + 1, Repeats(BARE)) * Pow(2, Bars(BARE))
  {
    hide Scan;
    BareBracesAreNotSeen();
    BareBracesDouble(t, 0);
    assert Repeats(BARE) == 2 && Bars(BARE) == 0 by {
      assert Repeats(LETTERS) == 1 && Bars(LETTERS) == 0;
    }
    PowersUsed();
  }

  lemma PowersUsed()
    ensures Pow(2, 6) == 64 && Pow(7, 2) == 49 && Pow(2, 0) == 1
  {
    assert Pow(2, 3) == 8;
    PowAdd(2, 3, 3);
    assert Pow(7, 1) == 7;
    PowAdd(7, 1, 1);
  }
}
