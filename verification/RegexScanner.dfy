/**
 * The rule-pattern scanner: one pass over the text with a stack of flags, one per open
 * group. `Scan` is the pass as a function on the text still to be read; `ScanRegex` is the
 * loop that the application runs, proved to return what `Scan` returns.
 */
module RegexScanner {
  import opened Common

  const MAX_REPETITION := 1000
  const MAX_QUANTIFIERS := 20

  datatype Reason =
    | DanglingBackslash | Backreference | UnclosedClass | Lookahead | Lookbehind
    | Conditional | NamedBackreference | GroupKind | UnbalancedClose | AmbiguousRepeat
    | RepetitionTooLarge | UnclosedGroup | TooManyQuantifiers

  datatype Verdict = Accepted | Rejected(why: Reason)

  /**
   * `groups` holds one "can match the same text in more than one way" flag per open group,
   * innermost last. `blocked` says that the token just read closed an ambiguous group.
   */
  datatype State = State(groups: seq<bool>, quantifiers: nat, blocked: bool)

  const START := State([], 0, false)

  datatype Move = Stop(why: Reason) | Advance(width: nat, next: State)

  /** Raise the innermost open group's flag when `ambiguous`. */
  function Mark(groups: seq<bool>, ambiguous: bool): seq<bool> {
    if groups == [] || !ambiguous then groups else groups[|groups| - 1 := true]
  }

  predicate IsWord(c: char) {
    'a' <= c <= 'z' || 'A' <= c <= 'Z' || IsDigit(c) || c == '_'
  }

  /** End of the run of word characters that starts at `i`. */
  function WordEnd(s: string, i: nat): (e: nat)
    requires i <= |s|
    ensures i <= e <= |s|
    ensures forall k | i <= k < e :: IsWord(s[k])
    ensures e < |s| ==> !IsWord(s[e])
    decreases |s| - i
  {
    if i < |s| && IsWord(s[i]) then WordEnd(s, i + 1) else i
  }

  /** Length of a leading `(?P<name>`, or zero when there is none. */
  function NamedPrefix(s: string): (k: nat)
    ensures k <= |s|
    ensures k > 0 ==> k > 5 && "(?P<" <= s
  {
    if "(?P<" <= s then
      var e := WordEnd(s, 4);
      if e > 4 && e < |s| && s[e] == '>' then e + 1 else 0
    else 0
  }

  /** First position from `j` on that holds the `]` closing a class; at or past the end if none does. */
  function ClassClose(s: string, j: nat): (k: nat)
    ensures k >= j
    ensures k < |s| ==> s[k] == ']'
    decreases |s| - j
  {
    if j >= |s| || s[j] == ']' then j
    else ClassClose(s, if s[j] == '\\' then j + 2 else j + 1)
  }

  /** How many backslashes stand immediately before `m`, none of them before `j`. */
  function SlashesBefore(s: string, j: nat, m: nat): nat
    requires m <= |s|
    decreases m
  {
    if m <= j || s[m - 1] != '\\' then 0 else 1 + SlashesBefore(s, j, m - 1)
  }

  /** Every second backslash escapes the next: what stands after an odd number of them is escaped. */
  predicate IsEscaped(s: string, j: nat, m: nat)
    requires m <= |s|
  {
    SlashesBefore(s, j, m) % 2 == 1
  }

  lemma {:induction false} SlashesFromLater(s: string, j: nat, m: nat)
    requires j < m <= |s|
    ensures s[j] != '\\' ==> SlashesBefore(s, j, m) == SlashesBefore(s, j + 1, m)
    ensures s[j] == '\\' && j + 2 <= m ==> SlashesBefore(s, j, m) % 2 == SlashesBefore(s, j + 2, m) % 2
    decreases m
  {
    if s[j] == '\\' && j + 2 == m {
      assert SlashesBefore(s, j, j + 1) == 1 + SlashesBefore(s, j, j);
    } else if m > j + 1 {
      SlashesFromLater(s, j, m - 1);
    }
  }

  /** The search ends at the first closing bracket that is not escaped, or past the text if there is none. */
  lemma {:induction false} ClassClosesAtFirstUnescaped(s: string, j: nat)
    ensures var k := ClassClose(s, j);
      && (k < |s| ==> s[k] == ']' && !IsEscaped(s, j, k))
      && forall m | j <= m < |s| && m < k && s[m] == ']' :: IsEscaped(s, j, m)
    decreases |s| - j
  {
    if j < |s| && s[j] != ']' {
      var next := if s[j] == '\\' then j + 2 else j + 1;
      ClassClosesAtFirstUnescaped(s, next);
      var k := ClassClose(s, j);
      if k < |s| {
        SlashesFromLater(s, j, k);
      }
      forall m | j <= m < |s| && m < k && s[m] == ']' ensures IsEscaped(s, j, m) {
        if m >= next {
          SlashesFromLater(s, j, m);
        } else {
          assert SlashesBefore(s, j, m) == 1 + SlashesBefore(s, j, j);
        }
      }
    }
  }

  /** Where the search for the closing bracket starts: a `]` first in a class is a member of it. */
  function ClassStart(s: string): (j: nat)
    requires s != "" && s[0] == '['
    ensures 1 <= j <= 3
  {
    var j := if 1 < |s| && s[1] == '^' then 2 else 1;
    if j < |s| && s[j] == ']' then j + 1 else j
  }

  /** The text between braces is a repetition count, as opposed to literal text. */
  predicate IsCount(body: string) {
    && body != "" && body != ","
    && var k := IndexOf(body, ',');
       if k < 0 then AllDigits(body) else AllDigits(body[..k]) && AllDigits(body[k + 1..])
  }

  predicate CountFits(body: string)
    requires IsCount(body)
  {
    var k := IndexOf(body, ',');
    if k < 0 then Value(body) <= MAX_REPETITION
    else Value(body[..k]) <= MAX_REPETITION && Value(body[k + 1..]) <= MAX_REPETITION
  }

  function OpenGroup(s: string, st: State): (m: Move)
    requires s != "" && s[0] == '('
    ensures m.Advance? ==> 0 < m.width <= |s|
  {
    var pushed := State(st.groups + [false], st.quantifiers, false);
    if !("(?" <= s) then Advance(1, pushed)
    else if "(?=" <= s || "(?!" <= s then Stop(Lookahead)
    else if "(?<=" <= s || "(?<!" <= s then Stop(Lookbehind)
    else if "(?(" <= s then Stop(Conditional)
    else if "(?P=" <= s then Stop(NamedBackreference)
    else if "(?:" <= s then Advance(3, pushed)
    else if NamedPrefix(s) > 0 then Advance(NamedPrefix(s), pushed)
    else Stop(GroupKind)
  }

  function Brace(s: string, st: State): (m: Move)
    requires s != "" && s[0] == '{'
    ensures m.Advance? ==> 0 < m.width <= |s|
  {
    var close := IndexOf(s, '}');
    if close < 1 || !IsCount(s[1..close]) then Advance(1, st.(blocked := false))
    else if st.blocked then Stop(AmbiguousRepeat)
    else if !CountFits(s[1..close]) then Stop(RepetitionTooLarge)
    else Advance(close + 1, State(Mark(st.groups, true), st.quantifiers + 1, false))
  }

  /** One token: why the pattern is rejected here, or how far to move and the state after. */
  function Step(s: string, st: State): (m: Move)
    requires s != ""
    ensures m.Advance? ==> 0 < m.width <= |s|
  {
    var ch := s[0];
    if ch == '\\' then
      if |s| < 2 then Stop(DanglingBackslash)
      else if IsDigit(s[1]) then Stop(Backreference)
      else Advance(2, st.(blocked := false))
    else if ch == '[' then
      var j := ClassClose(s, ClassStart(s));
      if j >= |s| then Stop(UnclosedClass) else Advance(j + 1, st.(blocked := false))
    else if ch == '(' then OpenGroup(s, st)
    else if ch == ')' then
      if st.groups == [] then Stop(UnbalancedClose)
      else
        var closed := st.groups[|st.groups| - 1];
        Advance(1, State(Mark(st.groups[..|st.groups| - 1], closed), st.quantifiers, closed))
    else if ch == '|' then Advance(1, State(Mark(st.groups, true), st.quantifiers, false))
    else if ch == '*' || ch == '+' || ch == '?' then
      if st.blocked then Stop(AmbiguousRepeat)
      else
        Advance(if 1 < |s| && s[1] == '?' then 2 else 1,
                State(Mark(st.groups, true), st.quantifiers + 1, false))
    else if ch == '{' then Brace(s, st)
    else Advance(1, st.(blocked := false))
  }

  function Finish(st: State): Verdict {
    if st.groups != [] then Rejected(UnclosedGroup)
    else if st.quantifiers > MAX_QUANTIFIERS then Rejected(TooManyQuantifiers)
    else Accepted
  }

  function Scan(s: string, st: State): Verdict
    decreases |s|
  {
    if s == "" then Finish(st)
    else match Step(s, st)
      case Stop(why) => Rejected(why)
      case Advance(k, next) => Scan(s[k..], next)
  }

  /** Moving over one token of `pattern` at `i` leaves the verdict alone. */
  lemma Move1(pattern: string, i: nat, st: State, k: nat, next: State)
    requires i < |pattern| && Step(pattern[i..], st) == Advance(k, next)
    ensures i + k <= |pattern| && Scan(pattern[i..], st) == Scan(pattern[i + k..], next)
  {
    assert pattern[i..][k..] == pattern[i + k..];
  }

  /** A token that cannot be read decides the verdict, and so does the end of the text. */
  lemma Halt(pattern: string, i: nat, st: State)
    requires i <= |pattern|
    ensures i == |pattern| ==> Scan(pattern[i..], st) == Finish(st)
    ensures i < |pattern| && Step(pattern[i..], st).Stop? ==>
      Scan(pattern[i..], st) == Rejected(Step(pattern[i..], st).why)
  {}

  /** The application's inner loop: from the opening bracket at `i` to the closing one. */
  method SkipClass(pattern: string, i: nat) returns (j: nat)
    requires i < |pattern| && pattern[i] == '['
    ensures j == i + ClassClose(pattern[i..], ClassStart(pattern[i..]))
  {
    var n := |pattern|;
    ghost var s := pattern[i..];
    j := i + 1;
    if j < n && pattern[j] == '^' {
      j := j + 1;
    }
    if j < n && pattern[j] == ']' {
      j := j + 1;
    }
    assert j == i + ClassStart(s);
    while j < n && pattern[j] != ']'
      invariant j >= i
      invariant ClassClose(s, j - i) == ClassClose(s, ClassStart(s))
      decreases n - j
    {
      assert pattern[j] == s[j - i];
      j := j + (if pattern[j] == '\\' then 2 else 1);
    }
  }

  /** The checks on what follows an opening parenthesis: a reason to stop, or the prefix length. */
  method ReadOpen(pattern: string, i: nat) returns (why: Option<Reason>, consumed: nat)
    requires i < |pattern| && pattern[i] == '('
    ensures why.Some? ==> forall st :: OpenGroup(pattern[i..], st) == Stop(why.value)
    ensures why.None? ==> forall st ::
      OpenGroup(pattern[i..], st) == Advance(consumed, State(st.groups + [false], st.quantifiers, false))
  {
    why, consumed := None, 1;
    if "(?" <= pattern[i..] {
      if "(?=" <= pattern[i..] || "(?!" <= pattern[i..] {
        return Some(Lookahead), 0;
      }
      if "(?<=" <= pattern[i..] || "(?<!" <= pattern[i..] {
        return Some(Lookbehind), 0;
      }
      if "(?(" <= pattern[i..] {
        return Some(Conditional), 0;
      }
      if "(?P=" <= pattern[i..] {
        return Some(NamedBackreference), 0;
      }
      if "(?:" <= pattern[i..] {
        consumed := 3;
      } else {
        consumed := NamedPrefix(pattern[i..]);
        if consumed == 0 {
          return Some(GroupKind), 0;
        }
      }
    }
  }

  /** A repeat was read at `i`: what it does to the flags and the counter, or why it is refused. */
  method ReadBrace(pattern: string, i: nat, st: State) returns (m: Move)
    requires i < |pattern| && pattern[i] == '{'
    ensures m == Brace(pattern[i..], st)
  {
    var close := IndexOf(pattern[i..], '}');
    if close == -1 || !IsCount(pattern[i..][1..close]) {
      return Advance(1, st.(blocked := false));
    }
    if st.blocked {
      return Stop(AmbiguousRepeat);
    }
    if !CountFits(pattern[i..][1..close]) {
      return Stop(RepetitionTooLarge);
    }
    return Advance(close + 1, State(Mark(st.groups, true), st.quantifiers + 1, false));
  }

  /** The body of the scanning loop: the branch taken on the character at `i`. */
  method ReadToken(pattern: string, i: nat, st: State) returns (m: Move)
    requires i < |pattern|
    ensures m == Step(pattern[i..], st)
  {
    var n := |pattern|;
    var ch := pattern[i];
    assert pattern[i..][0] == ch;
    if ch == '\\' {
      if i + 1 >= n {
        return Stop(DanglingBackslash);
      }
      if IsDigit(pattern[i + 1]) {
        return Stop(Backreference);
      }
      return Advance(2, st.(blocked := false));
    }
    if ch == '[' {
      var j := SkipClass(pattern, i);
      return if j >= n then Stop(UnclosedClass) else Advance(j + 1 - i, st.(blocked := false));
    }
    if ch == '(' {
      var why, consumed := ReadOpen(pattern, i);
      return if why.Some? then Stop(why.value)
             else Advance(consumed, State(st.groups + [false], st.quantifiers, false));
    }
    if ch == ')' {
      if st.groups == [] {
        return Stop(UnbalancedClose);
      }
      var closedAmbiguous := st.groups[|st.groups| - 1];
      return Advance(1, State(Mark(st.groups[..|st.groups| - 1], closedAmbiguous), st.quantifiers, closedAmbiguous));
    }
    if ch == '|' {
      return Advance(1, State(Mark(st.groups, true), st.quantifiers, false));
    }
    if ch == '*' || ch == '+' || ch == '?' {
      if st.blocked {
        return Stop(AmbiguousRepeat);
      }
      var lazy := i + 1 < n && pattern[i + 1] == '?';
      return Advance(if lazy then 2 else 1, State(Mark(st.groups, true), st.quantifiers + 1, false));
    }
    if ch == '{' {
      m := ReadBrace(pattern, i, st);
      return;
    }
    return Advance(1, st.(blocked := false));
  }

  /**
   * The scanner as the application runs it: an index, a counter and a stack of flags. The
   * two flags "previous token closed a group" and "that group was ambiguous" are only ever
   * read together, so they are one flag here.
   */
  method ScanRegex(pattern: string) returns (v: Verdict)
    ensures v == Scan(pattern, START)
  {
    hide Scan, Step;
    var i, st := 0, START;
    var n := |pattern|;
    assert pattern[0..] == pattern;
    while i < n
      invariant 0 <= i <= n
      invariant Scan(pattern[i..], st) == Scan(pattern, START)
      decreases n - i
    {
      var m := ReadToken(pattern, i, st);
      match m {
        case Stop(why) =>
          Halt(pattern, i, st);
          return Rejected(why);
        case Advance(width, next) =>
          Move1(pattern, i, st, width, next);
          i, st := i + width, next;
      }
    }
    Halt(pattern, n, st);
    if st.groups != [] {
      return Rejected(UnclosedGroup);
    }
    if st.quantifiers > MAX_QUANTIFIERS {
      return Rejected(TooManyQuantifiers);
    }
    return Accepted;
  }
}
