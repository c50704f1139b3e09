/**
 * What the scanner refuses whatever else the pattern says: an escape, a class or a group of a
 * kind that is not allowed. The places are found on the text, by its characters, without the
 * tokens, flags and counter of the scanner; the theorem says with which reason the scanner
 * refuses a text that has one, and that it gives those reasons to no other text.
 */
module RegexRefusals {
  import opened Common
  import opened RegexScanner
  import opened RegexSyntax

  predicate IsNameChar(c: char) {
    'a' <= c <= 'z' || 'A' <= c <= 'Z' || '0' <= c <= '9' || c == '_'
  }

  /** `(?P<`, at least one name character, and `>` at `e`. */
  predicate NameEndsAt(s: string, e: nat) {
    && 5 <= e < |s|
    && s[0] == '(' && s[1] == '?' && s[2] == 'P' && s[3] == '<' && s[e] == '>'
    && forall k | 4 <= k < e :: IsNameChar(s[k])
  }

  predicate IsNamedOpening(s: string) {
    exists e | 0 <= e < |s| :: NameEndsAt(s, e)
  }

  /** What is wrong with the opening parenthesis at the front, by the characters behind it. */
  function OpeningFault(s: string): Option<Reason>
    requires s != "" && s[0] == '('
  {
    if |s| < 2 || s[1] != '?' then None
    else if |s| == 2 then Some(GroupKind)
    else if s[2] == ':' then None
    else if s[2] == '=' || s[2] == '!' then Some(Lookahead)
    else if s[2] == '(' then Some(Conditional)
    else if s[2] == '<' && |s| > 3 && (s[3] == '=' || s[3] == '!') then Some(Lookbehind)
    else if s[2] == 'P' && |s| > 3 && s[3] == '=' then Some(NamedBackreference)
    else if IsNamedOpening(s) then None
    else Some(GroupKind)
  }

  /**
   * The first place of the text that is refused wherever it stands: escapes and classes are
   * stepped over, everything else is looked at character by character.
   */
  function FirstFault(s: string): Option<Reason>
    decreases |s|
  {
    if s == "" then None
    else if s[0] == '\\' then
      if |s| == 1 then Some(DanglingBackslash)
      else if '0' <= s[1] <= '9' then Some(Backreference)
      else FirstFault(s[2..])
    else if s[0] == '[' then
      var j := ClassClose(s, ClassStart(s));
      if j < |s| then FirstFault(s[j + 1..]) else Some(UnclosedClass)
    else if s[0] == '(' && OpeningFault(s).Some? then OpeningFault(s)
    else FirstFault(s[1..])
  }

  /** Reasons that depend on what the scanner has read before: depth, flags, counts. */
  predicate DependsOnContext(why: Reason) {
    why in {UnbalancedClose, AmbiguousRepeat, RepetitionTooLarge}
  }

  lemma NamedIsNamed(s: string)
    requires s != "" && s[0] == '('
    ensures NamedPrefix(s) > 0 <==> IsNamedOpening(s)
  {
    var e := if |s| >= 4 then WordEnd(s, 4) else 0;
    assert "(?P<" <= s <==> |s| >= 4 && s[0] == '(' && s[1] == '?' && s[2] == 'P' && s[3] == '<';
    if NamedPrefix(s) > 0 {
      assert NameEndsAt(s, e);
    }
    forall f | 0 <= f < |s| && NameEndsAt(s, f) ensures NamedPrefix(s) > 0 {
      assert !IsWord(s[f]) && e <= f;
      assert forall k | 4 <= k < f :: IsNameChar(s[k]) && IsWord(s[k]);
    }
  }

  /** A prefix of up to four characters, by its characters. */
  lemma Prefixes(s: string)
    ensures "(?" <= s <==> |s| >= 2 && s[0] == '(' && s[1] == '?'
    ensures "(?=" <= s <==> |s| >= 3 && s[0] == '(' && s[1] == '?' && s[2] == '='
    ensures "(?!" <= s <==> |s| >= 3 && s[0] == '(' && s[1] == '?' && s[2] == '!'
    ensures "(?:" <= s <==> |s| >= 3 && s[0] == '(' && s[1] == '?' && s[2] == ':'
    ensures "(?(" <= s <==> |s| >= 3 && s[0] == '(' && s[1] == '?' && s[2] == '('
    ensures "(?<=" <= s <==> |s| >= 4 && s[0] == '(' && s[1] == '?' && s[2] == '<' && s[3] == '='
    ensures "(?<!" <= s <==> |s| >= 4 && s[0] == '(' && s[1] == '?' && s[2] == '<' && s[3] == '!'
    ensures "(?P=" <= s <==> |s| >= 4 && s[0] == '(' && s[1] == '?' && s[2] == 'P' && s[3] == '='
  {}

  /** The scanner's checks behind a parenthesis, by the characters. */
  lemma OpeningIsRead(s: string, st: State)
    requires s != "" && s[0] == '('
    ensures var fault := OpeningFault(s);
      if fault.Some? then OpenGroup(s, st) == Stop(fault.value) else OpenGroup(s, st).Advance?
  {
    hide NamedPrefix, IsNamedOpening;
    Prefixes(s);
    NamedIsNamed(s);
  }

  /** Text without an escape, a class or a parenthesis has no fault up to where it ends. */
  lemma {:induction false} FaultPastPlain(s: string, k: nat)
    requires k <= |s| && PlainFor(s, k)
    ensures FirstFault(s) == FirstFault(s[k..])
    decreases k
  {
    if k == 0 {
      assert s[0..] == s;
    } else {
      FaultPastPlain(s[1..], k - 1);
      assert s[1..][k - 1..] == s[k..];
    }
  }

  /** One token: it stops on the fault at the front, and else leaves the first fault ahead. */
  lemma StepMeetsFault(s: string, st: State)
    requires s != ""
    ensures var m := Step(s, st);
      if m.Stop? then FirstFault(s) == Some(m.why) || DependsOnContext(m.why)
      else FirstFault(s) == FirstFault(s[m.width..])
  {
    hide Value, AllDigits, OpenGroup, Brace, NamedPrefix, IndexOf, IsCount, CountFits, OpeningFault;
    var m := Step(s, st);
    if s[0] == '(' {
      OpeningIsRead(s, st);
      if m.Advance? {
        OpenIsPlain(s, st);
        FaultPastPlain(s[1..], m.width - 1);
        assert s[1..][m.width - 1..] == s[m.width..];
      }
    } else if s[0] == '{' {
      BraceRefusals(s, st);
      if m.Advance? {
        BracesArePlain(s, st);
        FaultPastPlain(s, m.width);
      }
    } else if s[0] in {'*', '+', '?'} && m.Advance? {
      FaultPastPlain(s, m.width);
    }
  }

  lemma BraceRefusals(s: string, st: State)
    requires s != "" && s[0] == '{'
    ensures Brace(s, st).Stop? ==> DependsOnContext(Brace(s, st).why)
  {}

  /**
   * From every state, a text with such a place is refused, with the reason of the first one
   * unless something is refused before it; and a text without is never refused for those
   * reasons.
   */
  lemma {:induction false} FirstFaultDecides(s: string, st: State)
    ensures FirstFault(s).Some? ==> Scan(s, st).Rejected?
    ensures Scan(s, st).Rejected? ==>
      var why := Scan(s, st).why;
      || DependsOnContext(why)
      || (if FirstFault(s).Some? then why == FirstFault(s).value else why in {UnclosedGroup, TooManyQuantifiers})
    decreases |s|
  {
    hide Step, FirstFault;
    if s == "" {
      NoFault();
    } else {
      StepMeetsFault(s, st);
      var m := Step(s, st);
      if m.Advance? {
        FirstFaultDecides(s[m.width..], m.next);
      }
    }
  }

  lemma NoFault()
    ensures FirstFault("") == None
  {}

  // ----- the limits and the reasons that depend on context, in plain numbers -----

  /** `a*` written `n` times. */
  function Stars(n: nat): string {
    if n == 0 then "" else "a*" + Stars(n - 1)
  }

  lemma {:induction false} StarsRead(n: nat, st: State)
    requires st.groups == []
    ensures Scan(Stars(n), st) == Scan("", State([], st.quantifiers + n, if n == 0 then st.blocked else false))
  {
    if n > 0 {
      var s := Stars(n);
      assert s[1..] == "*" + Stars(n - 1) && s[1..][1..] == Stars(n - 1);
      var after := st.(blocked := false);
      assert Step(s, st) == Advance(1, after);
      NotLazy(n - 1);
      assert Step(s[1..], after) == Advance(1, State([], st.quantifiers + 1, false));
      StarsRead(n - 1, State([], st.quantifiers + 1, false));
    }
  }

  lemma NotLazy(n: nat)
    ensures Stars(n) == "" || Stars(n)[0] == 'a'
  {}

  /** Twenty repeats are accepted and twenty-one are not. */
  lemma TwentyRepeatsAtMost(n: nat)
    ensures Scan(Stars(n), START) == if n <= 20 then Accepted else Rejected(TooManyQuantifiers)
  {
    StarsRead(n, START);
  }

  /** A count of up to a thousand is accepted, and no larger one, however it is written. */
  lemma CountsUpToAThousand(count: string)
    requires count != "" && AllDigits(count)
    ensures Scan("a{" + count + "}", START)
      == if Value(count) <= 1000 then Accepted else Rejected(RepetitionTooLarge)
  {
    hide Value, Scan;
    Ends();
    var s := "a{" + count + "}";
    assert s[1..] == "{" + count + "}";
    var t := s[1..];
    assert '}' !in "{" + count by {
      forall i | 0 <= i < |count| ensures count[i] != '}' {
        assert IsDigit(count[i]);
      }
    }
    assert t == ("{" + count) + ['}'] + "";
    IndexOfPrefix("{" + count, '}', "");
    assert t[1..|count| + 1] == count;
    assert ',' !in count by {
      forall i | 0 <= i < |count| ensures count[i] != ',' {
        assert IsDigit(count[i]);
      }
    }
    assert IndexOf(count, ',') == -1;
    Reads(s, START, 1, START, t);
    if Value(count) <= 1000 {
      Reads(t, START, |count| + 2, State([], 1, false), "");
    } else {
      Halts(t, START);
    }
  }

  lemma Ends()
    ensures Scan("", State([], 1, false)) == Accepted
  {}

  /** Digits up to a comma at `k` and behind it, at least one of them. */
  predicate CommaAt(body: string, k: nat) {
    k < |body| && body[k] == ',' && |body| > 1 && AllDigits(body[..k]) && AllDigits(body[k + 1..])
  }

  /** Digits, or digits on at least one side of a single comma. */
  ghost predicate IsCounted(body: string) {
    (body != "" && AllDigits(body)) || exists k: nat :: CommaAt(body, k)
  }

  lemma CommaIsNoDigit(s: string)
    ensures ',' in s ==> !AllDigits(s)
  {
    if ',' in s {
      var i :| 0 <= i < |s| && s[i] == ',';
      assert !IsDigit(s[i]);
    }
  }

  lemma CommaIsFirst(body: string, k: nat)
    requires CommaAt(body, k)
    ensures IndexOf(body, ',') == k
  {
    hide AllDigits, IndexOf;
    CommaIsNoDigit(body[..k]);
    IndexOfPrefix(body[..k], ',', body[k + 1..]);
    assert body == body[..k] + [','] + body[k + 1..];
  }

  lemma CountsAreCounted(body: string)
    ensures IsCount(body) <==> IsCounted(body)
  {
    hide AllDigits, IndexOf;
    CommaIsNoDigit(body);
    var first := IndexOf(body, ',');
    if first >= 0 {
      assert |body| == 1 ==> body == ",";
      assert IsCount(body) <==> CommaAt(body, first);
    }
    forall k: nat | CommaAt(body, k) ensures k == first {
      CommaIsFirst(body, k);
    }
  }

  /** A brace that begins no count is a character like any other. */
  lemma OtherBracesAreLiteral(body: string, rest: string, st: State)
    requires '}' !in body && !IsCounted(body)
    ensures Scan("{" + body + "}" + rest, st) == Scan(body + "}" + rest, st.(blocked := false))
    ensures Scan("{" + body, st) == Scan(body, st.(blocked := false))
  {
    hide Scan, IsCounted, IsCount;
    CountsAreCounted(body);
    var next := st.(blocked := false);
    var s := "{" + body + "}" + rest;
    assert s == ("{" + body) + ['}'] + rest;
    IndexOfPrefix("{" + body, '}', rest);
    assert s[1..|body| + 1] == body;
    Reads(s, st, 1, next, body + "}" + rest);
    assert IndexOf("{" + body, '}') == -1;
    Reads("{" + body, st, 1, next, body);
  }

  lemma Reads(s: string, st: State, k: nat, next: State, rest: string)
    requires s != "" && Step(s, st) == Advance(k, next) && s[k..] == rest
    ensures Scan(s, st) == Scan(rest, next)
  {
    hide Step;
  }

  lemma OpensPlain(s: string, st: State)
    requires s != "" && s[0] == '(' && (|s| > 1 ==> s[1] != '?')
    ensures Step(s, st) == Advance(1, State(st.groups + [false], st.quantifiers, false))
  {
    Prefixes(s);
  }

  /** The tokens that occur in the examples below. */
  lemma TokenIsRead(s: string, st: State)
    requires |s| >= 2 && s[1] != '?' && !st.blocked
    ensures s[0] == 'a' || s[0] == 'b' ==> Step(s, st) == Advance(1, st)
    ensures s[0] == '+' ==> Step(s, st) == Advance(1, State(Mark(st.groups, true), st.quantifiers + 1, false))
    ensures s[0] == '|' ==> Step(s, st) == Advance(1, State(Mark(st.groups, true), st.quantifiers, false))
  {}

  lemma AmbiguousCloses(rest: string, quantifiers: nat)
    requires rest != "" && rest[0] in {'*', '+', '?'}
    ensures Scan(")" + rest, State([true], quantifiers, false)) == Rejected(AmbiguousRepeat)
  {
    hide Scan, Brace;
    Reads(")" + rest, State([true], quantifiers, false), 1, State([], quantifiers, true), rest);
    Halts(rest, State([], quantifiers, true));
  }

  /** A repeat on a group with a repeat or an alternation is refused as such. */
  lemma RepeatedAmbiguousGroup(rest: string)
    requires rest != "" && rest[0] in {'*', '+', '?'}
    ensures Scan("(a+)" + rest, START) == Rejected(AmbiguousRepeat)
    ensures Scan("(a|b)" + rest, START) == Rejected(AmbiguousRepeat)
  {
    hide Scan, Step;
    var one, two, bar := State([false], 0, false), State([true], 1, false), State([true], 0, false);
    OpensPlain("(a+)" + rest, START);
    TokenIsRead("a+)" + rest, one);
    TokenIsRead("+)" + rest, one);
    Reads("(a+)" + rest, START, 1, one, "a+)" + rest);
    Reads("a+)" + rest, one, 1, one, "+)" + rest);
    Reads("+)" + rest, one, 1, two, ")" + rest);
    AmbiguousCloses(rest, 1);
    OpensPlain("(a|b)" + rest, START);
    TokenIsRead("a|b)" + rest, one);
    TokenIsRead("|b)" + rest, one);
    TokenIsRead("b)" + rest, bar);
    Reads("(a|b)" + rest, START, 1, one, "a|b)" + rest);
    Reads("a|b)" + rest, one, 1, one, "|b)" + rest);
    Reads("|b)" + rest, one, 1, bar, "b)" + rest);
    Reads("b)" + rest, bar, 1, bar, ")" + rest);
    AmbiguousCloses(rest, 0);
  }

  lemma Halts(s: string, st: State)
    requires s != "" && Step(s, st).Stop?
    ensures Scan(s, st) == Rejected(Step(s, st).why)
  {
    hide Step;
  }

  /** A parenthesis that closes nothing, and a group that is never closed. */
  lemma UnmatchedParentheses(rest: string)
    ensures Scan(")" + rest, START) == Rejected(UnbalancedClose)
    ensures (forall i | 0 <= i < |rest| :: rest[i] == 'a') ==> Scan("(" + rest, START) == Rejected(UnclosedGroup)
  {
    hide Scan, Brace, NamedPrefix;
    Halts(")" + rest, START);
    if forall i | 0 <= i < |rest| :: rest[i] == 'a' {
      OpensPlain("(" + rest, START);
      Reads("(" + rest, START, 1, State([false], 0, false), rest);
      LettersRead(rest, State([false], 0, false));
    }
  }

  lemma {:induction false} LettersRead(s: string, st: State)
    requires !st.blocked && forall i | 0 <= i < |s| :: s[i] == 'a'
    ensures Scan(s, st) == Finish(st)
    decreases |s|
  {
    if s != "" {
      LettersRead(s[1..], st);
    }
  }
}
