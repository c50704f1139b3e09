/**
 * The patterns that rules are written in, as trees, with a printer; and the theorem that
 * the scanner decides a structural property of the tree from its printed text.
 */
module RegexSyntax {
  import opened Common
  import opened RegexScanner

  datatype ClassItem = Plain(c: char) | Quoted(c: char)

  datatype Atom =
    | Char(c: char)     // a literal, or one of . ^ $
    | Escape(c: char)
    | Class(negated: bool, leadingBracket: bool, items: seq<ClassItem>)

  datatype GroupStyle = Capturing | NonCapturing | Named(name: string)

  /** Repeat counts are kept as the digits that were written. `Between("", "")` is the bare `{,}`. */
  datatype Quantifier = Star | Plus | Optional | Exactly(count: string) | Between(least: string, most: string)

  datatype Regex =
    | Empty
    | Single(atom: Atom)
    | Group(style: GroupStyle, body: Regex)
    | Repeat(body: Regex, quantifier: Quantifier, lazy: bool)
    | Cat(first: Regex, second: Regex)
    | Alt(left: Regex, right: Regex)

  // ----- well-formed trees -----

  predicate IsSpecial(c: char) {
    c in {'\\', '[', '(', ')', '|', '*', '+', '?', '{'}
  }

  predicate WellFormedItem(item: ClassItem) {
    item.Plain? ==> item.c != ']' && item.c != '\\'
  }

  predicate WellFormedAtom(a: Atom) {
    match a
    case Char(c) => !IsSpecial(c)
    case Escape(c) => !IsDigit(c)
    case Class(negated, leading, items) =>
      && (forall i | 0 <= i < |items| :: WellFormedItem(items[i]))
      && (!leading ==> items != [] && (!negated ==> items[0] != Plain('^')))
  }

  predicate WellFormedStyle(s: GroupStyle) {
    s.Named? ==> s.name != "" && forall i | 0 <= i < |s.name| :: IsWord(s.name[i])
  }

  predicate WellFormedQuantifier(q: Quantifier) {
    match q
    case Exactly(count) => count != "" && AllDigits(count)
    case Between(least, most) => AllDigits(least) && AllDigits(most)
    case _ => true
  }

  /** A tree that prints to a pattern with the tree's own structure. */
  predicate WellFormed(e: Regex) {
    match e
    case Empty => true
    case Single(a) => WellFormedAtom(a)
    case Group(style, body) => WellFormedStyle(style) && WellFormed(body)
    case Repeat(body, q, _) => (body.Single? || body.Group?) && WellFormedQuantifier(q) && WellFormed(body)
    case Cat(first, second) => !first.Alt? && !second.Alt? && WellFormed(first) && WellFormed(second)
    case Alt(left, right) => WellFormed(left) && WellFormed(right)
  }

  // ----- printing -----

  function PrintItems(items: seq<ClassItem>): string {
    if items == [] then ""
    else (match items[0] case Plain(c) => [c] case Quoted(c) => ['\\', c]) + PrintItems(items[1..])
  }

  function PrintAtom(a: Atom): string {
    match a
    case Char(c) => [c]
    case Escape(c) => ['\\', c]
    case Class(negated, leading, items) =>
      (if negated then "[^" else "[") + (if leading then "]" else "") + PrintItems(items) + "]"
  }

  function PrintOpen(s: GroupStyle): string {
    match s
    case Capturing => "("
    case NonCapturing => "(?:"
    case Named(name) => "(?P<" + name + ">"
  }

  /** The text between the braces of a counted repeat. */
  function CountText(q: Quantifier): string
    requires q.Exactly? || q.Between?
  {
    match q
    case Exactly(count) => count
    case Between(least, most) => least + "," + most
  }

  function PrintQuantifier(q: Quantifier): string {
    match q
    case Star => "*"
    case Plus => "+"
    case Optional => "?"
    case _ => "{" + CountText(q) + "}"
  }

  /** The text of a lazy mark. */
  function LazyMark(lazy: bool): string {
    if lazy then "?" else ""
  }

  function Print(e: Regex): string {
    match e
    case Empty => ""
    case Single(a) => PrintAtom(a)
    case Group(style, body) => PrintOpen(style) + Print(body) + ")"
    case Repeat(body, q, lazy) => Print(body) + PrintQuantifier(q) + LazyMark(lazy)
    case Cat(first, second) => Print(first) + Print(second)
    case Alt(left, right) => Print(left) + "|" + Print(right)
  }

  // ----- the structural property -----

  /** Contains a repeat or an alternation, at any depth. */
  predicate Ambiguous(e: Regex) {
    match e
    case Empty => false
    case Single(_) => false
    case Group(_, body) => Ambiguous(body)
    case Repeat(_, _, _) => true
    case Cat(first, second) => Ambiguous(first) || Ambiguous(second)
    case Alt(_, _) => true
  }

  /** No repeat is applied to anything that contains a repeat or an alternation. */
  predicate RepeatsAreFlat(e: Regex) {
    match e
    case Empty => true
    case Single(_) => true
    case Group(_, body) => RepeatsAreFlat(body)
    case Repeat(body, _, _) => !Ambiguous(body) && RepeatsAreFlat(body)
    case Cat(first, second) => RepeatsAreFlat(first) && RepeatsAreFlat(second)
    case Alt(left, right) => RepeatsAreFlat(left) && RepeatsAreFlat(right)
  }

  predicate CountIsSmall(q: Quantifier)
    requires WellFormedQuantifier(q)
  {
    match q
    case Exactly(count) => Value(count) <= MAX_REPETITION
    case Between(least, most) => Value(least) <= MAX_REPETITION && Value(most) <= MAX_REPETITION
    case _ => true
  }

  predicate CountsAreSmall(e: Regex) {
    match e
    case Empty => true
    case Single(_) => true
    case Group(_, body) => CountsAreSmall(body)
    case Repeat(body, q, _) => WellFormedQuantifier(q) && CountIsSmall(q) && CountsAreSmall(body)
    case Cat(first, second) => CountsAreSmall(first) && CountsAreSmall(second)
    case Alt(left, right) => CountsAreSmall(left) && CountsAreSmall(right)
  }

  /** Quantifiers as the scanner counts them: a lazy mark after braces is counted once more. */
  function Counted(e: Regex): nat {
    match e
    case Empty => 0
    case Single(_) => 0
    case Group(_, body) => Counted(body)
    case Repeat(body, q, lazy) => Counted(body) + (if lazy && (q.Exactly? || q.Between?) then 2 else 1)
    case Cat(first, second) => Counted(first) + Counted(second)
    case Alt(left, right) => Counted(left) + Counted(right)
  }

  predicate Safe(e: Regex) {
    RepeatsAreFlat(e) && CountsAreSmall(e) && Counted(e) <= MAX_QUANTIFIERS
  }

  // ----- the bare brace -----

  predicate IsBare(q: Quantifier) {
    q == Between("", "")
  }

  predicate NoBareBraces(e: Regex) {
    match e
    case Empty => true
    case Single(_) => true
    case Group(_, body) => NoBareBraces(body)
    case Repeat(body, q, _) => !IsBare(q) && NoBareBraces(body)
    case Cat(first, second) => NoBareBraces(first) && NoBareBraces(second)
    case Alt(left, right) => NoBareBraces(left) && NoBareBraces(right)
  }

  /** The three characters `{,}` taken as literal text, with a lazy mark read as `?` on the last. */
  function LiteralBraces(lazy: bool): Regex {
    var last := Single(Char('}'));
    Cat(Single(Char('{')), Cat(Single(Char(',')), if lazy then Repeat(last, Optional, false) else last))
  }

  lemma LiteralBracesAreHarmless(lazy: bool)
    ensures Ambiguous(LiteralBraces(lazy)) == lazy
    ensures RepeatsAreFlat(LiteralBraces(lazy)) && CountsAreSmall(LiteralBraces(lazy))
    ensures Counted(LiteralBraces(lazy)) == if lazy then 1 else 0
  {
    var tail := LiteralBraces(lazy).second;
    assert Ambiguous(tail) == lazy && RepeatsAreFlat(tail) && CountsAreSmall(tail);
    assert Counted(tail) == if lazy then 1 else 0;
  }

  /** The tree the scanner works on: as written, except that a bare `{,}` is literal text. */
  function AsRead(e: Regex): Regex {
    match e
    case Empty => e
    case Single(_) => e
    case Group(style, body) => Group(style, AsRead(body))
    case Repeat(body, q, lazy) =>
      if IsBare(q) then Cat(AsRead(body), LiteralBraces(lazy)) else Repeat(AsRead(body), q, lazy)
    case Cat(first, second) => Cat(AsRead(first), AsRead(second))
    case Alt(left, right) => Alt(AsRead(left), AsRead(right))
  }

  lemma {:induction false} AsReadUnchanged(e: Regex)
    ensures AsRead(e) == e <==> NoBareBraces(e)
  {
    match e {
      case Empty =>
      case Single(_) =>
      case Group(_, body) => AsReadUnchanged(body);
      case Repeat(body, _, _) => AsReadUnchanged(body);
      case Cat(first, second) => AsReadUnchanged(first); AsReadUnchanged(second);
      case Alt(left, right) => AsReadUnchanged(left); AsReadUnchanged(right);
    }
  }

  // ----- scanning printed text -----

  /** The next character would be taken as a quantifier, or open a counted repeat. */
  predicate StartsQuantifier(s: string) {
    s != "" && s[0] in {'*', '+', '?', '{'}
  }

  /** The scanner's state after reading `e`, when it does not reject. */
  function After(e: Regex, st: State): State {
    State(Mark(st.groups, Ambiguous(AsRead(e))), st.quantifiers + Counted(AsRead(e)),
          e.Group? && Ambiguous(AsRead(e)))
  }

  lemma BlockedIsRead(s: string, st: State, b: bool)
    requires !StartsQuantifier(s)
    ensures Scan(s, st.(blocked := b)) == Scan(s, st)
  {}

  lemma JoinStarts(a: string, b: string)
    requires !StartsQuantifier(a) && !StartsQuantifier(b)
    ensures !StartsQuantifier(a + b)
    ensures a != "" ==> a + b != ""
  {
    if a != "" {
      assert (a + b)[0] == a[0];
    }
  }

  lemma Regroup(a: string, b: string, c: string)
    ensures (a + b) + c == a + (b + c)
  {}

  lemma {:induction false} PrintStartsNoQuantifier(e: Regex)
    requires WellFormed(e)
    ensures !StartsQuantifier(Print(e))
    ensures e.Single? || e.Group? ==> Print(e) != ""
  {
    match e {
      case Empty =>
      case Single(a) =>
      case Group(style, body) => assert PrintOpen(style)[0] == '(';
      case Repeat(body, q, lazy) =>
        PrintStartsNoQuantifier(body);
        assert (Print(body) + PrintQuantifier(q))[0] == Print(body)[0];
      case Cat(first, second) =>
        PrintStartsNoQuantifier(first);
        PrintStartsNoQuantifier(second);
        JoinStarts(Print(first), Print(second));
      case Alt(left, right) =>
        PrintStartsNoQuantifier(left);
        JoinStarts(Print(left), "|");
    }
  }

  /** Inside a class, the search for `]` steps over the printed items and stops at the bracket. */
  lemma {:induction false} CloseAfterItems(head: string, items: seq<ClassItem>, rest: string)
    requires forall i | 0 <= i < |items| :: WellFormedItem(items[i])
    ensures ClassClose(head + PrintItems(items) + "]" + rest, |head|) == |head| + |PrintItems(items)|
    decreases items
  {
    var s := head + PrintItems(items) + "]" + rest;
    if items == [] {
      assert s[|head|] == ']';
    } else {
      var first := match items[0] case Plain(c) => [c] case Quoted(c) => ['\\', c];
      assert WellFormedItem(items[0]);
      assert s == (head + first) + PrintItems(items[1..]) + "]" + rest;
      assert s[|head|] == first[0];
      CloseAfterItems(head + first, items[1..], rest);
    }
  }

  lemma StepOverAtom(a: Atom, rest: string, st: State)
    requires WellFormedAtom(a)
    ensures PrintAtom(a) != "" && Step(PrintAtom(a) + rest, st) == Advance(|PrintAtom(a)|, st.(blocked := false))
  {
    var s := PrintAtom(a) + rest;
    match a {
      case Char(c) => assert s[0] == c;
      case Escape(c) => assert s[0] == '\\' && s[1] == c;
      case Class(negated, leading, items) =>
        var head := (if negated then "[^" else "[") + (if leading then "]" else "");
        assert s == head + PrintItems(items) + "]" + rest;
        CloseAfterItems(head, items, rest);
        assert s[0] == '[';
        assert negated <==> s[1] == '^' by {
          if !negated {
            if leading {
              assert s[1] == ']';
            } else {
              assert WellFormedItem(items[0]);
              assert s[1] == PrintItems(items)[0];
            }
          }
        }
        assert ClassStart(s) == |head| by {
          if leading {
            assert s[|head| - 1] == ']';
          } else {
            assert WellFormedItem(items[0]);
            assert s[|head|] == PrintItems(items)[0] != ']';
          }
        }
    }
  }

  lemma {:induction false} WordRun(s: string, i: nat, k: nat)
    requires i <= k < |s| && !IsWord(s[k]) && forall j | i <= j < k :: IsWord(s[j])
    ensures WordEnd(s, i) == k
    decreases k - i
  {
    if i < k {
      WordRun(s, i + 1, k);
    }
  }

  lemma StepOverOpen(style: GroupStyle, rest: string, st: State)
    requires WellFormedStyle(style)
    requires rest != "" && rest[0] != '?'
    ensures Step(PrintOpen(style) + rest, st)
         == Advance(|PrintOpen(style)|, State(st.groups + [false], st.quantifiers, false))
  {
    var s := PrintOpen(style) + rest;
    assert s[0] == '(';
    match style {
      case Capturing => assert s[1] == rest[0];
      case NonCapturing => assert s[1] == '?' && s[2] == ':';
      case Named(name) =>
        assert s[1] == '?' && s[2] == 'P' && s[3] == '<';
        forall j | 4 <= j < 4 + |name| ensures IsWord(s[j]) {
          assert s[j] == name[j - 4];
        }
        assert s[4 + |name|] == '>';
        WordRun(s, 4, 4 + |name|);
    }
  }

  lemma CountTextIsCount(q: Quantifier)
    requires WellFormedQuantifier(q) && (q.Exactly? || q.Between?)
    ensures '}' !in CountText(q)
    ensures IsCount(CountText(q)) <==> !IsBare(q)
    ensures !IsBare(q) ==> (CountFits(CountText(q)) <==> CountIsSmall(q))
  {
    var body := CountText(q);
    match q {
      case Exactly(count) =>
        var k := IndexOf(body, ',');
        assert k < 0;
      case Between(least, most) =>
        assert body == least + [','] + most;
        IndexOfPrefix(least, ',', most);
        var k := IndexOf(body, ',');
        assert body[..k] == least && body[k + 1..] == most;
    }
  }

  lemma FindClosingBrace(body: string, rest: string)
    requires '}' !in body
    ensures var s := "{" + body + "}" + rest; IndexOf(s, '}') == |body| + 1 && s[1..|body| + 1] == body
  {
    assert "{" + body + "}" + rest == (['{'] + body) + ['}'] + rest;
    IndexOfPrefix(['{'] + body, '}', rest);
  }

  lemma StepOverBraces(q: Quantifier, rest: string, st: State)
    requires WellFormedQuantifier(q) && (q.Exactly? || q.Between?)
    ensures Step(PrintQuantifier(q) + rest, st) ==
      if IsBare(q) then Advance(1, st.(blocked := false))
      else if st.blocked then Stop(AmbiguousRepeat)
      else if !CountIsSmall(q) then Stop(RepetitionTooLarge)
      else Advance(|PrintQuantifier(q)|, State(Mark(st.groups, true), st.quantifiers + 1, false))
  {
    hide IndexOf, IsCount, CountFits, CountIsSmall, CountText, IsBare, OpenGroup;
    var body := CountText(q);
    var s := PrintQuantifier(q) + rest;
    CountTextIsCount(q);
    FindClosingBrace(body, rest);
    assert s == "{" + body + "}" + rest && s[0] == '{';
  }

  /** Rewrites one `Step` into one unfolding of `Scan`. */
  lemma ScanStep(head: string, rest: string, st: State, next: State)
    requires head != "" && Step(head + rest, st) == Advance(|head|, next)
    ensures Scan(head + rest, st) == Scan(rest, next)
  {
    assert (head + rest)[|head|..] == rest;
  }

  lemma ScanStop(s: string, st: State)
    requires s != "" && Step(s, st).Stop?
    ensures Scan(s, st) == Rejected(Step(s, st).why)
  {}

  lemma ScanEnd(st: State)
    ensures Scan("", st) == Finish(st)
  {}

  lemma MarkTwice(groups: seq<bool>, a: bool, b: bool)
    ensures Mark(Mark(groups, a), b) == Mark(groups, a || b)
  {}

  lemma StepOverSymbol(q: Quantifier, lazy: bool, rest: string, st: State)
    requires (q.Star? || q.Plus? || q.Optional?) && !StartsQuantifier(rest)
    ensures Step(PrintQuantifier(q) + LazyMark(lazy) + rest, st) ==
      if st.blocked then Stop(AmbiguousRepeat)
      else Advance(|PrintQuantifier(q) + LazyMark(lazy)|, State(Mark(st.groups, true), st.quantifiers + 1, false))
  {
    var head := PrintQuantifier(q) + LazyMark(lazy);
    var s := head + rest;
    assert s[0] == head[0];
    if lazy {
      assert s[1] == '?';
    } else if rest != "" {
      assert s[1] == rest[0];
    }
  }

  /** Reading a one-character quantifier, with or without its lazy mark. */
  lemma ScanSymbol(q: Quantifier, lazy: bool, rest: string, st: State)
    requires (q.Star? || q.Plus? || q.Optional?) && !StartsQuantifier(rest)
    ensures Scan(PrintQuantifier(q) + LazyMark(lazy) + rest, st) ==
      if st.blocked then Rejected(AmbiguousRepeat)
      else Scan(rest, State(Mark(st.groups, true), st.quantifiers + 1, false))
  {
    hide Scan;
    StepOverSymbol(q, lazy, rest, st);
    hide Step;
    if st.blocked {
      ScanStop(PrintQuantifier(q) + LazyMark(lazy) + rest, st);
    } else {
      ScanStep(PrintQuantifier(q) + LazyMark(lazy), rest, st, State(Mark(st.groups, true), st.quantifiers + 1, false));
    }
  }

  /** A lazy mark after a token that is no quantifier symbol is read as a quantifier of its own. */
  lemma ScanLazyMark(lazy: bool, rest: string, st: State)
    requires !StartsQuantifier(rest) && !st.blocked
    ensures Scan(LazyMark(lazy) + rest, st)
         == Scan(rest, State(Mark(st.groups, lazy), st.quantifiers + (if lazy then 1 else 0), false))
  {
    hide Scan;
    if lazy {
      ScanSymbol(Optional, false, rest, st);
      assert LazyMark(lazy) + rest == PrintQuantifier(Optional) + LazyMark(false) + rest;
    } else {
      assert LazyMark(lazy) + rest == rest;
    }
  }

  /** Reading a counted repeat that is not the bare one. */
  lemma ScanBraces(q: Quantifier, tail: string, st: State)
    requires WellFormedQuantifier(q) && (q.Exactly? || q.Between?) && !IsBare(q)
    ensures Scan(PrintQuantifier(q) + tail, st) ==
      if st.blocked then Rejected(AmbiguousRepeat)
      else if !CountIsSmall(q) then Rejected(RepetitionTooLarge)
      else Scan(tail, State(Mark(st.groups, true), st.quantifiers + 1, false))
  {
    hide Scan;
    StepOverBraces(q, tail, st);
    hide Step;
    if st.blocked || !CountIsSmall(q) {
      ScanStop(PrintQuantifier(q) + tail, st);
    } else {
      ScanStep(PrintQuantifier(q), tail, st, State(Mark(st.groups, true), st.quantifiers + 1, false));
    }
  }

  lemma ScanPlain(c: char, tail: string, st: State)
    requires !IsSpecial(c)
    ensures Scan([c] + tail, st) == Scan(tail, st.(blocked := false))
  {
    hide Scan;
    assert ([c] + tail)[0] == c;
    ScanStep([c], tail, st, st.(blocked := false));
  }

  /** Reading the bare `{,}`: three literal characters. */
  lemma ScanBare(tail: string, st: State)
    ensures Scan(PrintQuantifier(Between("", "")) + tail, st) == Scan(tail, st.(blocked := false))
  {
    hide Scan;
    var q := Between("", "");
    var st' := st.(blocked := false);
    StepOverBraces(q, tail, st);
    assert PrintQuantifier(q) + tail == ['{'] + ([','] + (['}'] + tail));
    ScanStep(['{'], [','] + (['}'] + tail), st, st');
    ScanPlain(',', ['}'] + tail, st');
    ScanPlain('}', tail, st');
  }

  /** Reading any quantifier and its lazy mark. */
  lemma ScanQuantifier(q: Quantifier, lazy: bool, rest: string, st: State)
    requires WellFormedQuantifier(q) && !StartsQuantifier(rest)
    ensures Scan(PrintQuantifier(q) + (LazyMark(lazy) + rest), st) ==
      if IsBare(q) then Scan(rest, State(Mark(st.groups, lazy), st.quantifiers + (if lazy then 1 else 0), false))
      else if st.blocked then Rejected(AmbiguousRepeat)
      else if !CountIsSmall(q) then Rejected(RepetitionTooLarge)
      else Scan(rest, State(Mark(st.groups, true),
                            st.quantifiers + (if lazy && (q.Exactly? || q.Between?) then 2 else 1), false))
  {
    hide Scan;
    if IsBare(q) {
      ScanBare(LazyMark(lazy) + rest, st);
      ScanLazyMark(lazy, rest, st.(blocked := false));
    } else if q.Exactly? || q.Between? {
      ScanBraces(q, LazyMark(lazy) + rest, st);
      ScanLazyMark(lazy, rest, State(Mark(st.groups, true), st.quantifiers + 1, false));
      MarkTwice(st.groups, true, lazy);
    } else {
      Regroup(PrintQuantifier(q), LazyMark(lazy), rest);
      ScanSymbol(q, lazy, rest, st);
    }
  }

  /** What scanning the text of `e`, followed by `rest`, comes to. */
  predicate ScansTo(e: Regex, rest: string, st: State) {
    if RepeatsAreFlat(AsRead(e)) && CountsAreSmall(AsRead(e))
    then Scan(Print(e) + rest, st) == Scan(rest, After(e, st))
    else Scan(Print(e) + rest, st).Rejected?
  }

  lemma {:induction false} ScanPrinted(e: Regex, rest: string, st: State)
    requires WellFormed(e)
    requires e.Single? || e.Group? || !StartsQuantifier(rest)
    ensures ScansTo(e, rest, st)
    decreases e, 1
  {
    hide Scan;
    match e {
      case Empty =>
        assert Print(e) + rest == rest;
        BlockedIsRead(rest, st, false);
      case Single(a) =>
        StepOverAtom(a, rest, st);
        ScanStep(PrintAtom(a), rest, st, After(e, st));
      case Group(_, _) => ScanGroup(e, rest, st);
      case Repeat(_, _, _) => ScanRepeat(e, rest, st);
      case Cat(_, _) => ScanCat(e, rest, st);
      case Alt(_, _) => ScanAlt(e, rest, st);
    }
  }

  lemma PrintedTail(e: Regex, rest: string)
    ensures match e
      case Group(style, body) => Print(e) + rest == PrintOpen(style) + (Print(body) + (")" + rest))
      case Repeat(body, q, lazy) => Print(e) + rest == Print(body) + (PrintQuantifier(q) + (LazyMark(lazy) + rest))
      case Cat(first, second) => Print(e) + rest == Print(first) + (Print(second) + rest)
      case Alt(left, right) => Print(e) + rest == Print(left) + ("|" + (Print(right) + rest))
      case _ => true
  {
    match e {
      case Group(style, body) =>
        Regroup(PrintOpen(style), Print(body), ")");
        Regroup(PrintOpen(style), Print(body) + ")", rest);
        Regroup(Print(body), ")", rest);
      case Repeat(body, q, lazy) =>
        Regroup(Print(body), PrintQuantifier(q), LazyMark(lazy));
        Regroup(Print(body), PrintQuantifier(q) + LazyMark(lazy), rest);
        Regroup(PrintQuantifier(q), LazyMark(lazy), rest);
      case Cat(first, second) => Regroup(Print(first), Print(second), rest);
      case Alt(left, right) =>
        Regroup(Print(left), "|", Print(right));
        Regroup(Print(left), "|" + Print(right), rest);
        Regroup("|", Print(right), rest);
      case _ =>
    }
  }

  lemma {:induction false} ScanCat(e: Regex, rest: string, st: State)
    requires WellFormed(e) && e.Cat? && !StartsQuantifier(rest)
    ensures ScansTo(e, rest, st)
    decreases e, 0
  {
    hide Scan;
    var Cat(first, second) := e;
    PrintedTail(e, rest);
    PrintStartsNoQuantifier(second);
    JoinStarts(Print(second), rest);
    ScanPrinted(first, Print(second) + rest, st);
    hide Print;
    var mid := After(first, st);
    ScanPrinted(second, rest, mid);
    MarkTwice(st.groups, Ambiguous(AsRead(first)), Ambiguous(AsRead(second)));
    assert After(second, mid) == After(e, st).(blocked := After(second, mid).blocked);
    BlockedIsRead(rest, After(e, st), After(second, mid).blocked);
  }

  lemma BarIsRead(tail: string, st: State)
    ensures Scan("|" + tail, st) == Scan(tail, State(Mark(st.groups, true), st.quantifiers, false))
  {
    hide Scan;
    ScanStep("|", tail, st, State(Mark(st.groups, true), st.quantifiers, false));
  }

  lemma {:induction false} ScanAlt(e: Regex, rest: string, st: State)
    requires WellFormed(e) && e.Alt? && !StartsQuantifier(rest)
    ensures ScansTo(e, rest, st)
    decreases e, 0
  {
    hide Scan, Step;
    var Alt(left, right) := e;
    PrintedTail(e, rest);
    var tail := Print(right) + rest;
    ScanPrinted(left, "|" + tail, st);
    hide Print;
    var mid := After(left, st);
    var next := State(Mark(mid.groups, true), mid.quantifiers, false);
    BarIsRead(tail, mid);
    ScanPrinted(right, rest, next);
    MarkTwice(st.groups, Ambiguous(AsRead(left)), true);
    MarkTwice(st.groups, true, Ambiguous(AsRead(right)));
    BlockedIsRead(rest, After(e, st), After(right, next).blocked);
  }

  lemma {:induction false} ScanGroup(e: Regex, rest: string, st: State)
    requires WellFormed(e) && e.Group?
    ensures ScansTo(e, rest, st)
    decreases e, 0
  {
    hide Scan, Print, StartsQuantifier, AsRead, RepeatsAreFlat, Ambiguous, CountsAreSmall, Counted, Mark;
    var body := e.body;
    var inside := State(st.groups + [false], st.quantifiers, false);
    OpenGroupOf(e, rest, st);
    GroupAsRead(e);
    ParenthesisStartsNoQuantifier(rest);
    ScanPrinted(body, ")" + rest, inside);
    if RepeatsAreFlat(AsRead(body)) && CountsAreSmall(AsRead(body)) {
      CloseGroup(st.groups, Ambiguous(AsRead(body)), After(body, inside), rest);
    }
  }

  /** Reading up to the first character of a group's body. */
  lemma OpenGroupOf(e: Regex, rest: string, st: State)
    requires WellFormed(e) && e.Group?
    ensures Scan(Print(e) + rest, st)
         == Scan(Print(e.body) + (")" + rest), State(st.groups + [false], st.quantifiers, false))
  {
    hide Scan, Step, PrintOpen, WellFormedStyle;
    var Group(style, body) := e;
    var tail := Print(body) + (")" + rest);
    PrintedTail(e, rest);
    PrintStartsNoQuantifier(body);
    ParenthesisStartsNoQuantifier(rest);
    JoinStarts(Print(body), ")" + rest);
    assert tail != "" && tail[0] != '?';
    StepOverOpen(style, tail, st);
    ScanStep(PrintOpen(style), tail, st, State(st.groups + [false], st.quantifiers, false));
  }

  lemma ParenthesisStartsNoQuantifier(rest: string)
    ensures !StartsQuantifier(")" + rest)
  {}

  /** A group is read as a group, with the properties of its body. */
  lemma GroupAsRead(e: Regex)
    requires e.Group?
    ensures var r, b := AsRead(e), AsRead(e.body);
      && Ambiguous(r) == Ambiguous(b) && RepeatsAreFlat(r) == RepeatsAreFlat(b)
      && CountsAreSmall(r) == CountsAreSmall(b) && Counted(r) == Counted(b)
      && r.Group?
  {}

  /** The closing parenthesis drops the group's flag and passes it outwards. */
  lemma CloseGroup(groups: seq<bool>, ambiguous: bool, end: State, rest: string)
    requires end.groups == Mark(groups + [false], ambiguous)
    ensures Scan(")" + rest, end) == Scan(rest, State(Mark(groups, ambiguous), end.quantifiers, ambiguous))
  {
    hide Scan;
    assert end.groups == groups + [ambiguous];
    assert end.groups[..|end.groups| - 1] == groups;
    ScanStep(")", rest, end, State(Mark(groups, ambiguous), end.quantifiers, ambiguous));
  }

  /** What the properties of a repeat, as it is read, come from. */
  lemma RepeatAsRead(e: Regex)
    requires e.Repeat? && WellFormed(e)
    ensures e.body.Single? ==> !Ambiguous(AsRead(e.body))
    ensures var r, b := AsRead(e), AsRead(e.body);
      if IsBare(e.quantifier) then
        && Ambiguous(r) == (Ambiguous(b) || e.lazy) && RepeatsAreFlat(r) == RepeatsAreFlat(b)
        && CountsAreSmall(r) == CountsAreSmall(b) && Counted(r) == Counted(b) + (if e.lazy then 1 else 0)
      else
        && Ambiguous(r) && RepeatsAreFlat(r) == (!Ambiguous(b) && RepeatsAreFlat(b))
        && CountsAreSmall(r) == (CountIsSmall(e.quantifier) && CountsAreSmall(b))
        && Counted(r) == Counted(b) + (if e.lazy && (e.quantifier.Exactly? || e.quantifier.Between?) then 2 else 1)
  {
    LiteralBracesAreHarmless(e.lazy);
  }

  lemma {:induction false} ScanRepeat(e: Regex, rest: string, st: State)
    requires WellFormed(e) && e.Repeat? && !StartsQuantifier(rest)
    ensures ScansTo(e, rest, st)
    decreases e, 0
  {
    hide Scan, Print, PrintQuantifier, StartsQuantifier, LazyMark, AsRead, RepeatsAreFlat, Ambiguous, CountsAreSmall,
      Counted, Mark, CountIsSmall, IsBare;
    var Repeat(body, q, lazy) := e;
    var tail := PrintQuantifier(q) + (LazyMark(lazy) + rest);
    PrintedTail(e, rest);
    RepeatAsRead(e);
    ScanPrinted(body, tail, st);
    if RepeatsAreFlat(AsRead(body)) && CountsAreSmall(AsRead(body)) {
      ScanQuantifier(q, lazy, rest, After(body, st));
      MarkTwice(st.groups, Ambiguous(AsRead(body)), true);
      MarkTwice(st.groups, Ambiguous(AsRead(body)), lazy);
    }
  }

  /**
   * The scanner accepts the printed text of a pattern exactly when the pattern, as the
   * scanner reads it, is safe.
   */
  lemma ScannerDecidesSafety(e: Regex)
    requires WellFormed(e)
    ensures Scan(Print(e), START).Accepted? <==> Safe(AsRead(e))
  {
    hide Scan, Print, AsRead, RepeatsAreFlat, Ambiguous, CountsAreSmall, Counted;
    ScanPrinted(e, "", START);
    assert Print(e) + "" == Print(e);
    ScanEnd(After(e, START));
  }

  /** Without the bare `{,}` there is nothing to misread: the pattern itself is safe. */
  lemma ScannerDecidesSafetyOfPatternsWithoutBareBraces(e: Regex)
    requires WellFormed(e) && NoBareBraces(e)
    ensures Scan(Print(e), START).Accepted? <==> Safe(e)
  {
    ScannerDecidesSafety(e);
    AsReadUnchanged(e);
  }

  /** With it, `(a+){,}` is accepted, although a repeat sits on a group that holds a repeat. */
  lemma BareBracesAreNotSeen()
    ensures var e := Repeat(Group(Capturing, Repeat(Single(Char('a')), Plus, false)), Between("", ""), false);
      WellFormed(e) && Print(e) == "(a+){,}" && Scan(Print(e), START).Accepted? && !Safe(e)
  {
    hide Scan;
    var inner := Repeat(Single(Char('a')), Plus, false);
    var e := Repeat(Group(Capturing, inner), Between("", ""), false);
    LettersRepeated(inner);
    RepeatAsRead(e);
    ScannerDecidesSafety(e);
  }

  lemma LettersRepeated(inner: Regex)
    requires inner == Repeat(Single(Char('a')), Plus, false)
    ensures WellFormed(inner) && Print(inner) == "a+" && Counted(inner) == 1 && Ambiguous(inner)
    ensures AsRead(Group(Capturing, inner)) == Group(Capturing, inner)
    ensures RepeatsAreFlat(inner) && CountsAreSmall(inner)
  {
    hide Scan;
  }

  /** The scanner never turns away a pattern that is safe. */
  lemma {:induction false} SafeIsReadAsSafe(e: Regex)
    requires WellFormed(e)
    ensures Ambiguous(AsRead(e)) ==> Ambiguous(e)
    ensures RepeatsAreFlat(e) ==> RepeatsAreFlat(AsRead(e))
    ensures CountsAreSmall(e) ==> CountsAreSmall(AsRead(e))
    ensures Counted(AsRead(e)) <= Counted(e)
  {
    match e {
      case Empty =>
      case Single(_) =>
      case Group(_, body) => SafeIsReadAsSafe(body);
      case Repeat(body, _, lazy) =>
        SafeIsReadAsSafe(body);
        LiteralBracesAreHarmless(lazy);
      case Cat(first, second) => SafeIsReadAsSafe(first); SafeIsReadAsSafe(second);
      case Alt(left, right) => SafeIsReadAsSafe(left); SafeIsReadAsSafe(right);
    }
  }

  /**
   * Misreading `{,}` hides nothing: each one sits on a body that is not ambiguous, and every
   * other repeat whose body is ambiguous is seen to be so.
   */
  predicate Harmless(e: Regex) {
    match e
    case Empty => true
    case Single(_) => true
    case Group(_, body) => Harmless(body)
    case Repeat(body, q, _) =>
      Harmless(body) && (Ambiguous(body) ==> !IsBare(q) && Ambiguous(AsRead(body)))
    case Cat(first, second) => Harmless(first) && Harmless(second)
    case Alt(left, right) => Harmless(left) && Harmless(right)
  }

  /** The scanner sees every repeat on an ambiguous body exactly when the misreading is harmless. */
  lemma {:induction false} FlatAsWritten(e: Regex)
    requires WellFormed(e)
    ensures RepeatsAreFlat(e) <==> RepeatsAreFlat(AsRead(e)) && Harmless(e)
    ensures CountsAreSmall(e) <==> CountsAreSmall(AsRead(e))
  {
    match e {
      case Empty =>
      case Single(_) =>
      case Group(_, body) => FlatAsWritten(body);
      case Repeat(body, q, _) =>
        FlatAsWritten(body);
        SafeIsReadAsSafe(body);
        RepeatAsWritten(e);
      case Cat(first, second) => FlatAsWritten(first); FlatAsWritten(second);
      case Alt(left, right) => FlatAsWritten(left); FlatAsWritten(right);
    }
  }

  lemma RepeatAsWritten(e: Regex)
    requires WellFormed(e) && e.Repeat?
    requires RepeatsAreFlat(e.body) <==> RepeatsAreFlat(AsRead(e.body)) && Harmless(e.body)
    requires CountsAreSmall(e.body) <==> CountsAreSmall(AsRead(e.body))
    requires Ambiguous(AsRead(e.body)) ==> Ambiguous(e.body)
    ensures RepeatsAreFlat(e) <==> RepeatsAreFlat(AsRead(e)) && Harmless(e)
    ensures CountsAreSmall(e) <==> CountsAreSmall(AsRead(e))
  {
    hide AsRead;
    RepeatAsRead(e);
    BareIsSmall();
  }

  lemma BareIsSmall()
    ensures CountIsSmall(Between("", ""))
  {}

  /**
   * Which accepted patterns are safe as written: exactly those in which the misreading of
   * `{,}` is harmless and the repeats written are no more than the scanner would allow.
   */
  lemma AcceptedIsSafeExactly(e: Regex)
    requires WellFormed(e) && Scan(Print(e), START).Accepted?
    ensures Safe(e) <==> Harmless(e) && Counted(e) <= MAX_QUANTIFIERS
  {
    hide Scan, Print, AsRead, RepeatsAreFlat, CountsAreSmall, Counted, Harmless;
    ScannerDecidesSafety(e);
    FlatAsWritten(e);
  }

  lemma SafePatternsAreAccepted(e: Regex)
    requires WellFormed(e) && Safe(e)
    ensures Scan(Print(e), START).Accepted?
  {
    SafeIsReadAsSafe(e);
    ScannerDecidesSafety(e);
  }

  // ----- unbalanced text -----

  /**
   * Parentheses match up, with `depth` of them already open, when escaped characters and
   * classes are stepped over. Written with the scanner's search for the end of a class, but
   * without its tokens, flags and stack.
   */
  predicate Balanced(s: string, depth: nat)
    decreases |s|
  {
    if s == "" then depth == 0
    else if s[0] == '\\' then |s| >= 2 && Balanced(s[2..], depth)
    else if s[0] == '[' then
      var j := ClassClose(s, ClassStart(s));
      j < |s| && Balanced(s[j + 1..], depth)
    else if s[0] == '(' then Balanced(s[1..], depth + 1)
    else if s[0] == ')' then depth > 0 && Balanced(s[1..], depth - 1)
    else Balanced(s[1..], depth)
  }

  predicate PlainFor(s: string, k: nat)
    requires k <= |s|
  {
    forall j | 0 <= j < k :: s[j] !in {'\\', '[', '(', ')'}
  }

  lemma {:induction false} BalancedPastPlain(s: string, k: nat, depth: nat)
    requires k <= |s| && PlainFor(s, k)
    ensures Balanced(s, depth) == Balanced(s[k..], depth)
    decreases k
  {
    if k == 0 {
      assert s[0..] == s;
    } else {
      BalancedPastPlain(s[1..], k - 1, depth);
      assert s[1..][k - 1..] == s[k..];
    }
  }

  /** One token keeps the open groups and the parenthesis depth in step. */
  lemma StepKeepsBalance(s: string, st: State)
    requires s != "" && Step(s, st).Advance?
    ensures var m := Step(s, st); Balanced(s[m.width..], |m.next.groups|) ==> Balanced(s, |st.groups|)
  {
    hide Value, AllDigits, OpenGroup, Brace, NamedPrefix, IndexOf, IsCount, CountFits;
    var m := Step(s, st);
    if s[0] == '(' {
      OpenIsPlain(s, st);
      BalancedPastPlain(s[1..], m.width - 1, |m.next.groups|);
      assert s[1..][m.width - 1..] == s[m.width..];
    } else if s[0] == '{' {
      BracesArePlain(s, st);
      BalancedPastPlain(s, m.width, |st.groups|);
    } else if s[0] in {'*', '+', '?'} {
      BalancedPastPlain(s, m.width, |st.groups|);
    }
  }

  lemma OpenIsPlain(s: string, st: State)
    requires s != "" && s[0] == '(' && OpenGroup(s, st).Advance?
    ensures PlainFor(s[1..], OpenGroup(s, st).width - 1) && |OpenGroup(s, st).next.groups| == |st.groups| + 1
  {}

  lemma BracesArePlain(s: string, st: State)
    requires s != "" && s[0] == '{' && Brace(s, st).Advance?
    ensures PlainFor(s, Brace(s, st).width) && |Brace(s, st).next.groups| == |st.groups|
  {
    var close := IndexOf(s, '}');
    if close >= 1 && IsCount(s[1..close]) {
      var body := s[1..close];
      var k := IndexOf(body, ',');
      forall j | 1 <= j < close ensures IsDigit(s[j]) || s[j] == ',' {
        assert s[j] == body[j - 1];
        if k >= 0 && j - 1 < k {
          assert IsDigit(body[..k][j - 1]);
        } else if k >= 0 && j - 1 > k {
          assert IsDigit(body[k + 1..][j - 1 - (k + 1)]);
        }
      }
    }
  }

  /** Text whose parentheses do not match up, or whose escape or class is cut off, is rejected. */
  lemma {:induction false} UnbalancedIsRejected(s: string, st: State)
    requires !Balanced(s, |st.groups|)
    ensures Scan(s, st).Rejected?
    decreases |s|
  {
    hide Step;
    if s != "" {
      var m := Step(s, st);
      if m.Advance? {
        StepKeepsBalance(s, st);
        UnbalancedIsRejected(s[m.width..], m.next);
      }
    }
  }
}
