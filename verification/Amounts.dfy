/**
 * Reading an amount cell of a bank statement. Amounts are exact, in paise. Currency symbols
 * are taken as already removed, and the space is the only white space.
 */
module Amounts {
  import opened Common

  datatype Mark = Cr | Dr

  /** A parsed amount: its size, whether the cell carried a sign, and an explicit Cr or Dr. */
  datatype Money = Money(paise: nat, negative: bool, marker: Option<Mark>)

  predicate IsSeparator(c: char) {
    c == '.' || c == ',' || c == '\''
  }

  predicate IsDash(c: char) {
    c == '\U{2212}' || c == '\U{2013}' || c == '\U{2014}'
  }

  /** The characters of `s` that are not dropped. */
  function WithoutSeparators(s: string): string {
    if s == "" then ""
    else WithoutSeparators(s[..|s| - 1]) + (if IsSeparator(s[|s| - 1]) then "" else [s[|s| - 1]])
  }

  function WithoutSpaces(s: string): string {
    if s == "" then ""
    else WithoutSpaces(s[..|s| - 1]) + (if s[|s| - 1] == ' ' then "" else [s[|s| - 1]])
  }

  function PlainDashes(s: string): string {
    Map(s, c => if IsDash(c) then '-' else c)
  }

  // ----- separators -----

  /** Position of the last separator, or -1. */
  function LastSeparator(s: string): (r: int)
    ensures -1 <= r < |s|
    ensures r >= 0 ==> IsSeparator(s[r])
    ensures forall i | r < i < |s| :: !IsSeparator(s[i])
  {
    if s == "" then -1
    else if IsSeparator(s[|s| - 1]) then |s| - 1
    else LastSeparator(s[..|s| - 1])
  }

  function Hundredths(fraction: string): nat
    requires AllDigits(fraction) && |fraction| <= 2
  {
    if |fraction| == 1 then 10 * Value(fraction) else Value(fraction)
  }

  predicate HasDigit(s: string) {
    exists i | 0 <= i < |s| :: IsDigit(s[i])
  }

  /** The whole part, which must be digits, and at most two decimals. */
  function FromParts(integer: string, fraction: string): Option<nat>
    requires AllDigits(fraction) && |fraction| <= 2
  {
    if AllDigits(integer) then Some(100 * Value(integer) + Hundredths(fraction)) else None
  }

  /** Digits with separators as paise, or None when the text is no amount. */
  function ResolveDecimal(text: string): Option<nat> {
    if !HasDigit(text) then None
    else
      var last := LastSeparator(text);
      if last < 0 then FromParts(WithoutSeparators(text), "")
      else
        var tail := text[last + 1..];
        if tail == "" || !AllDigits(tail) then None
        else if |tail| <= 2 then FromParts(WithoutSeparators(text[..last]), tail)
        else if |tail| == 3 then FromParts(WithoutSeparators(text), "")
        else None
  }

  // ----- Cr and Dr -----

  /** The two letters as a marker, in either case. */
  function AsMark(tag: string): Option<Mark>
    requires |tag| == 2
  {
    if Lower(tag[1]) != 'r' then None
    else if Lower(tag[0]) == 'c' then Some(Cr)
    else if Lower(tag[0]) == 'd' then Some(Dr)
    else None
  }

  /** A marker at the end, after a digit; a full stop may stand before and after it. */
  function TrailingMarker(text: string): Option<(string, Mark)> {
    var e := if text != "" && text[|text| - 1] == '.' then text[..|text| - 1] else text;
    if |e| < 2 || AsMark(e[|e| - 2..]).None? then None
    else
      var rest := TrimRight(e[..|e| - 2]);
      var body := if rest != "" && rest[|rest| - 1] == '.' then TrimRight(rest[..|rest| - 1]) else rest;
      if body == "" || !IsDigit(body[|body| - 1]) then None
      else Some((Strip(body), AsMark(e[|e| - 2..]).value))
  }

  /** A marker in front of text that has a digit in it. */
  function LeadingMarker(text: string): Option<(string, Mark)> {
    if |text| < 2 || AsMark(text[..2]).None? then None
    else
      var rest := if |text| > 2 && text[2] == '.' then text[3..] else text[2..];
      if !HasDigit(rest) then None
      else Some((Strip(rest), AsMark(text[..2]).value))
  }

  function StripMarker(text: string): (string, Option<Mark>) {
    match TrailingMarker(text)
    case Some((body, mark)) => (body, Some(mark))
    case None =>
      match LeadingMarker(text)
      case Some((body, mark)) => (body, Some(mark))
      case None => (text, None)
  }

  // ----- the whole cell -----

  /** Words and dashes that stand for "nothing". */
  predicate IsBlank(text: string) {
    Map(text, Lower) in {"", "nan", "none", "null", "-", "--"}
  }

  /** The sign, which may stand before or after the number, and the text without it. */
  function StripSign(text: string): (bool, string) {
    if text != "" && (text[0] == '-' || text[0] == '+') then (text[0] == '-', Strip(text[1..]))
    else if text != "" && (text[|text| - 1] == '-' || text[|text| - 1] == '+')
    then (text[|text| - 1] == '-', Strip(text[..|text| - 1]))
    else (false, text)
  }

  /** Marker, sign and number, once the parentheses are off. */
  function ReadInside(inside: string, parens: bool): Option<Money> {
    var (body, marker) := StripMarker(inside);
    var (minus, number) := StripSign(body);
    match ResolveDecimal(WithoutSpaces(number))
    case None => None
    case Some(paise) => Some(Money(paise, parens || minus, marker))
  }

  function ParseAmount(raw: string): Option<Money> {
    if IsBlank(Strip(raw)) then None
    else
      var text := Strip(PlainDashes(Strip(raw)));
      if |text| >= 2 && text[0] == '(' && text[|text| - 1] == ')'
      then ReadInside(Strip(text[1..|text| - 1]), true)
      else ReadInside(text, false)
  }

  datatype Direction = Credit | Debit

  function Opposite(d: Direction): Direction {
    if d == Credit then Debit else Credit
  }

  /** Marker first, then the hint of a type column, then the column; a sign turns it round. */
  function DirectionFrom(money: Option<Money>, column: Option<Direction>, hint: Option<Direction>): Direction {
    var fallback := if column.Some? then column.value else Debit;
    match money
    case None => fallback
    case Some(m) =>
      var direction :=
        if m.marker.Some? then (if m.marker.value == Cr then Credit else Debit)
        else if hint.Some? then hint.value
        else fallback;
      if m.negative then Opposite(direction) else direction
  }

  // ----- printing -----

  function Digit(d: nat): char
    requires d < 10
  {
    ('0' as int + d) as char
  }

  function Digits(n: nat): string {
    if n < 10 then [Digit(n)] else Digits(n / 10) + [Digit(n % 10)]
  }

  lemma {:induction false} DigitsHaveValue(n: nat)
    ensures AllDigits(Digits(n)) && Digits(n) != "" && Value(Digits(n)) == n
  {
    if n < 10 {
      assert Digits(n)[..0] == "";
    } else {
      DigitsHaveValue(n / 10);
      assert Digits(n)[..|Digits(n)| - 1] == Digits(n / 10);
    }
  }

  /** Two decimals. */
  function Cents(n: nat): (r: string)
    requires n < 100
    ensures |r| == 2 && AllDigits(r)
  {
    [Digit(n / 10), Digit(n % 10)]
  }

  lemma CentsHaveValue(n: nat)
    requires n < 100
    ensures Value(Cents(n)) == n
  {
    var tens := [Digit(n / 10)];
    assert tens[..0] == "";
    assert Value(tens) == n / 10;
    assert Cents(n)[..|Cents(n)| - 1] == tens;
  }

  /** Digits and separators, beginning and ending with a digit. */
  predicate IsNumber(s: string) {
    && s != "" && IsDigit(s[0]) && IsDigit(s[|s| - 1])
    && forall i | 0 <= i < |s| :: IsDigit(s[i]) || IsSeparator(s[i])
  }

  /** A number that may also be grouped with spaces. */
  predicate IsSpaced(s: string) {
    && s != "" && IsDigit(s[0]) && IsDigit(s[|s| - 1])
    && forall i | 0 <= i < |s| :: IsDigit(s[i]) || IsSeparator(s[i]) || s[i] == ' '
  }

  /** A sign as it is printed, before or after the number, perhaps with spaces between. */
  datatype Sign = NoSign | Front(minus: bool, gap: nat) | Back(minus: bool, gap: nat)

  /** A marker as it is printed: two letters, perhaps a full stop, spaces towards the number. */
  datatype Label = Label(gap: nat, letters: string, stop: bool)

  datatype Marking = NoMark | Before(tag: Label) | Behind(tag: Label)

  /** Everything around the number. */
  datatype Dress = Dress(parentheses: bool, sign: Sign, marking: Marking)

  predicate IsLabel(l: Label) {
    |l.letters| == 2 && AsMark(l.letters).Some?
  }

  predicate IsDress(d: Dress) {
    !d.marking.NoMark? ==> IsLabel(d.marking.tag)
  }

  function Spaces(n: nat): (r: string)
    ensures |r| == n && forall i | 0 <= i < n :: r[i] == ' '
  {
    seq(n, _ => ' ')
  }

  function SignText(minus: bool): string {
    if minus then "-" else "+"
  }

  function Signed(number: string, sign: Sign): string {
    match sign
    case NoSign => number
    case Front(minus, gap) => SignText(minus) + (Spaces(gap) + number)
    case Back(minus, gap) => number + Spaces(gap) + SignText(minus)
  }

  function StopText(l: Label): string {
    if l.stop then "." else ""
  }

  function PrintBehind(l: Label): string {
    Spaces(l.gap) + l.letters + StopText(l)
  }

  /** The cell without its parentheses. */
  function Inside(number: string, sign: Sign, marking: Marking): string {
    match marking
    case NoMark => Signed(number, sign)
    case Before(l) => l.letters + (StopText(l) + (Spaces(l.gap) + Signed(number, sign)))
    case Behind(l) => Signed(number, sign) + PrintBehind(l)
  }

  function Dressed(number: string, d: Dress): string {
    var inside := Inside(number, d.sign, d.marking);
    if d.parentheses then "(" + inside + ")" else inside
  }

  function MarkOf(d: Dress): Option<Mark>
    requires IsDress(d)
  {
    if d.marking.NoMark? then None else AsMark(d.marking.tag.letters)
  }

  predicate IsMinus(sign: Sign) {
    !sign.NoSign? && sign.minus
  }

  /** The one combination that is not read: a marker behind a sign behind the number. */
  predicate IsOverdressed(d: Dress) {
    d.sign.Back? && d.marking.Behind?
  }

  // ----- trimming and grouping -----

  lemma {:induction false} NothingToTrim(s: string)
    requires s == "" || (s[0] != ' ' && s[|s| - 1] != ' ')
    ensures TrimLeft(s) == s && TrimRight(s) == s && Strip(s) == s
  {}

  lemma {:induction false} TrimSpaces(s: string, n: nat)
    requires s != "" && s[|s| - 1] != ' '
    ensures TrimRight(s + Spaces(n)) == s
  {
    var t := s + Spaces(n);
    if n == 0 {
      assert t == s;
    } else {
      assert t[|t| - 1] == ' ';
      assert t[..|t| - 1] == s + Spaces(n - 1);
      TrimSpaces(s, n - 1);
    }
  }

  lemma {:induction false} TrimSpacesBefore(n: nat, s: string)
    requires s != "" && s[0] != ' '
    ensures TrimLeft(Spaces(n) + s) == s
  {
    var t := Spaces(n) + s;
    if n == 0 {
      assert t == s;
    } else {
      assert t[1..] == Spaces(n - 1) + s;
      TrimSpacesBefore(n - 1, s);
    }
  }

  lemma StripAround(n: nat, s: string, k: nat)
    requires s != "" && s[0] != ' ' && s[|s| - 1] != ' '
    ensures Strip(Spaces(n) + s) == s && Strip(s + Spaces(k)) == s
  {
    hide TrimLeft, TrimRight;
    TrimSpacesBefore(n, s);
    TrimSpaces(s, k);
    NothingToTrim(s);
    TrimSpacesBefore(0, s + Spaces(k));
    assert Spaces(0) + (s + Spaces(k)) == s + Spaces(k);
  }

  lemma {:induction false} SpacesGone(s: string)
    ensures forall c | c in WithoutSpaces(s) :: c in s && c != ' '
  {
    if s != "" {
      var init, z := s[..|s| - 1], s[|s| - 1];
      SpacesGone(init);
      assert s == init + [z];
    }
  }

  lemma {:induction false} FirstStays(s: string)
    requires s != "" && s[0] != ' '
    ensures WithoutSpaces(s) != "" && WithoutSpaces(s)[0] == s[0]
  {
    var init, z := s[..|s| - 1], s[|s| - 1];
    if init == "" {
      assert WithoutSpaces(init) == "";
    } else {
      assert init[0] == s[0];
      FirstStays(init);
    }
  }

  lemma LastStays(head: string, z: char)
    requires z != ' '
    ensures var s := WithoutSpaces(head + [z]); s != "" && s[|s| - 1] == z
  {
    assert (head + [z])[|head + [z]| - 1] == z;
  }

  /** Without its spaces a grouped number is a number. */
  lemma SpacedIsNumber(s: string)
    requires IsSpaced(s)
    ensures IsNumber(WithoutSpaces(s))
  {
    hide WithoutSpaces;
    var r := WithoutSpaces(s);
    SpacesGone(s);
    FirstStays(s);
    assert s == s[..|s| - 1] + [s[|s| - 1]];
    LastStays(s[..|s| - 1], s[|s| - 1]);
    forall i | 0 <= i < |r| ensures IsDigit(r[i]) || IsSeparator(r[i]) {
      assert r[i] in r;
    }
  }

  // ----- the sign -----

  predicate IsSign(c: char) {
    c == '-' || c == '+'
  }

  /** What is left once the marker is off: it begins and ends with a digit or a sign. */
  predicate IsBody(s: string) {
    && s != "" && HasDigit(s)
    && (IsDigit(s[0]) || IsSign(s[0])) && (IsDigit(s[|s| - 1]) || IsSign(s[|s| - 1]))
    && forall i | 0 <= i < |s| :: IsDigit(s[i]) || IsSeparator(s[i]) || s[i] == ' ' || IsSign(s[i])
  }

  lemma SignedIsBody(number: string, sign: Sign)
    requires IsSpaced(number)
    ensures var s := Signed(number, sign);
      && IsBody(s) && (IsDigit(s[|s| - 1]) <==> !sign.Back?) && (sign.Back? ==> IsDigit(s[0]))
  {
    var s := Signed(number, sign);
    match sign {
      case NoSign => assert IsDigit(s[0]);
      case Front(_, gap) =>
        assert s[|s| - 1] == number[|number| - 1];
        forall i | 1 + gap <= i < |s| ensures s[i] == number[i - 1 - gap] {
        }
      case Back(_, gap) =>
        assert s[0] == number[0] && IsDigit(s[0]);
        forall i | 0 <= i < |number| ensures s[i] == number[i] {
        }
    }
  }

  lemma SignComesOff(number: string, sign: Sign)
    requires IsSpaced(number)
    ensures StripSign(Signed(number, sign)) == (IsMinus(sign), number)
  {
    hide Strip;
    var s := Signed(number, sign);
    match sign {
      case NoSign =>
      case Front(_, gap) =>
        assert s[1..] == Spaces(gap) + number;
        StripAround(gap, number, 0);
      case Back(_, gap) =>
        assert s[..|s| - 1] == number + Spaces(gap) && s[0] == number[0];
        StripAround(0, number, gap);
    }
  }

  // ----- the marker -----

  lemma StripUnmarked(body: string)
    requires IsBody(body)
    ensures StripMarker(body) == (body, None)
  {
    hide HasDigit;
    if |body| >= 2 {
      assert body[|body| - 2..][1] == body[|body| - 1];
      assert body[..2][0] == body[0];
    }
  }

  lemma TrailingMarkerFound(body: string, gap: nat, letters: string)
    requires IsBody(body) && IsDigit(body[|body| - 1]) && IsLabel(Label(gap, letters, false))
    ensures TrailingMarker(body + Spaces(gap) + letters) == Some((body, AsMark(letters).value))
  {
    hide TrimLeft, TrimRight, HasDigit;
    var e := body + Spaces(gap) + letters;
    assert e[|e| - 1] == letters[1];
    assert e[|e| - 2..] == letters;
    assert e[..|e| - 2] == body + Spaces(gap);
    TrimSpaces(body, gap);
    NothingToTrim(body);
  }

  lemma TrailingStopSkipped(e: string)
    requires |e| >= 2 && AsMark(e[|e| - 2..]).Some?
    ensures TrailingMarker(e + ".") == TrailingMarker(e)
  {
    var text := e + ".";
    assert text[|text| - 1] == '.' && text[..|text| - 1] == e;
    assert e[|e| - 1] == e[|e| - 2..][1];
  }

  lemma StripBehind(body: string, l: Label)
    requires IsBody(body) && IsDigit(body[|body| - 1]) && IsLabel(l)
    ensures StripMarker(body + PrintBehind(l)) == (body, AsMark(l.letters))
  {
    hide TrailingMarker, LeadingMarker, IsBody;
    var e := body + Spaces(l.gap) + l.letters;
    TrailingMarkerFound(body, l.gap, l.letters);
    assert e[|e| - 2..] == l.letters;
    if l.stop {
      TrailingStopSkipped(e);
      assert body + PrintBehind(l) == e + ".";
    } else {
      assert body + PrintBehind(l) == e;
    }
  }

  /** What a marker can stand before: it has a digit and does not end in a marker itself. */
  predicate IsMarkable(s: string) {
    && s != "" && HasDigit(s) && s[0] != ' ' && s[0] != '.'
    && s[|s| - 1] != ' ' && s[|s| - 1] != '.' && Lower(s[|s| - 1]) != 'r'
  }

  lemma StripBefore(body: string, l: Label)
    requires IsMarkable(body) && IsLabel(l)
    ensures StripMarker(l.letters + (StopText(l) + (Spaces(l.gap) + body))) == (body, AsMark(l.letters))
  {
    hide TrailingMarker, LeadingMarker, IsMarkable, AsMark;
    var text := l.letters + (StopText(l) + (Spaces(l.gap) + body));
    EndsUnmarked(text, body);
    LeadingMarkerFound(body, l);
  }

  lemma LeadingMarkerFound(body: string, l: Label)
    requires IsMarkable(body) && IsLabel(l)
    ensures LeadingMarker(l.letters + (StopText(l) + (Spaces(l.gap) + body))) == Some((body, AsMark(l.letters).value))
  {
    hide Strip, HasDigit, AsMark, Lower;
    var rest := Spaces(l.gap) + body;
    var text := l.letters + (StopText(l) + rest);
    assert text[..2] == l.letters;
    assert if l.stop then text[2] == '.' && text[3..] == rest else text[2] == rest[0] && text[2..] == rest;
    DigitInside(Spaces(l.gap), body);
    StripAround(l.gap, body, 0);
  }

  lemma EndsUnmarked(text: string, body: string)
    requires IsMarkable(body) && |body| <= |text| && text[|text| - |body|..] == body
    ensures TrailingMarker(text) == None
  {
    assert text[|text| - 1] == text[|text| - |body|..][|body| - 1];
    if |text| >= 2 {
      assert text[|text| - 2..][1] == text[|text| - 1];
    }
  }

  lemma DigitInside(a: string, b: string)
    requires HasDigit(b)
    ensures HasDigit(a + b)
  {
    var i :| 0 <= i < |b| && IsDigit(b[i]);
    assert (a + b)[|a| + i] == b[i];
  }

  lemma BodyIsMarkable(body: string)
    requires IsBody(body)
    ensures IsMarkable(body)
  {
    hide HasDigit;
  }

  lemma MarkComesOff(number: string, sign: Sign, marking: Marking)
    requires IsSpaced(number) && (!marking.NoMark? ==> IsLabel(marking.tag))
    requires !(sign.Back? && marking.Behind?)
    ensures StripMarker(Inside(number, sign, marking))
         == (Signed(number, sign), if marking.NoMark? then None else AsMark(marking.tag.letters))
  {
    hide IsBody, Signed, StripMarker;
    SignedIsBody(number, sign);
    match marking {
      case NoMark => StripUnmarked(Signed(number, sign));
      case Before(l) =>
        BodyIsMarkable(Signed(number, sign));
        StripBefore(Signed(number, sign), l);
      case Behind(l) => StripBehind(Signed(number, sign), l);
    }
  }

  // ----- the whole cell -----

  /** Text that trimming and the replacement of dashes leave alone, and that is not blank. */
  predicate IsClean(s: string) {
    && s != "" && s[0] != ' ' && s[|s| - 1] != ' ' && HasDigit(s)
    && forall i | 0 <= i < |s| :: !IsDash(s[i])
  }

  lemma CleanStays(s: string)
    requires IsClean(s)
    ensures Strip(s) == s && PlainDashes(s) == s && !IsBlank(s)
  {
    hide TrimLeft, TrimRight, Strip;
    NothingToTrim(s);
    var i :| 0 <= i < |s| && IsDigit(s[i]);
    assert IsDigit(Map(s, Lower)[i]);
  }

  lemma ParseClean(s: string)
    requires IsClean(s)
    ensures ParseAmount(s) ==
      if |s| >= 2 && s[0] == '(' && s[|s| - 1] == ')'
      then ReadInside(Strip(s[1..|s| - 1]), true) else ReadInside(s, false)
  {
    hide ReadInside, IsClean, Strip, PlainDashes, IsBlank;
    CleanStays(s);
  }

  lemma LabelIsClean(l: Label)
    requires IsLabel(l)
    ensures forall i | 0 <= i < 2 :: !IsDash(l.letters[i]) && l.letters[i] != ' ' && l.letters[i] != '('
    ensures var p := PrintBehind(l);
      && p != "" && p[|p| - 1] == (if l.stop then '.' else l.letters[1])
      && (forall i | 0 <= i < |p| :: !IsDash(p[i]))
  {
    var p := PrintBehind(l);
    var head := Spaces(l.gap) + l.letters;
    assert head[|head| - 1] == l.letters[1];
    forall i | 0 <= i < |p| ensures !IsDash(p[i]) {
      if i < l.gap {
        assert p[i] == ' ';
      } else if i < l.gap + 2 {
        assert p[i] == l.letters[i - l.gap];
      } else {
        assert p[i] == '.';
      }
    }
  }

  /** Clean text stays clean when text without dashes is put before or behind it. */
  lemma JoinedIsClean(front: string, s: string, back: string)
    requires s != "" && HasDigit(s)
    requires front == "" ==> s[0] != ' '
    requires front != "" ==> front[0] != ' '
    requires back == "" ==> s[|s| - 1] != ' '
    requires back != "" ==> back[|back| - 1] != ' '
    requires forall i | 0 <= i < |front| :: !IsDash(front[i])
    requires forall i | 0 <= i < |s| :: !IsDash(s[i])
    requires forall i | 0 <= i < |back| :: !IsDash(back[i])
    ensures IsClean(front + s + back)
  {
    hide HasDigit, IsDash;
    DigitInside(front, s);
    DigitBefore(front + s, back);
  }

  lemma InsideIsClean(number: string, sign: Sign, marking: Marking)
    requires IsSpaced(number) && (!marking.NoMark? ==> IsLabel(marking.tag))
    ensures var s := Inside(number, sign, marking); IsClean(s) && s[0] != '('
  {
    hide Signed, IsClean, IsBody, IsSpaced, IsLabel, PrintBehind, StopText, Spaces;
    SignedIsBody(number, sign);
    var b := Signed(number, sign);
    BodyIsClean(b);
    match marking {
      case NoMark =>
      case Before(l) => MarkedBeforeIsClean(b, l);
      case Behind(l) => MarkedBehindIsClean(b, l);
    }
  }

  lemma MarkedBeforeIsClean(b: string, l: Label)
    requires IsBody(b) && IsLabel(l)
    ensures var s := l.letters + (StopText(l) + (Spaces(l.gap) + b)); IsClean(s) && s[0] != '('
  {
    hide HasDigit, AsMark, IsClean;
    var front := l.letters + (StopText(l) + Spaces(l.gap));
    LabelIsClean(l);
    JoinedIsClean(front, b, "");
    assert l.letters + (StopText(l) + (Spaces(l.gap) + b)) == front + b + "";
  }

  lemma MarkedBehindIsClean(b: string, l: Label)
    requires IsBody(b) && IsLabel(l)
    ensures var s := b + PrintBehind(l); IsClean(s) && s[0] != '('
  {
    hide HasDigit, AsMark, IsClean, PrintBehind;
    LabelIsClean(l);
    JoinedIsClean("", b, PrintBehind(l));
    assert b + PrintBehind(l) == "" + b + PrintBehind(l);
  }

  lemma BodyIsClean(b: string)
    requires IsBody(b)
    ensures IsClean(b) && b[0] != '('
  {
    hide HasDigit;
  }

  lemma DigitBefore(a: string, b: string)
    requires HasDigit(a)
    ensures HasDigit(a + b)
  {
    var i :| 0 <= i < |a| && IsDigit(a[i]);
    assert (a + b)[i] == a[i];
  }

  lemma ParseWrapped(s: string)
    requires IsClean(s)
    ensures ParseAmount("(" + s + ")") == ReadInside(s, true)
  {
    hide ReadInside, ParseAmount, Strip, IsClean, PlainDashes, IsBlank;
    WrappedIsClean(s);
    CleanStays(s);
    ParseClean("(" + s + ")");
  }

  lemma WrappedIsClean(s: string)
    requires IsClean(s)
    ensures var raw := "(" + s + ")"; IsClean(raw) && raw[1..|raw| - 1] == s
  {
    hide HasDigit;
    DigitInside("(", s);
    DigitBefore("(" + s, ")");
  }

  lemma DressComesOff(number: string, d: Dress)
    requires IsSpaced(number) && IsDress(d)
    ensures ParseAmount(Dressed(number, d)) == ReadInside(Inside(number, d.sign, d.marking), d.parentheses)
  {
    hide ReadInside, ParseAmount, IsClean, IsSpaced, Inside;
    var inside := Inside(number, d.sign, d.marking);
    InsideIsClean(number, d.sign, d.marking);
    if d.parentheses {
      ParseWrapped(inside);
    } else {
      ParseClean(inside);
    }
  }

  /** The value a number stands for, with its sign and marker. */
  function Denoted(number: string, d: Dress): Option<Money>
    requires IsDress(d)
  {
    match ResolveDecimal(number)
    case None => None
    case Some(paise) => Some(Money(paise, d.parentheses || IsMinus(d.sign), MarkOf(d)))
  }

  lemma InsideIsRead(number: string, d: Dress)
    requires IsSpaced(number) && IsDress(d) && !IsOverdressed(d)
    ensures ReadInside(Inside(number, d.sign, d.marking), d.parentheses) == Denoted(WithoutSpaces(number), d)
  {
    hide ResolveDecimal, StripMarker, StripSign, WithoutSpaces, Signed, Inside, IsSpaced;
    MarkComesOff(number, d.sign, d.marking);
    SignComesOff(number, d.sign);
  }

  /**
   * However an amount is dressed (parentheses; a plus or minus before or behind the number; a
   * Cr or Dr at either end; spaces between all of these and inside the number), the parser
   * sees the bare number, the sign and the marker. Only a marker behind a trailing sign makes
   * the cell unreadable.
   */
  lemma ParseSeesThroughDress(number: string, d: Dress)
    requires IsSpaced(number) && IsDress(d)
    ensures ParseAmount(Dressed(number, d)) == if IsOverdressed(d) then None else Denoted(WithoutSpaces(number), d)
  {
    hide ParseAmount, Dressed, ReadInside, Denoted, IsSpaced, WithoutSpaces;
    DressComesOff(number, d);
    if IsOverdressed(d) {
      MarkerBehindSignIsUnreadable(number, d);
    } else {
      InsideIsRead(number, d);
    }
  }

  lemma MarkerBehindSignIsUnreadable(number: string, d: Dress)
    requires IsSpaced(number) && IsDress(d) && IsOverdressed(d)
    ensures ReadInside(Inside(number, d.sign, d.marking), d.parentheses) == None
  {
    hide ReadInside, Signed, HasDigit, IsSpaced;
    SignedIsBody(number, d.sign);
    UnreadableBehind(Signed(number, d.sign), d.marking.tag, d.parentheses);
  }

  lemma {:induction false} SeparatorsGone(s: string)
    requires forall i | 0 <= i < |s| :: IsDigit(s[i]) || IsSeparator(s[i])
    ensures AllDigits(WithoutSeparators(s))
  {
    if s != "" {
      SeparatorsGone(s[..|s| - 1]);
    }
  }

  lemma {:induction false} LastSeparatorAt(head: string, sep: char, tail: string)
    requires IsSeparator(sep) && AllDigits(tail)
    ensures LastSeparator(head + [sep] + tail) == |head|
    decreases |tail|
  {
    var s := head + [sep] + tail;
    if tail == "" {
      assert s[|s| - 1] == sep;
    } else {
      assert s[|s| - 1] == tail[|tail| - 1];
      assert s[..|s| - 1] == head + [sep] + tail[..|tail| - 1];
      LastSeparatorAt(head, sep, tail[..|tail| - 1]);
    }
  }

  /**
   * A number with a separator in it, by the length of its last group: one or two digits are
   * decimals, three belong to the whole number, and more are refused.
   */
  lemma LastGroupDecides(head: string, sep: char, tail: string)
    requires IsNumber(head + [sep] + tail) && IsSeparator(sep) && tail != "" && AllDigits(tail)
    ensures AllDigits(WithoutSeparators(head)) && AllDigits(WithoutSeparators(head + [sep] + tail))
    ensures ResolveDecimal(head + [sep] + tail) ==
      if |tail| <= 2 then Some(100 * Value(WithoutSeparators(head)) + Hundredths(tail))
      else if |tail| == 3 then Some(100 * Value(WithoutSeparators(head + [sep] + tail)))
      else None
  {
    hide WithoutSeparators, Value, LastSeparator, Hundredths, FromParts, AllDigits, HasDigit;
    var s := head + [sep] + tail;
    HeadIsClean(head, sep, tail);
    LastSeparatorAt(head, sep, tail);
    NoFraction();
    assert s[|head| + 1..] == tail && s[..|head|] == head;
    PartsOfDigits(WithoutSeparators(head), if |tail| <= 2 then tail else "");
    PartsOfDigits(WithoutSeparators(s), "");
  }

  lemma HeadIsClean(head: string, sep: char, tail: string)
    requires IsNumber(head + [sep] + tail)
    ensures AllDigits(WithoutSeparators(head)) && AllDigits(WithoutSeparators(head + [sep] + tail))
    ensures HasDigit(head + [sep] + tail)
  {
    hide WithoutSeparators;
    var s := head + [sep] + tail;
    forall i | 0 <= i < |head| ensures IsDigit(head[i]) || IsSeparator(head[i]) {
      assert s[i] == head[i];
    }
    SeparatorsGone(head);
    SeparatorsGone(s);
    assert IsDigit(s[0]);
  }

  lemma PartsOfDigits(integer: string, fraction: string)
    requires AllDigits(integer) && AllDigits(fraction) && |fraction| <= 2
    ensures FromParts(integer, fraction) == Some(100 * Value(integer) + Hundredths(fraction))
  {}

  lemma NoFraction()
    ensures AllDigits("") && Hundredths("") == 0
  {}

  /**
   * Round trip with two decimals: the whole rupees grouped in any way at all (lakh,
   * thousands, dots, apostrophes, or not at all), any of the separators as decimal mark,
   * spaces anywhere inside, any dress that is read.
   */
  lemma RoundTripWithDecimals(paise: nat, whole: string, sep: char, cell: string, d: Dress)
    requires WithoutSeparators(whole) == Digits(paise / 100) && IsNumber(whole) && IsSeparator(sep)
    requires IsSpaced(cell) && WithoutSpaces(cell) == whole + [sep] + Cents(paise % 100)
    requires IsDress(d) && !IsOverdressed(d)
    ensures ParseAmount(Dressed(cell, d)) == Some(Money(paise, d.parentheses || IsMinus(d.sign), MarkOf(d)))
  {
    hide ParseAmount, ResolveDecimal, WithoutSeparators, WithoutSpaces, Digits, Value, Dressed;
    SpacedIsNumber(cell);
    LastGroupDecides(whole, sep, Cents(paise % 100));
    DigitsHaveValue(paise / 100);
    CentsHaveValue(paise % 100);
    ParseSeesThroughDress(cell, d);
  }

  lemma WholeAmountResolves(whole: string)
    requires IsNumber(whole)
    requires LastSeparator(whole) == -1 || |whole| - LastSeparator(whole) == 4
    ensures AllDigits(WithoutSeparators(whole))
    ensures ResolveDecimal(whole) == Some(100 * Value(WithoutSeparators(whole)))
  {
    hide WithoutSeparators, Value, LastSeparator, ResolveDecimal;
    SeparatorsGone(whole);
    var last := LastSeparator(whole);
    if last >= 0 {
      var head, tail := whole[..last], whole[last + 1..];
      assert whole == head + [whole[last]] + tail;
      forall i | 0 <= i < |tail| ensures IsDigit(tail[i]) {
        assert tail[i] == whole[last + 1 + i];
      }
      LastGroupDecides(head, whole[last], tail);
    } else {
      NoSeparatorResolves(whole);
    }
  }

  lemma NoSeparatorResolves(whole: string)
    requires IsNumber(whole) && LastSeparator(whole) == -1
    ensures AllDigits(WithoutSeparators(whole))
    ensures ResolveDecimal(whole) == Some(100 * Value(WithoutSeparators(whole)))
  {
    hide WithoutSeparators, LastSeparator, Value, Hundredths;
    SeparatorsGone(whole);
    NoFraction();
    assert IsDigit(whole[0]);
  }

  /** Round trip of whole amounts: without separators, or with a last group of three digits. */
  lemma RoundTripOfWholeAmounts(rupees: nat, cell: string, d: Dress)
    requires IsSpaced(cell) && WithoutSeparators(WithoutSpaces(cell)) == Digits(rupees)
    requires var whole := WithoutSpaces(cell); LastSeparator(whole) == -1 || |whole| - LastSeparator(whole) == 4
    requires IsDress(d) && !IsOverdressed(d)
    ensures ParseAmount(Dressed(cell, d)) == Some(Money(100 * rupees, d.parentheses || IsMinus(d.sign), MarkOf(d)))
  {
    hide ParseAmount, WithoutSeparators, WithoutSpaces, Digits, ResolveDecimal, LastSeparator, Dressed, Value, MarkOf;
    SpacedIsNumber(cell);
    DigitsHaveValue(rupees);
    ParseSeesThroughDress(cell, d);
    WholeAmountResolves(WithoutSpaces(cell));
  }

  // ----- what is refused -----

  /** Behind anything but a digit a marker is not taken off, and what ends in it is no number. */
  lemma UnreadableBehind(front: string, l: Label, parens: bool)
    requires front != "" && (front[0] == '(' || IsDigit(front[0]))
    requires (front[|front| - 1] == ')' || IsSign(front[|front| - 1])) && IsLabel(l)
    ensures ReadInside(front + PrintBehind(l), parens) == None
  {
    hide ResolveDecimal, WithoutSpaces, Strip, StripMarker;
    var e := front + Spaces(l.gap) + l.letters;
    NoMarkerBehind(front, l.gap, l.letters);
    if l.stop {
      assert front + PrintBehind(l) == e + ".";
      LastStays(e, '.');
      EndsInStop(WithoutSpaces(e + "."));
    } else {
      assert front + PrintBehind(l) == e;
      LettersStay(front + Spaces(l.gap), l.letters);
      EndsInLetter(WithoutSpaces(e), l.letters[1]);
    }
  }

  lemma NoMarkerBehind(front: string, gap: nat, letters: string)
    requires front != "" && (front[0] == '(' || IsDigit(front[0]))
    requires (front[|front| - 1] == ')' || IsSign(front[|front| - 1])) && IsLabel(Label(gap, letters, false))
    ensures var e := front + Spaces(gap) + letters;
      && StripMarker(e) == (e, None) && StripMarker(e + ".") == (e + ".", None)
      && e[0] == front[0] && e[|e| - 1] == letters[1]
  {
    hide TrimRight, TrimLeft, Strip, HasDigit;
    var e := front + Spaces(gap) + letters;
    TrimSpaces(front, gap);
    assert e[..|e| - 2] == front + Spaces(gap);
    assert e[|e| - 2..] == letters;
    assert e[|e| - 1] == letters[1];
    assert e[..2][0] == front[0] && (e + ".")[..2][0] == front[0];
    TrailingStopSkipped(e);
  }

  /**
   * The dress has one order: a marker outside the parentheses, on either side of them, makes
   * the cell unreadable, whatever the number.
   */
  lemma MarkerOutsideParenthesesIsRefused(number: string, l: Label)
    requires IsSpaced(number) && IsLabel(l)
    ensures ParseAmount("(" + number + ")" + PrintBehind(l)) == None
    ensures ParseAmount(l.letters + (StopText(l) + (Spaces(l.gap) + ("(" + number + ")")))) == None
  {
    hide ReadInside, ParseAmount, IsClean, IsSpaced, PrintBehind;
    var front := "(" + number + ")";
    var raw := front + PrintBehind(l);
    LabelIsClean(l);
    BehindParenthesesIsClean(number, l);
    ParseClean(raw);
    assert raw[|raw| - 1] == PrintBehind(l)[|PrintBehind(l)| - 1] != ')';
    UnreadableBehind(front, l, false);
    MarkerBeforeParentheses(number, l);
  }

  lemma MarkerBeforeParentheses(number: string, l: Label)
    requires IsSpaced(number) && IsLabel(l)
    ensures ParseAmount(l.letters + (StopText(l) + (Spaces(l.gap) + ("(" + number + ")")))) == None
  {
    hide ParseAmount, ResolveDecimal, WithoutSpaces, StripMarker, IsClean, AsMark;
    var body := "(" + number + ")";
    var front := l.letters + (StopText(l) + Spaces(l.gap));
    var raw := l.letters + (StopText(l) + (Spaces(l.gap) + body));
    LabelIsClean(l);
    WrappedIsMarkable(number);
    StripBefore(body, l);
    assert raw == front + body;
    BeforeParenthesesIsClean(number, l);
    ParseClean(raw);
    assert body[0] == '(' && body[|body| - 1] == ')';
    LastStays("(" + number, ')');
    EndsInLetter(WithoutSpaces(body), ')');
  }

  lemma WrappedIsMarkable(number: string)
    requires IsSpaced(number)
    ensures IsMarkable("(" + number + ")") && HasDigit("(" + number + ")")
  {
    hide HasDigit;
    FirstIsDigit(number);
    DigitInside("(", number);
    DigitBefore("(" + number, ")");
  }

  lemma BeforeParenthesesIsClean(number: string, l: Label)
    requires IsSpaced(number) && IsLabel(l)
    ensures IsClean(l.letters + (StopText(l) + Spaces(l.gap)) + ("(" + number + ")"))
  {
    hide HasDigit, AsMark, IsClean;
    var front, body := l.letters + (StopText(l) + Spaces(l.gap)), "(" + number + ")";
    LabelIsClean(l);
    WrappedIsMarkable(number);
    JoinedIsClean(front, body, "");
    assert front + body + "" == front + body;
  }

  lemma BehindParenthesesIsClean(number: string, l: Label)
    requires IsSpaced(number) && IsLabel(l)
    ensures IsClean("(" + number + ")" + PrintBehind(l))
  {
    hide PrintBehind, HasDigit;
    var front := "(" + number + ")";
    LabelIsClean(l);
    FirstIsDigit(number);
    DigitInside("(", number);
    DigitBefore("(" + number, ")");
    DigitBefore(front, PrintBehind(l));
    forall i | 0 <= i < |front| ensures !IsDash(front[i]) {
      if 1 <= i <= |number| {
        assert front[i] == number[i - 1];
      }
    }
  }

  lemma FirstIsDigit(s: string)
    requires s != "" && IsDigit(s[0])
    ensures HasDigit(s)
  {}

  /** Text that ends in a separator is no number. */
  lemma EndsInStop(s: string)
    requires s != "" && s[|s| - 1] == '.'
    ensures ResolveDecimal(s) == None
  {
    assert LastSeparator(s) == |s| - 1;
  }

  lemma LettersStay(head: string, letters: string)
    requires |letters| == 2 && AsMark(letters).Some?
    ensures var s := WithoutSpaces(head + letters); s != "" && s[|s| - 1] == letters[1]
  {
    assert head + letters == head + letters[..1] + [letters[1]];
    LastStays(head + letters[..1], letters[1]);
  }

  /** Text that ends in a letter is no number. */
  lemma EndsInLetter(s: string, z: char)
    requires s != "" && s[|s| - 1] == z && !IsDigit(z) && !IsSeparator(z)
    ensures ResolveDecimal(s) == None
  {
    var last := LastSeparator(s);
    if last >= 0 {
      var tail := s[last + 1..];
      assert tail != "" && tail[|tail| - 1] == z;
    } else {
      assert s[0..] == s;
      assert WithoutSeparators(s)[|WithoutSeparators(s)| - 1] == z;
    }
  }

  /**
   * From the printed cell to a direction: a printed marker overrules every other evidence, a
   * type column the column; a minus or parentheses turns the outcome round, also that of a
   * marker; and an unreadable cell goes by its column alone.
   */
  lemma PrintedCellDecidesDirection(cell: string, d: Dress, column: Option<Direction>, hint: Option<Direction>)
    requires IsSpaced(cell) && IsDress(d)
    ensures var own := if column.Some? then column.value else Debit;
      var bare := match MarkOf(d)
        case Some(Cr) => Credit
        case Some(Dr) => Debit
        case None => if hint.Some? then hint.value else own;
      DirectionFrom(ParseAmount(Dressed(cell, d)), column, hint) ==
        if ResolveDecimal(WithoutSpaces(cell)).None? || IsOverdressed(d) then own
        else if d.parentheses || IsMinus(d.sign) then (if bare == Credit then Debit else Credit)
        else bare
  {
    hide ParseAmount, Dressed, ResolveDecimal, IsSpaced, WithoutSpaces;
    ParseSeesThroughDress(cell, d);
  }

  // ----- in plain characters -----

  /** The two letters, in either case. */
  lemma MarksByLetters(letters: string)
    requires |letters| == 2
    ensures AsMark(letters) ==
      if letters[1] != 'r' && letters[1] != 'R' then None
      else if letters[0] == 'c' || letters[0] == 'C' then Some(Cr)
      else if letters[0] == 'd' || letters[0] == 'D' then Some(Dr)
      else None
  {}

  /** The hyphen, the minus sign and the two long dashes in front of a number are one sign. */
  lemma DashesAreMinus(number: string, dash: char)
    requires IsSpaced(number) && dash in {'-', '\U{2212}', '\U{2013}', '\U{2014}'}
    ensures ParseAmount([dash] + number) == match ResolveDecimal(WithoutSpaces(number))
      case None => None
      case Some(paise) => Some(Money(paise, true, None))
  {
    hide ReadInside, WithoutSpaces, ResolveDecimal, ParseAmount, Dressed, IsClean;
    var raw := [dash] + number;
    var plain := Dressed(number, Dress(false, Front(true, 0), NoMark));
    PlainMinus(number);
    assert plain == "-" + number;
    ParseSeesThroughDress(number, Dress(false, Front(true, 0), NoMark));
    DashedIsClean(number, dash);
  }

  lemma PlainMinus(number: string)
    ensures Dressed(number, Dress(false, Front(true, 0), NoMark)) == "-" + number
  {
    assert Spaces(0) + number == number;
  }

  lemma DashedIsClean(number: string, dash: char)
    requires IsSpaced(number) && dash in {'-', '\U{2212}', '\U{2013}', '\U{2014}'}
    ensures ParseAmount([dash] + number) == ParseAmount("-" + number)
  {
    hide ReadInside, HasDigit, TrimLeft, TrimRight, Strip;
    var raw, plain := [dash] + number, "-" + number;
    assert raw[|raw| - 1] == number[|number| - 1];
    NothingToTrim(raw);
    NothingToTrim(plain);
    assert forall i | 0 <= i < |number| :: !IsDash(number[i]);
    assert PlainDashes(raw) == plain == PlainDashes(plain);
    assert IsDigit(Map(raw, Lower)[|raw| - 1]) && IsDigit(Map(plain, Lower)[|plain| - 1]);
  }

  lemma TenfoldShift(n: nat, k: nat)
    ensures n * Pow(10, k + 1) == 10 * (n * Pow(10, k))
  {
    var p := Pow(10, k);
    assert Pow(10, k + 1) == 10 * p;
    assert n * (10 * p) == 10 * (n * p);
  }

  lemma {:induction false} ValueOfJoin(a: string, b: string)
    requires AllDigits(a) && AllDigits(b)
    ensures Value(a + b) == Value(a) * Pow(10, |b|) + Value(b)
  {
    if b == "" {
      assert a + b == a;
    } else {
      var init := b[..|b| - 1];
      ValueOfJoin(a, init);
      assert (a + b)[..|a + b| - 1] == a + init && (a + b)[|a + b| - 1] == b[|b| - 1];
      TenfoldShift(Value(a), |init|);
    }
  }

  lemma {:induction false} DigitsStay(s: string)
    requires AllDigits(s)
    ensures WithoutSeparators(s) == s && WithoutSpaces(s) == s
  {
    if s != "" {
      DigitsStay(s[..|s| - 1]);
    }
  }

  /**
   * A whole number, one of the three separators, and more digits: one digit counts tenths,
   * two hundredths, three go on with the whole number, and more make it unreadable.
   */
  lemma TwoGroups(whole: string, sep: char, tail: string)
    requires whole != "" && AllDigits(whole) && tail != "" && AllDigits(tail)
    requires sep == '.' || sep == ',' || sep == '\''
    ensures ParseAmount(whole + [sep] + tail) ==
      if |tail| == 1 then Some(Money(100 * Value(whole) + 10 * Value(tail), false, None))
      else if |tail| == 2 then Some(Money(100 * Value(whole) + Value(tail), false, None))
      else if |tail| == 3 then Some(Money(100 * (1000 * Value(whole) + Value(tail)), false, None))
      else None
  {
    hide ParseAmount, ResolveDecimal, Value, WithoutSeparators, WithoutSpaces, Pow;
    var cell := whole + [sep] + tail;
    assert IsDigit(whole[0]) && IsDigit(tail[|tail| - 1]);
    PlainGroupsStay(whole, sep, tail);
    LastGroupDecides(whole, sep, tail);
    DigitsStay(whole);
    ValueOfJoin(whole, tail);
    ParseSeesThroughDress(cell, Dress(false, NoSign, NoMark));
    if |tail| == 3 {
      ThousandIs();
    }
  }

  lemma ThousandIs()
    ensures Pow(10, 3) == 1000
  {
    assert Pow(10, 0) == 1 && Pow(10, 1) == 10 && Pow(10, 2) == 100;
  }

  lemma {:induction false} SeparatorsGoneIn(a: string, b: string)
    ensures WithoutSeparators(a + b) == WithoutSeparators(a) + WithoutSeparators(b)
    ensures WithoutSpaces(a + b) == WithoutSpaces(a) + WithoutSpaces(b)
  {
    if b == "" {
      assert a + b == a;
    } else {
      var init, z := b[..|b| - 1], b[|b| - 1];
      SeparatorsGoneIn(a, init);
      assert (a + b)[..|a + b| - 1] == a + init && (a + b)[|a + b| - 1] == z;
      assert WithoutSeparators(a + b)
          == WithoutSeparators(a) + (WithoutSeparators(init) + (if IsSeparator(z) then "" else [z]));
      assert WithoutSpaces(a + b) == WithoutSpaces(a) + (WithoutSpaces(init) + (if z == ' ' then "" else [z]));
    }
  }

  lemma PlainGroupsStay(whole: string, sep: char, tail: string)
    requires AllDigits(whole) && AllDigits(tail) && (sep == '.' || sep == ',' || sep == '\'')
    ensures WithoutSpaces(whole + [sep] + tail) == whole + [sep] + tail
    ensures WithoutSeparators(whole + [sep] + tail) == whole + tail
  {
    hide WithoutSpaces, WithoutSeparators;
    SeparatorsGoneIn(whole + [sep], tail);
    SeparatorsGoneIn(whole, [sep]);
    DigitsStay(whole);
    DigitsStay(tail);
    SingleSeparator(sep);
  }

  lemma SingleSeparator(sep: char)
    requires sep == '.' || sep == ',' || sep == '\''
    ensures WithoutSeparators([sep]) == "" && WithoutSpaces([sep]) == [sep]
  {
    assert [sep][..0] == "";
  }

  // ----- nothing without a digit is an amount -----

  predicate Digitless(s: string) {
    forall i | 0 <= i < |s| :: !IsDigit(s[i])
  }

  lemma {:induction false} TrimStaysDigitless(s: string)
    requires Digitless(s)
    ensures Digitless(TrimLeft(s)) && Digitless(TrimRight(s))
  {
    if s != "" {
      TrimStaysDigitless(s[1..]);
      TrimStaysDigitless(s[..|s| - 1]);
    }
  }

  lemma StripStaysDigitless(s: string)
    requires Digitless(s)
    ensures Digitless(Strip(s))
  {
    TrimStaysDigitless(s);
    TrimStaysDigitless(TrimLeft(s));
  }

  lemma {:induction false} SpacesGoneDigitless(s: string)
    requires Digitless(s)
    ensures Digitless(WithoutSpaces(s))
  {
    if s != "" {
      SpacesGoneDigitless(s[..|s| - 1]);
    }
  }

  lemma InsideWithoutDigit(inside: string, parens: bool)
    requires Digitless(inside)
    ensures ReadInside(inside, parens) == None
  {
    hide TrimLeft, TrimRight, Strip, WithoutSpaces;
    UnmarkedWithoutDigit(inside);
    if |inside| > 0 {
      StripStaysDigitless(inside[1..]);
      StripStaysDigitless(inside[..|inside| - 1]);
    }
    var (_, number) := StripSign(inside);
    SpacesGoneDigitless(number);
  }

  lemma UnmarkedWithoutDigit(inside: string)
    requires Digitless(inside)
    ensures StripMarker(inside) == (inside, None)
  {
    hide Strip;
    var e := if inside != "" && inside[|inside| - 1] == '.' then inside[..|inside| - 1] else inside;
    if |e| >= 2 {
      TrimStaysDigitless(e[..|e| - 2]);
      var rest := TrimRight(e[..|e| - 2]);
      if rest != "" {
        TrimStaysDigitless(rest[..|rest| - 1]);
      }
    }
  }

  /** Whatever else it holds, a cell without a digit is no amount. */
  lemma NoDigitNoAmount(raw: string)
    requires Digitless(raw)
    ensures ParseAmount(raw) == None
  {
    hide TrimLeft, TrimRight, Strip, ReadInside, IsBlank;
    StripStaysDigitless(raw);
    var plain := PlainDashes(Strip(raw));
    assert Digitless(plain);
    StripStaysDigitless(plain);
    var text := Strip(plain);
    InsideWithoutDigit(text, false);
    if |text| >= 2 {
      StripStaysDigitless(text[1..|text| - 1]);
      InsideWithoutDigit(Strip(text[1..|text| - 1]), true);
    }
  }

  /** A full stop may stand in front of a trailing marker too, with spaces around it. */
  lemma StopBeforeMarker(number: string, before: nat, behind: nat, letters: string)
    requires IsSpaced(number) && |letters| == 2 && AsMark(letters).Some?
    ensures ParseAmount(number + Spaces(before) + "." + Spaces(behind) + letters) ==
      match ResolveDecimal(WithoutSpaces(number))
      case None => None
      case Some(paise) => Some(Money(paise, false, AsMark(letters)))
  {
    hide ResolveDecimal, WithoutSpaces, ReadInside, ParseAmount, IsClean, HasDigit;
    var cell := number + Spaces(before) + "." + Spaces(behind) + letters;
    StoppedIsClean(number, before, behind, letters);
    ParseClean(cell);
    StoppedIsStripped(number, before, behind, letters);
    ReadsBare(cell, number, AsMark(letters));
  }

  lemma ReadsBare(cell: string, number: string, mark: Option<Mark>)
    requires IsSpaced(number) && StripMarker(cell) == (number, mark)
    ensures ReadInside(cell, false) == match ResolveDecimal(WithoutSpaces(number))
      case None => None
      case Some(paise) => Some(Money(paise, false, mark))
  {
    hide ResolveDecimal, WithoutSpaces, StripMarker;
  }

  lemma StoppedIsClean(number: string, before: nat, behind: nat, letters: string)
    requires IsSpaced(number) && |letters| == 2 && AsMark(letters).Some?
    ensures var cell := number + Spaces(before) + "." + Spaces(behind) + letters; IsClean(cell) && cell[0] != '('
  {
    hide HasDigit, AsMark, IsClean;
    var l := Label(behind, letters, false);
    LabelIsClean(l);
    FirstIsDigit(number);
    var back := Spaces(before) + "." + Spaces(behind) + letters;
    assert back[|back| - 1] == letters[1];
    forall i | 0 <= i < |back| ensures !IsDash(back[i]) {
      if i >= before + 1 + behind {
        assert back[i] == letters[i - (before + 1 + behind)];
      } else if i > before {
        assert back[i] == ' ';
      }
    }
    JoinedIsClean("", number, back);
    assert number + Spaces(before) + "." + Spaces(behind) + letters == "" + number + back;
  }

  lemma StoppedIsStripped(number: string, before: nat, behind: nat, letters: string)
    requires IsSpaced(number) && |letters| == 2 && AsMark(letters).Some?
    ensures StripMarker(number + Spaces(before) + "." + Spaces(behind) + letters) == (number, AsMark(letters))
  {
    hide TrimLeft, TrimRight, HasDigit;
    var head := number + Spaces(before) + ".";
    var e := head + Spaces(behind) + letters;
    assert e[|e| - 1] == letters[1] && e[|e| - 2..] == letters && e[..|e| - 2] == head + Spaces(behind);
    TrimSpaces(head, behind);
    assert head[..|head| - 1] == number + Spaces(before);
    TrimSpaces(number, before);
    NothingToTrim(number);
  }
}
