/** Small helpers shared by several modules: options, powers, and character tests. */
module Common {

  datatype Option<+T> = None | Some(value: T)

  function Pow(b: nat, e: nat): (p: nat)
    ensures b > 0 ==> p > 0
  {
    if e == 0 then 1 else b * Pow(b, e - 1)
  }

  lemma {:induction false} PowAdd(b: nat, x: nat, y: nat)
    ensures Pow(b, x + y) == Pow(b, x) * Pow(b, y)
  {
    if x != 0 {
      PowAdd(b, x - 1, y);
      var p, q := Pow(b, x - 1), Pow(b, y);
      assert b * (p * q) == (b * p) * q;
    }
  }

  function Min(x: nat, y: nat): nat {
    if x <= y then x else y
  }

  predicate IsDigit(c: char) {
    '0' <= c <= '9'
  }

  predicate AllDigits(s: string) {
    forall i | 0 <= i < |s| :: IsDigit(s[i])
  }

  /** The number a run of decimal digits denotes; the empty run denotes zero. */
  function Value(s: string): nat
    requires AllDigits(s)
  {
    if s == "" then 0
    else 10 * Value(s[..|s| - 1]) + (s[|s| - 1] as int - '0' as int)
  }

  function Upper(c: char): char {
    if 'a' <= c <= 'z' then ((c as int) - 32) as char else c
  }

  function Lower(c: char): char {
    if 'A' <= c <= 'Z' then ((c as int) + 32) as char else c
  }

  function Map(s: string, f: char -> char): (r: string)
    ensures |r| == |s| && forall i | 0 <= i < |s| :: r[i] == f(s[i])
  {
    seq(|s|, i requires 0 <= i < |s| => f(s[i]))
  }

  function TrimLeft(s: string): string {
    if s != "" && s[0] == ' ' then TrimLeft(s[1..]) else s
  }

  function TrimRight(s: string): string {
    if s != "" && s[|s| - 1] == ' ' then TrimRight(s[..|s| - 1]) else s
  }

  function Strip(s: string): string {
    TrimRight(TrimLeft(s))
  }

  /** `word` occurs in `text`. */
  predicate Mentions(text: string, word: string) {
    word <= text || (text != "" && Mentions(text[1..], word))
  }

  predicate StandsAt(text: string, word: string, i: nat) {
    i + |word| <= |text| && text[i..i + |word|] == word
  }

  lemma SliceOfTail(text: string, i: nat, n: nat)
    ensures i + 1 + n <= |text| ==> text[1..][i..i + n] == text[i + 1..i + 1 + n]
  {}

  /** A text mentions a word exactly when the word stands somewhere in it. */
  lemma {:induction false} MentionsIsOccurrence(text: string, word: string)
    ensures Mentions(text, word) <==> exists i: nat :: StandsAt(text, word, i)
  {
    assert StandsAt(text, word, 0) <==> word <= text;
    if text != "" {
      MentionsIsOccurrence(text[1..], word);
      forall i: nat ensures StandsAt(text[1..], word, i) <==> StandsAt(text, word, i + 1) {
        SliceOfTail(text, i, |word|);
      }
      if i: nat :| StandsAt(text[1..], word, i) {
        assert StandsAt(text, word, i + 1);
      }
      if i: nat :| StandsAt(text, word, i) && i > 0 {
        assert StandsAt(text[1..], word, i - 1);
      }
    }
  }

  /** Position of the first `c` in `s`, or -1. */
  function IndexOf(s: string, c: char): (r: int)
    ensures -1 <= r < |s|
    ensures r >= 0 ==> s[r] == c && c !in s[..r]
    ensures r == -1 ==> c !in s
  {
    if s == "" then -1
    else if s[0] == c then 0
    else
      var r := IndexOf(s[1..], c);
      assert r >= 0 ==> s[..r + 1] == [s[0]] + s[1..][..r];
      if r == -1 then -1 else r + 1
  }

  lemma {:induction false} IndexOfPrefix(a: string, c: char, b: string)
    requires c !in a
    ensures IndexOf(a + [c] + b, c) == |a|
  {
    if a != "" {
      IndexOfPrefix(a[1..], c, b);
      assert (a + [c] + b)[1..] == a[1..] + [c] + b;
    }
  }
}
