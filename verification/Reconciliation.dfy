/**
 * Matching the tax department's sale records against a broker's: names are reduced to their
 * significant words, broker trades are bucketed by type, and an index on exact names
 * short-cuts the scan for the best fuzzy match. The similarity score is any function that is
 * at most one, and one exactly for equal names.
 */
module Reconciliation {
  import opened Common

  const GENERIC_WORDS := {
    "fund", "ct", "the", "of", "and", "limited", "ltd", "equity", "shares",
    "new", "direct", "plan", "growth", "asset"
  }

  // ----- names -----

  function Plain(c: char): char {
    if c == '-' || c == '#' then ' ' else Lower(c)
  }

  function PlainName(s: string): string {
    Map(s, Plain)
  }

  /** The words of `s`, which spaces separate; `word` is the one being read. */
  function Words(s: string, word: string): seq<string> {
    if s == "" then (if word == "" then [] else [word])
    else if s[0] == ' ' then (if word == "" then [] else [word]) + Words(s[1..], "")
    else Words(s[1..], word + [s[0]])
  }

  function Significant(words: seq<string>): seq<string> {
    if words == [] then []
    else (if words[0] in GENERIC_WORDS then [] else [words[0]]) + Significant(words[1..])
  }

  function Join(words: seq<string>): string {
    if words == [] then ""
    else if |words| == 1 then words[0]
    else words[0] + " " + Join(words[1..])
  }

  /** The significant words of a name, in lower case. */
  function WordsOf(name: string): seq<string> {
    Significant(Words(PlainName(name), ""))
  }

  function Normalize(name: string): string {
    Join(WordsOf(name))
  }

  predicate IsWord(w: string) {
    w != "" && ' ' !in w
  }

  predicate AreWords(ws: seq<string>) {
    forall i | 0 <= i < |ws| :: IsWord(ws[i])
  }

  lemma {:induction false} ReadWord(w: string, prefix: string, rest: string)
    requires ' ' !in w
    ensures Words(w + rest, prefix) == Words(rest, prefix + w)
  {
    if w == "" {
      assert w + rest == rest && prefix + w == prefix;
    } else {
      assert (w + rest)[1..] == w[1..] + rest;
      assert w[0] in w;
      ReadWord(w[1..], prefix + [w[0]], rest);
      assert prefix + [w[0]] + w[1..] == prefix + w;
    }
  }

  lemma {:induction false} SplitJoined(ws: seq<string>)
    requires AreWords(ws)
    ensures Words(Join(ws), "") == ws
  {
    if ws != [] {
      var w := ws[0];
      assert IsWord(w) && "" + w == w;
      if |ws| == 1 {
        ReadWord(w, "", "");
        assert w + "" == w;
      } else {
        var tail := Join(ws[1..]);
        ReadWord(w, "", " " + tail);
        assert Join(ws) == w + (" " + tail);
        assert (" " + tail)[1..] == tail;
        SplitJoined(ws[1..]);
      }
    }
  }

  lemma {:induction false} WordsAreWords(s: string, word: string)
    requires ' ' !in word
    ensures AreWords(Words(s, word))
  {
    if s != "" {
      if s[0] == ' ' {
        WordsAreWords(s[1..], "");
      } else {
        WordsAreWords(s[1..], word + [s[0]]);
      }
    }
  }

  lemma {:induction false} SignificantAreWords(ws: seq<string>)
    requires AreWords(ws)
    ensures AreWords(Significant(ws))
  {
    if ws != [] {
      SignificantAreWords(ws[1..]);
    }
  }

  /** Two names normalise alike exactly when they have the same significant words in order. */
  lemma SameNameMeansSameWords(a: string, b: string)
    ensures Normalize(a) == Normalize(b) <==> WordsOf(a) == WordsOf(b)
  {
    hide Words, Significant, Join, PlainName;
    forall name ensures Words(Normalize(name), "") == WordsOf(name) {
      WordsAreWords(PlainName(name), "");
      SignificantAreWords(Words(PlainName(name), ""));
      SplitJoined(WordsOf(name));
    }
    assert Words(Normalize(a), "") == WordsOf(a);
    assert Words(Normalize(b), "") == WordsOf(b);
  }

  // ----- names in plain terms -----

  /** Characters that separate the words of a name. */
  predicate Separates(c: char) {
    c == ' ' || c == '-' || c == '#'
  }

  lemma {:induction false} WordsOfJoin(a: string, b: string, word: string)
    ensures Words(a + " " + b, word) == Words(a, word) + Words(b, "")
  {
    if a == "" {
      assert a + " " + b == " " + b && (" " + b)[1..] == b;
    } else {
      assert (a + " " + b)[1..] == a[1..] + " " + b;
      WordsOfJoin(a[1..], b, if a[0] == ' ' then "" else word + [a[0]]);
    }
  }

  lemma FrontOfSignificant(w: string, ws: seq<string>)
    ensures Significant([w] + ws) == (if w in GENERIC_WORDS then [] else [w]) + Significant(ws)
    ensures Significant([]) == []
  {
    assert ([w] + ws)[1..] == ws;
  }

  lemma {:induction false} SignificantOfJoin(a: seq<string>, b: seq<string>)
    ensures Significant(a + b) == Significant(a) + Significant(b)
    decreases |a|
  {
    hide Significant;
    if a == [] {
      FrontOfSignificant("", b);
      assert a + b == b;
    } else {
      var w, rest := a[0], a[1..];
      SignificantOfJoin(rest, b);
      FrontOfSignificant(w, rest);
      FrontOfSignificant(w, rest + b);
      assert a == [w] + rest && a + b == [w] + (rest + b);
    }
  }

  /** A space, a hyphen and a hash separate words alike. */
  lemma NamesSplitAtSeparators(a: string, sep: char, b: string)
    requires Separates(sep)
    ensures WordsOf(a + [sep] + b) == WordsOf(a) + WordsOf(b)
  {
    hide Words, Significant;
    assert PlainName(a + [sep] + b) == PlainName(a) + " " + PlainName(b);
    WordsOfJoin(PlainName(a), PlainName(b), "");
    SignificantOfJoin(Words(PlainName(a), ""), Words(PlainName(b), ""));
  }

  /**
   * A single word counts, in lower case, unless it is one of the fourteen generic ones. With
   * `NamesSplitAtSeparators` this settles every name.
   */
  lemma SingleWordName(word: string, lower: string)
    requires word != "" && |lower| == |word|
    requires forall i | 0 <= i < |word| :: !Separates(word[i])
    requires forall i | 0 <= i < |word| ::
      if 'A' <= word[i] <= 'Z' then lower[i] as int == word[i] as int + 32 else lower[i] == word[i]
    ensures WordsOf("") == []
    ensures WordsOf(word) ==
      if lower in {"fund", "ct", "the", "of", "and", "limited", "ltd", "equity", "shares", "new", "direct", "plan",
                   "growth", "asset"}
      then [] else [lower]
  {
    assert PlainName("") == "" && Words("", "") == [];
    assert PlainName(word) == lower;
    ReadWord(lower, "", "");
    assert lower + "" == lower && "" + lower == lower;
    assert [lower][1..] == [] && Significant([]) == [];
  }

  lemma FrontOfNoSpaces(c: char, s: string)
    ensures NoSpaces([c] + s) == (if c == ' ' then "" else [c]) + NoSpaces(s) && NoSpaces("") == ""
  {
    assert ([c] + s)[1..] == s;
  }

  /** Dropping spaces is done part by part, and nothing else drops out. */
  lemma {:induction false} SpacesDropOut(a: string, b: string)
    ensures NoSpaces(a + b) == NoSpaces(a) + NoSpaces(b)
    decreases |a|
  {
    hide NoSpaces;
    if a == "" {
      FrontOfNoSpaces(' ', b);
      assert a + b == b;
    } else {
      var c, rest := a[0], a[1..];
      SpacesDropOut(rest, b);
      FrontOfNoSpaces(c, rest);
      FrontOfNoSpaces(c, rest + b);
      assert a == [c] + rest && a + b == [c] + (rest + b);
    }
  }

  lemma {:induction false} NothingElseDropsOut(a: string)
    ensures ' ' !in NoSpaces(a) && (' ' !in a ==> NoSpaces(a) == a)
  {
    if a != "" {
      NothingElseDropsOut(a[1..]);
      assert a == [a[0]] + a[1..];
    }
  }

  function NoSpaces(s: string): string {
    if s == "" then ""
    else (if s[0] == ' ' then "" else [s[0]]) + NoSpaces(s[1..])
  }

  // ----- broker buckets -----

  datatype Trade = Trade(security: string, kind: string, cost: real, sale: real)

  /** All trades of one security and type together. `key` is the name in lower case. */
  datatype Entry = Entry(key: string, norm: string, cost: real, sale: real)

  function KeyOf(t: Trade): string {
    Map(Strip(t.security), Lower)
  }

  /** Trades go under one key when their names are the same but for outer spaces and case. */
  lemma KeyInPlainTerms(t: Trade, name: string, before: string, behind: string)
    requires t.security == before + name + behind
    requires (forall i | 0 <= i < |before| :: before[i] == ' ') && forall i | 0 <= i < |behind| :: behind[i] == ' '
    requires name != "" && name[0] != ' ' && name[|name| - 1] != ' '
    ensures |KeyOf(t)| == |name| && forall i | 0 <= i < |name| ::
      if 'A' <= name[i] <= 'Z' then KeyOf(t)[i] as int == name[i] as int + 32 else KeyOf(t)[i] == name[i]
  {
    TrimBefore(before, name + behind);
    assert before + (name + behind) == t.security;
    TrimBehind(name, behind);
  }

  lemma {:induction false} TrimBefore(before: string, rest: string)
    requires (forall i | 0 <= i < |before| :: before[i] == ' ') && rest != "" && rest[0] != ' '
    ensures TrimLeft(before + rest) == rest
  {
    if before == "" {
      assert before + rest == rest;
    } else {
      assert (before + rest)[1..] == before[1..] + rest;
      TrimBefore(before[1..], rest);
    }
  }

  lemma {:induction false} TrimBehind(name: string, behind: string)
    requires (forall i | 0 <= i < |behind| :: behind[i] == ' ') && name != "" && name[|name| - 1] != ' '
    ensures TrimRight(name + behind) == name
  {
    if behind == "" {
      assert name + behind == name;
    } else {
      assert (name + behind)[..|name + behind| - 1] == name + behind[..|behind| - 1];
      TrimBehind(name, behind[..|behind| - 1]);
    }
  }

  /** Cost and sale value of all trades of one type and name. */
  function CostOf(ts: seq<Trade>, kind: string, key: string): real {
    if ts == [] then 0.0
    else
      var t := ts[|ts| - 1];
      CostOf(ts[..|ts| - 1], kind, key) + if t.kind == kind && KeyOf(t) == key then t.cost else 0.0
  }

  function SaleOf(ts: seq<Trade>, kind: string, key: string): real {
    if ts == [] then 0.0
    else
      var t := ts[|ts| - 1];
      SaleOf(ts[..|ts| - 1], kind, key) + if t.kind == kind && KeyOf(t) == key then t.sale else 0.0
  }

  /** Position of the entry with this key, or the length. */
  function Find(es: seq<Entry>, key: string): (r: nat)
    ensures r <= |es|
    ensures r < |es| ==> es[r].key == key
    ensures forall i | 0 <= i < r :: es[i].key != key
  {
    if es == [] then 0
    else
      var r := Find(es[..|es| - 1], key);
      if r < |es| - 1 then r
      else if es[|es| - 1].key == key then |es| - 1 else |es|
  }

  type Buckets = map<string, seq<Entry>>

  function Bucket(b: Buckets, kind: string): seq<Entry> {
    if kind in b then b[kind] else []
  }

  predicate DistinctKeys(es: seq<Entry>) {
    forall i, j | 0 <= i < j < |es| :: es[i].key != es[j].key
  }

  /**
   * One entry for every security traded under the type, with the exact totals and the
   * normalised name that all its trades share.
   */
  ghost predicate Totals(b: Buckets, ts: seq<Trade>, kind: string) {
    var es := Bucket(b, kind);
    && DistinctKeys(es)
    && (forall i | 0 <= i < |es| :: es[i].key != "" && es[i].norm == Normalize(es[i].key)
          && es[i].cost == CostOf(ts, kind, es[i].key) && es[i].sale == SaleOf(ts, kind, es[i].key))
    && (forall i | 0 <= i < |ts| && ts[i].kind == kind && KeyOf(ts[i]) != "" :: Find(es, KeyOf(ts[i])) < |es|)
  }

  function Added(es: seq<Entry>, t: Trade): seq<Entry> {
    var at := Find(es, KeyOf(t));
    if at < |es| then es[at := es[at].(cost := es[at].cost + t.cost, sale := es[at].sale + t.sale)]
    else es + [Entry(KeyOf(t), Normalize(t.security), t.cost, t.sale)]
  }

  lemma {:induction false} TrailingSpaceIsNoWord(s: string, word: string)
    ensures Words(s + " ", word) == Words(s, word)
  {
    if s == "" {
      assert s + " " == " " && " "[1..] == "";
      assert (if word == "" then [] else [word]) + Words("", "") == (if word == "" then [] else [word]);
    } else {
      assert (s + " ")[1..] == s[1..] + " ";
      TrailingSpaceIsNoWord(s[1..], if s[0] == ' ' then "" else word + [s[0]]);
    }
  }

  lemma {:induction false} TrimLeftKeepsWords(s: string)
    ensures Words(PlainName(TrimLeft(s)), "") == Words(PlainName(s), "")
  {
    if s != "" && s[0] == ' ' {
      TrimLeftKeepsWords(s[1..]);
      assert PlainName(s)[1..] == PlainName(s[1..]);
    }
  }

  lemma {:induction false} TrimRightKeepsWords(s: string)
    ensures Words(PlainName(TrimRight(s)), "") == Words(PlainName(s), "")
  {
    if s != "" && s[|s| - 1] == ' ' {
      TrimRightKeepsWords(s[..|s| - 1]);
      assert PlainName(s) == PlainName(s[..|s| - 1]) + " ";
      TrailingSpaceIsNoWord(PlainName(s[..|s| - 1]), "");
    }
  }

  /** Trades kept under one key normalise to one name. */
  lemma KeyKeepsName(t: Trade)
    ensures Normalize(KeyOf(t)) == Normalize(t.security)
  {
    hide Words, Significant, Join, TrimLeft, TrimRight;
    var name := t.security;
    TrimLeftKeepsWords(name);
    TrimRightKeepsWords(TrimLeft(name));
    assert PlainName(KeyOf(t)) == PlainName(Strip(name));
  }

  lemma {:induction false} UntradedIsZero(ts: seq<Trade>, kind: string, key: string)
    requires forall i | 0 <= i < |ts| :: ts[i].kind != kind || KeyOf(ts[i]) != key
    ensures CostOf(ts, kind, key) == 0.0 && SaleOf(ts, kind, key) == 0.0
  {
    hide KeyOf;
    if ts != [] {
      UntradedIsZero(ts[..|ts| - 1], kind, key);
    }
  }

  lemma CostOfSnoc(ts: seq<Trade>, t: Trade, kind: string, key: string)
    ensures CostOf(ts + [t], kind, key)
         == CostOf(ts, kind, key) + if t.kind == kind && KeyOf(t) == key then t.cost else 0.0
    ensures SaleOf(ts + [t], kind, key)
         == SaleOf(ts, kind, key) + if t.kind == kind && KeyOf(t) == key then t.sale else 0.0
  {
    hide KeyOf;
    assert (ts + [t])[..|ts|] == ts;
  }

  lemma OtherTradesChangeNothing(b: Buckets, ts: seq<Trade>, t: Trade, kind: string)
    requires Totals(b, ts, kind) && (t.kind != kind || KeyOf(t) == "")
    ensures Totals(b, ts + [t], kind)
  {
    hide KeyOf, CostOf, SaleOf, Find;
    var es := Bucket(b, kind);
    forall i | 0 <= i < |es|
      ensures es[i].cost == CostOf(ts + [t], kind, es[i].key) && es[i].sale == SaleOf(ts + [t], kind, es[i].key)
    {
      CostOfSnoc(ts, t, kind, es[i].key);
    }
  }

  lemma AddedKeepsTotals(b: Buckets, ts: seq<Trade>, t: Trade)
    requires Totals(b, ts, t.kind) && KeyOf(t) != ""
    ensures Totals(b[t.kind := Added(Bucket(b, t.kind), t)], ts + [t], t.kind)
  {
    hide KeyOf, CostOf, SaleOf, Find, Normalize;
    KeyKeepsName(t);
    var es, kind := Bucket(b, t.kind), t.kind;
    var now := Added(es, t);
    var at := Find(es, KeyOf(t));
    assert forall i | 0 <= i < |es| :: now[i].key == es[i].key;
    if at == |es| {
      UntradedIsZero(ts, kind, KeyOf(t));
    }
    forall i | 0 <= i < |now|
      ensures now[i].cost == CostOf(ts + [t], kind, now[i].key) && now[i].sale == SaleOf(ts + [t], kind, now[i].key)
    {
      CostOfSnoc(ts, t, kind, now[i].key);
    }
    forall i | 0 <= i < |ts + [t]| && (ts + [t])[i].kind == kind && KeyOf((ts + [t])[i]) != ""
      ensures Find(now, KeyOf((ts + [t])[i])) < |now|
    {
      var key := KeyOf((ts + [t])[i]);
      var was := if i < |ts| then Find(es, key) else at;
      assert now[was].key == key;
    }
  }

  /**
   * The broker's trades by type and security. No trade with a name is lost or counted twice;
   * those without a name are skipped.
   */
  method BucketTrades(trades: seq<Trade>) returns (buckets: Buckets)
    ensures forall kind :: Totals(buckets, trades, kind)
  {
    hide Totals, Added, KeyOf;
    buckets := map[];
    EmptyTotals();
    for i := 0 to |trades|
      invariant forall kind :: Totals(buckets, trades[..i], kind)
    {
      var t := trades[i];
      ghost var was, seen := buckets, trades[..i + 1];
      assert seen == trades[..i] + [t];
      if KeyOf(t) != "" {
        buckets := buckets[t.kind := Added(Bucket(buckets, t.kind), t)];
        AddedKeepsTotals(was, trades[..i], t);
      }
      forall kind | kind != t.kind || KeyOf(t) == "" ensures Totals(buckets, seen, kind) {
        OtherTradesChangeNothing(was, trades[..i], t, kind);
        SameBucketSameTotals(was, buckets, seen, kind);
      }
    }
    assert trades[..|trades|] == trades;
  }

  lemma EmptyTotals()
    ensures forall kind :: Totals(map[], [], kind)
  {}

  lemma SameBucketSameTotals(b: Buckets, c: Buckets, ts: seq<Trade>, kind: string)
    requires Totals(b, ts, kind) && Bucket(b, kind) == Bucket(c, kind)
    ensures Totals(c, ts, kind)
  {}

  // ----- matching -----

  /** What is looked for in a bucket: a normalised name and a sale value. */
  datatype Query = Query(name: string, sale: real)

  type Score = (string, string) -> real

  ghost predicate IsSimilarity(score: Score) {
    forall a, b :: score(a, b) <= 1.0 && (score(a, b) == 1.0 <==> a == b)
  }

  function Tolerance(q: Query): real {
    if q.sale * 0.005 > 10.0 then q.sale * 0.005 else 10.0
  }

  function Delta(q: Query, e: Entry): real {
    if e.sale >= q.sale then e.sale - q.sale else q.sale - e.sale
  }

  /** The sale values are close enough for costs to be compared. */
  predicate PassesSaleGate(q: Query, e: Entry) {
    Delta(q, e) <= Tolerance(q) || Delta(q, e) < q.sale * 0.10
  }

  function ScoreOf(q: Query, e: Entry, score: Score): real {
    score(q.name, e.norm)
  }

  predicate IsNameMatch(q: Query, e: Entry, score: Score) {
    || ScoreOf(q, e, score) > 0.5
    || (e.norm != "" && Mentions(q.name, e.norm))
    || (q.name != "" && Mentions(e.norm, q.name))
    || Mentions(NoSpaces(q.name), NoSpaces(e.norm))
    || (Delta(q, e) <= Tolerance(q) && ScoreOf(q, e, score) > 0.15)
  }

  predicate Candidate(q: Query, e: Entry, score: Score, strict: bool) {
    IsNameMatch(q, e, score) && (strict ==> PassesSaleGate(q, e))
  }

  /** There are such scores: exact equality is one. */
  lemma SomethingIsSimilarity()
    ensures IsSimilarity((a: string, b: string) => if a == b then 1.0 else 0.0)
  {}

  /**
   * What makes an entry a candidate, in plain arithmetic. `apart` is the distance of the two
   * sale values. They count as equal up to ten rupees or half a per cent, and as close below
   * ten per cent; the strict match asks for close ones.
   */
  lemma CandidateInPlainTerms(q: Query, e: Entry, score: Score, strict: bool, apart: real)
    requires apart >= 0.0 && (apart == q.sale - e.sale || apart == e.sale - q.sale)
    ensures var equal := apart <= 10.0 || 200.0 * apart <= q.sale;
      var close := equal || 10.0 * apart < q.sale;
      var similar := score(q.name, e.norm);
      var named := similar > 0.5
        || (e.norm != "" && Mentions(q.name, e.norm)) || (q.name != "" && Mentions(e.norm, q.name))
        || Mentions(NoSpaces(q.name), NoSpaces(e.norm))
        || (equal && similar > 0.15);
      Candidate(q, e, score, strict) <==> named && (strict ==> close)
  {
    hide Mentions, NoSpaces;
  }

  function BestScore(q: Query, es: seq<Entry>, score: Score, best: Option<nat>): real
    requires best.Some? ==> best.value < |es|
  {
    if best.None? then 0.0 else ScoreOf(q, es[best.value], score)
  }

  /** What the scan of the first `n` entries keeps: an entry replaces a strictly worse one. */
  function Best(q: Query, es: seq<Entry>, n: nat, score: Score, strict: bool): (best: Option<nat>)
    requires n <= |es|
    ensures best.Some? ==> best.value < n
  {
    if n == 0 then None
    else
      var best := Best(q, es, n - 1, score, strict);
      if Candidate(q, es[n - 1], score, strict) && ScoreOf(q, es[n - 1], score) > BestScore(q, es, score, best)
      then Some(n - 1) else best
  }

  /** The scan finds the first of the best-scoring candidates, if any scores above zero. */
  lemma {:induction false} ScanFindsFirstBest(q: Query, es: seq<Entry>, n: nat, score: Score, strict: bool)
    requires n <= |es|
    ensures var best := Best(q, es, n, score, strict);
      && (best.Some? ==> Candidate(q, es[best.value], score, strict) && ScoreOf(q, es[best.value], score) > 0.0)
      && (forall i | 0 <= i < n && Candidate(q, es[i], score, strict) ::
            ScoreOf(q, es[i], score) <= BestScore(q, es, score, best))
      && (forall i | 0 <= i < n && Candidate(q, es[i], score, strict) && best.Some? && i < best.value ::
            ScoreOf(q, es[i], score) < BestScore(q, es, score, best))
  {
    hide Candidate, ScoreOf;
    if n > 0 {
      ScanFindsFirstBest(q, es, n - 1, score, strict);
    }
  }

  /** Position of the last entry with this normalised name, among the first `n`. */
  function LastNamed(es: seq<Entry>, n: nat, name: string): (r: Option<nat>)
    requires n <= |es|
    ensures r.Some? ==> r.value < n
  {
    if n == 0 then None
    else if es[n - 1].norm == name then Some(n - 1)
    else LastNamed(es, n - 1, name)
  }

  lemma {:induction false} LastNamedIsLast(es: seq<Entry>, n: nat, name: string)
    requires n <= |es|
    ensures var r := LastNamed(es, n, name);
      && (r.Some? ==> es[r.value].norm == name)
      && forall i | 0 <= i < n && es[i].norm == name :: r.Some? && i <= r.value
  {
    if n > 0 && es[n - 1].norm != name {
      LastNamedIsLast(es, n - 1, name);
    }
  }

  type Matches = (Option<nat>, Option<nat>)

  predicate Within(m: Matches, es: seq<Entry>) {
    (m.0.Some? ==> m.0.value < |es|) && (m.1.Some? ==> m.1.value < |es|)
  }

  /** The loose and the strict match of the full scan. */
  function FullScan(q: Query, es: seq<Entry>, score: Score): (m: Matches)
    ensures Within(m, es)
  {
    (Best(q, es, |es|, score, false), Best(q, es, |es|, score, true))
  }

  /** The indexed entry, when the short cut is taken. */
  function Exact(q: Query, es: seq<Entry>): (r: Option<nat>)
    ensures r.Some? ==> r.value < |es|
  {
    var last := LastNamed(es, |es|, q.name);
    if q.name != "" && last.Some? && PassesSaleGate(q, es[last.value]) then last else None
  }

  function FastMatch(q: Query, es: seq<Entry>, score: Score): (m: Matches)
    ensures Within(m, es)
  {
    var exact := Exact(q, es);
    if exact.Some? then (exact, exact) else FullScan(q, es, score)
  }

  predicate DistinctNames(es: seq<Entry>) {
    forall i, j | 0 <= i < j < |es| :: es[i].norm != es[j].norm
  }

  lemma ExactIsCandidate(q: Query, e: Entry, score: Score, strict: bool)
    requires IsSimilarity(score) && e.norm == q.name && (strict ==> PassesSaleGate(q, e))
    ensures Candidate(q, e, score, strict) && ScoreOf(q, e, score) == 1.0
  {
    hide Mentions, NoSpaces;
  }

  /** The scan ends on the first candidate that has the exact name, if there is one. */
  lemma ScanPrefersExactName(q: Query, es: seq<Entry>, k: nat, score: Score, strict: bool)
    requires IsSimilarity(score) && k < |es| && es[k].norm == q.name
    requires strict ==> PassesSaleGate(q, es[k])
    ensures var best := Best(q, es, |es|, score, strict);
      best.Some? && best.value <= k && es[best.value].norm == q.name
  {
    hide Candidate, Best;
    ScanFindsFirstBest(q, es, |es|, score, strict);
    ExactIsCandidate(q, es[k], score, strict);
  }

  /**
   * The short cut finds what the full scan finds, except exactly when it is taken and the
   * bucket holds another entry with the same normalised name.
   */
  lemma FastPathAgreesExactly(q: Query, es: seq<Entry>, score: Score)
    requires IsSimilarity(score)
    ensures FastMatch(q, es, score) == FullScan(q, es, score) <==>
      (var exact := Exact(q, es);
       exact.Some? ==> forall i | 0 <= i < |es| && es[i].norm == q.name :: i == exact.value)
  {
    hide Candidate, Best, PassesSaleGate, IsSimilarity;
    var exact := Exact(q, es);
    LastNamedIsLast(es, |es|, q.name);
    if exact.Some? {
      ScanPrefersExactName(q, es, exact.value, score, false);
      ScanPrefersExactName(q, es, exact.value, score, true);
      forall i | 0 <= i < |es| && es[i].norm == q.name && i != exact.value
        ensures FullScan(q, es, score).0 != exact
      {
        ScanPrefersExactName(q, es, i, score, false);
      }
    }
  }

  predicate IsNamed(q: Query, e: Entry, strict: bool) {
    e.norm == q.name && (strict ==> PassesSaleGate(q, e))
  }

  /** The first entry of exactly this name, among the first `n`. */
  function FirstNamed(q: Query, es: seq<Entry>, n: nat, strict: bool): (r: Option<nat>)
    requires n <= |es|
    ensures r.Some? ==> r.value < n && IsNamed(q, es[r.value], strict)
    ensures forall i | 0 <= i < n && IsNamed(q, es[i], strict) :: r.Some? && r.value <= i
  {
    if n == 0 then None
    else
      var r := FirstNamed(q, es, n - 1, strict);
      if r.None? && IsNamed(q, es[n - 1], strict) then Some(n - 1) else r
  }

  /** The full scan ends on the first entry of the exact name, if there is one. */
  lemma ScanEndsOnFirstNamed(q: Query, es: seq<Entry>, score: Score, strict: bool)
    requires IsSimilarity(score) && FirstNamed(q, es, |es|, strict).Some?
    ensures Best(q, es, |es|, score, strict) == FirstNamed(q, es, |es|, strict)
  {
    hide Candidate, Best, PassesSaleGate, FirstNamed;
    var first := FirstNamed(q, es, |es|, strict).value;
    ScanPrefersExactName(q, es, first, score, strict);
    ScanFindsFirstBest(q, es, |es|, score, strict);
    var best := Best(q, es, |es|, score, strict).value;
    assert IsNamed(q, es[best], strict) by {
      BestPassesGate(q, es, score, strict);
    }
  }

  lemma BestPassesGate(q: Query, es: seq<Entry>, score: Score, strict: bool)
    ensures var best := Best(q, es, |es|, score, strict);
      best.Some? && strict ==> PassesSaleGate(q, es[best.value])
  {
    hide Best, PassesSaleGate, IsNameMatch;
    ScanFindsFirstBest(q, es, |es|, score, strict);
  }

  lemma FastPathAgreesOnDistinctNames(q: Query, es: seq<Entry>, score: Score)
    requires IsSimilarity(score) && DistinctNames(es)
    ensures FastMatch(q, es, score) == FullScan(q, es, score)
  {
    hide FastMatch, FullScan, PassesSaleGate;
    LastNamedIsLast(es, |es|, q.name);
    FastPathAgreesExactly(q, es, score);
  }

  /** The scan of a bucket, both matches in one pass. */
  method ScanBucket(q: Query, es: seq<Entry>, score: Score) returns (m: Matches)
    ensures m == FullScan(q, es, score)
  {
    hide IsNameMatch, PassesSaleGate, ScoreOf;
    var loose: Option<nat>, strict: Option<nat> := None, None;
    var looseScore, strictScore := 0.0, 0.0;
    for i := 0 to |es|
      invariant loose == Best(q, es, i, score, false) && strict == Best(q, es, i, score, true)
      invariant looseScore == BestScore(q, es, score, loose) && strictScore == BestScore(q, es, score, strict)
    {
      var s := ScoreOf(q, es[i], score);
      if IsNameMatch(q, es[i], score) {
        if s > looseScore {
          looseScore, loose := s, Some(i);
        }
        if PassesSaleGate(q, es[i]) && s > strictScore {
          strictScore, strict := s, Some(i);
        }
      }
    }
    m := (loose, strict);
  }

  /** Every name of the first `n` entries but the empty one, with the last entry that has it. */
  ghost predicate IsIndex(index: map<string, nat>, es: seq<Entry>, n: nat)
    requires n <= |es|
  {
    forall name :: Indexed(index, name) == if name == "" then None else LastNamed(es, n, name)
  }

  function Indexed(index: map<string, nat>, name: string): Option<nat> {
    if name in index then Some(index[name]) else None
  }

  method IndexNames(es: seq<Entry>) returns (index: map<string, nat>)
    ensures IsIndex(index, es, |es|)
  {
    index := map[];
    for i := 0 to |es|
      invariant IsIndex(index, es, i)
    {
      IndexNext(index, es, i);
      if es[i].norm != "" {
        index := index[es[i].norm := i];
      }
    }
  }

  lemma IndexNext(index: map<string, nat>, es: seq<Entry>, i: nat)
    requires i < |es| && IsIndex(index, es, i)
    ensures IsIndex(if es[i].norm != "" then index[es[i].norm := i] else index, es, i + 1)
  {
    var next := if es[i].norm != "" then index[es[i].norm := i] else index;
    forall name ensures Indexed(next, name) == if name == "" then None else LastNamed(es, i + 1, name) {
      assert Indexed(index, name) == if name == "" then None else LastNamed(es, i, name);
    }
  }

  method MatchAggregate(q: Query, es: seq<Entry>, index: map<string, nat>, score: Score) returns (m: Matches)
    requires IsIndex(index, es, |es|)
    ensures m == FastMatch(q, es, score)
  {
    hide PassesSaleGate, FullScan, LastNamed;
    var indexed := Indexed(index, q.name);
    if indexed.Some? && PassesSaleGate(q, es[indexed.value]) {
      m := (indexed, indexed);
    } else {
      m := ScanBucket(q, es, score);
    }
  }

  // ----- the report -----

  datatype Flag =
    | ZeroCost(security: string, kind: string, brokerCost: real)
    | CostMismatch(security: string, kind: string, cost: real, brokerCost: real)

  function Differs(cost: real, brokerCost: real): bool {
    cost - brokerCost > cost * 0.20 || brokerCost - cost > cost * 0.20
  }

  /** One aggregate of the tax department: a security sold under a type. */
  datatype Aggregate = Aggregate(security: string, kind: string, cost: real, sale: real, zeroCost: bool)

  function QueryOf(a: Aggregate): Query {
    Query(Normalize(a.security), a.sale)
  }

  /** What one aggregate adds to the two lists of flags. */
  function FlagsOf(a: Aggregate, es: seq<Entry>, m: Matches): (seq<Flag>, seq<Flag>)
    requires Within(m, es)
  {
    (if a.zeroCost && m.0.Some? && es[m.0.value].cost > 0.0
     then [ZeroCost(a.security, a.kind, es[m.0.value].cost)] else [],
     if a.cost > 0.0 && m.1.Some? && Differs(a.cost, es[m.1.value].cost)
     then [CostMismatch(a.security, a.kind, a.cost, es[m.1.value].cost)] else [])
  }

  /** The flags of all aggregates, with the short cut or by full scans alone. */
  function Report(all: seq<Aggregate>, b: Buckets, score: Score, fast: bool): (seq<Flag>, seq<Flag>) {
    if all == [] then ([], [])
    else
      var before := Report(all[..|all| - 1], b, score, fast);
      var a := all[|all| - 1];
      var es := Bucket(b, a.kind);
      var q := QueryOf(a);
      var flags := FlagsOf(a, es, if fast then FastMatch(q, es, score) else FullScan(q, es, score));
      (before.0 + flags.0, before.1 + flags.1)
  }

  /**
   * What is reported for one aggregate, in plain arithmetic. Without a price: a loose match
   * that has one. With a wrong cost: a strict match whose cost lies more than a fifth of the
   * aggregate's away.
   */
  function Reported(a: Aggregate, b: Buckets, score: Score, zero: bool): Option<Flag> {
    var es := if a.kind in b then b[a.kind] else [];
    var (loose, strict) := FastMatch(Query(Normalize(a.security), a.sale), es, score);
    if zero then
      if a.zeroCost && loose.Some? && es[loose.value].cost > 0.0
      then Some(ZeroCost(a.security, a.kind, es[loose.value].cost)) else None
    else if a.cost > 0.0 && strict.Some? then
      var distance := if a.cost > es[strict.value].cost then a.cost - es[strict.value].cost
                      else es[strict.value].cost - a.cost;
      if 5.0 * distance > a.cost then Some(CostMismatch(a.security, a.kind, a.cost, es[strict.value].cost)) else None
    else None
  }

  lemma FlagsAreReported(a: Aggregate, b: Buckets, score: Score)
    ensures var es := Bucket(b, a.kind);
      var flags := FlagsOf(a, es, FastMatch(QueryOf(a), es, score));
      && (flags.0 == match Reported(a, b, score, true) case Some(f) => [f] case None => [])
      && (flags.1 == match Reported(a, b, score, false) case Some(f) => [f] case None => [])
  {
    hide FastMatch, Normalize;
  }

  /** One list of a report. */
  function Side(r: (seq<Flag>, seq<Flag>), zero: bool): seq<Flag> {
    if zero then r.0 else r.1
  }

  /** What is reported for each aggregate in turn. */
  function ReportedFor(all: seq<Aggregate>, b: Buckets, score: Score, zero: bool): (r: seq<Option<Flag>>)
    ensures |r| == |all| && forall i | 0 <= i < |all| :: r[i] == Reported(all[i], b, score, zero)
  {
    seq(|all|, i requires 0 <= i < |all| => Reported(all[i], b, score, zero))
  }

  /** `flags` are the values that are there, once each and in order; `from` says where they stand. */
  predicate AreAll(flags: seq<Flag>, from: seq<nat>, rs: seq<Option<Flag>>) {
    && |flags| == |from|
    && (forall i, j | 0 <= i < j < |from| :: from[i] < from[j])
    && (forall k | 0 <= k < |from| :: from[k] < |rs| && rs[from[k]] == Some(flags[k]))
    && (forall i | 0 <= i < |rs| && rs[i].Some? :: i in from)
  }

  lemma OneMoreReported(flags: seq<Flag>, from: seq<nat>, rs: seq<Option<Flag>>, f: Flag)
    requires AreAll(flags, from, rs)
    ensures AreAll(flags + [f], from + [|rs|], rs + [Some(f)])
  {
    var next := from + [|rs|];
    assert next[|from|] == |rs|;
    forall i | 0 <= i < |rs + [Some(f)]| && (rs + [Some(f)])[i].Some? ensures i in next {
      if i < |rs| {
        assert rs[i].Some? && i in from;
      }
    }
  }

  lemma NoneMoreReported(flags: seq<Flag>, from: seq<nat>, rs: seq<Option<Flag>>)
    requires AreAll(flags, from, rs)
    ensures AreAll(flags, from, rs + [None])
  {}

  /** Each list of the report holds the flags of the aggregates that have one, once each and in order. */
  lemma {:induction false} ReportIsWhatIsReported(all: seq<Aggregate>, b: Buckets, score: Score, zero: bool)
    returns (from: seq<nat>)
    ensures AreAll(Side(Report(all, b, score, true), zero), from, ReportedFor(all, b, score, zero))
  {
    hide FastMatch, FlagsOf, Reported, QueryOf, Bucket, AreAll;
    if all == [] {
      NothingReported();
      return [];
    }
    var init, a := all[..|all| - 1], all[|all| - 1];
    from := ReportIsWhatIsReported(init, b, score, zero);
    FlagsAreReported(a, b, score);
    var flags, rs := Side(Report(init, b, score, true), zero), ReportedFor(init, b, score, zero);
    var r := Reported(a, b, score, zero);
    assert ReportedFor(all, b, score, zero) == rs + [r];
    if r.Some? {
      OneMoreReported(flags, from, rs, r.value);
      from := from + [|init|];
    } else {
      NoneMoreReported(flags, from, rs);
      assert flags + [] == flags;
    }
  }

  lemma NothingReported()
    ensures AreAll([], [], [])
  {}

  lemma FlagsReported(all: seq<Aggregate>, b: Buckets, score: Score, zero: bool)
    ensures forall f ::
      f in Side(Report(all, b, score, true), zero)
      <==> exists i | 0 <= i < |all| :: Reported(all[i], b, score, zero) == Some(f)
  {
    hide Report, Reported;
    var from := ReportIsWhatIsReported(all, b, score, zero);
    var flags, rs := Side(Report(all, b, score, true), zero), ReportedFor(all, b, score, zero);
    forall f ensures f in flags <==> exists i | 0 <= i < |all| :: Reported(all[i], b, score, zero) == Some(f) {
      if f in flags {
        var k :| 0 <= k < |flags| && flags[k] == f;
        assert rs[from[k]] == Reported(all[from[k]], b, score, zero);
      }
      if i :| 0 <= i < |all| && Reported(all[i], b, score, zero) == Some(f) {
        assert rs[i] == Some(f) && i in from;
        var k :| 0 <= k < |from| && from[k] == i;
        assert flags[k] == f;
      }
    }
  }

  /** The costs flagged for an aggregate, from the costs of the loose and of the strict match. */
  predicate SameCosts(a: Aggregate, cost: real, loose: real, strict: real) {
    && (a.zeroCost ==> cost == loose || (cost <= 0.0 && loose <= 0.0))
    && (a.cost > 0.0 ==> cost == strict || (!Differs(a.cost, cost) && !Differs(a.cost, strict)))
  }

  /**
   * What can be tested on a bucket: if the short cut is taken, the last entry of the name is
   * flagged like the first one, and like the first one with a close sale value.
   */
  predicate SameFlags(a: Aggregate, es: seq<Entry>) {
    var q := QueryOf(a);
    var exact := Exact(q, es);
    exact.Some? ==>
      (LastNamedIsLast(es, |es|, q.name);
       SameCosts(a, es[exact.value].cost,
                 es[FirstNamed(q, es, |es|, false).value].cost, es[FirstNamed(q, es, |es|, true).value].cost))
  }

  lemma FlagsAgreeExactly(a: Aggregate, es: seq<Entry>, score: Score)
    requires IsSimilarity(score)
    ensures FlagsOf(a, es, FastMatch(QueryOf(a), es, score)) == FlagsOf(a, es, FullScan(QueryOf(a), es, score))
      <==> SameFlags(a, es)
  {
    hide QueryOf, Best, PassesSaleGate, IsSimilarity, Differs, FirstNamed, LastNamed;
    var q := QueryOf(a);
    var exact := Exact(q, es);
    if exact.Some? {
      LastNamedIsLast(es, |es|, q.name);
      assert IsNamed(q, es[exact.value], true) && IsNamed(q, es[exact.value], false);
      ScanEndsOnFirstNamed(q, es, score, false);
      ScanEndsOnFirstNamed(q, es, score, true);
    }
  }

  /** Aggregates are collected under security and type, so no two share both. */
  predicate DistinctAggregates(all: seq<Aggregate>) {
    forall i, j | 0 <= i < j < |all| :: all[i].security != all[j].security || all[i].kind != all[j].kind
  }

  lemma {:induction false} FlagsNameAggregates(all: seq<Aggregate>, b: Buckets, score: Score, fast: bool)
    ensures var r := Report(all, b, score, fast);
      forall f | f in r.0 || f in r.1 :: exists i | 0 <= i < |all| ::
        f.security == all[i].security && f.kind == all[i].kind
  {
    hide FastMatch, FullScan, Bucket, QueryOf, Differs;
    if all != [] {
      var init, a := all[..|all| - 1], all[|all| - 1];
      FlagsNameAggregates(init, b, score, fast);
      var r, before := Report(all, b, score, fast), Report(init, b, score, fast);
      forall f | f in r.0 || f in r.1
        ensures exists i | 0 <= i < |all| :: f.security == all[i].security && f.kind == all[i].kind
      {
        if f in before.0 || f in before.1 {
          var i :| 0 <= i < |init| && f.security == init[i].security && f.kind == init[i].kind;
          assert all[i] == init[i];
        } else {
          assert f.security == a.security && f.kind == a.kind;
        }
      }
    }
  }

  /** When two lists agree, so do their ends, if these are short and occur nowhere before. */
  lemma EndsAgree(xs: seq<Flag>, f: seq<Flag>, ys: seq<Flag>, g: seq<Flag>)
    requires |f| <= 1 && |g| <= 1
    requires f != [] ==> f[0] !in ys
    requires g != [] ==> g[0] !in xs
    ensures xs + f == ys + g <==> xs == ys && f == g
  {
    if xs + f == ys + g {
      if f != [] {
        assert f[0] in xs + f && f[0] in g;
      }
      if g != [] {
        assert g[0] in ys + g && g[0] in f;
      }
      assert xs == (xs + f)[..|xs|] == (ys + g)[..|ys|] == ys;
    }
  }

  /**
   * The whole report: the short cut changes nothing exactly when no single aggregate is
   * flagged differently, which `SameFlags` tests on that aggregate and its bucket.
   */
  lemma {:induction false} ReportsAgreeExactly(all: seq<Aggregate>, b: Buckets, score: Score)
    requires IsSimilarity(score) && DistinctAggregates(all)
    ensures Report(all, b, score, true) == Report(all, b, score, false)
      <==> forall i | 0 <= i < |all| :: SameFlags(all[i], Bucket(b, all[i].kind))
  {
    hide Report, IsSimilarity, Bucket, SameFlags;
    if all == [] {
      assert Report(all, b, score, true) == Report(all, b, score, false) by {
        ReportOfNone(b, score);
      }
    } else {
      var init := all[..|all| - 1];
      ReportsAgreeExactly(init, b, score);
      assert forall i | 0 <= i < |init| :: init[i] == all[i];
      LastAggregateDecides(all, b, score);
    }
  }

  lemma ReportOfNone(b: Buckets, score: Score)
    ensures Report([], b, score, true) == Report([], b, score, false)
  {}

  lemma LastAggregateDecides(all: seq<Aggregate>, b: Buckets, score: Score)
    requires IsSimilarity(score) && DistinctAggregates(all) && all != []
    ensures var init, a := all[..|all| - 1], all[|all| - 1];
      Report(all, b, score, true) == Report(all, b, score, false)
      <==> Report(init, b, score, true) == Report(init, b, score, false) && SameFlags(a, Bucket(b, a.kind))
  {
    hide FastMatch, FullScan, IsSimilarity, Bucket, QueryOf, SameFlags, Differs, DistinctAggregates;
    var init, a := all[..|all| - 1], all[|all| - 1];
    FlagsAgreeExactly(a, Bucket(b, a.kind), score);
    LastFlagsAreNew(all, b, score);
    var q, es := QueryOf(a), Bucket(b, a.kind);
    var x, y := Report(init, b, score, true), Report(init, b, score, false);
    var f, g := FlagsOf(a, es, FastMatch(q, es, score)), FlagsOf(a, es, FullScan(q, es, score));
    EndsAgree(x.0, f.0, y.0, g.0);
    EndsAgree(x.1, f.1, y.1, g.1);
  }

  lemma LastFlagsAreNew(all: seq<Aggregate>, b: Buckets, score: Score)
    requires all != [] && DistinctAggregates(all)
    ensures var init, a := all[..|all| - 1], all[|all| - 1];
      forall fast, f: Flag | f.security == a.security && f.kind == a.kind ::
        f !in Report(init, b, score, fast).0 && f !in Report(init, b, score, fast).1
  {
    hide Report;
    FlagsNameAggregates(all[..|all| - 1], b, score, true);
    FlagsNameAggregates(all[..|all| - 1], b, score, false);
  }

  /** With distinct names in every bucket, the short cut changes nothing in the whole report. */
  lemma {:induction false} ReportsAgree(all: seq<Aggregate>, b: Buckets, score: Score)
    requires IsSimilarity(score) && forall kind :: DistinctNames(Bucket(b, kind))
    ensures Report(all, b, score, true) == Report(all, b, score, false)
  {
    hide FastMatch, FullScan, FlagsOf, DistinctNames, IsSimilarity, Bucket, QueryOf;
    if all != [] {
      ReportsAgree(all[..|all| - 1], b, score);
      var a := all[|all| - 1];
      FastPathAgreesOnDistinctNames(QueryOf(a), Bucket(b, a.kind), score);
    }
  }

  method Reconcile(all: seq<Aggregate>, b: Buckets, score: Score) returns (zeroCost: seq<Flag>, mismatch: seq<Flag>)
    ensures (zeroCost, mismatch) == Report(all, b, score, true)
    ensures forall f :: f in zeroCost <==> exists i | 0 <= i < |all| :: Reported(all[i], b, score, true) == Some(f)
    ensures forall f :: f in mismatch <==> exists i | 0 <= i < |all| :: Reported(all[i], b, score, false) == Some(f)
  {
    hide FastMatch, FullScan, FlagsOf, QueryOf, IsIndex, Reported;
    zeroCost, mismatch := [], [];
    for i := 0 to |all|
      invariant (zeroCost, mismatch) == Report(all[..i], b, score, true)
    {
      var a := all[i];
      var es := Bucket(b, a.kind);
      assert all[..i + 1][..i] == all[..i];
      if (a.zeroCost || a.cost > 0.0) && es != [] {
        var index := IndexNames(es);
        var m := MatchAggregate(QueryOf(a), es, index, score);
        var flags := FlagsOf(a, es, m);
        zeroCost, mismatch := zeroCost + flags.0, mismatch + flags.1;
      } else {
        NothingToFlag(a, es, score);
        assert zeroCost + [] == zeroCost && mismatch + [] == mismatch;
      }
    }
    assert all[..|all|] == all;
    FlagsReported(all, b, score, true);
    FlagsReported(all, b, score, false);
  }

  lemma NothingToFlag(a: Aggregate, es: seq<Entry>, score: Score)
    requires (!a.zeroCost && a.cost <= 0.0) || es == []
    ensures FlagsOf(a, es, FastMatch(QueryOf(a), es, score)) == ([], [])
  {}

  /**
   * With a name that occurs twice the report differs: two brokers' entries are both "axis",
   * the first has no cost. The index sees the second entry, the full scan the first.
   */
  lemma DuplicateNamesChangeTheReport(score: Score)
    requires IsSimilarity(score)
    ensures
      var b: Buckets :=
        map["LT" := [Entry("axis fund", "axis", 0.0, 100.0), Entry("axis ltd", "axis", 70.0, 100.0)]];
      var a := Aggregate("axis", "LT", 0.0, 100.0, true);
      && Report([a], b, score, true).0 == [ZeroCost("axis", "LT", 70.0)]
      && Report([a], b, score, false).0 == []
  {
    var first, second := Entry("axis fund", "axis", 0.0, 100.0), Entry("axis ltd", "axis", 70.0, 100.0);
    var es := [first, second];
    var b: Buckets := map["LT" := es];
    var a := Aggregate("axis", "LT", 0.0, 100.0, true);
    AxisIsNormal();
    ScanPrefersExactName(QueryOf(a), es, 0, score, false);
    assert Exact(QueryOf(a), es) == Some(1);
    assert FullScan(QueryOf(a), es, score).0 == Some(0);
  }

  lemma AxisIsNormal()
    ensures Normalize("axis") == "axis"
  {
    assert PlainName("axis") == "axis";
    ReadWord("axis", "", "");
    assert "axis" + "" == "axis" && "" + "axis" == "axis";
  }
}
