/**
 * Merging statements that cover the same period. A repeat inside one statement is a real
 * transaction; the same rows in two statements are an overlap. For each transaction key
 * the rows of the one session that has most of them are kept.
 */
module StatementMerge {
  import opened Sorting

  /** The columns that identify a transaction. */
  datatype Key = Key(date: string, description: string, amount: int, kind: string, bank: string, account: string)

  /** Sessions are compared only with each other, so their identifiers are numbers here. */
  type Session = int

  /** `rest` stands for the columns that do not identify the transaction. */
  datatype Row = Row(key: Key, session: Session, rest: string)

  datatype Cell = Cell(key: Key, session: Session, n: nat)

  // ----- the pipeline: group, count, sort, first per key, join -----

  predicate Has(cells: seq<Cell>, key: Key, session: Session) {
    exists c | c in cells :: c.key == key && c.session == session
  }

  predicate HasKey(cells: seq<Cell>, key: Key) {
    exists c | c in cells :: c.key == key
  }

  function AddOne(cells: seq<Cell>, key: Key, session: Session): (r: seq<Cell>)
    ensures |r| == |cells|
    ensures forall i | 0 <= i < |r| ::
      r[i] == if cells[i].key == key && cells[i].session == session then cells[i].(n := cells[i].n + 1) else cells[i]
  {
    seq(|cells|, i requires 0 <= i < |cells| =>
      if cells[i].key == key && cells[i].session == session then cells[i].(n := cells[i].n + 1) else cells[i])
  }

  /** Rows per key and session. */
  function Counts(rows: seq<Row>): seq<Cell> {
    if rows == [] then []
    else
      var cells, r := Counts(rows[..|rows| - 1]), rows[|rows| - 1];
      if Has(cells, r.key, r.session) then AddOne(cells, r.key, r.session) else cells + [Cell(r.key, r.session, 1)]
  }

  /** More rows first; ties go to the smaller session. */
  predicate Before(a: Cell, b: Cell) {
    a.n > b.n || (a.n == b.n && a.session <= b.session)
  }

  /** The first cell of each key. */
  function FirstPerKey(cells: seq<Cell>): seq<Cell> {
    if cells == [] then []
    else
      var first, c := FirstPerKey(cells[..|cells| - 1]), cells[|cells| - 1];
      if HasKey(first, c.key) then first else first + [c]
  }

  /** The rows whose key and session are among the winners. */
  function Join(rows: seq<Row>, winners: seq<Cell>): seq<Row> {
    if rows == [] then []
    else
      var r := rows[|rows| - 1];
      Join(rows[..|rows| - 1], winners) + (if Has(winners, r.key, r.session) then [r] else [])
  }

  function Sessions(rows: seq<Row>): set<Session> {
    set r | r in rows :: r.session
  }

  function Merge(rows: seq<Row>): seq<Row> {
    if |Sessions(rows)| < 2 then rows else Join(rows, FirstPerKey(Sort(Counts(rows), Before)))
  }

  // ----- what the pipeline selects -----

  /** Rows of one key in one session. */
  function Count(rows: seq<Row>, key: Key, session: Session): nat {
    if rows == [] then 0
    else
      Count(rows[..|rows| - 1], key, session)
      + (if rows[|rows| - 1].key == key && rows[|rows| - 1].session == session then 1 else 0)
  }

  /** Rows of one key, over all sessions. */
  function KeyCount(rows: seq<Row>, key: Key): nat {
    if rows == [] then 0
    else KeyCount(rows[..|rows| - 1], key) + (if rows[|rows| - 1].key == key then 1 else 0)
  }

  /** The session has most rows of the key, and is the smallest such session. */
  ghost predicate Wins(rows: seq<Row>, key: Key, session: Session) {
    && Count(rows, key, session) > 0
    && forall s: Session ::
         Count(rows, key, s) < Count(rows, key, session)
         || (Count(rows, key, s) == Count(rows, key, session) && session <= s)
  }

  /** One cell for every key and session that occur together, with their count. */
  ghost predicate Tallies(cells: seq<Cell>, rows: seq<Row>) {
    && (forall c | c in cells :: c.n == Count(rows, c.key, c.session) > 0)
    && (forall k, s :: Count(rows, k, s) > 0 ==> Has(cells, k, s))
  }

  lemma CountAppend(rows: seq<Row>, r: Row, key: Key, session: Session)
    ensures Count(rows + [r], key, session)
         == Count(rows, key, session) + (if r.key == key && r.session == session then 1 else 0)
  {
    assert (rows + [r])[..|rows|] == rows;
  }

  lemma {:induction false} CountsTally(rows: seq<Row>)
    ensures Tallies(Counts(rows), rows)
  {
    hide Count;
    if rows == [] {
      assert forall k, s :: Count([], k, s) == 0 by {
        forall k, s ensures Count([], k, s) == 0 {
          CountNone(k, s);
        }
      }
    } else {
      var init, r := rows[..|rows| - 1], rows[|rows| - 1];
      CountsTally(init);
      assert rows == init + [r];
      forall k, s ensures Count(rows, k, s) == Count(init, k, s) + (if r.key == k && r.session == s then 1 else 0) {
        CountAppend(init, r, k, s);
      }
      TallyOneMore(Counts(init), init, r, rows);
    }
  }

  lemma CountNone(k: Key, s: Session)
    ensures Count([], k, s) == 0
  {}

  lemma TallyOneMore(cells: seq<Cell>, init: seq<Row>, r: Row, rows: seq<Row>)
    requires Tallies(cells, init)
    requires forall k, s :: Count(rows, k, s) == Count(init, k, s) + (if r.key == k && r.session == s then 1 else 0)
    ensures Tallies(if Has(cells, r.key, r.session) then AddOne(cells, r.key, r.session)
                    else cells + [Cell(r.key, r.session, 1)], rows)
  {
    hide Count;
    if Has(cells, r.key, r.session) {
      var more := AddOne(cells, r.key, r.session);
      forall c | c in more ensures c.n == Count(rows, c.key, c.session) > 0 {
        var i :| 0 <= i < |more| && more[i] == c;
        assert cells[i] in cells;
      }
      forall k, s | Count(rows, k, s) > 0 ensures Has(more, k, s) {
        assert Has(cells, k, s);
        var c :| c in cells && c.key == k && c.session == s;
        var i :| 0 <= i < |cells| && cells[i] == c;
        assert more[i] in more;
      }
    } else {
      var added := Cell(r.key, r.session, 1);
      var more := cells + [added];
      assert added in more;
      forall k, s | Count(rows, k, s) > 0 ensures Has(more, k, s) {
        if Has(cells, k, s) {
          var c :| c in cells && c.key == k && c.session == s;
          assert c in more;
        }
      }
      assert Count(init, r.key, r.session) == 0;
    }
  }

  lemma BeforeIsOrder()
    ensures IsOrder(Before)
  {}

  /** `c` comes no later than any cell of its key. */
  ghost predicate Leads(c: Cell, cells: seq<Cell>) {
    c in cells && forall x | x in cells && x.key == c.key :: Before(c, x)
  }

  lemma {:induction false} FirstsLead(cells: seq<Cell>)
    requires Sorted(cells, Before)
    ensures forall c | c in FirstPerKey(cells) :: Leads(c, cells)
    ensures forall x | x in cells :: HasKey(FirstPerKey(cells), x.key)
  {
    if cells != [] {
      var init, last := cells[..|cells| - 1], cells[|cells| - 1];
      assert cells == init + [last];
      FirstsLead(init);
      forall c | c in init ensures Before(c, last) {
        var i :| 0 <= i < |init| && init[i] == c;
        assert cells[i] == c;
      }
      LeadOneMore(FirstPerKey(init), init, last);
    }
  }

  lemma LeadOneMore(first: seq<Cell>, init: seq<Cell>, last: Cell)
    requires forall c | c in first :: Leads(c, init)
    requires forall x | x in init :: HasKey(first, x.key)
    requires forall c | c in init :: Before(c, last)
    ensures var all := if HasKey(first, last.key) then first else first + [last];
      && (forall c | c in all :: Leads(c, init + [last]))
      && (forall x | x in init + [last] :: HasKey(all, x.key))
  {
    var cells := init + [last];
    var all := if HasKey(first, last.key) then first else first + [last];
    forall c | c in all ensures Leads(c, cells) {
      if c !in first {
        assert c == last && !HasKey(first, last.key);
      }
    }
    forall x | x in cells ensures HasKey(all, x.key) {
      if HasKey(first, x.key) {
        var c :| c in first && c.key == x.key;
        assert c in all;
      } else {
        assert x == last && last in all;
      }
    }
  }

  /** The pipeline's winners are the winning sessions of each key. */
  lemma WinnersWin(rows: seq<Row>, key: Key, session: Session)
    ensures Has(FirstPerKey(Sort(Counts(rows), Before)), key, session) <==> Wins(rows, key, session)
  {
    hide Counts, Sort, FirstPerKey, Count;
    var cells := Counts(rows);
    var sorted := Sort(cells, Before);
    var first := FirstPerKey(sorted);
    CountsTally(rows);
    BeforeIsOrder();
    SortSorts(cells, Before);
    SameMembers(sorted, cells);
    FirstsLead(sorted);
    TalliesOf(cells, sorted, rows);
    if Has(first, key, session) {
      var c :| c in first && c.key == key && c.session == session;
      LeaderWins(rows, sorted, c);
    }
    if Wins(rows, key, session) {
      assert Has(sorted, key, session);
      var x :| x in sorted && x.key == key && x.session == session;
      assert HasKey(first, x.key);
      var c :| c in first && c.key == key;
      LeaderWins(rows, sorted, c);
      OneWinner(rows, key, session, c.session);
    }
  }

  lemma SameMembers(a: seq<Cell>, b: seq<Cell>)
    requires multiset(a) == multiset(b)
    ensures forall c :: c in a <==> c in b
  {
    forall c ensures c in a <==> c in b {
      assert c in multiset(a) <==> c in multiset(b);
    }
  }

  lemma TalliesOf(a: seq<Cell>, b: seq<Cell>, rows: seq<Row>)
    requires Tallies(a, rows) && forall c :: c in a <==> c in b
    ensures Tallies(b, rows)
  {
    hide Count;
    forall k, s | Count(rows, k, s) > 0 ensures Has(b, k, s) {
      assert Has(a, k, s);
      var c :| c in a && c.key == k && c.session == s;
      assert c in b;
    }
  }

  lemma LeaderWins(rows: seq<Row>, cells: seq<Cell>, c: Cell)
    requires Leads(c, cells) && Tallies(cells, rows)
    ensures Wins(rows, c.key, c.session)
  {
    hide Count;
    forall s: Session
      ensures Count(rows, c.key, s) < Count(rows, c.key, c.session)
        || (Count(rows, c.key, s) == Count(rows, c.key, c.session) && c.session <= s)
    {
      if Count(rows, c.key, s) > 0 {
        assert Has(cells, c.key, s);
        var x :| x in cells && x.key == c.key && x.session == s;
        assert Before(c, x);
      }
    }
  }

  lemma OneWinner(rows: seq<Row>, key: Key, a: Session, b: Session)
    requires Wins(rows, key, a) && Wins(rows, key, b)
    ensures a == b
  {
    hide Count;
    assert Count(rows, key, b) <= Count(rows, key, a);
  }

  /** The rows of `rows` that belong to a winning session of `all`. */
  ghost function Keep(rows: seq<Row>, all: seq<Row>): seq<Row> {
    if rows == [] then []
    else
      var r := rows[|rows| - 1];
      Keep(rows[..|rows| - 1], all) + (if Wins(all, r.key, r.session) then [r] else [])
  }

  lemma {:induction false} JoinKeepsWinners(rows: seq<Row>, all: seq<Row>)
    ensures Join(rows, FirstPerKey(Sort(Counts(all), Before))) == Keep(rows, all)
  {
    hide Counts, Sort, FirstPerKey, Wins, Has;
    if rows != [] {
      JoinKeepsWinners(rows[..|rows| - 1], all);
      WinnersWin(all, rows[|rows| - 1].key, rows[|rows| - 1].session);
    }
  }

  lemma {:induction false} KeepAll(rows: seq<Row>, all: seq<Row>)
    requires forall r | r in rows :: Wins(all, r.key, r.session)
    ensures Keep(rows, all) == rows
  {
    hide Wins;
    if rows != [] {
      KeepAll(rows[..|rows| - 1], all);
      assert rows == rows[..|rows| - 1] + [rows[|rows| - 1]];
    }
  }

  lemma {:induction false} CountOfMember(rows: seq<Row>, r: Row)
    requires r in rows
    ensures Count(rows, r.key, r.session) > 0
  {
    var init, last := rows[..|rows| - 1], rows[|rows| - 1];
    assert rows == init + [last];
    if r in init {
      CountOfMember(init, r);
    }
  }

  lemma {:induction false} CountNeedsMember(rows: seq<Row>, key: Key, session: Session)
    requires Count(rows, key, session) > 0
    ensures exists r | r in rows :: r.key == key && r.session == session
  {
    var init, last := rows[..|rows| - 1], rows[|rows| - 1];
    if last.key == key && last.session == session {
      assert last in rows;
    } else {
      CountNeedsMember(init, key, session);
      var r :| r in init && r.key == key && r.session == session;
      assert r in rows;
    }
  }

  lemma SingleSessionWins(rows: seq<Row>, r: Row)
    requires |Sessions(rows)| < 2 && r in rows
    ensures Wins(rows, r.key, r.session)
  {
    hide Count;
    CountOfMember(rows, r);
    forall s: Session | s != r.session ensures Count(rows, r.key, s) == 0 {
      if Count(rows, r.key, s) > 0 {
        CountNeedsMember(rows, r.key, s);
        var x :| x in rows && x.key == r.key && x.session == s;
        TwoMembers(Sessions(rows), s, r.session);
      }
    }
  }

  lemma TwoMembers(s: set<Session>, a: Session, b: Session)
    requires a in s && b in s && a != b
    ensures |s| >= 2
  {
    assert |s - {a}| == |s| - 1;
    assert b in s - {a};
  }

  /** The merge keeps, for each key, the rows of its winning session, in their order. */
  lemma MergeKeepsWinners(rows: seq<Row>)
    ensures Merge(rows) == Keep(rows, rows)
  {
    hide Counts, Sort, FirstPerKey, Wins;
    if |Sessions(rows)| < 2 {
      forall r | r in rows ensures Wins(rows, r.key, r.session) {
        SingleSessionWins(rows, r);
      }
      KeepAll(rows, rows);
    } else {
      JoinKeepsWinners(rows, rows);
    }
  }

  lemma {:induction false} KeepCount(rows: seq<Row>, all: seq<Row>, key: Key, session: Session)
    ensures Count(Keep(rows, all), key, session) == if Wins(all, key, session) then Count(rows, key, session) else 0
  {
    hide Wins, Count;
    if rows == [] {
      CountNone(key, session);
    } else {
      var init, r := rows[..|rows| - 1], rows[|rows| - 1];
      assert rows == init + [r];
      KeepCount(init, all, key, session);
      CountAppend(init, r, key, session);
      if Wins(all, r.key, r.session) {
        CountAppend(Keep(init, all), r, key, session);
      } else {
        assert Keep(rows, all) == Keep(init, all);
      }
    }
  }

  lemma {:induction false} KeepKeyCount(rows: seq<Row>, all: seq<Row>, key: Key, session: Session)
    requires Wins(all, key, session)
    ensures KeyCount(Keep(rows, all), key) == Count(rows, key, session)
  {
    hide Wins;
    if rows != [] {
      var init, r := rows[..|rows| - 1], rows[|rows| - 1];
      KeepKeyCount(init, all, key, session);
      KeyCountAppend(Keep(init, all), r, key);
      assert !Wins(all, r.key, r.session) ==> Keep(rows, all) == Keep(init, all);
      if r.key == key && Wins(all, key, r.session) {
        OneWinner(all, key, session, r.session);
      }
    }
  }

  lemma KeyCountAppend(rows: seq<Row>, r: Row, key: Key)
    ensures KeyCount(rows + [r], key) == KeyCount(rows, key) + (if r.key == key then 1 else 0)
  {
    assert (rows + [r])[..|rows|] == rows;
  }

  lemma {:induction false} NoKeyCount(rows: seq<Row>, key: Key)
    requires forall r | r in rows :: r.key != key
    ensures KeyCount(rows, key) == 0
  {
    if rows != [] {
      NoKeyCount(rows[..|rows| - 1], key);
    }
  }

  /** A key that occurs has a winning session. */
  lemma WinnerExists(rows: seq<Row>, key: Key, session: Session) returns (winner: Session)
    requires Count(rows, key, session) > 0
    ensures Wins(rows, key, winner)
  {
    hide Counts, Sort, FirstPerKey, Count;
    var cells := Counts(rows);
    var sorted := Sort(cells, Before);
    CountsTally(rows);
    BeforeIsOrder();
    SortSorts(cells, Before);
    SameMembers(sorted, cells);
    TalliesOf(cells, sorted, rows);
    FirstsLead(sorted);
    assert Has(sorted, key, session);
    var x :| x in sorted && x.key == key && x.session == session;
    assert HasKey(FirstPerKey(sorted), x.key);
    var c :| c in FirstPerKey(sorted) && c.key == key;
    LeaderWins(rows, sorted, c);
    winner := c.session;
  }

  /** `n` is the largest number of rows that any one session has of the key. */
  ghost predicate IsMaxCount(rows: seq<Row>, key: Key, n: nat) {
    && (forall s: Session :: Count(rows, key, s) <= n)
    && (n > 0 ==> exists s: Session :: Count(rows, key, s) == n)
  }

  /** After the merge every transaction occurs as often as in the one statement that has it most often. */
  lemma MergeTakesMaximum(rows: seq<Row>, key: Key)
    ensures IsMaxCount(rows, key, KeyCount(Merge(rows), key))
  {
    hide Merge, Count, Wins, Keep;
    MergeKeepsWinners(rows);
    if s: Session :| Count(rows, key, s) > 0 {
      var w := WinnerExists(rows, key, s);
      KeepKeyCount(rows, rows, key, w);
      WinnerIsMax(rows, key, w);
    } else {
      forall r | r in rows ensures r.key != key {
        CountOfMember(rows, r);
      }
      KeepMembers(rows, rows);
      NoKeyCount(Keep(rows, rows), key);
    }
  }

  lemma WinnerIsMax(rows: seq<Row>, key: Key, w: Session)
    requires Wins(rows, key, w)
    ensures IsMaxCount(rows, key, Count(rows, key, w))
  {
    hide Count;
  }

  lemma {:induction false} KeepMembers(rows: seq<Row>, all: seq<Row>)
    ensures forall r | r in Keep(rows, all) :: r in rows && Wins(all, r.key, r.session)
  {
    hide Wins;
    if rows != [] {
      KeepMembers(rows[..|rows| - 1], all);
      assert rows == rows[..|rows| - 1] + [rows[|rows| - 1]];
    }
  }

  /** There is only one such number. */
  lemma MaxIsUnique(rows: seq<Row>, key: Key, a: nat, b: nat)
    requires IsMaxCount(rows, key, a) && IsMaxCount(rows, key, b)
    ensures a == b
  {
    hide Count;
  }

  // ----- consequences -----

  /** Merging again changes nothing. */
  lemma MergeIsIdempotent(rows: seq<Row>)
    ensures Merge(Merge(rows)) == Merge(rows)
  {
    hide Merge, Keep, Count;
    var m := Merge(rows);
    MergeKeepsWinners(rows);
    MergeKeepsWinners(m);
    KeepMembers(rows, rows);
    forall r | r in m ensures Wins(m, r.key, r.session) {
      WinnerStaysWinner(rows, r.key, r.session);
    }
    KeepAll(m, m);
  }

  lemma WinnerStaysWinner(rows: seq<Row>, key: Key, w: Session)
    requires Wins(rows, key, w)
    ensures Wins(Keep(rows, rows), key, w)
  {
    hide Keep, Count;
    var m := Keep(rows, rows);
    forall s: Session
      ensures Count(m, key, s) < Count(m, key, w) || (Count(m, key, s) == Count(m, key, w) && w <= s)
    {
      KeepCount(rows, rows, key, s);
      KeepCount(rows, rows, key, w);
    }
    KeepCount(rows, rows, key, w);
  }

  lemma {:induction false} CountJoin(a: seq<Row>, b: seq<Row>, key: Key, session: Session)
    ensures Count(a + b, key, session) == Count(a, key, session) + Count(b, key, session)
  {
    if b == [] {
      assert a + b == a;
    } else {
      CountJoin(a, b[..|b| - 1], key, session);
      assert a + b == (a + b[..|b| - 1]) + [b[|b| - 1]];
      CountAppend(a + b[..|b| - 1], b[|b| - 1], key, session);
    }
  }

  lemma {:induction false} CountOfPermutation(a: seq<Row>, b: seq<Row>, key: Key, session: Session)
    requires multiset(a) == multiset(b)
    ensures Count(a, key, session) == Count(b, key, session)
    decreases |a|
  {
    hide Count;
    assert |a| == |multiset(a)| && |b| == |multiset(b)|;
    if a != [] {
      var init, x := a[..|a| - 1], a[|a| - 1];
      assert a == init + [x];
      assert x in multiset(b);
      var i :| 0 <= i < |b| && b[i] == x;
      var rest := b[..i] + b[i + 1..];
      TakeOut(b, i, key, session);
      assert multiset(init) == multiset(a) - multiset{x};
      CountOfPermutation(init, rest, key, session);
      CountJoin(init, [x], key, session);
    }
  }

  /** Taking one row out of its place takes it out of the rows and out of the count. */
  lemma TakeOut(b: seq<Row>, i: nat, key: Key, session: Session)
    requires i < |b|
    ensures var rest := b[..i] + b[i + 1..];
      && multiset(rest) == multiset(b) - multiset{b[i]}
      && Count(b, key, session) == Count(rest, key, session) + Count([b[i]], key, session)
  {
    hide Count;
    var x, back := b[i], b[i + 1..];
    assert b == b[..i] + ([x] + back);
    CountJoin(b[..i], [x] + back, key, session);
    CountJoin([x], back, key, session);
    CountJoin(b[..i], back, key, session);
  }

  lemma {:induction false} KeepMultiplicity(rows: seq<Row>, all: seq<Row>, x: Row)
    ensures multiset(Keep(rows, all))[x] == if Wins(all, x.key, x.session) then multiset(rows)[x] else 0
  {
    hide Wins;
    if rows != [] {
      KeepMultiplicity(rows[..|rows| - 1], all, x);
      assert rows == rows[..|rows| - 1] + [rows[|rows| - 1]];
    }
  }

  /** Neither the order of the rows nor the order of the uploads matters. */
  lemma MergeIgnoresOrder(a: seq<Row>, b: seq<Row>)
    requires multiset(a) == multiset(b)
    ensures multiset(Merge(a)) == multiset(Merge(b))
  {
    hide Merge, Keep, Count;
    MergeKeepsWinners(a);
    MergeKeepsWinners(b);
    forall k, s ensures Count(a, k, s) == Count(b, k, s) {
      CountOfPermutation(a, b, k, s);
    }
    forall x: Row ensures multiset(Keep(a, a))[x] == multiset(Keep(b, b))[x] {
      KeepMultiplicity(a, a, x);
      KeepMultiplicity(b, b, x);
    }
  }

  function Larger(a: nat, b: nat): nat {
    if a >= b then a else b
  }

  /** Statements from different sessions. */
  ghost predicate Apart(a: seq<Row>, b: seq<Row>) {
    forall x, y | x in a && y in b :: x.session != y.session
  }

  lemma ApartCounts(a: seq<Row>, b: seq<Row>, key: Key, s: Session)
    requires Apart(a, b)
    ensures Count(a, key, s) == 0 || Count(b, key, s) == 0
  {
    hide Count;
    if Count(a, key, s) > 0 && Count(b, key, s) > 0 {
      CountNeedsMember(a, key, s);
      CountNeedsMember(b, key, s);
    }
  }

  /** Merging two sets of statements together takes the larger count of the two merges. */
  lemma MergeOfBoth(a: seq<Row>, b: seq<Row>, key: Key)
    requires Apart(a, b)
    ensures KeyCount(Merge(a + b), key) == Larger(KeyCount(Merge(a), key), KeyCount(Merge(b), key))
  {
    hide Merge, Count, KeyCount;
    MergeTakesMaximum(a, key);
    MergeTakesMaximum(b, key);
    MergeTakesMaximum(a + b, key);
    forall s: Session ensures Count(a + b, key, s) == Larger(Count(a, key, s), Count(b, key, s)) {
      CountJoin(a, b, key, s);
      ApartCounts(a, b, key, s);
    }
    var m, n := KeyCount(Merge(a), key), KeyCount(Merge(b), key);
    LargerIsMax(a, b, key, m, n);
    MaxIsUnique(a + b, key, KeyCount(Merge(a + b), key), Larger(m, n));
  }

  lemma LargerIsMax(a: seq<Row>, b: seq<Row>, key: Key, m: nat, n: nat)
    requires IsMaxCount(a, key, m) && IsMaxCount(b, key, n)
    requires forall s: Session :: Count(a + b, key, s) == Larger(Count(a, key, s), Count(b, key, s))
    ensures IsMaxCount(a + b, key, Larger(m, n))
  {
    hide Count;
    if m >= n && m > 0 {
      var s: Session :| Count(a, key, s) == m;
      assert Count(a + b, key, s) == m;
    } else if n > m {
      var s: Session :| Count(b, key, s) == n;
      assert Count(a + b, key, s) == n;
    }
  }

  /** Uploading again any part of a statement already there adds nothing. */
  lemma ReuploadAddsNothing(rows: seq<Row>, again: seq<Row>, source: Session, copy: Session, key: Key)
    requires forall r | r in again :: r.session == copy
    requires forall r | r in rows :: r.session != copy
    requires forall k: Key :: Count(again, k, copy) <= Count(rows, k, source)
    ensures KeyCount(Merge(rows + again), key) == KeyCount(Merge(rows), key)
  {
    hide Merge, Count, KeyCount;
    MergeOfBoth(rows, again, key);
    MergeTakesMaximum(rows, key);
    MergeTakesMaximum(again, key);
    var n := KeyCount(Merge(again), key);
    if n > 0 {
      var s: Session :| Count(again, key, s) == n;
      CountNeedsMember(again, key, s);
      assert n == Count(again, key, copy);
      assert Count(rows, key, source) <= KeyCount(Merge(rows), key);
    }
  }

  /** All rows filed under one session: a merged result taken as a statement of its own. */
  function AsOne(rows: seq<Row>, session: Session): (r: seq<Row>)
    ensures |r| == |rows| && forall i | 0 <= i < |r| :: r[i] == rows[i].(session := session)
  {
    seq(|rows|, i requires 0 <= i < |rows| => rows[i].(session := session))
  }

  lemma {:induction false} AsOneCounts(rows: seq<Row>, session: Session, key: Key)
    ensures KeyCount(AsOne(rows, session), key) == KeyCount(rows, key) == Count(AsOne(rows, session), key, session)
  {
    if rows != [] {
      AsOneCounts(rows[..|rows| - 1], session, key);
      assert AsOne(rows, session)[..|rows| - 1] == AsOne(rows[..|rows| - 1], session);
    }
  }

  lemma MergeOfOne(rows: seq<Row>, session: Session)
    requires forall r | r in rows :: r.session == session
    ensures Merge(rows) == rows
  {
    assert Sessions(rows) == {} || Sessions(rows) == {session};
  }

  function Flatten(statements: seq<seq<Row>>): seq<Row> {
    if statements == [] then [] else Flatten(statements[..|statements| - 1]) + statements[|statements| - 1]
  }

  /** Merge the statements two at a time, keeping the result under a session of its own. */
  function FoldMerge(statements: seq<seq<Row>>, running: Session): seq<Row> {
    if statements == [] then []
    else AsOne(Merge(FoldMerge(statements[..|statements| - 1], running) + statements[|statements| - 1]), running)
  }

  /** Statement `i` is filed under session `i`. */
  predicate Numbered(statements: seq<seq<Row>>) {
    forall i, j | 0 <= i < |statements| && 0 <= j < |statements[i]| :: statements[i][j].session == i
  }

  lemma {:induction false} FlattenSessions(statements: seq<seq<Row>>)
    requires Numbered(statements)
    ensures forall r | r in Flatten(statements) :: 0 <= r.session < |statements|
  {
    if statements != [] {
      FlattenSessions(statements[..|statements| - 1]);
    }
  }

  /** Every transaction occurs equally often. */
  ghost predicate SameCounts(a: seq<Row>, b: seq<Row>) {
    forall key :: KeyCount(a, key) == KeyCount(b, key)
  }

  /** Folding pairwise merges gives what merging all statements at once gives. */
  lemma {:induction false} FoldingIsMerging(statements: seq<seq<Row>>)
    requires Numbered(statements)
    ensures SameCounts(FoldMerge(statements, -1), Merge(Flatten(statements)))
  {
    hide Merge, KeyCount;
    if statements == [] {
      MergeOfOne([], 0);
    } else {
      var init, last := statements[..|statements| - 1], statements[|statements| - 1];
      FoldingIsMerging(init);
      FlattenSessions(init);
      OneMoreMerge(FoldMerge(init, -1), Flatten(init), last);
    }
  }

  /** Merging one more statement into a folded result, or into all statements at once. */
  lemma OneMoreMerge(folded: seq<Row>, all: seq<Row>, last: seq<Row>)
    requires SameCounts(folded, Merge(all)) && Apart(folded, last) && Apart(all, last)
    requires forall r | r in folded :: r.session == -1
    ensures SameCounts(AsOne(Merge(folded + last), -1), Merge(all + last))
  {
    hide Merge, KeyCount, Apart;
    MergeOfOne(folded, -1);
    forall key ensures KeyCount(AsOne(Merge(folded + last), -1), key) == KeyCount(Merge(all + last), key) {
      assert KeyCount(folded, key) == KeyCount(Merge(all), key);
      MergeOfBoth(all, last, key);
      MergeOfBoth(folded, last, key);
      AsOneCounts(Merge(folded + last), -1, key);
    }
  }
}
