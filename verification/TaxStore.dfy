/**
 * The tax session store and the memo of tax computations, as functions on one state: the
 * resident sessions in least-recently-used order, the stored rows, and the memo in
 * least-recently-used order. What the outside world decides (the time, whether a read or a
 * write of the database succeeds, what a query answers) is an argument of each step.
 */
module TaxStore {
  import opened Common

  type Id = string

  /** An override is a plain value or a table of values. */
  datatype Override = Plain(text: string) | Table(fields: map<string, string>)

  datatype Doc = Doc(ais: string, deductions: string, overrides: map<string, Override>, itr: string)

  datatype Session = Session(doc: Doc, user: string, version: nat)

  datatype Edit =
    | SetDeductions(deductions: string)
    | SetAis(ais: string)
    | MergeOverrides(overrides: map<string, Override>)
    | SetItr(itr: string)

  /** Tables are merged field by field; anything else is replaced. */
  function Merged(base: map<string, Override>, update: map<string, Override>): map<string, Override> {
    map k | k in base.Keys + update.Keys ::
      if k !in update then base[k]
      else if update[k].Table? && k in base && base[k].Table? then Table(base[k].fields + update[k].fields)
      else update[k]
  }

  function Edited(d: Doc, e: Edit): Doc {
    match e
    case SetDeductions(x) => d.(deductions := x)
    case SetAis(x) => d.(ais := x)
    case MergeOverrides(x) => d.(overrides := Merged(d.overrides, x))
    case SetItr(x) => d.(itr := x)
  }

  /** The edit and the version bump that every change makes together. */
  function Bumped(s: Session, e: Edit): Session {
    s.(doc := Edited(s.doc, e), version := s.version + 1)
  }

  /** A tax computation, named by the arguments it is a pure function of. */
  datatype Computation = Computation(ais: string, regime: string, overrides: map<string, Override>)

  function TaxOf(s: Session, regime: string): Computation {
    Computation(s.doc.ais, regime, s.doc.overrides)
  }

  datatype Entry = Entry(id: Id, session: Session, lastAccess: int)
  datatype Row = Row(session: Session, updatedAt: int)
  datatype Memo = Memo(id: Id, version: int, regime: string, value: Computation)

  datatype State = State(live: seq<Entry>, loaded: bool, rows: map<Id, Row>, memos: seq<Memo>)

  /** Resident cap and idle limit, as configured. */
  datatype Config = Config(cap: nat, ttl: nat) {
    predicate Valid() {
      cap >= 1
    }
  }

  const REGIMES := 2

  /**
   * What the world answers during one operation: the clock; whether the first load, the read
   * of a single row, the duplicate lookup and the write succeed, each for itself; the newest
   * stored ids; and a stored session with the same content.
   */
  datatype World = World(now: int, loadOk: bool, rowOk: bool, twinOk: bool, writeOk: bool,
                         newest: seq<Id>, twin: Option<Id>)

  // ----- ordered entries -----

  predicate Holds(live: seq<Entry>, id: Id) {
    exists e | e in live :: e.id == id
  }

  function Position(live: seq<Entry>, id: Id): (i: nat)
    requires Holds(live, id)
    ensures i < |live| && live[i].id == id
  {
    if live[0].id == id then 0
    else
      assert Holds(live[1..], id) by {
        var e :| e in live && e.id == id;
        assert e in live[1..];
      }
      1 + Position(live[1..], id)
  }

  function Lookup(live: seq<Entry>, id: Id): (e: Entry)
    requires Holds(live, id)
    ensures e in live && e.id == id
  {
    live[Position(live, id)]
  }

  function Without(live: seq<Entry>, id: Id): (r: seq<Entry>)
    ensures |r| <= |live|
    ensures forall e :: e in r <==> e in live && e.id != id
  {
    if live == [] then []
    else (if live[0].id == id then [] else [live[0]]) + Without(live[1..], id)
  }

  /** Store `s` under `id`, most recently used. */
  function Put(live: seq<Entry>, id: Id, s: Session, now: int): seq<Entry> {
    Without(live, id) + [Entry(id, s, now)]
  }

  predicate Distinct(live: seq<Entry>) {
    forall i, j | 0 <= i < j < |live| :: live[i].id != live[j].id
  }

  // ----- eviction -----

  predicate Expired(e: Entry, now: int, ttl: nat) {
    now - e.lastAccess > ttl
  }

  function Unexpired(live: seq<Entry>, now: int, ttl: nat): (r: seq<Entry>)
    ensures |r| <= |live|
    ensures forall e :: e in r <==> e in live && !Expired(e, now, ttl)
  {
    if live == [] then []
    else
      var init, last := live[..|live| - 1], live[|live| - 1];
      assert live == init + [last];
      Unexpired(init, now, ttl) + (if Expired(last, now, ttl) then [] else [last])
  }

  /** The sessions that survive: not idle for too long, and among the `cap` last used of those. */
  function Kept(cfg: Config, live: seq<Entry>, now: int): (r: seq<Entry>)
    ensures |r| <= cfg.cap
    ensures forall e | e in r :: e in live
  {
    var active := Unexpired(live, now, cfg.ttl);
    if |active| > cfg.cap then active[|active| - cfg.cap..] else active
  }

  function MemosWithout(memos: seq<Memo>, id: Id): (r: seq<Memo>)
    ensures forall m :: m in r <==> m in memos && m.id != id
  {
    if memos == [] then []
    else (if memos[0].id == id then [] else [memos[0]]) + MemosWithout(memos[1..], id)
  }

  /** Memos whose session was resident before and is not any more go with it. */
  function MemosAfter(memos: seq<Memo>, before: seq<Entry>, after: seq<Entry>): (r: seq<Memo>)
    ensures forall m :: m in r <==> m in memos && (Holds(before, m.id) ==> Holds(after, m.id))
  {
    if memos == [] then []
    else
      (if Holds(before, memos[0].id) && !Holds(after, memos[0].id) then [] else [memos[0]])
      + MemosAfter(memos[1..], before, after)
  }

  function Evict(cfg: Config, st: State, now: int): State {
    var kept := Kept(cfg, st.live, now);
    st.(live := kept, memos := MemosAfter(st.memos, st.live, kept))
  }

  // ----- reading and writing the database -----

  /** `newest` is an answer to "the `cap` most recently updated rows, newest first". */
  ghost predicate IsNewest(rows: map<Id, Row>, newest: seq<Id>, cap: nat) {
    && |newest| == Min(cap, |rows|)
    && (forall i | 0 <= i < |newest| :: newest[i] in rows)
    && (forall i, j | 0 <= i < j < |newest| ::
          newest[i] != newest[j] && rows[newest[i]].updatedAt >= rows[newest[j]].updatedAt)
    && (forall id, i | id in rows && id !in newest && 0 <= i < |newest| ::
          rows[id].updatedAt <= rows[newest[i]].updatedAt)
  }

  /** The loaded sessions, oldest first. */
  function Restored(rows: map<Id, Row>, newest: seq<Id>): (r: seq<Entry>)
    requires forall i | 0 <= i < |newest| :: newest[i] in rows
    ensures |r| == |newest|
    ensures forall i | 0 <= i < |r| ::
      var id := newest[|newest| - 1 - i]; r[i] == Entry(id, rows[id].session, rows[id].updatedAt)
  {
    seq(|newest|, i requires 0 <= i < |newest| =>
      var id := newest[|newest| - 1 - i]; Entry(id, rows[id].session, rows[id].updatedAt))
  }

  /** First use: the resident store is cleared and filled from the newest rows. */
  function EnsureLoaded(cfg: Config, st: State, w: World): (r: State)
    requires forall i | 0 <= i < |w.newest| :: w.newest[i] in st.rows
    ensures r.loaded
  {
    if st.loaded then st
    else st.(live := if w.loadOk then Restored(st.rows, w.newest) else [], loaded := true)
  }

  /** Bring one session back from its row: insert as most recently used, then evict. */
  function Rehydrate(cfg: Config, st: State, id: Id, w: World): (State, Option<Session>) {
    if !w.rowOk || id !in st.rows then (st, None)
    else if Holds(st.live, id) then
      var s := Lookup(st.live, id).session;
      (st.(live := Put(st.live, id, s, w.now)), Some(s))
    else
      var s := st.rows[id].session;
      (Evict(cfg, st.(live := st.live + [Entry(id, s, w.now)]), w.now), Some(s))
  }

  /** Write the resident session through; a failed write is swallowed. */
  function Persist(st: State, id: Id, w: World): State {
    if Holds(st.live, id) && w.writeOk
    then st.(rows := st.rows[id := Row(Lookup(st.live, id).session, w.now)])
    else st
  }

  // ----- the operations -----

  function Get(cfg: Config, st0: State, id: Id, w: World): (State, Option<Session>)
    requires forall i | 0 <= i < |w.newest| :: w.newest[i] in st0.rows
  {
    var st := EnsureLoaded(cfg, st0, w);
    if Holds(st.live, id) then
      var s := Lookup(st.live, id).session;
      (st.(live := Put(st.live, id, s, w.now)), Some(s))
    else Rehydrate(cfg, st, id, w)
  }

  function Mutate(cfg: Config, st0: State, id: Id, e: Edit, w: World): (State, bool)
    requires forall i | 0 <= i < |w.newest| :: w.newest[i] in st0.rows
  {
    var st := EnsureLoaded(cfg, st0, w);
    var (st1, found) :=
      if Holds(st.live, id) then (st, Some(Lookup(st.live, id).session)) else Rehydrate(cfg, st, id, w);
    if found.None? || !Holds(st1.live, id) then (st1, false)
    else
      var st2 := st1.(live := Put(st1.live, id, Bumped(found.value, e), w.now));
      (Persist(st2, id, w), true)
  }

  /** Stored sessions of the same user with the same content. */
  predicate IsTwin(rows: map<Id, Row>, id: Id, ais: string, user: string) {
    id in rows && rows[id].session.user == user && rows[id].session.doc.ais == ais
  }

  /** `twin` answers the duplicate lookup. */
  ghost predicate IsTwinAnswer(rows: map<Id, Row>, twin: Option<Id>, ais: string, user: string) {
    match twin
    case Some(id) => IsTwin(rows, id, ais, user)
    case None => forall id | id in rows :: !IsTwin(rows, id, ais, user)
  }

  function NewSession(ais: string, user: string): Session {
    Session(Doc(ais, "", map[], ""), user, 0)
  }

  function Create(cfg: Config, st0: State, ais: string, user: string, newId: Id, w: World): (State, Id)
    requires forall i | 0 <= i < |w.newest| :: w.newest[i] in st0.rows
  {
    var st := EnsureLoaded(cfg, st0, w);
    if user != "" && w.twinOk && w.twin.Some? then (st, w.twin.value)
    else
      var st1 := Evict(cfg, st.(live := st.live + [Entry(newId, NewSession(ais, user), w.now)]), w.now);
      (Persist(st1, newId, w), newId)
  }

  function Delete(cfg: Config, st0: State, id: Id, w: World): State
    requires forall i | 0 <= i < |w.newest| :: w.newest[i] in st0.rows
  {
    var st := EnsureLoaded(cfg, st0, w);
    State(Without(st.live, id), st.loaded, if w.writeOk then st.rows - {id} else st.rows, MemosWithout(st.memos, id))
  }

  function NotOf(live: seq<Entry>, user: string): (r: seq<Entry>)
    ensures |r| <= |live|
    ensures forall e :: e in r <==> e in live && e.session.user != user
  {
    if live == [] then []
    else (if live[0].session.user == user then [] else [live[0]]) + NotOf(live[1..], user)
  }

  /** Sign-out: the user's sessions leave memory, their rows stay. */
  function EvictUser(st: State, user: string): State {
    var kept := NotOf(st.live, user);
    st.(live := kept, memos := MemosAfter(st.memos, st.live, kept))
  }

  /** Clearing the resident sessions alone. */
  function ClearSessions(st: State): State {
    st.(live := [], loaded := false)
  }

  /** The registered clear: sessions and memos together. */
  function ClearAll(st: State): State {
    ClearSessions(st).(memos := [])
  }

  function VersionOf(cfg: Config, st: State, id: Id, w: World): (State, int) {
    if Holds(st.live, id) then (st, Lookup(st.live, id).session.version)
    else
      var (st1, found) := Rehydrate(cfg, st, id, w);
      (st1, if found.Some? then found.value.version else -1)
  }

  predicate IsKey(m: Memo, id: Id, version: int, regime: string) {
    m.id == id && m.version == version && m.regime == regime
  }

  function FindMemo(memos: seq<Memo>, id: Id, version: int, regime: string): (r: Option<Memo>)
    ensures r.Some? ==> r.value in memos && IsKey(r.value, id, version, regime)
    ensures r.None? ==> forall m | m in memos :: !IsKey(m, id, version, regime)
  {
    if memos == [] then None
    else if IsKey(memos[0], id, version, regime) then Some(memos[0])
    else FindMemo(memos[1..], id, version, regime)
  }

  function DropKey(memos: seq<Memo>, id: Id, version: int, regime: string): (r: seq<Memo>)
    ensures forall m :: m in r <==> m in memos && !IsKey(m, id, version, regime)
  {
    if memos == [] then []
    else (if IsKey(memos[0], id, version, regime) then [] else [memos[0]]) + DropKey(memos[1..], id, version, regime)
  }

  /** The last `most` memos: older ones are popped. */
  function LastMemos(memos: seq<Memo>, most: nat): seq<Memo> {
    if |memos| > most then memos[|memos| - most..] else memos
  }

  /** The memoized computation for a session that the caller holds. */
  function Compute(cfg: Config, st0: State, id: Id, s: Session, regime: string, w: World): (State, Computation) {
    var (st, version) := VersionOf(cfg, st0, id, w);
    var found := FindMemo(st.memos, id, version, regime);
    var rest := DropKey(st.memos, id, version, regime);
    if found.Some? then (st.(memos := rest + [found.value]), found.value.value)
    else
      var result := TaxOf(s, regime);
      (st.(memos := LastMemos(rest + [Memo(id, version, regime, result)], cfg.cap * REGIMES)), result)
  }

  /** A request for a computation: look the session up, then compute. */
  function GetComputation(cfg: Config, st0: State, id: Id, regime: string, w: World): (State, Option<Computation>)
    requires forall i | 0 <= i < |w.newest| :: w.newest[i] in st0.rows
  {
    var (st, found) := Get(cfg, st0, id, w);
    match found
    case None => (st, None)
    case Some(s) =>
      var (st1, c) := Compute(cfg, st, id, s, regime, w);
      (st1, Some(c))
  }
}
