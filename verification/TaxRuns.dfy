/**
 * Whole runs of the tax session store. With every read and write succeeding, the bounded
 * store answers like a plain map. With reads and writes failing at will, the memo still
 * never answers with anything but the tax on the session's current data.
 */
module TaxRuns {
  import opened Common
  import opened TaxStore

  datatype Request =
    | Get(id: Id)
    | Mutate(id: Id, edit: Edit)
    | Create(ais: string, user: string, newId: Id)
    | Delete(id: Id)
    | EvictUser(user: string)
    | ClearAll
    | Compute(id: Id, regime: string)

  datatype Reply =
    | Found(session: Option<Session>)
    | Changed(ok: bool)
    | Created(id: Id)
    | Finished
    | Tax(computation: Option<Computation>)

  datatype Op = Op(request: Request, world: World)

  /** What the database and the id generator can answer in a state. */
  ghost predicate Allowed(cfg: Config, st: State, op: Op) {
    && IsNewest(st.rows, op.world.newest, cfg.cap)
    && (op.request.Create? ==>
          && op.request.newId !in st.rows && !Holds(st.live, op.request.newId)
          && (op.world.twinOk ==> IsTwinAnswer(st.rows, op.world.twin, op.request.ais, op.request.user)))
  }

  function Perform(cfg: Config, st: State, op: Op): (State, Reply)
    requires forall i | 0 <= i < |op.world.newest| :: op.world.newest[i] in st.rows
  {
    var w := op.world;
    match op.request
    case Get(id) => var (s, r) := TaxStore.Get(cfg, st, id, w); (s, Found(r))
    case Mutate(id, e) => var (s, ok) := TaxStore.Mutate(cfg, st, id, e, w); (s, Changed(ok))
    case Create(ais, user, newId) => var (s, id) := TaxStore.Create(cfg, st, ais, user, newId, w); (s, Created(id))
    case Delete(id) => (TaxStore.Delete(cfg, st, id, w), Finished)
    case EvictUser(user) => (TaxStore.EvictUser(st, user), Finished)
    case ClearAll => (TaxStore.ClearAll(st), Finished)
    case Compute(id, regime) => var (s, c) := GetComputation(cfg, st, id, regime, w); (s, Tax(c))
  }

  ghost predicate AllowedRun(cfg: Config, st: State, ops: seq<Op>)
    decreases |ops|
  {
    ops == [] ||
    (Allowed(cfg, st, ops[0]) && AllowedRun(cfg, Perform(cfg, st, ops[0]).0, ops[1..]))
  }

  ghost function Run(cfg: Config, st: State, ops: seq<Op>): (r: (State, seq<Reply>))
    requires AllowedRun(cfg, st, ops)
    ensures |r.1| == |ops|
    decreases |ops|
  {
    if ops == [] then (st, [])
    else
      var (next, reply) := Perform(cfg, st, ops[0]);
      var (end, replies) := Run(cfg, next, ops[1..]);
      (end, [reply] + replies)
  }

  // ----- the invariant behind coherence -----

  /** A memo of a resident session: not from its future, and exact if from its present. */
  predicate Sound(m: Memo, s: Session) {
    && m.version <= s.version
    && (m.version == s.version ==> m.value == TaxOf(s, m.regime))
  }

  ghost predicate SoundMemos(memos: seq<Memo>, live: seq<Entry>) {
    && (forall m | m in memos :: Holds(live, m.id))
    && (forall m, e | m in memos && e in live && e.id == m.id :: Sound(m, e.session))
  }

  ghost predicate Coherent(cfg: Config, st: State) {
    && Distinct(st.live) && |st.live| <= cfg.cap
    && SoundMemos(st.memos, st.live)
    && (!st.loaded ==> st.live == [])
  }

  lemma SameIdSameEntry(live: seq<Entry>, a: Entry, b: Entry)
    requires Distinct(live) && a in live && b in live && a.id == b.id
    ensures a == b
  {}

  lemma {:induction false} WithoutIsDistinct(live: seq<Entry>, id: Id)
    requires Distinct(live)
    ensures Distinct(Without(live, id))
  {
    if live != [] {
      WithoutIsDistinct(live[1..], id);
      if live[0].id != id {
        PrependDistinct(live, Without(live[1..], id));
      }
    }
  }

  lemma PrependDistinct(live: seq<Entry>, rest: seq<Entry>)
    requires live != [] && Distinct(live) && Distinct(rest)
    requires forall e | e in rest :: e in live[1..]
    ensures Distinct([live[0]] + rest)
  {
    var r := [live[0]] + rest;
    forall i, j | 0 <= i < j < |r| ensures r[i].id != r[j].id {
      if i == 0 {
        assert rest[j - 1] in live[1..];
      }
    }
  }

  lemma {:induction false} UnexpiredIsDistinct(live: seq<Entry>, now: int, ttl: nat)
    requires Distinct(live)
    ensures Distinct(Unexpired(live, now, ttl))
  {
    if live != [] {
      var init, last := live[..|live| - 1], live[|live| - 1];
      UnexpiredIsDistinct(init, now, ttl);
      forall x | x in Unexpired(init, now, ttl) ensures x.id != last.id {
        assert x in init;
      }
    }
  }

  lemma {:induction false} NotOfIsDistinct(live: seq<Entry>, user: string)
    requires Distinct(live)
    ensures Distinct(NotOf(live, user))
  {
    if live != [] {
      NotOfIsDistinct(live[1..], user);
      PrependDistinct(live, NotOf(live[1..], user));
    }
  }

  lemma KeptIsDistinct(cfg: Config, live: seq<Entry>, now: int)
    requires Distinct(live)
    ensures Distinct(Kept(cfg, live, now))
  {
    UnexpiredIsDistinct(live, now, cfg.ttl);
  }

  /** Storing under an id: the other entries stay, the size grows by at most the new one. */
  lemma PutFacts(live: seq<Entry>, id: Id, s: Session, now: int)
    requires Distinct(live)
    ensures Distinct(Put(live, id, s, now))
    ensures forall e :: e in Put(live, id, s, now) <==> e == Entry(id, s, now) || (e in live && e.id != id)
    ensures Holds(live, id) ==> |Put(live, id, s, now)| == |live|
  {
    WithoutIsDistinct(live, id);
    if Holds(live, id) {
      WithoutShrinks(live, id);
    }
  }

  lemma {:induction false} WithoutShrinks(live: seq<Entry>, id: Id)
    requires Distinct(live) && Holds(live, id)
    ensures |Without(live, id)| == |live| - 1
  {
    if live[0].id == id {
      WithoutStranger(live[1..], id);
    } else {
      var e :| e in live && e.id == id;
      assert e in live[1..];
      WithoutShrinks(live[1..], id);
    }
  }

  lemma {:induction false} WithoutStranger(live: seq<Entry>, id: Id)
    requires forall e | e in live :: e.id != id
    ensures Without(live, id) == live
  {
    if live != [] {
      WithoutStranger(live[1..], id);
    }
  }

  lemma UnexpiredAppend(live: seq<Entry>, e: Entry, now: int, ttl: nat)
    ensures Unexpired(live + [e], now, ttl) == Unexpired(live, now, ttl) + (if Expired(e, now, ttl) then [] else [e])
  {
    assert (live + [e])[..|live|] == live;
  }

  /** What has just been used is never what eviction drops. */
  lemma JustUsedIsKept(cfg: Config, live: seq<Entry>, e: Entry)
    requires cfg.Valid()
    ensures e in Kept(cfg, live + [e], e.lastAccess)
  {
    UnexpiredAppend(live, e, e.lastAccess, cfg.ttl);
    var active := Unexpired(live + [e], e.lastAccess, cfg.ttl);
    assert active[|active| - 1] == e;
    var kept := Kept(cfg, live + [e], e.lastAccess);
    assert kept[|kept| - 1] == e;
  }

  /**
   * What eviction keeps: nothing idle for too long; with a session also every active one used
   * later; and all active ones when they fit.
   */
  lemma KeptAreTheLatest(cfg: Config, live: seq<Entry>, now: int, i: nat, j: nat)
    requires Distinct(live) && i < j < |live|
    ensures forall e | e in Kept(cfg, live, now) :: !Expired(e, now, cfg.ttl)
    ensures live[i] in Kept(cfg, live, now) && !Expired(live[j], now, cfg.ttl) ==> live[j] in Kept(cfg, live, now)
    ensures |Unexpired(live, now, cfg.ttl)| <= cfg.cap ==> Kept(cfg, live, now) == Unexpired(live, now, cfg.ttl)
    ensures |Unexpired(live, now, cfg.ttl)| >= cfg.cap ==> |Kept(cfg, live, now)| == cfg.cap
    ensures forall e :: e in Unexpired(live, now, cfg.ttl) <==> e in live && now - e.lastAccess <= cfg.ttl
  {
    IdleInPlainTerms(live, now, cfg.ttl);
    hide Unexpired, Distinct, Expired;
    var active, kept := Unexpired(live, now, cfg.ttl), Kept(cfg, live, now);
    assert forall e | e in kept :: e in active;
    if live[i] in kept && !Expired(live[j], now, cfg.ttl) {
      var x, y := UnexpiredInOrder(live, now, cfg.ttl, i, j);
      UnexpiredIsDistinct(live, now, cfg.ttl);
      LaterStaysInSuffix(active, if |active| > cfg.cap then |active| - cfg.cap else 0, x, y);
    }
  }

  lemma IdleInPlainTerms(live: seq<Entry>, now: int, ttl: nat)
    ensures forall e :: e in Unexpired(live, now, ttl) <==> e in live && now - e.lastAccess <= ttl
  {}

  lemma LaterStaysInSuffix(active: seq<Entry>, from: nat, x: nat, y: nat)
    requires Distinct(active) && from <= |active| && x < y < |active| && active[x] in active[from..]
    ensures active[y] in active[from..]
  {
    var k :| 0 <= k < |active| - from && active[from..][k] == active[x];
    assert active[from + k].id == active[x].id;
    assert active[from..][y - from] == active[y];
  }

  lemma {:induction false} UnexpiredInOrder(live: seq<Entry>, now: int, ttl: nat, i: nat, j: nat)
    returns (x: nat, y: nat)
    requires i < j < |live| && !Expired(live[i], now, ttl) && !Expired(live[j], now, ttl)
    ensures var active := Unexpired(live, now, ttl); x < y < |active| && active[x] == live[i] && active[y] == live[j]
  {
    var init, last := live[..|live| - 1], live[|live| - 1];
    if j == |live| - 1 {
      assert init[i] == live[i] && live[i] in Unexpired(init, now, ttl);
      x :| 0 <= x < |Unexpired(init, now, ttl)| && Unexpired(init, now, ttl)[x] == live[i];
      y := |Unexpired(init, now, ttl)|;
    } else {
      x, y := UnexpiredInOrder(init, now, ttl, i, j);
    }
  }

  lemma EvictKeepsSoundness(cfg: Config, st: State, now: int)
    requires Distinct(st.live) && SoundMemos(st.memos, st.live)
    ensures var st' := Evict(cfg, st, now);
      Distinct(st'.live) && |st'.live| <= cfg.cap && SoundMemos(st'.memos, st'.live)
  {
    KeptIsDistinct(cfg, st.live, now);
  }

  lemma AppendStranger(live: seq<Entry>, e: Entry)
    requires Distinct(live) && !Holds(live, e.id)
    ensures Distinct(live + [e])
  {
    var r := live + [e];
    forall i, j | 0 <= i < j < |r| ensures r[i].id != r[j].id {
      if j == |live| {
        assert live[i] in live;
      }
    }
  }

  /** Inserting a session that is not resident: no memo can speak about it. */
  lemma InsertKeepsSoundness(cfg: Config, st: State, e: Entry)
    requires cfg.Valid() && Distinct(st.live) && SoundMemos(st.memos, st.live) && !Holds(st.live, e.id)
    ensures var st' := Evict(cfg, st.(live := st.live + [e]), e.lastAccess);
      && Distinct(st'.live) && |st'.live| <= cfg.cap && SoundMemos(st'.memos, st'.live)
      && e in st'.live && st'.rows == st.rows && st'.loaded == st.loaded
      && (forall x | x in st'.live :: x in st.live || x == e)
  {
    AppendStranger(st.live, e);
    var bigger := st.(live := st.live + [e]);
    assert SoundMemos(bigger.memos, bigger.live) by {
      forall m | m in st.memos ensures Holds(bigger.live, m.id) {
        var x :| x in st.live && x.id == m.id;
        assert x in bigger.live;
      }
    }
    EvictKeepsSoundness(cfg, bigger, e.lastAccess);
    JustUsedIsKept(cfg, st.live, e);
  }

  /** Every resident session is what its row says. */
  predicate Synced(st: State) {
    forall e | e in st.live :: e.id in st.rows && st.rows[e.id].session == e.session
  }

  lemma LoadFacts(cfg: Config, st: State, w: World)
    requires Coherent(cfg, st) && IsNewest(st.rows, w.newest, cfg.cap)
    ensures var st' := EnsureLoaded(cfg, st, w);
      Coherent(cfg, st') && st'.rows == st.rows && (Synced(st) ==> Synced(st'))
  {
    NoMemosWithoutSessions(st.memos, st.live);
  }

  lemma NoMemosWithoutSessions(memos: seq<Memo>, live: seq<Entry>)
    requires SoundMemos(memos, live)
    ensures live == [] ==> memos == []
  {
    if memos != [] {
      var m := memos[0];
      assert m in memos;
    }
  }

  lemma RehydrateFacts(cfg: Config, st: State, id: Id, w: World)
    requires cfg.Valid() && Coherent(cfg, st) && st.loaded
    requires !Holds(st.live, id)
    ensures var (st', found) := Rehydrate(cfg, st, id, w);
      && Coherent(cfg, st') && st'.rows == st.rows && st'.loaded
      && (Synced(st) ==> Synced(st'))
      && found == (if w.rowOk && id in st.rows then Some(st.rows[id].session) else None)
      && (found.Some? ==> Entry(id, found.value, w.now) in st'.live)
  {
    if w.rowOk && id in st.rows {
      InsertKeepsSoundness(cfg, st, Entry(id, st.rows[id].session, w.now));
    }
  }

  /** Touching a resident session moves it to the recently used end and changes nothing else. */
  lemma TouchFacts(cfg: Config, st: State, id: Id, now: int)
    requires Coherent(cfg, st) && Holds(st.live, id) && st.loaded
    ensures var s := Lookup(st.live, id).session;
      var st' := st.(live := Put(st.live, id, s, now));
      && Coherent(cfg, st') && (Synced(st) ==> Synced(st'))
      && Entry(id, s, now) in st'.live
  {
    var e := Lookup(st.live, id);
    PutFacts(st.live, id, e.session, now);
    var live' := Put(st.live, id, e.session, now);
    forall m | m in st.memos ensures Holds(live', m.id) {
      var x :| x in st.live && x.id == m.id;
      assert m.id != id ==> x in live';
      assert Entry(id, e.session, now) in live';
    }
  }

  lemma GetFacts(cfg: Config, st: State, id: Id, w: World)
    requires cfg.Valid() && Coherent(cfg, st) && IsNewest(st.rows, w.newest, cfg.cap)
    ensures var (st', found) := TaxStore.Get(cfg, st, id, w);
      && Coherent(cfg, st') && st'.rows == st.rows && st'.loaded
      && (Synced(st) ==> Synced(st'))
      && (found.Some? ==> Entry(id, found.value, w.now) in st'.live)
      && (found.None? ==> !Holds(EnsureLoaded(cfg, st, w).live, id))
      && (Synced(st) && w.rowOk ==> found == (if id in st.rows then Some(st.rows[id].session) else None))
  {
    hide EnsureLoaded, Rehydrate, Put;
    LoadFacts(cfg, st, w);
    var st1 := EnsureLoaded(cfg, st, w);
    if Holds(st1.live, id) {
      TouchFacts(cfg, st1, id, w.now);
    } else {
      RehydrateFacts(cfg, st1, id, w);
    }
  }

  lemma BumpFacts(cfg: Config, st: State, id: Id, s: Session, e: Edit, now: int)
    requires Coherent(cfg, st) && st.loaded && Holds(st.live, id) && Lookup(st.live, id).session == s
    ensures var st' := st.(live := Put(st.live, id, Bumped(s, e), now));
      Coherent(cfg, st') && Entry(id, Bumped(s, e), now) in st'.live
  {
    var bumped := Bumped(s, e);
    PutFacts(st.live, id, bumped, now);
    var live' := Put(st.live, id, bumped, now);
    forall m | m in st.memos ensures Holds(live', m.id) {
      var x :| x in st.live && x.id == m.id;
      assert m.id != id ==> x in live';
      assert Entry(id, bumped, now) in live';
    }
    forall m, x | m in st.memos && x in live' && x.id == m.id ensures Sound(m, x.session) {
      if m.id == id {
        assert Sound(m, s);
      } else {
        assert x in st.live;
      }
    }
  }

  lemma LookupOf(live: seq<Entry>, e: Entry)
    requires Distinct(live) && e in live
    ensures Holds(live, e.id) && Lookup(live, e.id) == e
  {
    SameIdSameEntry(live, e, Lookup(live, e.id));
  }

  lemma PersistFacts(cfg: Config, st: State, e: Entry, w: World)
    requires Coherent(cfg, st) && e in st.live
    ensures var st' := Persist(st, e.id, w);
      && Coherent(cfg, st') && st'.live == st.live && st'.loaded == st.loaded
      && st'.rows == (if w.writeOk then st.rows[e.id := Row(e.session, w.now)] else st.rows)
  {
    LookupOf(st.live, e);
  }

  /**
   * What has been written through comes back: once the resident copy is lost, a successful
   * read returns exactly the session that was persisted, version included.
   */
  lemma PersistedSessionComesBack(cfg: Config, st: State, id: Id, w: World, lost: State, later: World)
    requires Holds(st.live, id) && w.writeOk
    requires lost.rows == Persist(st, id, w).rows && !Holds(lost.live, id) && later.rowOk
    ensures Rehydrate(cfg, lost, id, later).1 == Some(Lookup(st.live, id).session)
    ensures forall other: Id | other != id :: other in lost.rows <==> other in st.rows
    ensures forall other: Id | other != id && other in st.rows :: lost.rows[other] == st.rows[other]
  {}

  /** A session that is not resident any more is never written, and a lost write changes no row. */
  lemma NothingElseIsWritten(st: State, id: Id, w: World)
    ensures Persist(st, id, w) == st <==> (!Holds(st.live, id) || !w.writeOk
              || (id in st.rows && st.rows[id] == Row(Lookup(st.live, id).session, w.now)))
  {
    if Holds(st.live, id) && w.writeOk {
      var rows := Persist(st, id, w).rows;
      assert rows[id] == Row(Lookup(st.live, id).session, w.now);
      if id in st.rows && st.rows[id] == rows[id] {
        assert rows == st.rows;
      }
    }
  }

  lemma MutateFacts(cfg: Config, st: State, id: Id, e: Edit, w: World)
    requires cfg.Valid() && Coherent(cfg, st) && IsNewest(st.rows, w.newest, cfg.cap)
    ensures var (st', ok) := TaxStore.Mutate(cfg, st, id, e, w);
      && Coherent(cfg, st')
      && (!ok ==> st'.rows == st.rows)
      && (Synced(st) && w.rowOk && w.writeOk ==>
            && Synced(st') && ok == (id in st.rows)
            && (ok ==> st'.rows == st.rows[id := Row(Bumped(st.rows[id].session, e), w.now)]))
  {
    hide EnsureLoaded, Rehydrate, Put, Bumped, Persist, SoundMemos, Distinct;
    LoadFacts(cfg, st, w);
    var st1 := EnsureLoaded(cfg, st, w);
    var (st2, found) :=
      if Holds(st1.live, id) then (st1, Some(Lookup(st1.live, id).session)) else Rehydrate(cfg, st1, id, w);
    if !Holds(st1.live, id) {
      RehydrateFacts(cfg, st1, id, w);
      if found.Some? {
        LookupOf(st2.live, Entry(id, found.value, w.now));
      }
    }
    if found.Some? {
      BumpFacts(cfg, st2, id, found.value, e, w.now);
      var st3 := st2.(live := Put(st2.live, id, Bumped(found.value, e), w.now));
      PersistFacts(cfg, st3, Entry(id, Bumped(found.value, e), w.now), w);
      PutFacts(st2.live, id, Bumped(found.value, e), w.now);
    }
  }

  /** An edit is refused exactly when the session is not resident and has no row that can be read. */
  lemma MutateFailsExactly(cfg: Config, st: State, id: Id, e: Edit, w: World)
    requires cfg.Valid() && IsNewest(st.rows, w.newest, cfg.cap)
    ensures !TaxStore.Mutate(cfg, st, id, e, w).1
      <==> !Holds(EnsureLoaded(cfg, st, w).live, id) && (id !in st.rows || !w.rowOk)
  {
    hide EnsureLoaded, Put, Persist, Kept;
    var st1 := EnsureLoaded(cfg, st, w);
    assert st1.rows == st.rows by {
      LoadKeepsRows(cfg, st, w);
    }
    if !Holds(st1.live, id) && id in st.rows && w.rowOk {
      JustUsedIsKept(cfg, st1.live, Entry(id, st.rows[id].session, w.now));
    }
  }

  lemma LoadKeepsRows(cfg: Config, st: State, w: World)
    requires IsNewest(st.rows, w.newest, cfg.cap)
    ensures EnsureLoaded(cfg, st, w).rows == st.rows
  {}

  lemma LoadedIsStored(cfg: Config, st: State, w: World)
    requires IsNewest(st.rows, w.newest, cfg.cap)
    ensures forall e | e in EnsureLoaded(cfg, st, w).live :: e in st.live || e.id in st.rows
  {}

  lemma CreateFacts(cfg: Config, st: State, ais: string, user: string, newId: Id, w: World)
    requires cfg.Valid() && Coherent(cfg, st) && IsNewest(st.rows, w.newest, cfg.cap)
    requires newId !in st.rows && !Holds(st.live, newId)
    ensures var (st', id) := TaxStore.Create(cfg, st, ais, user, newId, w);
      && Coherent(cfg, st')
      && (Synced(st) && w.twinOk && w.writeOk ==>
            && Synced(st')
            && (if user != "" && w.twin.Some? then id == w.twin.value && st'.rows == st.rows
                else id == newId && st'.rows == st.rows[newId := Row(NewSession(ais, user), w.now)]))
  {
    hide Put, Persist, NewSession, Evict, EnsureLoaded, SoundMemos, Distinct, Kept;
    LoadFacts(cfg, st, w);
    LoadedIsStored(cfg, st, w);
    var st1 := EnsureLoaded(cfg, st, w);
    if !(user != "" && w.twinOk && w.twin.Some?) {
      var e := Entry(newId, NewSession(ais, user), w.now);
      InsertKeepsSoundness(cfg, st1, e);
      PersistFacts(cfg, Evict(cfg, st1.(live := st1.live + [e]), w.now), e, w);
    }
  }

  lemma DeleteFacts(cfg: Config, st: State, id: Id, w: World)
    requires Coherent(cfg, st) && IsNewest(st.rows, w.newest, cfg.cap)
    ensures var st' := TaxStore.Delete(cfg, st, id, w);
      && Coherent(cfg, st') && !Holds(st'.live, id) && (forall m | m in st'.memos :: m.id != id)
      && (w.writeOk ==> id !in st'.rows)
      && (Synced(st) && w.writeOk ==> Synced(st') && st'.rows == st.rows - {id})
  {
    hide EnsureLoaded;
    LoadFacts(cfg, st, w);
    var st1 := EnsureLoaded(cfg, st, w);
    WithoutIsDistinct(st1.live, id);
    var live' := Without(st1.live, id);
    forall m | m in MemosWithout(st1.memos, id) ensures Holds(live', m.id) {
      var x :| x in st1.live && x.id == m.id;
      assert x in live';
    }
  }

  lemma EvictUserFacts(cfg: Config, st: State, user: string)
    requires Coherent(cfg, st)
    ensures var st' := TaxStore.EvictUser(st, user);
      Coherent(cfg, st') && st'.rows == st.rows && (Synced(st) ==> Synced(st'))
  {
    NotOfIsDistinct(st.live, user);
    if !st.loaded {
      assert NotOf(st.live, user) == [];
    }
  }

  /** A hit or a fresh computation alike: the tax on what the session holds now. */
  lemma ComputeFacts(cfg: Config, st: State, e: Entry, regime: string, w: World)
    requires Coherent(cfg, st) && st.loaded && e in st.live
    ensures var (st', c) := TaxStore.Compute(cfg, st, e.id, e.session, regime, w);
      && Coherent(cfg, st') && st'.live == st.live && st'.rows == st.rows && st'.loaded
      && c == TaxOf(e.session, regime)
  {
    LookupOf(st.live, e);
    var version := e.session.version;
    var found := FindMemo(st.memos, e.id, version, regime);
    var rest := DropKey(st.memos, e.id, version, regime);
    if found.Some? {
      assert Sound(found.value, e.session);
      assert SoundMemos(rest + [found.value], st.live);
    } else {
      var m := Memo(e.id, version, regime, TaxOf(e.session, regime));
      var all := rest + [m];
      forall x, y | x in all && y in st.live && y.id == x.id ensures Sound(x, y.session) {
        if x == m {
          SameIdSameEntry(st.live, y, e);
        }
      }
      assert SoundMemos(all, st.live);
      assert forall x | x in LastMemos(all, cfg.cap * REGIMES) :: x in all;
    }
  }

  /**
   * The memo table never outgrows two entries for every session that may be resident, and
   * nothing is dropped from it before it would.
   */
  lemma MemoTableIsBounded(cfg: Config, st: State, id: Id, s: Session, regime: string, w: World)
    requires |st.memos| <= 2 * cfg.cap
    ensures var st' := TaxStore.Compute(cfg, st, id, s, regime, w).0; var st1 := VersionOf(cfg, st, id, w).0;
      && |st'.memos| <= 2 * cfg.cap
      && (|st1.memos| < 2 * cfg.cap ==>
            forall m | m in st1.memos && !(m.id == id && m.regime == regime) :: m in st'.memos)
  {
    var (st1, version) := VersionOf(cfg, st, id, w);
    FewerMemos(st.memos, st.live, st1.live);
    DropsNoMore(st1.memos, id, version, regime);
    EvictionDropsMemos(cfg, st, id, w);
  }

  lemma {:induction false} DropsNoMore(memos: seq<Memo>, id: Id, version: int, regime: string)
    ensures |DropKey(memos, id, version, regime)| <= |memos|
    ensures (exists m | m in memos :: IsKey(m, id, version, regime)) ==>
      |DropKey(memos, id, version, regime)| < |memos|
  {
    if memos != [] {
      DropsNoMore(memos[1..], id, version, regime);
    }
  }

  lemma {:induction false} FewerMemos(memos: seq<Memo>, before: seq<Entry>, after: seq<Entry>)
    ensures |MemosAfter(memos, before, after)| <= |memos|
  {
    if memos != [] {
      FewerMemos(memos[1..], before, after);
    }
  }

  lemma EvictionDropsMemos(cfg: Config, st: State, id: Id, w: World)
    ensures |VersionOf(cfg, st, id, w).0.memos| <= |st.memos|
  {
    var (st1, found) := Rehydrate(cfg, st, id, w);
    if !Holds(st.live, id) && w.rowOk && id in st.rows {
      var bigger := st.live + [Entry(id, st.rows[id].session, w.now)];
      FewerMemos(st.memos, bigger, Kept(cfg, bigger, w.now));
    }
  }

  /** The session as a version lookup finds it: resident, or restored from its row. */
  function Current(st: State, id: Id, w: World): Option<Session> {
    if Holds(st.live, id) then Some(Lookup(st.live, id).session)
    else if w.rowOk && id in st.rows then Some(st.rows[id].session)
    else None
  }

  /** Minus one is reported for a session that does not exist, and for one whose row cannot be read. */
  lemma VersionIsMinusOneExactly(cfg: Config, st: State, id: Id, w: World)
    ensures VersionOf(cfg, st, id, w).1 == -1 <==> !Holds(st.live, id) && (id !in st.rows || !w.rowOk)
    ensures forall s | Current(st, id, w) == Some(s) :: VersionOf(cfg, st, id, w).1 == s.version
  {}

  /** What a computation leaves in the memo table is the tax on the session's current data. */
  predicate MemoIsCurrent(st: State, id: Id, s: Session, regime: string, w: World) {
    match Current(st, id, w)
    case None => false
    case Some(current) =>
      FindMemo(st.memos, id, current.version, regime).Some? || TaxOf(s, regime) == TaxOf(current, regime)
  }

  lemma LastStays(rest: seq<Memo>, m: Memo, most: nat)
    requires most > 0
    ensures m in LastMemos(rest + [m], most)
  {
    var all := rest + [m];
    assert all[|all| - 1] == m;
    if |all| > most {
      assert all[|all| - most..][most - 1] == m;
    }
  }

  lemma ComputeOnResident(cfg: Config, st: State, e: Entry, s: Session, regime: string, w: World)
    requires cfg.Valid() && Coherent(cfg, st) && st.loaded && e in st.live
    ensures var (st', c) := TaxStore.Compute(cfg, st, e.id, s, regime, w);
      && (Coherent(cfg, st') <==> MemoIsCurrent(st, e.id, s, regime, w))
      && (MemoIsCurrent(st, e.id, s, regime, w) ==> c == TaxOf(e.session, regime))
  {
    hide Distinct, LastMemos, DropKey, Kept;
    LookupOf(st.live, e);
    ComputeFacts(cfg, st, e, regime, w);
    var version := e.session.version;
    if !MemoIsCurrent(st, e.id, s, regime, w) {
      var m := Memo(e.id, version, regime, TaxOf(s, regime));
      LastStays(DropKey(st.memos, e.id, version, regime), m, cfg.cap * REGIMES);
    }
  }

  /**
   * A computation asked for by id and data keeps the invariant exactly when the session can
   * be found and the data handed in give the tax on its current data, or a memo answers.
   */
  lemma ComputeKeepsCoherenceExactly(cfg: Config, st: State, id: Id, s: Session, regime: string, w: World)
    requires cfg.Valid() && Coherent(cfg, st) && st.loaded
    ensures var (st', c) := TaxStore.Compute(cfg, st, id, s, regime, w);
      && (Coherent(cfg, st') <==> MemoIsCurrent(st, id, s, regime, w))
      && (MemoIsCurrent(st, id, s, regime, w) ==> c == TaxOf(Current(st, id, w).value, regime))
  {
    hide Distinct, LastMemos, DropKey, Evict;
    if Holds(st.live, id) {
      ComputeOnResident(cfg, st, Lookup(st.live, id), s, regime, w);
    } else if w.rowOk && id in st.rows {
      RestoredHasNoMemos(cfg, st, id, w);
      ComputeOnResident(cfg, Rehydrate(cfg, st, id, w).0, Entry(id, st.rows[id].session, w.now), s, regime, w);
    } else {
      LastStays(DropKey(st.memos, id, -1, regime), Memo(id, -1, regime, TaxOf(s, regime)), cfg.cap * REGIMES);
    }
  }

  lemma RestoredHasNoMemos(cfg: Config, st: State, id: Id, w: World)
    requires cfg.Valid() && Coherent(cfg, st) && st.loaded && !Holds(st.live, id) && w.rowOk && id in st.rows
    ensures var st1 := Rehydrate(cfg, st, id, w).0; var e := Entry(id, st.rows[id].session, w.now);
      && Coherent(cfg, st1) && st1.loaded && Holds(st1.live, id) && Lookup(st1.live, id) == e && e in st1.live
      && (forall m | m in st.memos || m in st1.memos :: m.id != id)
  {
    hide Distinct, Kept;
    RehydrateFacts(cfg, st, id, w);
    LookupOf(Rehydrate(cfg, st, id, w).0.live, Entry(id, st.rows[id].session, w.now));
  }

  /**
   * One operation, whatever the database does to its reads and writes: the invariant is
   * kept, and a computation handed out is the tax on the resident session's current data.
   */
  lemma PerformKeepsCoherence(cfg: Config, st: State, op: Op)
    requires cfg.Valid() && Coherent(cfg, st) && Allowed(cfg, st, op)
    ensures var (st', reply) := Perform(cfg, st, op);
      && Coherent(cfg, st')
      && (op.request.Compute? ==> reply.Tax?)
      && (op.request.Compute? && reply.computation.Some? ==>
            && Holds(st'.live, op.request.id)
            && reply.computation.value == TaxOf(Lookup(st'.live, op.request.id).session, op.request.regime))
  {
    hide Coherent, TaxStore.Get, TaxStore.Mutate, TaxStore.Create, TaxStore.Delete, TaxStore.EvictUser;
    hide TaxStore.Compute;
    var w := op.world;
    match op.request {
      case Get(id) => GetFacts(cfg, st, id, w);
      case Mutate(id, e) => MutateFacts(cfg, st, id, e, w);
      case Create(ais, user, newId) => CreateFacts(cfg, st, ais, user, newId, w);
      case Delete(id) => DeleteFacts(cfg, st, id, w);
      case EvictUser(user) => EvictUserFacts(cfg, st, user);
      case ClearAll => ClearFacts(cfg, st);
      case Compute(id, regime) =>
        GetFacts(cfg, st, id, w);
        var (st1, found) := TaxStore.Get(cfg, st, id, w);
        if found.Some? {
          var e := Entry(id, found.value, w.now);
          ComputeFacts(cfg, st1, e, regime, w);
          LookupAfter(cfg, st1, e);
        }
    }
  }

  lemma LookupAfter(cfg: Config, st: State, e: Entry)
    requires Coherent(cfg, st) && e in st.live
    ensures Holds(st.live, e.id) && Lookup(st.live, e.id) == e
  {
    LookupOf(st.live, e);
  }

  lemma ClearFacts(cfg: Config, st: State)
    ensures var st' := TaxStore.ClearAll(st); Coherent(cfg, st') && st'.rows == st.rows && Synced(st')
  {}

  // ----- coherence over whole runs -----

  /** The state after the first `i` operations. */
  ghost function StateAfter(cfg: Config, st: State, ops: seq<Op>, i: nat): State
    requires AllowedRun(cfg, st, ops) && i <= |ops|
    decreases |ops|
  {
    if i == 0 then st else StateAfter(cfg, Perform(cfg, st, ops[0]).0, ops[1..], i - 1)
  }

  /** What the `i`-th operation left behind and, for a computation, what it handed out. */
  ghost predicate AnswersCurrentData(cfg: Config, st: State, ops: seq<Op>, i: nat)
    requires AllowedRun(cfg, st, ops) && i < |ops|
  {
    var after := StateAfter(cfg, st, ops, i + 1);
    var reply := Run(cfg, st, ops).1[i];
    && |after.live| <= cfg.cap
    && (ops[i].request.Compute? ==> reply.Tax?)
    && (ops[i].request.Compute? && reply.computation.Some? ==>
          && Holds(after.live, ops[i].request.id)
          && var doc := Lookup(after.live, ops[i].request.id).session.doc;
          reply.computation.value == Computation(doc.ais, ops[i].request.regime, doc.overrides))
  }

  /**
   * In every run, with reads and writes failing at will, versions coming back from stale
   * rows and numbers being used again, each computation handed out is the tax on the data
   * its session holds at that moment, and the resident count stays within the cap.
   */
  lemma {:induction false} MemoIsAlwaysCurrent(cfg: Config, st: State, ops: seq<Op>, i: nat)
    requires cfg.Valid() && Coherent(cfg, st) && AllowedRun(cfg, st, ops) && i < |ops|
    ensures AnswersCurrentData(cfg, st, ops, i)
    decreases |ops|
  {
    hide Perform;
    PerformKeepsCoherence(cfg, st, ops[0]);
    var next := Perform(cfg, st, ops[0]).0;
    if i == 0 {
      assert StateAfter(cfg, st, ops, 1) == StateAfter(cfg, next, ops[1..], 0) == next;
      assert Run(cfg, st, ops).1[0] == Perform(cfg, st, ops[0]).1;
    } else {
      MemoIsAlwaysCurrent(cfg, next, ops[1..], i - 1);
      assert ops[1..][i - 1] == ops[i];
      assert StateAfter(cfg, st, ops, i + 1) == StateAfter(cfg, next, ops[1..], i);
      assert Run(cfg, st, ops).1[i] == Run(cfg, next, ops[1..]).1[i - 1];
    }
  }

  lemma FreshStoreIsCoherent(cfg: Config, rows: map<Id, Row>)
    ensures var st := State([], false, rows, []); Coherent(cfg, st) && Synced(st)
  {}

  // ----- the plain map that the store refines -----

  /** The stored sessions, without timestamps. */
  function Content(rows: map<Id, Row>): map<Id, Session> {
    map id | id in rows :: rows[id].session
  }

  /** The same operations on an unbounded map: no resident store, no eviction, no memo. */
  function PlainPerform(db: map<Id, Session>, op: Op): (map<Id, Session>, Reply) {
    match op.request
    case Get(id) => (db, Found(if id in db then Some(db[id]) else None))
    case Mutate(id, e) => if id in db then (db[id := Bumped(db[id], e)], Changed(true)) else (db, Changed(false))
    case Create(ais, user, newId) =>
      if user != "" && op.world.twin.Some? then (db, Created(op.world.twin.value))
      else (db[newId := NewSession(ais, user)], Created(newId))
    case Delete(id) => (db - {id}, Finished)
    case EvictUser(_) => (db, Finished)
    case ClearAll => (db, Finished)
    case Compute(id, regime) => (db, Tax(if id in db then Some(TaxOf(db[id], regime)) else None))
  }

  function PlainRun(db: map<Id, Session>, ops: seq<Op>): (r: (map<Id, Session>, seq<Reply>))
    ensures |r.1| == |ops|
    decreases |ops|
  {
    if ops == [] then (db, [])
    else
      var (next, reply) := PlainPerform(db, ops[0]);
      var (end, replies) := PlainRun(next, ops[1..]);
      (end, [reply] + replies)
  }

  lemma PerformRefinesPlainMap(cfg: Config, st: State, op: Op)
    requires cfg.Valid() && Coherent(cfg, st) && Synced(st) && Allowed(cfg, st, op)
    requires op.world.rowOk && op.world.twinOk && op.world.writeOk
    ensures var (st', reply) := Perform(cfg, st, op);
      && Coherent(cfg, st') && Synced(st')
      && (Content(st'.rows), reply) == PlainPerform(Content(st.rows), op)
  {
    hide Coherent, Synced, TaxStore.Get, TaxStore.Mutate, TaxStore.Create, TaxStore.Delete, TaxStore.EvictUser,
      TaxStore.Compute, Bumped, NewSession, TaxOf;
    var w := op.world;
    match op.request {
      case Get(id) => GetFacts(cfg, st, id, w);
      case Mutate(id, e) =>
        MutateFacts(cfg, st, id, e, w);
        if id in st.rows {
          ContentOfUpdate(st.rows, id, Row(Bumped(st.rows[id].session, e), w.now));
        }
      case Create(ais, user, newId) =>
        CreateFacts(cfg, st, ais, user, newId, w);
        ContentOfUpdate(st.rows, newId, Row(NewSession(ais, user), w.now));
      case Delete(id) =>
        DeleteFacts(cfg, st, id, w);
        assert Content(st.rows - {id}) == Content(st.rows) - {id};
      case EvictUser(user) => EvictUserFacts(cfg, st, user);
      case ClearAll => ClearFacts(cfg, st);
      case Compute(id, regime) =>
        GetFacts(cfg, st, id, w);
        var (st1, found) := TaxStore.Get(cfg, st, id, w);
        if found.Some? {
          ComputeFacts(cfg, st1, Entry(id, found.value, w.now), regime, w);
          SyncedAfter(st1, TaxStore.Compute(cfg, st1, id, found.value, regime, w).0);
        }
    }
  }

  lemma ContentOfUpdate(rows: map<Id, Row>, id: Id, row: Row)
    ensures Content(rows[id := row]) == Content(rows)[id := row.session]
  {}

  lemma SyncedAfter(st: State, st': State)
    requires Synced(st) && st'.live == st.live && st'.rows == st.rows
    ensures Synced(st')
  {}

  /**
   * With every row read, duplicate lookup and write succeeding (the first load may fail), a
   * run of the bounded store gives the replies the plain map gives, one by one, and leaves
   * the same sessions stored.
   */
  lemma {:induction false} StoreRefinesPlainMap(cfg: Config, st: State, ops: seq<Op>)
    requires cfg.Valid() && Coherent(cfg, st) && Synced(st) && AllowedRun(cfg, st, ops)
    requires forall i | 0 <= i < |ops| :: ops[i].world.rowOk && ops[i].world.twinOk && ops[i].world.writeOk
    ensures var (end, replies) := Run(cfg, st, ops);
      && (Content(end.rows), replies) == PlainRun(Content(st.rows), ops)
      && Coherent(cfg, end) && Synced(end)
    decreases |ops|
  {
    hide Perform, PlainPerform, Coherent, Synced, Content;
    if ops != [] {
      PerformRefinesPlainMap(cfg, st, ops[0]);
      StoreRefinesPlainMap(cfg, Perform(cfg, st, ops[0]).0, ops[1..]);
    }
  }

  // ----- why the registered clear drops both -----

  const ID := "s"
  const ROW := Row(NewSession("A", "u"), 0)
  const CONFIG := Config(8, 86400)

  function Lost(now: int): World {
    World(now, true, true, true, false, [ID], None)
  }

  const FIRST := Session(Doc("B", "", map[], ""), "u", 1)
  const SECOND := Session(Doc("C", "", map[], ""), "u", 1)
  const STALE := Memo(ID, 1, "new", Computation("B", "new", map[]))

  function Holding(s: Session, now: int, memos: seq<Memo>): State {
    State([Entry(ID, s, now)], true, map[ID := ROW], memos)
  }

  /**
   * Clearing the sessions without the memos breaks coherence once a write has been lost:
   * the version number of the lost edit is used again, for different data, and the old
   * tax is handed out.
   */
  lemma ClearingSessionsAloneServesStaleTax()
    ensures TaxStore.Mutate(CONFIG, State([], false, map[ID := ROW], []), ID, SetAis("B"), Lost(1)).0
         == Holding(FIRST, 1, [])
    ensures GetComputation(CONFIG, Holding(FIRST, 1, []), ID, "new", Lost(2)).0 == Holding(FIRST, 2, [STALE])
    ensures TaxStore.Mutate(CONFIG, ClearSessions(Holding(FIRST, 2, [STALE])), ID, SetAis("C"), Lost(3)).0
         == Holding(SECOND, 3, [STALE])
    ensures GetComputation(CONFIG, Holding(SECOND, 3, [STALE]), ID, "new", Lost(4))
         == (Holding(SECOND, 4, [STALE]), Some(Computation("B", "new", map[])))
  {
    LostEdit(State([], false, map[ID := ROW], []), "B", 1);
    OneComputation(Holding(FIRST, 1, []), FIRST, 1, 2);
    LostEdit(ClearSessions(Holding(FIRST, 2, [STALE])), "C", 3);
    Reused(Holding(SECOND, 3, [STALE]), SECOND, STALE, 3, 4);
  }

  lemma OneEntry(e: Entry, s: Session, now: int)
    ensures Holds([e], e.id) && Lookup([e], e.id) == e && Put([e], e.id, s, now) == [Entry(e.id, s, now)]
  {
    assert e in [e];
    assert Without([], e.id) == [];
  }

  lemma LostEdit(st: State, ais: string, now: int)
    requires st.live == [] && !st.loaded && st.rows == map[ID := ROW]
    ensures TaxStore.Mutate(CONFIG, st, ID, SetAis(ais), Lost(now)).0
         == State([Entry(ID, Session(Doc(ais, "", map[], ""), "u", 1), now)], true, st.rows, st.memos)
  {
    var e := Entry(ID, ROW.session, 0);
    assert Restored(st.rows, [ID]) == [e];
    OneEntry(e, Bumped(e.session, SetAis(ais)), now);
  }

  lemma OneComputation(st: State, s: Session, was: int, now: int)
    requires st == State([Entry(ID, s, was)], true, map[ID := ROW], []) && s.version == 1
    ensures GetComputation(CONFIG, st, ID, "new", Lost(now)).0
         == State([Entry(ID, s, now)], true, st.rows, [Memo(ID, 1, "new", TaxOf(s, "new"))])
  {
    OneEntry(Entry(ID, s, was), s, now);
    OneEntry(Entry(ID, s, now), s, now);
  }

  lemma Reused(st: State, s: Session, memo: Memo, was: int, now: int)
    requires st == State([Entry(ID, s, was)], true, map[ID := ROW], [memo]) && s.version == 1
    requires IsKey(memo, ID, 1, "new")
    ensures GetComputation(CONFIG, st, ID, "new", Lost(now)) == (Holding(s, now, [memo]), Some(memo.value))
  {
    OneEntry(Entry(ID, s, was), s, now);
    OneEntry(Entry(ID, s, now), s, now);
    assert FindMemo([memo], ID, 1, "new") == Some(memo);
    assert [memo][1..] == [];
    assert DropKey([memo], ID, 1, "new") == [];
    assert DropKey([memo], ID, 1, "new") + [memo] == [memo];
    var st1 := Holding(s, now, [memo]);
    assert TaxStore.Get(CONFIG, st, ID, Lost(now)) == (st1, Some(s));
    assert VersionOf(CONFIG, st1, ID, Lost(now)) == (st1, 1);
  }
}
