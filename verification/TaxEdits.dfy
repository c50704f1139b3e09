/**
 * What an edit writes and a computation is made from, as later requests see it: field by
 * field, for every edit and every session.
 */
module TaxEdits {
  import opened Common
  import opened TaxStore
  import TaxRuns

  /** A table laid over another: every field it names has its value, the others are kept. */
  predicate IsLaidOver(fields: map<string, string>, base: map<string, string>, update: map<string, string>) {
    && fields.Keys == base.Keys + update.Keys
    && (forall f | f in update :: fields[f] == update[f])
    && (forall f | f in base && f !in update :: fields[f] == base[f])
  }

  /** Overrides merged: keys not named are kept, a table over a table is laid over it, anything else replaces. */
  predicate IsMerge(base: map<string, Override>, update: map<string, Override>, r: map<string, Override>) {
    && r.Keys == base.Keys + update.Keys
    && (forall k | k in base && k !in update :: r[k] == base[k])
    && (forall k | k in update ::
          if update[k].Table? && k in base && base[k].Table?
          then r[k].Table? && IsLaidOver(r[k].fields, base[k].fields, update[k].fields)
          else r[k] == update[k])
  }

  /** What an edit makes of a session: one part of the document, and the next version. */
  predicate IsEdit(s: Session, e: Edit, r: Session) {
    && r.user == s.user && r.version == s.version + 1
    && r.doc.ais == (if e.SetAis? then e.ais else s.doc.ais)
    && r.doc.deductions == (if e.SetDeductions? then e.deductions else s.doc.deductions)
    && r.doc.itr == (if e.SetItr? then e.itr else s.doc.itr)
    && if e.MergeOverrides? then IsMerge(s.doc.overrides, e.overrides, r.doc.overrides)
       else r.doc.overrides == s.doc.overrides
  }

  lemma BumpIsEdit(s: Session, e: Edit)
    ensures IsEdit(s, e, Bumped(s, e))
  {}

  lemma ReadResident(cfg: Config, st: State, e: Entry, w: World)
    requires forall i | 0 <= i < |w.newest| :: w.newest[i] in st.rows
    requires TaxRuns.Coherent(cfg, st) && st.loaded && e in st.live
    ensures TaxStore.Get(cfg, st, e.id, w).1 == Some(e.session) && Holds(st.live, e.id)
    ensures Lookup(st.live, e.id) == e
  {
    TaxRuns.LookupOf(st.live, e);
  }

  /**
   * A read after a successful edit returns the session as it was, edited: the edited part
   * has the edit's values, every other part is kept, and the version is one more. So does
   * the row, when it could be written.
   */
  lemma EditIsReadBack(cfg: Config, st: State, id: Id, e: Edit, w: World, later: World)
    requires cfg.Valid() && TaxRuns.Coherent(cfg, st) && IsNewest(st.rows, w.newest, cfg.cap)
    requires TaxStore.Mutate(cfg, st, id, e, w).1
    requires forall i | 0 <= i < |later.newest| :: later.newest[i] in TaxStore.Mutate(cfg, st, id, e, w).0.rows
    ensures var before := TaxRuns.Current(EnsureLoaded(cfg, st, w), id, w);
      var st1 := TaxStore.Mutate(cfg, st, id, e, w).0;
      var read := TaxStore.Get(cfg, st1, id, later).1;
      && before.Some? && read.Some? && IsEdit(before.value, e, read.value)
      && (w.writeOk ==> id in st1.rows && IsEdit(before.value, e, st1.rows[id].session))
  {
    hide EnsureLoaded, Rehydrate, Put, Bumped, TaxStore.Get, IsEdit, TaxRuns.Coherent;
    var st0 := EnsureLoaded(cfg, st, w);
    var before := TaxRuns.Current(st0, id, w);
    FoundIsCurrent(cfg, st, id, w);
    BumpIsEdit(before.value, e);
    var (st1, found) :=
      if Holds(st0.live, id) then (st0, Some(Lookup(st0.live, id).session)) else Rehydrate(cfg, st0, id, w);
    var s := Bumped(before.value, e);
    var st2 := TaxStore.Mutate(cfg, st, id, e, w).0;
    TaxRuns.MutateFacts(cfg, st, id, e, w);
    PutIsThere(st1.live, id, s, w.now);
    assert st2.live == Put(st1.live, id, s, w.now);
    ReadResident(cfg, st2, Entry(id, s, w.now), later);
  }

  lemma PutIsThere(live: seq<Entry>, id: Id, s: Session, now: int)
    ensures Entry(id, s, now) in Put(live, id, s, now)
  {}

  lemma FoundIsCurrent(cfg: Config, st: State, id: Id, w: World)
    requires IsNewest(st.rows, w.newest, cfg.cap)
    ensures var st0 := EnsureLoaded(cfg, st, w); var r := Rehydrate(cfg, st0, id, w);
      && st0.loaded && r.0.loaded
      && (!Holds(st0.live, id) ==> r.1 == TaxRuns.Current(st0, id, w))
  {}

  /** An upload that is stored already is answered with a session of the same user and content. */
  lemma DuplicateIsTheSame(cfg: Config, st: State, ais: string, user: string, newId: Id, w: World)
    requires IsNewest(st.rows, w.newest, cfg.cap) && w.twinOk && IsTwinAnswer(st.rows, w.twin, ais, user)
    ensures var (st', id) := TaxStore.Create(cfg, st, ais, user, newId, w);
      if user != "" && exists x | x in st.rows :: st.rows[x].session.user == user && st.rows[x].session.doc.ais == ais
      then id in st.rows && st.rows[id].session.user == user && st.rows[id].session.doc.ais == ais
           && st'.rows == st.rows
      else id == newId
  {
    hide Evict, Kept;
    TaxRuns.LoadKeepsRows(cfg, st, w);
    if x :| x in st.rows && st.rows[x].session.user == user && st.rows[x].session.doc.ais == ais {
      assert IsTwin(st.rows, x, ais, user);
    }
  }

  /** A new session is what was uploaded and nothing else, at version zero. */
  lemma CreatedIsReadBack(cfg: Config, st: State, ais: string, user: string, newId: Id, w: World, later: World)
    requires cfg.Valid() && TaxRuns.Coherent(cfg, st) && IsNewest(st.rows, w.newest, cfg.cap)
    requires newId !in st.rows && !Holds(st.live, newId) && !(user != "" && w.twinOk && w.twin.Some?)
    requires var st1 := TaxStore.Create(cfg, st, ais, user, newId, w).0;
      forall i | 0 <= i < |later.newest| :: later.newest[i] in st1.rows
    ensures var (st1, id) := TaxStore.Create(cfg, st, ais, user, newId, w);
      id == newId && TaxStore.Get(cfg, st1, id, later).1 == Some(Session(Doc(ais, "", map[], ""), user, 0))
  {
    hide TaxStore.Get, Kept, EnsureLoaded, TaxRuns.Coherent;
    var st0 := EnsureLoaded(cfg, st, w);
    TaxRuns.LoadFacts(cfg, st, w);
    TaxRuns.LoadedIsStored(cfg, st, w);
    var e := Entry(newId, NewSession(ais, user), w.now);
    TaxRuns.InsertKeepsSoundness(cfg, st0, e);
    var st1 := Evict(cfg, st0.(live := st0.live + [e]), w.now);
    TaxRuns.JustUsedIsKept(cfg, st0.live, e);
    TaxRuns.CreateFacts(cfg, st, ais, user, newId, w);
    ReadResident(cfg, Persist(st1, newId, w), e, later);
  }

  // ----- what each request does to the other sessions -----

  /**
   * First use: the resident sessions are the most recently updated rows, as many as the cap
   * allows, oldest first; no row left out is newer than one that was loaded. If the read
   * fails there are none, and later uses load nothing.
   */
  lemma FirstUseLoadsTheNewest(cfg: Config, st: State, w: World)
    requires IsNewest(st.rows, w.newest, cfg.cap)
    ensures var live := EnsureLoaded(cfg, st, w).live;
      if st.loaded then live == st.live
      else if !w.loadOk then live == []
      else
        && |live| == (if |st.rows| < cfg.cap then |st.rows| else cfg.cap)
        && (forall e | e in live :: e.id in st.rows && e == Entry(e.id, st.rows[e.id].session, st.rows[e.id].updatedAt))
        && (forall i, j | 0 <= i < j < |live| :: live[i].id != live[j].id && live[i].lastAccess <= live[j].lastAccess)
        && (forall id, e | id in st.rows && e in live && !Holds(live, id) :: st.rows[id].updatedAt <= e.lastAccess)
  {
    if !st.loaded && w.loadOk {
      RestoredInOrder(cfg, st.rows, w.newest);
      forall id, e | id in st.rows && e in Restored(st.rows, w.newest) && !Holds(Restored(st.rows, w.newest), id)
        ensures st.rows[id].updatedAt <= e.lastAccess
      {
        LeftOutIsOlder(cfg, st.rows, w.newest, id, e);
      }
    }
  }

  lemma RestoredInOrder(cfg: Config, rows: map<Id, Row>, newest: seq<Id>)
    requires IsNewest(rows, newest, cfg.cap)
    ensures var live := Restored(rows, newest);
      && (forall e | e in live :: e.id in rows && e == Entry(e.id, rows[e.id].session, rows[e.id].updatedAt))
      && (forall i, j | 0 <= i < j < |live| :: live[i].id != live[j].id && live[i].lastAccess <= live[j].lastAccess)
  {
    hide Restored;
    var live, n := Restored(rows, newest), |newest|;
    forall i, j | 0 <= i < j < |live| ensures live[i].id != live[j].id && live[i].lastAccess <= live[j].lastAccess {
      assert live[i].id == newest[n - 1 - i] && live[j].id == newest[n - 1 - j];
    }
  }

  lemma LeftOutIsOlder(cfg: Config, rows: map<Id, Row>, newest: seq<Id>, id: Id, e: Entry)
    requires IsNewest(rows, newest, cfg.cap)
    requires id in rows && e in Restored(rows, newest) && !Holds(Restored(rows, newest), id)
    ensures rows[id].updatedAt <= e.lastAccess
  {
    hide Restored;
    var live, n := Restored(rows, newest), |newest|;
    var i :| 0 <= i < |live| && live[i] == e;
    forall k | 0 <= k < n ensures newest[k] != id {
      assert live[n - 1 - k] in live && live[n - 1 - k].id == newest[k];
    }
    assert id !in newest && rows[newest[n - 1 - i]].updatedAt == e.lastAccess;
  }

  /** Where an entry stood, and the others in their order. */
  predicate MovedToEnd(before: seq<Entry>, after: seq<Entry>, id: Id, s: Session, now: int) {
    exists i | 0 <= i < |before| ::
      before[i].id == id && after == before[..i] + before[i + 1..] + [Entry(id, s, now)]
  }

  lemma {:induction false} WithoutTakesOut(live: seq<Entry>, id: Id) returns (i: nat)
    requires TaxStore.Distinct(live) && Holds(live, id)
    ensures i < |live| && live[i].id == id && Without(live, id) == live[..i] + live[i + 1..]
  {
    if live[0].id == id {
      NothingToTakeOut(live[1..], id);
      return 0;
    }
    TailHolds(live, id);
    var k := WithoutTakesOut(live[1..], id);
    assert live[1..][..k] == live[1..k + 1] && live[1..][k + 1..] == live[k + 2..];
    assert [live[0]] + live[1..k + 1] == live[..k + 1];
    return k + 1;
  }

  lemma TailHolds(live: seq<Entry>, id: Id)
    requires Holds(live, id) && live[0].id != id
    ensures Holds(live[1..], id)
  {
    var e :| e in live && e.id == id;
    assert e in live[1..];
  }

  lemma {:induction false} NothingToTakeOut(live: seq<Entry>, id: Id)
    requires forall i | 0 <= i < |live| :: live[i].id != id
    ensures Without(live, id) == live
  {
    if live != [] {
      NothingToTakeOut(live[1..], id);
    }
  }

  /** Reading and editing a resident session make it the most recently used; all others stay as they are. */
  lemma UseMovesToEnd(cfg: Config, st: State, id: Id, e: Edit, w: World)
    requires TaxRuns.Coherent(cfg, st) && st.loaded && Holds(st.live, id)
    requires forall i | 0 <= i < |w.newest| :: w.newest[i] in st.rows
    ensures var read := TaxStore.Get(cfg, st, id, w).0; var edited := TaxStore.Mutate(cfg, st, id, e, w).0;
      && MovedToEnd(st.live, read.live, id, Lookup(st.live, id).session, w.now)
      && read.rows == st.rows && read.memos == st.memos
      && (exists s :: MovedToEnd(st.live, edited.live, id, s, w.now)) && edited.memos == st.memos
      && (forall x | x in st.rows && x != id :: x in edited.rows && edited.rows[x] == st.rows[x])
  {
    hide Without;
    var i := WithoutTakesOut(st.live, id);
    var s := Lookup(st.live, id).session;
    assert MovedToEnd(st.live, Put(st.live, id, s, w.now), id, s, w.now);
    assert MovedToEnd(st.live, Put(st.live, id, Bumped(s, e), w.now), id, Bumped(s, e), w.now);
  }

  /** Restoring a session from its row drops others only as far as the idle limit and the cap ask. */
  lemma RestoringDropsNoMoreThanNeeded(cfg: Config, st: State, id: Id, w: World)
    requires cfg.Valid() && TaxRuns.Coherent(cfg, st) && st.loaded && !Holds(st.live, id) && id in st.rows && w.rowOk
    ensures var st' := Rehydrate(cfg, st, id, w).0; var restored := Entry(id, st.rows[id].session, w.now);
      && restored in st'.live && st'.rows == st.rows
      && (forall e | e in st'.live :: e == restored || (e in st.live && w.now - e.lastAccess <= cfg.ttl))
      && (|st.live| < cfg.cap ==> forall e | e in st.live && w.now - e.lastAccess <= cfg.ttl :: e in st'.live)
  {
    hide Unexpired;
    var e := Entry(id, st.rows[id].session, w.now);
    TaxRuns.JustUsedIsKept(cfg, st.live, e);
    TaxRuns.IdleInPlainTerms(st.live + [e], w.now, cfg.ttl);
  }

  /** A delete removes one session and its memos, a sign-out those of one user; nothing else goes. */
  lemma RemovalsSpareTheOthers(cfg: Config, st: State, id: Id, user: string, w: World)
    requires IsNewest(st.rows, w.newest, cfg.cap)
    ensures var st0 := EnsureLoaded(cfg, st, w); var deleted := TaxStore.Delete(cfg, st, id, w);
      && (forall e :: e in deleted.live <==> e in st0.live && e.id != id)
      && (forall m :: m in deleted.memos <==> m in st0.memos && m.id != id)
      && (forall x | x in st.rows && x != id :: x in deleted.rows && deleted.rows[x] == st.rows[x])
      && (forall x :: x in deleted.rows <==> x in st.rows && (x != id || !w.writeOk))
    ensures var out := TaxStore.EvictUser(st, user);
      && (forall e :: e in out.live <==> e in st.live && e.session.user != user)
      && (forall m :: m in out.memos <==>
            && m in st.memos
            && (Holds(st.live, m.id) ==> exists e | e in st.live :: e.id == m.id && e.session.user != user))
      && out.rows == st.rows
    ensures TaxStore.ClearAll(st) == State([], false, st.rows, [])
  {
    hide MemosWithout, Without, MemosAfter, NotOf;
    TaxRuns.LoadKeepsRows(cfg, st, w);
    var kept := NotOf(st.live, user);
    forall x: Id ensures Holds(kept, x) <==> exists e | e in st.live :: e.id == x && e.session.user != user {
      if e :| e in st.live && e.id == x && e.session.user != user {
        assert e in kept;
      }
    }
  }
}
