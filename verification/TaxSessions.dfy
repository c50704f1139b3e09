/**
 * The store as the application keeps it: module state that its operations update in place.
 * Each method is proved to do to the state what the step of the same name in `TaxStore`
 * does, so that everything proved about runs of those steps holds of the object.
 */
module TaxSessions {
  import opened Common
  import opened TaxStore
  import TaxRuns

  // ----- the eviction loop's bookkeeping -----

  /** The entries whose ids have not been marked for dropping. */
  function Remaining(live: seq<Entry>, dropped: seq<Id>): (r: seq<Entry>)
    ensures forall e :: e in r <==> e in live && e.id !in dropped
  {
    if live == [] then []
    else (if live[0].id in dropped then [] else [live[0]]) + Remaining(live[1..], dropped)
  }

  function ExpiredIds(live: seq<Entry>, now: int, ttl: nat): (r: seq<Id>)
    ensures forall id :: id in r <==> exists e | e in live :: e.id == id && Expired(e, now, ttl)
  {
    if live == [] then []
    else
      var init, last := live[..|live| - 1], live[|live| - 1];
      assert live == init + [last];
      ExpiredIds(init, now, ttl) + (if Expired(last, now, ttl) then [last.id] else [])
  }

  lemma {:induction false} RemainingAppend(live: seq<Entry>, e: Entry, dropped: seq<Id>)
    ensures Remaining(live + [e], dropped) == Remaining(live, dropped) + (if e.id in dropped then [] else [e])
  {
    var last := if e.id in dropped then [] else [e];
    if live == [] {
      assert live + [e] == [e] && [e][1..] == [];
    } else {
      var first := if live[0].id in dropped then [] else [live[0]];
      RemainingAppend(live[1..], e, dropped);
      assert (live + [e])[1..] == live[1..] + [e];
      JoinThree(first, Remaining(live[1..], dropped), last);
    }
  }

  lemma JoinThree<T>(a: seq<T>, b: seq<T>, c: seq<T>)
    ensures a + (b + c) == (a + b) + c
  {}

  lemma {:induction false} RemainingUnlessMarked(live: seq<Entry>, dropped: seq<Id>, dropped': seq<Id>)
    requires forall e | e in live :: e.id in dropped <==> e.id in dropped'
    ensures Remaining(live, dropped) == Remaining(live, dropped')
  {
    if live != [] {
      RemainingUnlessMarked(live[1..], dropped, dropped');
    }
  }

  /** Marking the expired ids leaves the unexpired entries, and one mark per expired entry. */
  lemma {:induction false} ExpiredAreMarked(live: seq<Entry>, now: int, ttl: nat)
    requires Distinct(live)
    ensures Remaining(live, ExpiredIds(live, now, ttl)) == Unexpired(live, now, ttl)
    ensures |Unexpired(live, now, ttl)| + |ExpiredIds(live, now, ttl)| == |live|
  {
    if live != [] {
      var init, last := live[..|live| - 1], live[|live| - 1];
      assert live == init + [last];
      ExpiredAreMarked(init, now, ttl);
      var before, after := ExpiredIds(init, now, ttl), ExpiredIds(live, now, ttl);
      RemainingAppend(init, last, after);
      forall e | e in init ensures e.id in before <==> e.id in after {
        assert e.id != last.id;
      }
      RemainingUnlessMarked(init, before, after);
      if last.id in after {
        var e :| e in live && e.id == last.id && Expired(e, now, ttl);
        TaxRuns.SameIdSameEntry(live, e, last);
      }
    }
  }

  /** Marking the oldest remaining entry takes it off the front. */
  lemma {:induction false} MarkOldest(live: seq<Entry>, dropped: seq<Id>)
    requires Distinct(live) && Remaining(live, dropped) != []
    ensures Remaining(live, dropped + [Remaining(live, dropped)[0].id]) == Remaining(live, dropped)[1..]
  {
    var id := Remaining(live, dropped)[0].id;
    if live[0].id in dropped {
      MarkOldest(live[1..], dropped);
    } else {
      assert id == live[0].id;
      forall e | e in live[1..] ensures e.id in dropped <==> e.id in dropped + [id] {
        assert e.id != id;
      }
      RemainingUnlessMarked(live[1..], dropped, dropped + [id]);
    }
  }

  lemma {:induction false} PopMarked(live: seq<Entry>, dropped: seq<Id>, id: Id)
    ensures Without(Remaining(live, dropped), id) == Remaining(live, dropped + [id])
  {
    if live != [] {
      PopMarked(live[1..], dropped, id);
      assert live[0].id in dropped + [id] <==> live[0].id in dropped || live[0].id == id;
      if live[0].id !in dropped {
        var rest := Remaining(live[1..], dropped);
        assert ([live[0]] + rest)[1..] == rest;
      } else {
        assert Remaining(live, dropped) == Remaining(live[1..], dropped);
        assert Remaining(live, dropped + [id]) == Remaining(live[1..], dropped + [id]);
      }
    }
  }

  lemma RemainingFrom(live: seq<Entry>, dropped: seq<Id>, i: nat)
    requires i < |live|
    ensures Remaining(live[i..], dropped) ==
      (if live[i].id in dropped then [] else [live[i]]) + Remaining(live[i + 1..], dropped)
    ensures i + 1 == |live| ==> Remaining(live[i + 1..], dropped) == []
  {
    assert live[i..][1..] == live[i + 1..];
  }

  lemma SomethingRemains(live: seq<Entry>, dropped: seq<Id>)
    requires Remaining(live, dropped) != []
    ensures live != []
  {}

  /** The first id in store order that is not marked. */
  method FirstUnmarked(live: seq<Entry>, dropped: seq<Id>) returns (id: Id)
    requires Remaining(live, dropped) != []
    ensures id == Remaining(live, dropped)[0].id
  {
    hide Remaining;
    assert live != [] by {
      SomethingRemains(live, dropped);
    }
    var i := 0;
    assert live[0..] == live;
    while live[i].id in dropped
      invariant 0 <= i < |live|
      invariant Remaining(live[i..], dropped) == Remaining(live, dropped)
      decreases |live| - i
    {
      RemainingFrom(live, dropped, i);
      i := i + 1;
    }
    RemainingFrom(live, dropped, i);
    return live[i].id;
  }

  function MemosExcept(memos: seq<Memo>, dropped: seq<Id>): (r: seq<Memo>)
    ensures forall m :: m in r <==> m in memos && m.id !in dropped
  {
    if memos == [] then []
    else (if memos[0].id in dropped then [] else [memos[0]]) + MemosExcept(memos[1..], dropped)
  }

  /** Versions and regimes of one session's memos. */
  function KeysOf(memos: seq<Memo>, id: Id): (r: seq<(int, string)>)
    ensures forall m | m in memos && m.id == id :: (m.version, m.regime) in r
  {
    if memos == [] then []
    else (if memos[0].id == id then [(memos[0].version, memos[0].regime)] else []) + KeysOf(memos[1..], id)
  }

  function MemosButKeys(memos: seq<Memo>, id: Id, keys: seq<(int, string)>): seq<Memo> {
    if memos == [] then []
    else
      (if memos[0].id == id && (memos[0].version, memos[0].regime) in keys then [] else [memos[0]])
      + MemosButKeys(memos[1..], id, keys)
  }

  lemma {:induction false} NoKeys(memos: seq<Memo>, id: Id)
    ensures MemosButKeys(memos, id, []) == memos
  {
    if memos != [] {
      NoKeys(memos[1..], id);
    }
  }

  lemma {:induction false} DropOneKey(memos: seq<Memo>, id: Id, keys: seq<(int, string)>, key: (int, string))
    ensures DropKey(MemosButKeys(memos, id, keys), id, key.0, key.1) == MemosButKeys(memos, id, keys + [key])
  {
    if memos != [] {
      DropOneKey(memos[1..], id, keys, key);
      var own := (memos[0].version, memos[0].regime);
      assert own in keys + [key] <==> own in keys || own == key;
      var rest := MemosButKeys(memos[1..], id, keys);
      assert ([memos[0]] + rest)[1..] == rest && [] + rest == rest;
    }
  }

  lemma {:induction false} AllKeysGone(memos: seq<Memo>, id: Id, keys: seq<(int, string)>)
    requires forall m | m in memos && m.id == id :: (m.version, m.regime) in keys
    ensures MemosButKeys(memos, id, keys) == MemosWithout(memos, id)
  {
    if memos != [] {
      AllKeysGone(memos[1..], id, keys);
    }
  }

  /** Ids are distinct: leaving the entry out is cutting it out of its place. */
  lemma {:induction false} WithoutAt(live: seq<Entry>, k: nat)
    requires Distinct(live) && k < |live|
    ensures Without(live, live[k].id) == live[..k] + live[k + 1..]
  {
    hide Without;
    WithoutHead(live, live[k].id);
    if k == 0 {
      TaxRuns.WithoutStranger(live[1..], live[0].id);
      assert live[..0] == [];
    } else {
      WithoutAt(live[1..], k - 1);
      CutInTail(live, k);
    }
  }

  lemma WithoutHead(live: seq<Entry>, id: Id)
    requires live != []
    ensures Without(live, id) == (if live[0].id == id then [] else [live[0]]) + Without(live[1..], id)
  {}

  lemma CutInTail<T>(s: seq<T>, k: nat)
    requires 0 < k < |s|
    ensures s[1..][k - 1] == s[k] && [s[0]] + (s[1..][..k - 1] + s[1..][k..]) == s[..k] + s[k + 1..]
  {}

  lemma DropFirst<T>(s: seq<T>, k: nat)
    requires k < |s|
    ensures s[k..][1..] == s[k + 1..]
  {}

  lemma {:induction false} DropMemos(memos: seq<Memo>, dropped: seq<Id>, id: Id)
    ensures MemosWithout(MemosExcept(memos, dropped), id) == MemosExcept(memos, dropped + [id])
  {
    if memos != [] {
      DropMemos(memos[1..], dropped, id);
      assert memos[0].id in dropped + [id] <==> memos[0].id in dropped || memos[0].id == id;
      if memos[0].id !in dropped {
        var rest := MemosExcept(memos[1..], dropped);
        assert ([memos[0]] + rest)[1..] == rest;
      } else {
        assert MemosExcept(memos, dropped) == MemosExcept(memos[1..], dropped);
        assert MemosExcept(memos, dropped + [id]) == MemosExcept(memos[1..], dropped + [id]);
      }
    }
  }

  lemma {:induction false} MemosOfSurvivors(memos: seq<Memo>, live: seq<Entry>, kept: seq<Entry>, dropped: seq<Id>)
    requires forall id :: id in dropped <==> Holds(live, id) && !Holds(kept, id)
    ensures MemosExcept(memos, dropped) == MemosAfter(memos, live, kept)
  {
    if memos != [] {
      MemosOfSurvivors(memos[1..], live, kept, dropped);
    }
  }

  lemma {:induction false} NothingMarked(live: seq<Entry>, memos: seq<Memo>)
    ensures Remaining(live, []) == live && MemosExcept(memos, []) == memos
  {
    if live != [] {
      NothingMarked(live[1..], memos);
    } else if memos != [] {
      NothingMarked(live, memos[1..]);
    }
  }

  lemma MarkedAreGone(live: seq<Entry>, dropped: seq<Id>)
    requires Distinct(live) && forall id | id in dropped :: Holds(live, id)
    ensures forall id :: id in dropped <==> Holds(live, id) && !Holds(Remaining(live, dropped), id)
  {
    forall id | Holds(live, id) && id !in dropped ensures Holds(Remaining(live, dropped), id) {
      var e :| e in live && e.id == id;
      assert e in Remaining(live, dropped);
    }
  }

  function IdsOf(live: seq<Entry>, user: string): (r: seq<Id>)
    ensures forall id :: id in r <==> exists e | e in live :: e.id == id && e.session.user == user
  {
    if live == [] then []
    else
      assert live == [live[0]] + live[1..];
      (if live[0].session.user == user then [live[0].id] else []) + IdsOf(live[1..], user)
  }

  lemma DoomedAreGone(live: seq<Entry>, user: string)
    requires Distinct(live)
    ensures forall id :: id in IdsOf(live, user) <==> Holds(live, id) && !Holds(NotOf(live, user), id)
  {
    hide IdsOf, NotOf;
    forall id | id in IdsOf(live, user) ensures Holds(live, id) && !Holds(NotOf(live, user), id) {
      var e :| e in live && e.id == id && e.session.user == user;
      forall x | x in NotOf(live, user) ensures x.id != id {
        if x.id == id {
          TaxRuns.SameIdSameEntry(live, e, x);
        }
      }
    }
    forall id | Holds(live, id) && id !in IdsOf(live, user) ensures Holds(NotOf(live, user), id) {
      var e :| e in live && e.id == id;
      assert e in NotOf(live, user);
    }
  }

  class TaxSessions {
    const cfg: Config
    var live: seq<Entry>
    var loaded: bool
    var rows: map<Id, Row>
    var memos: seq<Memo>

    ghost function Now(): State
      reads this
    {
      State(live, loaded, rows, memos)
    }

    /** What every public operation relies on and keeps. */
    ghost predicate Valid()
      reads this
    {
      cfg.Valid() && TaxRuns.Coherent(cfg, Now())
    }

    constructor (cfg: Config, rows: map<Id, Row>)
      requires cfg.Valid()
      ensures Valid() && this.cfg == cfg && Now() == State([], false, rows, [])
    {
      this.cfg := cfg;
      this.live, this.loaded, this.rows, this.memos := [], false, rows, [];
    }

    /** Drop idle sessions, then the least recently used ones over the cap, and their memos. */
    method EvictLocked(now: int)
      requires Distinct(live)
      modifies this`live, this`memos
      ensures Now() == TaxStore.Evict(cfg, old(Now()), now)
    {
      hide Distinct, Unexpired, Remaining, ExpiredIds, MemosExcept, MemosAfter, Without;
      ghost var before, memosBefore := live, memos;
      var dropped := ExpiredIds(live, now, cfg.ttl);
      ExpiredAreMarked(live, now, cfg.ttl);
      ghost var active := Unexpired(live, now, cfg.ttl);
      ghost var marked := 0;
      while |live| - |dropped| > cfg.cap
        invariant live == before && memos == memosBefore
        invariant 0 <= marked <= |active| && |live| - |dropped| == |active| - marked
        invariant marked > 0 ==> |active| - marked >= cfg.cap
        invariant Remaining(live, dropped) == active[marked..]
        invariant forall id | id in dropped :: Holds(live, id)
        decreases |live| - |dropped|
      {
        assert active[marked..][0] == active[marked];
        var id := FirstUnmarked(live, dropped);
        MarkOldest(live, dropped);
        assert active[marked..][1..] == active[marked + 1..];
        assert active[marked] in live;
        dropped := dropped + [id];
        marked := marked + 1;
      }
      ghost var kept := Kept(cfg, before, now);
      assert Remaining(before, dropped) == kept;
      MarkedAreGone(before, dropped);
      MemosOfSurvivors(memos, before, kept, dropped);
      NothingMarked(live, memos);
      assert dropped[..0] == [];
      for i := 0 to |dropped|
        invariant live == Remaining(before, dropped[..i]) && memos == memosBefore
      {
        PopMarked(before, dropped[..i], dropped[i]);
        assert dropped[..i] + [dropped[i]] == dropped[..i + 1];
        live := Without(live, dropped[i]);
      }
      for i := 0 to |dropped|
        invariant live == Remaining(before, dropped[..|dropped|])
        invariant memos == MemosExcept(memosBefore, dropped[..i])
      {
        DropMemos(memosBefore, dropped[..i], dropped[i]);
        assert dropped[..i] + [dropped[i]] == dropped[..i + 1];
        InvalidateSession(dropped[i]);
      }
      assert dropped[..|dropped|] == dropped;
    }

    /** Drop every memo of one session, key by key. */
    method InvalidateSession(id: Id)
      modifies this`memos
      ensures memos == MemosWithout(old(memos), id)
      ensures forall m :: m in memos <==> m in old(memos) && m.id != id
    {
      hide MemosButKeys, KeysOf, DropKey;
      ghost var all := memos;
      var keys := KeysOf(memos, id);
      NoKeys(memos, id);
      assert keys[..0] == [];
      for i := 0 to |keys|
        invariant memos == MemosButKeys(all, id, keys[..i])
      {
        DropOneKey(all, id, keys[..i], keys[i]);
        assert keys[..i] + [keys[i]] == keys[..i + 1];
        memos := DropKey(memos, id, keys[i].0, keys[i].1);
      }
      assert keys[..|keys|] == keys;
      AllKeysGone(all, id, keys);
    }

    method EnsureLoaded(w: World)
      requires Valid() && IsNewest(rows, w.newest, cfg.cap)
      modifies this
      ensures Now() == TaxStore.EnsureLoaded(cfg, old(Now()), w) && Valid()
    {
      TaxRuns.LoadFacts(cfg, Now(), w);
      if !loaded {
        live := [];
        if w.loadOk {
          live := Restored(rows, w.newest);
        }
        loaded := true;
      }
    }

    /** Take the entry out of its place and put it at the recently used end. */
    method Touch(id: Id, now: int)
      requires Distinct(live) && Holds(live, id)
      modifies this`live
      ensures live == Put(old(live), id, Lookup(old(live), id).session, now)
      ensures exists k | 0 <= k < |old(live)| ::
        && old(live)[k].id == id
        && live == old(live)[..k] + old(live)[k + 1..] + [old(live)[k].(lastAccess := now)]
    {
      var k := 0;
      while live[k].id != id
        invariant 0 <= k < |live| && forall i | 0 <= i < k :: live[i].id != id
        decreases |live| - k
      {
        ghost var e :| e in live && e.id == id;
        k := k + 1;
      }
      WithoutAt(live, k);
      TaxRuns.LookupOf(live, live[k]);
      live := live[..k] + live[k + 1..] + [live[k].(lastAccess := now)];
    }

    /** Restore one session from its row after a miss. */
    method Rehydrate(id: Id, w: World) returns (found: Option<Session>)
      requires Distinct(live)
      modifies this
      ensures (Now(), found) == TaxStore.Rehydrate(cfg, old(Now()), id, w)
    {
      if !w.rowOk || id !in rows {
        return None;
      }
      var session := rows[id].session;
      if Holds(live, id) {
        found := Some(Lookup(live, id).session);
        Touch(id, w.now);
        return;
      }
      TaxRuns.AppendStranger(live, Entry(id, session, w.now));
      live := live + [Entry(id, session, w.now)];
      EvictLocked(w.now);
      return Some(session);
    }

    /** Write one resident session through; nothing is written for a session that is not live. */
    method PersistOne(id: Id, w: World)
      modifies this`rows
      ensures Now() == TaxStore.Persist(old(Now()), id, w)
    {
      if Holds(live, id) && w.writeOk {
        rows := rows[id := Row(Lookup(live, id).session, w.now)];
      }
    }

    method GetTaxSession(id: Id, w: World) returns (found: Option<Session>)
      requires Valid() && IsNewest(rows, w.newest, cfg.cap)
      modifies this
      ensures (Now(), found) == TaxStore.Get(cfg, old(Now()), id, w) && Valid()
    {
      TaxRuns.GetFacts(cfg, Now(), id, w);
      EnsureLoaded(w);
      if Holds(live, id) {
        found := Some(Lookup(live, id).session);
        Touch(id, w.now);
      } else {
        found := Rehydrate(id, w);
      }
    }

    /** The shared read-modify-write path of every update. */
    method Mutate(id: Id, e: Edit, w: World) returns (ok: bool)
      requires Valid() && IsNewest(rows, w.newest, cfg.cap)
      modifies this
      ensures (Now(), ok) == TaxStore.Mutate(cfg, old(Now()), id, e, w) && Valid()
      ensures !ok <==> !Holds(TaxStore.EnsureLoaded(cfg, old(Now()), w).live, id) && (id !in old(rows) || !w.rowOk)
    {
      hide TaxStore.EnsureLoaded, TaxStore.Rehydrate, Put, Bumped, IsNewest, TaxRuns.SoundMemos;
      TaxRuns.MutateFacts(cfg, Now(), id, e, w);
      TaxRuns.MutateFailsExactly(cfg, Now(), id, e, w);
      EnsureLoaded(w);
      var found: Option<Session>;
      if Holds(live, id) {
        found := Some(Lookup(live, id).session);
      } else {
        found := Rehydrate(id, w);
      }
      if found.None? || !Holds(live, id) {
        return false;
      }
      live := Put(live, id, Bumped(found.value, e), w.now);
      PersistOne(id, w);
      return true;
    }

    method CreateTaxSession(ais: string, user: string, newId: Id, w: World) returns (id: Id)
      requires Valid() && IsNewest(rows, w.newest, cfg.cap)
      requires newId !in rows && !Holds(live, newId)
      modifies this
      ensures (Now(), id) == TaxStore.Create(cfg, old(Now()), ais, user, newId, w) && Valid()
    {
      hide TaxStore.Evict, TaxStore.EnsureLoaded, TaxStore.Persist, NewSession, TaxRuns.SoundMemos;
      TaxRuns.CreateFacts(cfg, Now(), ais, user, newId, w);
      TaxRuns.LoadedIsStored(cfg, Now(), w);
      EnsureLoaded(w);
      if user != "" && w.twinOk && w.twin.Some? {
        return w.twin.value;
      }
      var entry := Entry(newId, NewSession(ais, user), w.now);
      TaxRuns.AppendStranger(live, entry);
      live := live + [entry];
      EvictLocked(w.now);
      PersistOne(newId, w);
      return newId;
    }

    method DeleteTaxSession(id: Id, w: World)
      requires Valid() && IsNewest(rows, w.newest, cfg.cap)
      modifies this
      ensures Now() == TaxStore.Delete(cfg, old(Now()), id, w) && Valid()
    {
      TaxRuns.DeleteFacts(cfg, Now(), id, w);
      EnsureLoaded(w);
      live := Without(live, id);
      if w.writeOk {
        rows := rows - {id};
      }
      InvalidateSession(id);
    }

    /** Sign-out: the user's sessions leave memory, then their memos go. */
    method EvictForUser(user: string)
      requires Valid()
      modifies this
      ensures Now() == TaxStore.EvictUser(old(Now()), user) && Valid()
    {
      hide NotOf, MemosExcept, MemosAfter, IdsOf;
      TaxRuns.EvictUserFacts(cfg, Now(), user);
      ghost var before, memosBefore := live, memos;
      var doomed := IdsOf(live, user);
      DoomedAreGone(live, user);
      live := NotOf(live, user);
      MemosOfSurvivors(memos, before, live, doomed);
      NothingMarked([], memos);
      assert doomed[..0] == [];
      for i := 0 to |doomed|
        invariant State(live, loaded, rows, memosBefore) == old(Now()).(live := NotOf(before, user))
        invariant memos == MemosExcept(memosBefore, doomed[..i])
      {
        DropMemos(memosBefore, doomed[..i], doomed[i]);
        assert doomed[..i] + [doomed[i]] == doomed[..i + 1];
        InvalidateSession(doomed[i]);
      }
      assert doomed[..|doomed|] == doomed;
    }

    /** Sessions and memos together, as the registry clears them. */
    method ClearAllWithComputations()
      requires Valid()
      modifies this
      ensures Now() == TaxStore.ClearAll(old(Now())) && Valid()
    {
      live, loaded := [], false;
      memos := [];
    }

    method GetSessionVersion(id: Id, w: World) returns (version: int)
      requires Valid()
      modifies this
      ensures (Now(), version) == TaxStore.VersionOf(cfg, old(Now()), id, w)
      ensures version == -1 <==> old(!Holds(live, id) && (id !in rows || !w.rowOk))
      ensures old(loaded) ==> Valid()
    {
      TaxRuns.VersionIsMinusOneExactly(cfg, Now(), id, w);
      if loaded && !Holds(live, id) {
        TaxRuns.RehydrateFacts(cfg, Now(), id, w);
      }
      if Holds(live, id) {
        return Lookup(live, id).session.version;
      }
      var restored := Rehydrate(id, w);
      return if restored.Some? then restored.value.version else -1;
    }

    /** Pop the oldest memos over the bound, one by one. */
    method TrimMemos()
      modifies this`memos
      ensures memos == LastMemos(old(memos), cfg.cap * REGIMES)
    {
      ghost var all, popped := memos, 0;
      var most := cfg.cap * REGIMES;
      while |memos| > most
        invariant 0 <= popped <= |all| && memos == all[popped..]
        invariant popped > 0 ==> |all| - popped >= most
        decreases |memos|
      {
        DropFirst(all, popped);
        memos, popped := memos[1..], popped + 1;
      }
    }

    /** The memo lookup, and the computation on a miss. */
    method GetComputation(id: Id, session: Session, regime: string, w: World) returns (c: Computation)
      requires Valid()
      modifies this
      ensures (Now(), c) == TaxStore.Compute(cfg, old(Now()), id, session, regime, w)
      ensures old(loaded) ==> (Valid() <==> old(TaxRuns.MemoIsCurrent(Now(), id, session, regime, w)))
    {
      if loaded {
        TaxRuns.ComputeKeepsCoherenceExactly(cfg, Now(), id, session, regime, w);
      }
      hide TaxStore.VersionOf, DropKey, FindMemo, LastMemos;
      var version := GetSessionVersion(id, w);
      var cached := FindMemo(memos, id, version, regime);
      if cached.Some? {
        memos := DropKey(memos, id, version, regime) + [cached.value];
        return cached.value.value;
      }
      c := TaxOf(session, regime);
      memos := DropKey(memos, id, version, regime) + [Memo(id, version, regime, c)];
      TrimMemos();
    }

    /** A request for the tax on a session, as the routers make it: look up, then compute. */
    method Serve(id: Id, regime: string, w: World) returns (c: Option<Computation>)
      requires Valid() && IsNewest(rows, w.newest, cfg.cap)
      modifies this
      ensures (Now(), c) == TaxStore.GetComputation(cfg, old(Now()), id, regime, w) && Valid()
      ensures c.Some? ==> Holds(live, id) && c.value == TaxOf(Lookup(live, id).session, regime)
    {
      hide TaxStore.Get, TaxStore.Compute, TaxRuns.Coherent, TaxStore.Mutate, TaxStore.Create, TaxStore.Delete;
      TaxRuns.PerformKeepsCoherence(cfg, Now(), TaxRuns.Op(TaxRuns.Compute(id, regime), w));
      var found := GetTaxSession(id, w);
      if found.None? {
        return None;
      }
      var tax := GetComputation(id, found.value, regime, w);
      return Some(tax);
    }
  }
}
