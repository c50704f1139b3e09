/**
 * Computations while other requests run. A request looks its session up; later it reads the
 * version of whatever session is then resident, looks into the memo table, computes from the
 * session it holds and stores its result. None of these five steps holds the store's lock
 * across the next. Here the steps of any number of requests interleave with loads, edits,
 * evictions and removals. A tax is named by the data it was computed from, for one regime. A
 * request that computes several times is several threads that look the session up together.
 */
module TaxCacheRaces {
  import opened Common

  type Id = string
  type Data = string

  datatype Session = Session(data: Data, version: nat)

  datatype Stage =
    | Start | Held | Keyed(version: int) | Missed(version: int) | Computed(version: int, data: Data) | Done

  /** `attached`: the session looked up is still the resident one. */
  datatype Thread = Thread(id: Id, attached: bool, stage: Stage)

  datatype State = State(live: map<Id, Session>, memos: map<(Id, int), Data>, threads: map<nat, Thread>)

  datatype Action =
    | Load(id: Id, session: Session)   // created, or restored from a row that may lack the last edits
    | Edit(id: Id, data: Data)
    | Evict(ids: set<Id>)              // sessions and memos in one region
    | Drop(ids: set<Id>)               // delete, sign-out, clear, failed clean-up: the sessions first
    | Forget(keys: set<(Id, int)>)     // and the memos later; also the trimming of the table
    | Begin(tid: nat, id: Id)
    | Step(tid: nat, version: int, data: Data)

  predicate Enabled(s: State, a: Action) {
    match a
    case Load(id, _) => id !in s.live
    case Edit(id, _) => id in s.live
    case Begin(tid, _) => tid !in s.threads
    case Step(tid, _, _) => tid in s.threads && s.threads[tid].stage != Done
    case _ => true
  }

  function Detached(threads: map<nat, Thread>, ids: set<Id>): map<nat, Thread> {
    map tid | tid in threads :: if threads[tid].id in ids then threads[tid].(attached := false) else threads[tid]
  }

  function Without(memos: map<(Id, int), Data>, ids: set<Id>): map<(Id, int), Data> {
    map key | key in memos && key.0 !in ids :: memos[key]
  }

  /**
   * The next step of a computation. A request that finds no session ends; one that must read
   * a row first starts after the load. The version is that of the resident session, held or
   * not; without one it may be any. The data are those of the session held: what it shows
   * once it has been replaced, or while it is edited, may be anything.
   */
  function Advance(s: State, t: Thread, version: int, data: Data): Thread {
    match t.stage
    case Start => if t.id in s.live then t.(attached := true, stage := Held) else t.(stage := Done)
    case Held => t.(stage := Keyed(if t.id in s.live then s.live[t.id].version else version))
    case Keyed(v) => t.(stage := if (t.id, v) in s.memos then Done else Missed(v))
    case Missed(v) =>
      var settled := t.attached && t.id in s.live && s.live[t.id].version == v;
      t.(stage := Computed(v, if settled then s.live[t.id].data else data))
    case Computed(_, _) => t.(stage := Done)
    case Done => t
  }

  function Next(s: State, a: Action): State
    requires Enabled(s, a)
  {
    match a
    case Load(id, session) => s.(live := s.live[id := session])
    case Edit(id, data) => s.(live := s.live[id := Session(data, s.live[id].version + 1)])
    case Evict(ids) => State(s.live - ids, Without(s.memos, ids), Detached(s.threads, ids))
    case Drop(ids) => s.(live := s.live - ids, threads := Detached(s.threads, ids))
    case Forget(keys) => s.(memos := s.memos - keys)
    case Begin(tid, id) => s.(threads := s.threads[tid := Thread(id, false, Start)])
    case Step(tid, version, data) =>
      var t := s.threads[tid];
      var stepped := s.(threads := s.threads[tid := Advance(s, t, version, data)]);
      if t.stage.Computed? then stepped.(memos := s.memos[(t.id, t.stage.version) := t.stage.data]) else stepped
  }

  predicate Runs(s: State, actions: seq<Action>)
    decreases |actions|
  {
    actions == [] || (Enabled(s, actions[0]) && Runs(Next(s, actions[0]), actions[1..]))
  }

  function After(s: State, actions: seq<Action>): State
    requires Runs(s, actions)
    decreases |actions|
  {
    if actions == [] then s else After(Next(s, actions[0]), actions[1..])
  }

  // ----- the invariant, and exactly which steps break it -----

  /** A memo under this key does no harm: it is not ahead of a resident session, and exact if current. */
  predicate Fits(live: map<Id, Session>, key: (Id, int), data: Data) {
    key.0 in live ==>
      && key.1 <= live[key.0].version
      && (key.1 == live[key.0].version ==> data == live[key.0].data)
  }

  predicate Clean(s: State) {
    forall key | key in s.memos :: Fits(s.live, key, s.memos[key])
  }

  /** Something would be served for a session's current version that is not the tax on its data. */
  predicate Stale(s: State) {
    exists id | id in s.live :: (id, s.live[id].version) in s.memos
      && s.memos[(id, s.live[id].version)] != s.live[id].data
  }

  /**
   * The two kinds of steps that spoil the table: loading a session that a leftover memo does
   * not fit, and storing a result that does not fit the resident session.
   */
  predicate Spoils(s: State, a: Action) {
    match a
    case Load(id, session) => exists key | key in s.memos :: key.0 == id && !Fits(map[id := session], key, s.memos[key])
    case Step(tid, _, _) =>
      && tid in s.threads && s.threads[tid].stage.Computed?
      && !Fits(s.live, (s.threads[tid].id, s.threads[tid].stage.version), s.threads[tid].stage.data)
    case _ => false
  }

  lemma StepKeepsCleanExactly(s: State, a: Action)
    requires Enabled(s, a) && Clean(s)
    ensures Clean(Next(s, a)) <==> !Spoils(s, a)
  {
    match a {
      case Load(id, session) =>
        if key :| key in s.memos && key.0 == id && !Fits(map[id := session], key, s.memos[key]) {
          assert !Fits(Next(s, a).live, key, s.memos[key]);
        }
      case Step(tid, _, _) =>
        var t := s.threads[tid];
        if t.stage.Computed? {
          assert (t.id, t.stage.version) in Next(s, a).memos;
        }
      case _ =>
    }
  }

  /** Eviction takes the memos of its sessions along, and no other; a removal leaves all of them for later. */
  lemma EvictionTakesItsMemos(s: State, ids: set<Id>)
    ensures var evicted, dropped := Next(s, Evict(ids)), Next(s, Drop(ids));
      && (forall key :: key in evicted.memos <==> key in s.memos && key.0 !in ids)
      && (forall key | key in evicted.memos :: evicted.memos[key] == s.memos[key])
      && dropped.memos == s.memos
      && (forall id :: id in evicted.live <==> id in s.live && id !in ids)
      && dropped.live == evicted.live
  {}

  predicate OnlyEdits(actions: seq<Action>) {
    forall i | 0 <= i < |actions| :: actions[i].Edit?
  }

  /** `n` edits of a resident session, all to the same data. */
  lemma {:induction false} EditsReach(s: State, id: Id, n: nat, data: Data) returns (edits: seq<Action>)
    requires id in s.live && n > 0
    ensures OnlyEdits(edits) && Runs(s, edits)
    ensures var end := After(s, edits);
      end.memos == s.memos && id in end.live && end.live[id] == Session(data, s.live[id].version + n)
    decreases n
  {
    var edit := Edit(id, data);
    var rest := [];
    if n > 1 {
      rest := EditsReach(Next(s, edit), id, n - 1, data);
    }
    edits := [edit] + rest;
    assert edits[1..] == rest;
  }

  lemma {:induction false} EditsKeepClean(s: State, edits: seq<Action>)
    requires Clean(s) && OnlyEdits(edits) && Runs(s, edits)
    ensures Clean(After(s, edits))
    decreases |edits|
  {
    hide Clean;
    if edits != [] {
      StepKeepsCleanExactly(s, edits[0]);
      EditsKeepClean(Next(s, edits[0]), edits[1..]);
    }
  }

  lemma CleanIsNotStale(s: State)
    requires Clean(s)
    ensures !Stale(s)
  {}

  /** A memo that does not fit is served once edits have brought its version about. */
  lemma MisfitIsServed(s: State, key: (Id, int)) returns (edits: seq<Action>)
    requires key in s.memos && !Fits(s.live, key, s.memos[key])
    ensures OnlyEdits(edits) && Runs(s, edits) && Stale(After(s, edits))
  {
    var id, ahead := key.0, key.1 - s.live[key.0].version;
    if ahead == 0 {
      edits := [];
      assert (id, s.live[id].version) == key;
    } else {
      edits := EditsReach(s, id, ahead, s.memos[key] + "x");
      var end := After(s, edits);
      assert (id, end.live[id].version) == key;
      assert |s.memos[key] + "x"| != |s.memos[key]|;
    }
  }

  /** The table is clean exactly when no edits of resident sessions can make it serve stale tax. */
  lemma CleanIsExactlyNeverStaleByEdits(s: State)
    ensures Clean(s) <==> forall edits | OnlyEdits(edits) && Runs(s, edits) :: !Stale(After(s, edits))
  {
    hide Fits, Stale, OnlyEdits, Runs, After;
    if Clean(s) {
      forall edits | OnlyEdits(edits) && Runs(s, edits) ensures !Stale(After(s, edits)) {
        EditsKeepClean(s, edits);
        CleanIsNotStale(After(s, edits));
      }
    } else {
      var key :| key in s.memos && !Fits(s.live, key, s.memos[key]);
      var edits := MisfitIsServed(s, key);
      assert OnlyEdits(edits) && Runs(s, edits);
    }
  }

  // ----- what a computation knows -----

  /** What a computation holds fits its session, as long as that is the resident one. */
  predicate Faithful(s: State, t: Thread) {
    t.attached ==>
      && t.id in s.live
      && (t.stage.Keyed? || t.stage.Missed? ==> t.stage.version <= s.live[t.id].version)
      && (t.stage.Computed? ==> Fits(s.live, (t.id, t.stage.version), t.stage.data))
  }

  predicate AllFaithful(s: State) {
    forall tid | tid in s.threads :: Faithful(s, s.threads[tid])
  }

  lemma StepKeepsFaith(s: State, a: Action)
    requires Enabled(s, a) && AllFaithful(s)
    ensures AllFaithful(Next(s, a))
  {
    forall tid | tid in Next(s, a).threads ensures Faithful(Next(s, a), Next(s, a).threads[tid]) {
      if tid in s.threads {
        assert Faithful(s, s.threads[tid]);
      }
    }
  }

  // ----- which runs stay clean -----

  /**
   * What disturbs: storing for a resident session a result computed from a session that is
   * not the resident one, unless the version has already moved on; and loading a session
   * while a memo of its id is left that is not older. Removing sessions is not among them.
   */
  predicate Disturbs(s: State, a: Action) {
    match a
    case Load(id, session) => exists key | key in s.memos :: key.0 == id && key.1 >= session.version
    case Step(tid, _, _) =>
      && tid in s.threads
      && var t := s.threads[tid];
      t.stage.Computed? && !t.attached && t.id in s.live && t.stage.version >= s.live[t.id].version
    case _ => false
  }

  predicate Undisturbed(s: State, actions: seq<Action>)
    requires Runs(s, actions)
    decreases |actions|
  {
    actions == [] || (!Disturbs(s, actions[0]) && Undisturbed(Next(s, actions[0]), actions[1..]))
  }

  /** By luck the memo concerned has the current version and the tax on the current data. */
  predicate SameData(s: State, a: Action) {
    match a
    case Load(id, session) =>
      forall key | key in s.memos && key.0 == id && key.1 >= session.version ::
        key.1 == session.version && s.memos[key] == session.data
    case Step(tid, _, _) =>
      && tid in s.threads
      && var t := s.threads[tid];
      t.stage.Computed? && t.id in s.live && s.live[t.id] == Session(t.stage.data, s.live[t.id].version)
      && t.stage.version == s.live[t.id].version
    case _ => false
  }

  /**
   * A step spoils the table exactly when it disturbs and luck does not help. So what a
   * computation with the resident session stores always fits.
   */
  lemma DisturbancesSpoilExactly(s: State, a: Action)
    requires Enabled(s, a) && AllFaithful(s)
    ensures Spoils(s, a) <==> Disturbs(s, a) && !SameData(s, a)
  {
    match a {
      case Step(tid, _, _) => assert Faithful(s, s.threads[tid]);
      case _ =>
    }
  }

  /**
   * In every interleaving without a disturbance the table stays clean, whatever is evicted,
   * deleted or signed out in the middle of computations: what it serves under a current
   * version is always the tax on the current data.
   */
  lemma {:induction false} UndisturbedRunsStayClean(s: State, actions: seq<Action>)
    requires Runs(s, actions) && Undisturbed(s, actions)
    requires Clean(s) && AllFaithful(s)
    ensures Clean(After(s, actions)) && AllFaithful(After(s, actions)) && !Stale(After(s, actions))
    decreases |actions|
  {
    hide Clean, Stale, AllFaithful, Next, Spoils, Disturbs;
    if actions != [] {
      var a := actions[0];
      StepKeepsCleanExactly(s, a);
      DisturbancesSpoilExactly(s, a);
      StepKeepsFaith(s, a);
      UndisturbedRunsStayClean(Next(s, a), actions[1..]);
    } else {
      CleanIsNotStale(s);
    }
  }

  // ----- runs in which removals wait for computations -----

  /** The request holds a session and has not stored its result. */
  predicate UnderWay(t: Thread) {
    t.stage != Start && t.stage != Done
  }

  /** Every computation under way still has the resident session. */
  predicate NoneDetached(s: State) {
    forall tid | tid in s.threads && UnderWay(s.threads[tid]) :: s.threads[tid].attached
  }

  /** Sessions are removed only while no request holds them, and loaded only when no memo is left. */
  predicate Patient(s: State, a: Action) {
    match a
    case Evict(ids) => forall tid | tid in s.threads && UnderWay(s.threads[tid]) :: s.threads[tid].id !in ids
    case Drop(ids) => forall tid | tid in s.threads && UnderWay(s.threads[tid]) :: s.threads[tid].id !in ids
    case Load(id, _) => forall key | key in s.memos :: key.0 != id
    case _ => true
  }

  predicate IsPatient(s: State, actions: seq<Action>)
    requires Runs(s, actions)
    decreases |actions|
  {
    actions == [] || (Patient(s, actions[0]) && IsPatient(Next(s, actions[0]), actions[1..]))
  }

  lemma PatienceKeepsAttached(s: State, a: Action)
    requires Enabled(s, a) && NoneDetached(s) && Patient(s, a)
    ensures NoneDetached(Next(s, a)) && !Disturbs(s, a)
  {}

  /** Waiting with removals until requests are done, and with loads until memos are gone, is enough. */
  lemma {:induction false} PatientRunsAreUndisturbed(s: State, actions: seq<Action>)
    requires Runs(s, actions) && IsPatient(s, actions) && NoneDetached(s)
    ensures Undisturbed(s, actions)
    decreases |actions|
  {
    hide NoneDetached, Patient, Disturbs, Next;
    if actions != [] {
      PatienceKeepsAttached(s, actions[0]);
      PatientRunsAreUndisturbed(Next(s, actions[0]), actions[1..]);
    }
  }

  // ----- what the disturbances do -----

  const X := "x"
  const NO_MEMO: map<(Id, int), Data> := map[]
  const NOBODY: map<Id, Session> := map[]

  function One(live: map<Id, Session>, memos: map<(Id, int), Data>, attached: bool, stage: Stage): State {
    State(live, memos, map[1 := Thread(X, attached, stage)])
  }

  lemma StepOfOne(live: map<Id, Session>, memos: map<(Id, int), Data>, attached: bool, stage: Stage, data: Data)
    requires stage != Done
    ensures var s := One(live, memos, attached, stage);
      var t := Advance(s, Thread(X, attached, stage), 0, data);
      Next(s, Step(1, 0, data)) == State(live,
        if stage.Computed? then memos[(X, stage.version) := stage.data] else memos, map[1 := t])
  {
    hide Advance;
    var s := One(live, memos, attached, stage);
    var t := Advance(s, Thread(X, attached, stage), 0, data);
    assert s.threads[1 := t] == map[1 := t];
  }

  lemma EvictionOfOne(session: Session, attached: bool, stage: Stage)
    ensures Next(One(map[X := session], NO_MEMO, attached, stage), Evict({X})) == One(NOBODY, NO_MEMO, false, stage)
  {
    assert map[X := session] - {X} == NOBODY;
    assert Without(NO_MEMO, {X}) == NO_MEMO;
    assert Detached(map[1 := Thread(X, attached, stage)], {X}) == map[1 := Thread(X, false, stage)];
  }

  lemma LoadAndEditOfOne(memos: map<(Id, int), Data>, stage: Stage, stored: Session, data: Data)
    ensures Next(One(NOBODY, memos, false, stage), Load(X, stored)) == One(map[X := stored], memos, false, stage)
    ensures Next(One(map[X := stored], memos, false, stage), Edit(X, data))
         == One(map[X := Session(data, stored.version + 1)], memos, false, stage)
  {
    assert NOBODY[X := stored] == map[X := stored];
    var edited := Session(data, stored.version + 1);
    assert map[X := stored][X := edited] == map[X := edited];
  }

  lemma OneIsFresh(session: Session)
    ensures var s := One(map[X := session], NO_MEMO, false, Start); Clean(s) && AllFaithful(s) && NoneDetached(s)
  {}

  /**
   * No write is lost here. A request has looked its session up when that is evicted, loaded
   * again and edited. It then reads the new version, computes from the old session it holds,
   * and stores: the old tax is served for the edited session.
   */
  lemma EvictionAfterLookupServesStaleTax()
    ensures
      var stored, edited := Session("old", 1), Session("new", 2);
      var s0 := One(map[X := stored], NO_MEMO, false, Start);
      var s1 := One(map[X := stored], NO_MEMO, true, Held);
      var s2 := One(NOBODY, NO_MEMO, false, Held);
      var s3 := One(map[X := stored], NO_MEMO, false, Held);
      var s4 := One(map[X := edited], NO_MEMO, false, Held);
      var s5 := One(map[X := edited], NO_MEMO, false, Keyed(2));
      var s6 := One(map[X := edited], NO_MEMO, false, Missed(2));
      var s7 := One(map[X := edited], NO_MEMO, false, Computed(2, "old"));
      var s8 := One(map[X := edited], map[(X, 2) := "old"], false, Done);
      var go := Step(1, 0, "old");
      && Clean(s0) && AllFaithful(s0) && NoneDetached(s0)
      && Next(s0, go) == s1 && Next(s1, Evict({X})) == s2 && Next(s2, Load(X, stored)) == s3
      && Next(s3, Edit(X, "new")) == s4 && Next(s4, go) == s5 && Next(s5, go) == s6 && Next(s6, go) == s7
      && Next(s7, go) == s8 && Disturbs(s7, go) && Stale(s8)
  {
    hide Next, Clean, AllFaithful, NoneDetached, Stale;
    var stored, edited := Session("old", 1), Session("new", 2);
    OneIsFresh(stored);
    StepOfOne(map[X := stored], NO_MEMO, false, Start, "old");
    EvictionOfOne(stored, true, Held);
    LoadAndEditOfOne(NO_MEMO, Held, stored, "new");
    StepOfOne(map[X := edited], NO_MEMO, false, Held, "old");
    StepOfOne(map[X := edited], NO_MEMO, false, Keyed(2), "old");
    StepOfOne(map[X := edited], NO_MEMO, false, Missed(2), "old");
    StepOfOne(map[X := edited], NO_MEMO, false, Computed(2, "old"), "old");
    assert NO_MEMO[(X, 2) := "old"] == map[(X, 2) := "old"];
    StaleOfOne(2, "new", "old");
  }

  lemma StaleOfOne(version: nat, data: Data, memo: Data)
    requires data != memo
    ensures Stale(One(map[X := Session(data, version)], map[(X, version) := memo], false, Done))
  {
    assert X in map[X := Session(data, version)];
  }

  /**
   * A computation that is overtaken by an eviction stores its result for a session that is
   * not resident. If the last edit was never written, the session comes back one version
   * earlier, and the next edit makes the stale result current.
   */
  lemma OvertakenComputationServesStaleTax()
    ensures
      var edited, stored, again := Session("new", 1), Session("old", 0), Session("other", 1);
      var s0 := One(map[X := edited], NO_MEMO, false, Start);
      var s1 := One(map[X := edited], NO_MEMO, true, Held);
      var s2 := One(map[X := edited], NO_MEMO, true, Keyed(1));
      var s3 := One(map[X := edited], NO_MEMO, true, Missed(1));
      var s4 := One(map[X := edited], NO_MEMO, true, Computed(1, "new"));
      var s5 := One(NOBODY, NO_MEMO, false, Computed(1, "new"));
      var s6 := One(NOBODY, map[(X, 1) := "new"], false, Done);
      var s7 := One(map[X := stored], map[(X, 1) := "new"], false, Done);
      var s8 := One(map[X := again], map[(X, 1) := "new"], false, Done);
      var go := Step(1, 0, "");
      && Clean(s0) && AllFaithful(s0) && NoneDetached(s0)
      && Next(s0, go) == s1 && Next(s1, go) == s2 && Next(s2, go) == s3 && Next(s3, go) == s4
      && Next(s4, Evict({X})) == s5 && Next(s5, go) == s6
      && Next(s6, Load(X, stored)) == s7 && Disturbs(s6, Load(X, stored))
      && Next(s7, Edit(X, "other")) == s8 && Stale(s8)
  {
    hide Next, Clean, AllFaithful, NoneDetached, Stale;
    var edited, stored := Session("new", 1), Session("old", 0);
    var left: map<(Id, int), Data> := map[(X, 1) := "new"];
    OneIsFresh(edited);
    StepOfOne(map[X := edited], NO_MEMO, false, Start, "");
    StepOfOne(map[X := edited], NO_MEMO, true, Held, "");
    StepOfOne(map[X := edited], NO_MEMO, true, Keyed(1), "");
    StepOfOne(map[X := edited], NO_MEMO, true, Missed(1), "");
    EvictionOfOne(edited, true, Computed(1, "new"));
    StepOfOne(NOBODY, NO_MEMO, false, Computed(1, "new"), "");
    assert NO_MEMO[(X, 1) := "new"] == left && (X, 1) in left;
    LoadAndEditOfOne(left, Done, stored, "other");
    assert |"other"| != |"new"|;
    StaleOfOne(1, "other", "new");
  }
}
