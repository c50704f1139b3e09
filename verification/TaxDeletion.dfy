/**
 * Deleting a session while other requests run. Each action is one region under the
 * store's lock or one database statement, and the regions of different requests interleave
 * freely. Contents are left open: an edit may write anything, and eviction may drop any set
 * of resident sessions, so the results hold for every edit and every eviction policy.
 */
module TaxDeletion {
  import opened Common

  type Id = string

  datatype Session = Session(text: string, version: nat)

  datatype Task = Get | Mutate | Create | Delete

  /** Where a request stands: the region or statement it performs next. */
  datatype Point = Ensure | Peek | Read | Insert | Apply | Snapshot | Write | Remove | Erase | Finished

  /** `copy` is the row it has read, or the snapshot it is about to write. */
  datatype Thread = Thread(task: Task, id: Id, at: Point, copy: Option<Session>)

  /** `issued` holds every id handed out so far: identifiers are never handed out twice. */
  datatype State = State(live: map<Id, Session>, loaded: bool, rows: map<Id, Session>,
                         issued: set<Id>, threads: map<nat, Thread>)

  /** Outside decisions: statement success, ids loaded or dropped, and the content an edit writes. */
  datatype Choice = Choice(ok: bool, picked: set<Id>, content: Session)

  datatype Action =
    | Spawn(tid: nat, task: Task, id: Id)
    | Go(tid: nat, choice: Choice)
    | Evict(ids: set<Id>)
    | Clear

  predicate Enabled(s: State, a: Action) {
    match a
    case Spawn(tid, task, id) => tid !in s.threads && (task == Create ==> id !in s.issued)
    case Go(tid, _) => tid in s.threads && s.threads[tid].at != Finished
    case Evict(_) => true
    case Clear => true
  }

  function Restrict(m: map<Id, Session>, ids: set<Id>): map<Id, Session> {
    map id | id in m && id in ids :: m[id]
  }

  /** What thread `t` does next to the shared state, and the thread afterwards. */
  function Advance(s: State, t: Thread, c: Choice): (State, Thread) {
    match t.at
    case Ensure =>
      (if s.loaded then s else s.(live := if c.ok then Restrict(s.rows, c.picked) else map[], loaded := true),
       t.(at := match t.task case Create => Insert case Delete => Remove case _ => Peek))
    case Peek =>
      (s, t.(at := if t.id !in s.live then Read else if t.task == Mutate then Apply else Finished))
    case Read =>
      if c.ok && t.id in s.rows then (s, t.(at := Insert, copy := Some(s.rows[t.id])))
      else (s, t.(at := Finished))
    case Insert =>
      var next := t.(at := match t.task case Create => Snapshot case Mutate => Apply case _ => Finished);
      if t.task != Create && t.id in s.live then (s, next)
      else
        var content := if t.copy.Some? then t.copy.value else c.content;
        (s.(live := s.live[t.id := content] - c.picked), next)
    case Apply =>
      if t.id !in s.live then (s, t.(at := Finished))
      else (s.(live := s.live[t.id := c.content]), t.(at := Snapshot))
    case Snapshot =>
      if t.id !in s.live then (s, t.(at := Finished))
      else (s, t.(at := Write, copy := Some(s.live[t.id])))
    case Write =>
      (if c.ok && t.copy.Some? then s.(rows := s.rows[t.id := t.copy.value]) else s, t.(at := Finished))
    case Remove => (s.(live := s.live - {t.id}), t.(at := Erase))
    case Erase => (if c.ok then s.(rows := s.rows - {t.id}) else s, t.(at := Finished))
    case Finished => (s, t)
  }

  function Next(s: State, a: Action): State
    requires Enabled(s, a)
  {
    match a
    case Spawn(tid, task, id) =>
      s.(threads := s.threads[tid := Thread(task, id, Ensure, None)],
         issued := if task == Create then s.issued + {id} else s.issued)
    case Go(tid, c) =>
      var (s', t') := Advance(s, s.threads[tid], c);
      s'.(threads := s.threads[tid := t'])
    case Evict(ids) => s.(live := s.live - ids)
    case Clear => s.(live := map[], loaded := false)
  }

  predicate Runs(s: State, actions: seq<Action>)
    decreases |actions|
  {
    actions == [] || (Enabled(s, actions[0]) && Runs(Next(s, actions[0]), actions[1..]))
  }

  function After(s: State, actions: seq<Action>): State
    requires Runs(s, actions)
    decreases |actions|
  {
    if actions == [] then s else After(Next(s, actions[0]), actions[1..])
  }

  predicate Present(s: State, id: Id) {
    id in s.live || id in s.rows
  }

  // ----- each kind of request, running alone -----

  lemma MoreSteps(s: State, a: Action, rest: seq<Action>)
    requires Enabled(s, a) && Runs(Next(s, a), rest)
    ensures Runs(s, [a] + rest) && After(s, [a] + rest) == After(Next(s, a), rest)
  {
    assert ([a] + rest)[1..] == rest;
  }

  lemma OneStep(s: State, a: Action)
    requires Enabled(s, a)
    ensures Runs(s, [a]) && After(s, [a]) == Next(s, a)
  {
    assert [a][1..] == [];
    assert Runs(Next(s, a), []);
  }

  /** A request and its first three steps, and with a fourth one. */
  lemma StepsOfRequest(s: State, a: Action, go: Action, s1: State, s2: State, s3: State)
    requires Enabled(s, a) && Next(s, a) == s1 && Enabled(s1, go) && Next(s1, go) == s2
    requires Enabled(s2, go) && Next(s2, go) == s3 && Enabled(s3, go)
    ensures Runs(s, [a, go, go, go]) && After(s, [a, go, go, go]) == Next(s3, go)
    ensures var s4 := Next(s3, go);
      Enabled(s4, go) ==> Runs(s, [a, go, go, go, go]) && After(s, [a, go, go, go, go]) == Next(s4, go)
  {
    hide Next, Enabled;
    OneStep(s3, go);
    MoreSteps(s2, go, [go]);
    MoreSteps(s1, go, [go, go]);
    MoreSteps(s, a, [go, go, go]);
    assert [a] + [go, go, go] == [a, go, go, go];
    var s4 := Next(s3, go);
    if Enabled(s4, go) {
      OneStep(s4, go);
      MoreSteps(s3, go, [go]);
      MoreSteps(s2, go, [go, go]);
      MoreSteps(s1, go, [go, go, go]);
      MoreSteps(s, a, [go, go, go, go]);
      assert [a] + [go, go, go, go] == [a, go, go, go, go];
    }
  }

  /** What a request leaves behind: memory, rows, and itself finished. */
  predicate Leaves(end: State, live: map<Id, Session>, rows: map<Id, Session>, tid: nat) {
    end.live == live && end.rows == rows && tid in end.threads && end.threads[tid].at == Finished
  }

  /** A read of a stored session that is not resident brings it back from its row. */
  lemma ReadBringsItBack(s: State, id: Id, tid: nat, c: Choice)
    requires s.loaded && id !in s.live && id in s.rows && tid !in s.threads && c.ok && c.picked == {}
    ensures var go := Go(tid, c); var read := [Spawn(tid, Get, id), go, go, go, go];
      Runs(s, read) && Leaves(After(s, read), s.live[id := s.rows[id]], s.rows, tid)
  {
    hide Runs, After;
    var go := Go(tid, c);
    var s1 := Next(s, Spawn(tid, Get, id));
    var s2 := Next(s1, go);
    var s3 := Next(s2, go);
    var s4 := Next(s3, go);
    assert s4.threads[tid] == Thread(Get, id, Insert, Some(s.rows[id]));
    assert s.live[id := s.rows[id]] - {} == s.live[id := s.rows[id]];
    StepsOfRequest(s, Spawn(tid, Get, id), go, s1, s2, s3);
  }

  /** A new id is made resident and written, and from then on it is never handed out again. */
  lemma CreateStoresIt(s: State, id: Id, tid: nat, c: Choice)
    requires s.loaded && id !in s.issued && tid !in s.threads && c.ok && c.picked == {}
    ensures var go := Go(tid, c); var create := [Spawn(tid, Create, id), go, go, go, go];
      && Runs(s, create)
      && Leaves(After(s, create), s.live[id := c.content], s.rows[id := c.content], tid)
      && After(s, create).issued == s.issued + {id}
  {
    hide Runs, After;
    var go := Go(tid, c);
    var s1 := Next(s, Spawn(tid, Create, id));
    var s2 := Next(s1, go);
    var s3 := Next(s2, go);
    var s4 := Next(s3, go);
    assert s.live[id := c.content] - {} == s.live[id := c.content];
    assert s4.threads[tid] == Thread(Create, id, Write, Some(c.content));
    StepsOfRequest(s, Spawn(tid, Create, id), go, s1, s2, s3);
  }

  /** A delete takes the session out of memory and its row away, and leaves the others. */
  lemma DeleteRemovesIt(s: State, id: Id, tid: nat, c: Choice)
    requires s.loaded && tid !in s.threads && c.ok
    ensures var go := Go(tid, c); var delete := [Spawn(tid, Delete, id), go, go, go];
      Runs(s, delete) && Leaves(After(s, delete), s.live - {id}, s.rows - {id}, tid)
  {
    hide Runs, After;
    var go := Go(tid, c);
    var s1 := Next(s, Spawn(tid, Delete, id));
    var s2 := Next(s1, go);
    StepsOfRequest(s, Spawn(tid, Delete, id), go, s1, s2, Next(s2, go));
  }

  /** What has been issued stays issued, so no later request can create the id again. */
  lemma {:induction false} IssuedStaysIssued(s: State, actions: seq<Action>, id: Id)
    requires Runs(s, actions) && id in s.issued
    ensures id in After(s, actions).issued
    ensures forall tid :: !Enabled(After(s, actions), Spawn(tid, Create, id))
    decreases |actions|
  {
    if actions != [] {
      IssuedStaysIssued(Next(s, actions[0]), actions[1..], id);
    }
  }

  // ----- once gone, gone for good -----

  /** A request that could still bring the id into memory or into a row. */
  predicate CouldRestore(t: Thread) {
    t.at == Insert || t.at == Write || (t.task == Create && t.at == Ensure)
  }

  /** The id has been handed out, is nowhere, and no request still carries it. */
  predicate Gone(s: State, id: Id) {
    && id in s.issued && !Present(s, id)
    && forall tid | tid in s.threads && s.threads[tid].id == id :: !CouldRestore(s.threads[tid])
  }

  /** A request touches its own id only, except that the first load may bring in any stored one. */
  lemma AdvanceTouchesItsOwn(s: State, t: Thread, c: Choice, id: Id)
    ensures var (s', t') := Advance(s, t, c);
      && t'.task == t.task && t'.id == t.id && s'.issued == s.issued && s'.threads == s.threads
      && (t.id != id && id in s'.live ==> id in s.live || LoadsId(s, t, c, id))
      && (LoadsId(s, t, c, id) ==> id in s'.live)
      && (t.id != id ==> (id in s'.rows <==> id in s.rows))
  {}

  /** A request that cannot restore its id does not. */
  lemma AdvanceWithoutCopy(s: State, t: Thread, c: Choice)
    requires !CouldRestore(t) && !Present(s, t.id)
    ensures var (s', t') := Advance(s, t, c); !Present(s', t.id) && !CouldRestore(t')
  {}

  lemma StepKeepsGone(s: State, a: Action, id: Id)
    requires Enabled(s, a) && Gone(s, id)
    ensures Gone(Next(s, a), id)
  {
    hide Advance;
    match a {
      case Go(tid, c) =>
        AdvanceTouchesItsOwn(s, s.threads[tid], c, id);
        if s.threads[tid].id == id {
          AdvanceWithoutCopy(s, s.threads[tid], c);
        }
      case _ =>
    }
  }

  lemma {:induction false} GoneStaysGone(s: State, actions: seq<Action>, id: Id)
    requires Runs(s, actions) && Gone(s, id)
    ensures Gone(After(s, actions), id)
    decreases |actions|
  {
    if actions != [] {
      StepKeepsGone(s, actions[0], id);
      GoneStaysGone(Next(s, actions[0]), actions[1..], id);
    }
  }

  /** Only snapshots are written: a request that is about to write has taken one. */
  predicate SnapshotsTaken(s: State) {
    forall tid | tid in s.threads && s.threads[tid].at == Write :: s.threads[tid].copy.Some?
  }

  lemma {:induction false} SnapshotsStayTaken(s: State, actions: seq<Action>)
    requires Runs(s, actions) && SnapshotsTaken(s)
    ensures SnapshotsTaken(After(s, actions))
    decreases |actions|
  {
    if actions != [] {
      SnapshotsStayTaken(Next(s, actions[0]), actions[1..]);
    }
  }

  lemma TwoSteps(s: State, a: Action, b: Action)
    requires Enabled(s, a) && Enabled(Next(s, a), b)
    ensures Runs(s, [a, b]) && After(s, [a, b]) == Next(Next(s, a), b)
  {
    OneStep(Next(s, a), b);
    assert [a, b][1..] == [b];
  }

  /** An id that is present, or that some request still carries, can be present later. */
  lemma CarriedComesBack(s: State, id: Id) returns (later: seq<Action>)
    requires id in s.issued && SnapshotsTaken(s) && !Gone(s, id)
    ensures Runs(s, later) && Present(After(s, later), id)
  {
    var c := Choice(true, {}, OLD);
    if Present(s, id) {
      return [];
    }
    var tid :| tid in s.threads && s.threads[tid].id == id && CouldRestore(s.threads[tid]);
    var go := Go(tid, c);
    if s.threads[tid].at == Ensure {
      TwoSteps(s, go, go);
      return [go, go];
    }
    OneStep(s, go);
    return [go];
  }

  /** Being gone is exactly what keeps an id from ever coming back. */
  lemma GoneIsExactlyPermanent(s: State, id: Id)
    requires id in s.issued && SnapshotsTaken(s)
    ensures Gone(s, id) <==> forall later | Runs(s, later) :: !Present(After(s, later), id)
  {
    hide Runs, After, Gone, Present, SnapshotsTaken;
    if Gone(s, id) {
      forall later | Runs(s, later) ensures !Present(After(s, later), id) {
        GoneStaysGone(s, later, id);
      }
    } else {
      var later := CarriedComesBack(s, id);
      assert Runs(s, later) && Present(After(s, later), id);
    }
  }

  /** So it is in every state that any run reaches from a store without requests under way. */
  lemma GoneIsExactlyPermanentInEveryRun(start: State, before: seq<Action>, id: Id)
    requires start.threads == map[] && Runs(start, before)
    requires id in After(start, before).issued
    ensures var s := After(start, before);
      Gone(s, id) <==> forall later | Runs(s, later) :: !Present(After(s, later), id)
  {
    hide Gone, Present;
    SnapshotsStayTaken(start, before);
    GoneIsExactlyPermanent(After(start, before), id);
  }

  // ----- a delete that nothing interferes with -----

  /**
   * Request `d` is deleting `id`; every other request on that id has finished. Memory is
   * clean once `d` has removed the entry, the rows once it has erased the row.
   */
  predicate Deleting(s: State, id: Id, d: nat) {
    && id in s.issued && d in s.threads
    && s.threads[d].task == Delete && s.threads[d].id == id
    && s.threads[d].at in {Ensure, Remove, Erase, Finished}
    && (forall tid | tid in s.threads && tid != d && s.threads[tid].id == id :: s.threads[tid].at == Finished)
    && (s.threads[d].at in {Erase, Finished} ==> id !in s.live)
    && (s.threads[d].at == Finished ==> id !in s.rows)
  }

  /** The request loads the store and brings the id into memory. */
  predicate LoadsId(s: State, t: Thread, c: Choice, id: Id) {
    t.at == Ensure && !s.loaded && c.ok && id in c.picked && id in s.rows
  }

  /**
   * What interferes with the delete: a new request on the id; the delete's own statement
   * failing while the row is there; or, between removal and erasure, a first load by another
   * request that picks the row.
   */
  predicate Interferes(s: State, a: Action, id: Id, d: nat)
    requires d in s.threads
  {
    match a
    case Spawn(_, _, other) => other == id
    case Go(tid, c) =>
      && tid in s.threads && s.threads[d].at == Erase
      && (if tid == d then !c.ok && id in s.rows else LoadsId(s, s.threads[tid], c, id))
    case _ => false
  }

  predicate Undisturbed(s: State, actions: seq<Action>, id: Id, d: nat)
    requires Runs(s, actions)
    decreases |actions|
  {
    actions == [] || (d in s.threads && !Interferes(s, actions[0], id, d)
                      && Undisturbed(Next(s, actions[0]), actions[1..], id, d))
  }

  /** A step keeps the delete's progress exactly when it does not interfere. */
  lemma StepKeepsDeletingExactly(s: State, a: Action, id: Id, d: nat)
    requires Enabled(s, a) && Deleting(s, id, d)
    ensures Deleting(Next(s, a), id, d) <==> !Interferes(s, a, id, d)
  {
    match a {
      case Spawn(tid, _, other) =>
        assert other == id ==> Next(s, a).threads[tid].at != Finished;
      case Go(tid, c) =>
        if tid == d {
          OwnStep(s, c, id, d);
        } else {
          StrangersStep(s, tid, c, id, d);
        }
      case _ =>
    }
  }

  lemma OwnStep(s: State, c: Choice, id: Id, d: nat)
    requires Enabled(s, Go(d, c)) && Deleting(s, id, d)
    ensures Deleting(Next(s, Go(d, c)), id, d) <==> !Interferes(s, Go(d, c), id, d)
  {
    hide Advance;
    AdvanceTouchesItsOwn(s, s.threads[d], c, id);
    DeleteAdvances(s, s.threads[d], c);
  }

  lemma StrangersStep(s: State, tid: nat, c: Choice, id: Id, d: nat)
    requires Enabled(s, Go(tid, c)) && Deleting(s, id, d) && tid != d
    ensures Deleting(Next(s, Go(tid, c)), id, d) <==> !Interferes(s, Go(tid, c), id, d)
  {
    hide Advance;
    AdvanceTouchesItsOwn(s, s.threads[tid], c, id);
  }

  lemma DeleteAdvances(s: State, t: Thread, c: Choice)
    requires t.task == Delete && t.at in {Ensure, Remove, Erase}
    ensures var (s', t') := Advance(s, t, c);
      && (t.at == Ensure ==> t'.at == Remove)
      && (t.at == Remove ==> t'.at == Erase && t.id !in s'.live)
      && (t.at == Erase ==> t'.at == Finished && s'.live == s.live
                            && (t.id in s'.rows <==> t.id in s.rows && !c.ok))
  {}

  lemma {:induction false} DeleteRuns(s: State, actions: seq<Action>, id: Id, d: nat)
    requires Runs(s, actions) && Deleting(s, id, d) && Undisturbed(s, actions, id, d)
    ensures Deleting(After(s, actions), id, d)
    decreases |actions|
  {
    if actions != [] {
      StepKeepsDeletingExactly(s, actions[0], id, d);
      DeleteRuns(Next(s, actions[0]), actions[1..], id, d);
    }
  }

  /**
   * A delete that nothing interferes with is permanent: whatever runs in between on other
   * ids, and whatever runs afterwards, the id is in no later state, neither in memory nor in
   * the rows.
   */
  lemma DeletionIsPermanent(s: State, during: seq<Action>, later: seq<Action>, id: Id, d: nat)
    requires Deleting(s, id, d)
    requires Runs(s, during) && Undisturbed(s, during, id, d)
    requires d in After(s, during).threads && After(s, during).threads[d].at == Finished
    requires Runs(After(s, during), later)
    ensures !Present(After(After(s, during), later), id)
  {
    DeleteRuns(s, during, id, d);
    GoneStaysGone(After(s, during), later, id);
  }

  // ----- what interference does -----

  const X := "x"
  const OTHER := "xx"
  const OLD := Session("a", 0)
  const ANY := Choice(true, {}, OLD)

  function Two(live: map<Id, Session>, rows: map<Id, Session>, loaded: bool, first: Thread, eraser: Thread): State {
    State(live, loaded, rows, {X, OTHER}, map[1 := first, 2 := eraser])
  }

  /** A resident session without a row gets its row back with the next edit. */
  lemma NextEditWritesItBack(s: State, id: Id, tid: nat, c: Choice)
    requires id in s.live && s.loaded && tid !in s.threads && c.ok
    ensures var go := Go(tid, c); var edit := [Spawn(tid, Mutate, id), go, go, go, go, go];
      Runs(s, edit) && id in After(s, edit).rows
  {
    var go := Go(tid, c);
    var s1 := Next(s, Spawn(tid, Mutate, id));
    var s2 := Next(s1, go);
    var s3 := Next(s2, go);
    var s4 := Next(s3, go);
    var s5 := Next(s4, go);
    assert s5.threads[tid].at == Write && id in Next(s5, go).rows;
    OneStep(s5, go);
    MoreSteps(s4, go, [go]);
    MoreSteps(s3, go, [go, go]);
    MoreSteps(s2, go, [go, go, go]);
    MoreSteps(s1, go, [go, go, go, go]);
    MoreSteps(s, Spawn(tid, Mutate, id), [go, go, go, go, go]);
  }

  /**
   * A read of the id that began before the delete puts the session back into memory after
   * it. `NextEditWritesItBack` says what the next edit then does.
   */
  lemma OverlappingReadUndoesDelete()
    ensures
      var reading := Thread(Get, X, Read, None);
      var carrying := Thread(Get, X, Insert, Some(OLD));
      var done := Thread(Get, X, Finished, Some(OLD));
      var s0 := Two(map[], map[X := OLD], true, reading, Thread(Delete, X, Remove, None));
      var s1 := Two(map[], map[X := OLD], true, carrying, Thread(Delete, X, Remove, None));
      var s2 := Two(map[], map[X := OLD], true, carrying, Thread(Delete, X, Erase, None));
      var s3 := Two(map[], map[], true, carrying, Thread(Delete, X, Finished, None));
      var s4 := Two(map[X := OLD], map[], true, done, Thread(Delete, X, Finished, None));
      && Next(s0, Go(1, ANY)) == s1 && Next(s1, Go(2, ANY)) == s2
      && Next(s2, Go(2, ANY)) == s3 && Next(s3, Go(1, ANY)) == s4
      && !Present(s3, X) && Present(s4, X)
  {
    assert map[X := OLD] - {X} == map[];
    assert (map[])[X := OLD] - {} == map[X := OLD];
  }

  /**
   * No request on the id is needed: when the store is cleared between the removal and the
   * erasure, the first load by a request on another id reads the row that is still there.
   */
  lemma LoadByAnotherUndoesDelete()
    ensures
      var other := Thread(Get, OTHER, Ensure, None);
      var loaded := Thread(Get, OTHER, Peek, None);
      var picks := Choice(true, {X}, OLD);
      var s0 := Two(map[X := OLD], map[X := OLD], true, other, Thread(Delete, X, Ensure, None));
      var s1 := Two(map[X := OLD], map[X := OLD], true, other, Thread(Delete, X, Remove, None));
      var s2 := Two(map[], map[X := OLD], true, other, Thread(Delete, X, Erase, None));
      var s3 := Two(map[], map[X := OLD], false, other, Thread(Delete, X, Erase, None));
      var s4 := Two(map[X := OLD], map[X := OLD], true, loaded, Thread(Delete, X, Erase, None));
      var s5 := Two(map[X := OLD], map[], true, loaded, Thread(Delete, X, Finished, None));
      && Deleting(s0, X, 2)
      && Next(s0, Go(2, ANY)) == s1 && Next(s1, Go(2, ANY)) == s2 && Next(s2, Clear) == s3
      && Next(s3, Go(1, picks)) == s4 && Interferes(s3, Go(1, picks), X, 2)
      && Next(s4, Go(2, ANY)) == s5 && Present(s5, X)
  {
    assert |OTHER| != |X|;
    assert map[X := OLD] - {X} == map[];
    assert Restrict(map[X := OLD], {X}) == map[X := OLD];
  }

  /** Nor any other request: when the delete's own statement fails, the row stays. */
  lemma FailedStatementKeepsTheRow(s: State, c: Choice, id: Id, d: nat)
    requires Deleting(s, id, d) && s.threads[d].at == Erase && id in s.rows && !c.ok
    ensures Next(s, Go(d, c)).threads[d].at == Finished && Present(Next(s, Go(d, c)), id)
  {}
}
