/** DAGMutex: a table of reader/writer locks that are created for the first consumer of
    an entity and dropped, still locked, by its last one. Goroutines interleave between
    the critical sections of the table and the operations on the individual locks. */
module DAGMutex {
  import opened StarvingMutex

  type Id = string    // only equality matters
  type Lock = nat     // the identity of a lock object

  /** What a lock call and its unlock call are doing: the first has registered for its entities
      and has acquired the first k of their locks, or the second has unregistered and still has
      locks to release. Neither is tied to a goroutine. */
  datatype Session =
    | Out
    | Registered(write: bool, ids: seq<Id>, locks: seq<Lock>, k: nat)
    | Releasing(write: bool, locks: seq<Lock>)

  datatype Table = Table(count: map<Id, nat>, lockOf: map<Id, Lock>, next: Lock)

  /** An object that was never locked is not in the map of lock states. */
  datatype World = World(sessions: seq<Session>, table: Table, locks: map<Lock, RWLock>)

  function LockState(locks: map<Lock, RWLock>, l: Lock): RWLock
  {
    if l in locks then locks[l] else RWLock(0, false)
  }

  // ----- the table's critical sections ----------------------------------------------------

  function CountOf(tb: Table, id: Id): nat { if id in tb.count then tb.count[id] else 0 }

  /** registerMutex */
  function Register(tb: Table, id: Id): (r: (Table, Lock))
  {
    var lock := if id in tb.lockOf then tb.lockOf[id] else tb.next;
    (Table(tb.count[id := CountOf(tb, id) + 1], tb.lockOf[id := lock],
           if id in tb.lockOf then tb.next else tb.next + 1), lock)
  }

  /** registerMutexes, in the order of the identifiers. */
  function RegisterAll(tb: Table, ids: seq<Id>): (r: (Table, seq<Lock>))
    ensures |r.1| == |ids|
    decreases |ids|
  {
    if ids == [] then (tb, []) else
      var (tb1, lock) := Register(tb, ids[0]);
      var (tb2, rest) := RegisterAll(tb1, ids[1..]);
      (tb2, [lock] + rest)
  }

  /** unregisterMutex panics when there is nothing to unregister. */
  predicate CanUnregister(tb: Table, id: Id) { CountOf(tb, id) > 0 && id in tb.lockOf }

  /** unregisterMutex: the lock to release, or none for the last consumer. */
  function Unregister(tb: Table, id: Id): (r: (Table, seq<Lock>))
    requires CanUnregister(tb, id)
  {
    if CountOf(tb, id) == 1 then (tb.(count := tb.count - {id}, lockOf := tb.lockOf - {id}), [])
    else (tb.(count := tb.count[id := CountOf(tb, id) - 1]), [tb.lockOf[id]])
  }

  predicate CanUnregisterAll(tb: Table, ids: seq<Id>)
    decreases |ids|
  {
    ids == [] || (CanUnregister(tb, ids[0]) && CanUnregisterAll(Unregister(tb, ids[0]).0, ids[1..]))
  }

  /** unregisterMutexes */
  function UnregisterAll(tb: Table, ids: seq<Id>): (r: (Table, seq<Lock>))
    requires CanUnregisterAll(tb, ids)
    decreases |ids|
  {
    if ids == [] then (tb, []) else
      var (tb1, head) := Unregister(tb, ids[0]);
      var (tb2, rest) := UnregisterAll(tb1, ids[1..]);
      (tb2, head + rest)
  }

  // ----- steps ------------------------------------------------------------------------------

  ghost predicate Init(w: World)
  {
    && w.table == Table(map[], map[], 0) && w.locks == map[]
    && forall t :: 0 <= t < |w.sessions| ==> w.sessions[t].Out?
  }

  function Acquired(l: RWLock, write: bool): RWLock
  {
    if write then l.(writer := true) else l.(readers := l.readers + 1)
  }

  /** StarvingMutex lets a reader in unless there is a writer, and a writer in when free. */
  predicate CanAcquire(l: RWLock, write: bool) { !l.writer && (write ==> l.readers == 0) }

  /** RUnlock and Unlock panic otherwise. */
  predicate CanRelease(l: RWLock, write: bool)
  {
    if write then l.writer && l.readers == 0 else l.readers > 0 && !l.writer
  }

  function Released(l: RWLock, write: bool): RWLock
    requires CanRelease(l, write)
  {
    if write then l.(writer := false) else l.(readers := l.readers - 1)
  }

  /** One step of goroutine t. */
  ghost predicate Step(w: World, t: nat, w': World)
    requires t < |w.sessions|
  {
    match w.sessions[t]
    case Out =>
      exists write: bool, ids: seq<Id> :: Begins(w, t, write, ids, w')
    case Registered(write, ids, locks, k) =>
      if k < |locks| then
        && CanAcquire(LockState(w.locks, locks[k]), write)
        && w' == w.(sessions := w.sessions[t := Registered(write, ids, locks, k + 1)],
                    locks := w.locks[locks[k] := Acquired(LockState(w.locks, locks[k]), write)])
      else
        && CanUnregisterAll(w.table, ids)
        && var (tb, rest) := UnregisterAll(w.table, ids);
           w' == w.(sessions := w.sessions[t := Releasing(write, rest)], table := tb)
    case Releasing(write, locks) =>
      if locks == [] then w' == w.(sessions := w.sessions[t := Out])
      else
        && CanRelease(LockState(w.locks, locks[0]), write)
        && w' == w.(sessions := w.sessions[t := Releasing(write, locks[1..])],
                    locks := w.locks[locks[0] := Released(LockState(w.locks, locks[0]), write)])
  }

  /** RLock of any entities, or Lock of one: registration comes first. */
  ghost predicate Begins(w: World, t: nat, write: bool, ids: seq<Id>, w': World)
    requires t < |w.sessions|
  {
    && (write ==> |ids| == 1)
    && var (tb, locks) := RegisterAll(w.table, ids);
       w' == w.(sessions := w.sessions[t := Registered(write, ids, locks, 0)], table := tb)
  }

  /** The session holds its entities for reading. */
  predicate Reading(s: Session) { s.Registered? && !s.write && s.k == |s.locks| == |s.ids| }

  function Minus(s: Session, i: nat): Session
    requires Reading(s) && i < |s.ids|
  {
    Registered(false, s.ids[..i] + s.ids[i + 1..], s.locks[..i] + s.locks[i + 1..], s.k - 1)
  }

  function Plus(s: Session, id: Id, lock: Lock): Session
    requires s.Out? || Reading(s)
  {
    if s.Out? then Registered(false, [id], [lock], 1)
    else Registered(false, s.ids + [id], s.locks + [lock], s.k + 1)
  }

  /** Entities can be unlocked in other groups than they were locked in: one of them goes from
      session t to session u, which will unlock it. */
  ghost predicate Regroups(w: World, t: nat, i: nat, u: nat, w': World)
  {
    && t < |w.sessions| && u < |w.sessions| && t != u
    && Reading(w.sessions[t]) && i < |w.sessions[t].ids| && (w.sessions[u].Out? || Reading(w.sessions[u]))
    && var s := w.sessions[t];
       w' == w.(sessions := w.sessions[t := Minus(s, i)][u := Plus(w.sessions[u], s.ids[i], s.locks[i])])
  }

  ghost predicate Next(w: World, w': World)
  {
    (exists t :: 0 <= t < |w.sessions| && Step(w, t, w')) || (exists t, i, u :: Regroups(w, t, i, u, w'))
  }

  ghost predicate IsRun(run: seq<World>)
  {
    && run != [] && Init(run[0])
    && forall i :: 0 <= i < |run| - 1 ==> Next(run[i], run[i + 1])
  }

  // ----- totals over all goroutines -----------------------------------------------------------

  function Total<T>(sessions: seq<Session>, f: Session -> multiset<T>): multiset<T>
  {
    if sessions == [] then multiset{} else f(sessions[0]) + Total(sessions[1..], f)
  }

  lemma AddFront<T>(h: multiset<T>, a: multiset<T>, b: multiset<T>, c: multiset<T>, d: multiset<T>)
    requires a + b == c + d
    ensures (h + a) + b == (h + c) + d
  {
    assert (h + a) + b == h + (a + b);
    assert (h + c) + d == h + (c + d);
  }

  lemma {:induction false} TotalUpdate<T>(sessions: seq<Session>, t: nat, x: Session, f: Session -> multiset<T>)
    requires t < |sessions|
    ensures Total(sessions[t := x], f) + f(sessions[t]) == Total(sessions, f) + f(x)
  {
    if t == 0 {
      assert sessions[0 := x][1..] == sessions[1..];
    } else {
      var rest, rest' := sessions[1..], sessions[1..][t - 1 := x];
      assert sessions[t := x][1..] == rest';
      TotalUpdate(rest, t - 1, x, f);
      AddFront(f(sessions[0]), Total(rest', f), f(sessions[t]), Total(rest, f), f(x));
    }
  }

  lemma {:induction false} TotalAt<T>(sessions: seq<Session>, t: nat, f: Session -> multiset<T>)
    requires t < |sessions|
    ensures f(sessions[t]) <= Total(sessions, f)
  {
    if t > 0 {
      TotalAt(sessions[1..], t - 1, f);
    }
  }

  lemma {:induction false} TotalTwo<T>(sessions: seq<Session>, t: nat, u: nat, f: Session -> multiset<T>)
    requires t < |sessions| && u < |sessions| && t != u
    ensures f(sessions[t]) + f(sessions[u]) <= Total(sessions, f)
  {
    if t == 0 {
      TotalAt(sessions[1..], u - 1, f);
    } else if u == 0 {
      TotalAt(sessions[1..], t - 1, f);
    } else {
      TotalTwo(sessions[1..], t - 1, u - 1, f);
    }
  }

  lemma {:induction false} TotalEmpty<T>(sessions: seq<Session>, f: Session -> multiset<T>)
    requires forall t :: 0 <= t < |sessions| ==> f(sessions[t]) == multiset{}
    ensures Total(sessions, f) == multiset{}
  {
    if sessions != [] {
      TotalEmpty(sessions[1..], f);
    }
  }

  function Consumes(s: Session): multiset<Id>
  {
    if s.Registered? then multiset(s.ids) else multiset{}
  }

  function Holds(s: Session): multiset<Lock>
  {
    match s
    case Out => multiset{}
    case Registered(_, _, locks, k) => multiset(locks[..if k <= |locks| then k else |locks|])
    case Releasing(_, locks) => multiset(locks)
  }

  function ReadHolds(s: Session): multiset<Lock> { if s.Out? || s.write then multiset{} else Holds(s) }

  function WriteHolds(s: Session): multiset<Lock> { if s.Out? || !s.write then multiset{} else Holds(s) }

  // ----- the invariant ---------------------------------------------------------------------------

  /** The table has an entry exactly for the entities with consumers, counts them, and
      gives different entities different lock objects. */
  ghost predicate TableOk(tb: Table, consumers: multiset<Id>)
  {
    && (forall id :: id in tb.count <==> id in consumers)
    && (forall id :: id in tb.lockOf <==> id in consumers)
    && (forall id :: id in tb.count ==> tb.count[id] == consumers[id])
    && (forall a, b :: a in tb.lockOf && b in tb.lockOf && tb.lockOf[a] == tb.lockOf[b] ==> a == b)
    && (forall id :: id in tb.lockOf ==> tb.lockOf[id] < tb.next)
  }

  ghost predicate LocksFor(tb: Table, ids: seq<Id>, locks: seq<Lock>)
  {
    && |locks| == |ids|
    && forall i :: 0 <= i < |ids| ==> ids[i] in tb.lockOf && tb.lockOf[ids[i]] == locks[i]
  }

  /** A registered goroutine refers to the lock that is in the table now. */
  ghost predicate SessionOk(tb: Table, s: Session)
  {
    s.Registered? ==>
      LocksFor(tb, s.ids, s.locks) && s.k <= |s.locks| && (s.write ==> |s.ids| == 1)
  }

  ghost predicate SessionsOk(tb: Table, sessions: seq<Session>)
  {
    forall t :: 0 <= t < |sessions| ==> SessionOk(tb, sessions[t])
  }

  ghost predicate Live(tb: Table, l: Lock) { exists id :: id in tb.lockOf && tb.lockOf[id] == l }

  /** The lock objects account for what is held; a dropped one may be held by nobody. */
  ghost predicate LockOk(tb: Table, st: RWLock, l: Lock, readHolds: nat, writeHolds: nat)
  {
    && st.readers >= readHolds && One(st.writer) >= writeHolds
    && (Live(tb, l) ==> st.readers == readHolds && One(st.writer) == writeHolds)
    && (st.writer ==> st.readers == 0)
    && (l >= tb.next ==> st == RWLock(0, false))
  }

  ghost predicate Inv(w: World)
  {
    && TableOk(w.table, Total(w.sessions, Consumes))
    && SessionsOk(w.table, w.sessions)
    && LocksOk(w.table, w.locks, Total(w.sessions, ReadHolds), Total(w.sessions, WriteHolds))
  }

  ghost predicate LocksOk(tb: Table, locks: map<Lock, RWLock>, readHolds: multiset<Lock>, writeHolds: multiset<Lock>)
  {
    forall l: Lock :: LockOk(tb, LockState(locks, l), l, readHolds[l], writeHolds[l])
  }

  // ----- registration ---------------------------------------------------------------------------

  /** Entries are kept and new ones get new lock objects. */
  ghost predicate Grown(tb: Table, tb': Table)
  {
    && tb.next <= tb'.next
    && (forall a :: a in tb.lockOf ==> a in tb'.lockOf && tb'.lockOf[a] == tb.lockOf[a])
    && (forall a :: a in tb'.lockOf ==> (a in tb.lockOf && tb'.lockOf[a] == tb.lockOf[a]) || tb'.lockOf[a] >= tb.next)
  }

  ghost predicate Shrunk(tb: Table, tb': Table)
  {
    && tb.next == tb'.next
    && (forall a :: a in tb'.lockOf ==> a in tb.lockOf && tb'.lockOf[a] == tb.lockOf[a])
  }

  lemma GrownTransitive(a: Table, b: Table, c: Table)
    requires Grown(a, b) && Grown(b, c)
    ensures Grown(a, c)
  {
  }

  lemma LocksForCons(tb1: Table, tb2: Table, ids: seq<Id>, lock: Lock, rest: seq<Lock>)
    requires ids != [] && ids[0] in tb1.lockOf && tb1.lockOf[ids[0]] == lock
    requires Grown(tb1, tb2) && LocksFor(tb2, ids[1..], rest)
    ensures LocksFor(tb2, ids, [lock] + rest)
  {
    assert forall i :: 0 < i < |ids| ==> ids[i] == ids[1..][i - 1];
  }

  lemma MoveOne(all: multiset<Id>, ids: seq<Id>)
    requires ids != []
    ensures all + multiset(ids) == all + multiset{ids[0]} + multiset(ids[1..])
    ensures all - multiset(ids) == all - multiset{ids[0]} - multiset(ids[1..])
    ensures ids[0] in multiset(ids)
  {
    assert ids == [ids[0]] + ids[1..];
  }

  lemma RegisterOk(tb: Table, consumers: multiset<Id>, id: Id)
    requires TableOk(tb, consumers)
    ensures var (tb', lock) := Register(tb, id);
            && TableOk(tb', consumers + multiset{id}) && Grown(tb, tb')
            && id in tb'.lockOf && tb'.lockOf[id] == lock
  {
  }

  lemma {:induction false} RegisterAllOk(tb: Table, consumers: multiset<Id>, ids: seq<Id>)
    requires TableOk(tb, consumers)
    ensures var (tb', locks) := RegisterAll(tb, ids);
            && TableOk(tb', consumers + multiset(ids)) && Grown(tb, tb') && LocksFor(tb', ids, locks)
    decreases |ids|
  {
    if ids == [] {
      assert consumers + multiset(ids) == consumers;
    } else {
      var (tb1, lock) := Register(tb, ids[0]);
      RegisterOk(tb, consumers, ids[0]);
      hide Register, TableOk, Grown, LocksFor;
      RegisterAllOk(tb1, consumers + multiset{ids[0]}, ids[1..]);
      MoveOne(consumers, ids);
      var (tb2, rest) := RegisterAll(tb1, ids[1..]);
      GrownTransitive(tb, tb1, tb2);
      LocksForCons(tb1, tb2, ids, lock, rest);
    }
  }

  lemma UnregisterOk(tb: Table, consumers: multiset<Id>, id: Id)
    requires TableOk(tb, consumers) && id in consumers
    ensures CanUnregister(tb, id)
    ensures var (tb', rest) := Unregister(tb, id);
            && TableOk(tb', consumers - multiset{id}) && Shrunk(tb, tb')
            && (rest == [] || rest == [tb.lockOf[id]])
            && (id in tb'.lockOf ==> rest == [tb.lockOf[id]])
  {
  }

  /** A lock that stays in the table is handed back as often as it was registered, a
      dropped one no more often. */
  ghost predicate HandedBack(tb': Table, locks: seq<Lock>, rest: seq<Lock>)
  {
    && multiset(rest) <= multiset(locks)
    && forall a :: a in tb'.lockOf ==> multiset(rest)[tb'.lockOf[a]] == multiset(locks)[tb'.lockOf[a]]
  }

  lemma {:induction false} UnregisterAllOk(tb: Table, consumers: multiset<Id>, ids: seq<Id>, locks: seq<Lock>)
    requires TableOk(tb, consumers) && multiset(ids) <= consumers && LocksFor(tb, ids, locks)
    ensures CanUnregisterAll(tb, ids)
    ensures var (tb', rest) := UnregisterAll(tb, ids);
            && TableOk(tb', consumers - multiset(ids)) && Shrunk(tb, tb') && HandedBack(tb', locks, rest)
    decreases |ids|
  {
    if ids == [] {
      assert consumers - multiset(ids) == consumers;
    } else {
      MoveOne(consumers, ids);
      UnregisterOk(tb, consumers, ids[0]);
      UnregisterStep(tb, consumers, ids, locks);
      var (tb1, head) := Unregister(tb, ids[0]);
      UnregisterAllOk(tb1, consumers - multiset{ids[0]}, ids[1..], locks[1..]);
      var (tb2, rest) := UnregisterAll(tb1, ids[1..]);
      HandOneBack(tb, tb1, tb2, ids[0], locks, head, rest);
    }
  }

  /** Every lock is handed back to be released, except once by the last consumer of its entity. */
  lemma {:induction false} HandedBackBut(tb: Table, consumers: multiset<Id>, ids: seq<Id>, locks: seq<Lock>, id: Id)
    requires TableOk(tb, consumers) && multiset(ids) <= consumers && LocksFor(tb, ids, locks) && id in tb.lockOf
    requires CanUnregisterAll(tb, ids)
    ensures var (tb', rest) := UnregisterAll(tb, ids);
            multiset(rest)[tb.lockOf[id]] + (if id in tb'.lockOf then 0 else 1) == multiset(ids)[id]
    decreases |ids|
  {
    if ids != [] {
      MoveOne(consumers, ids);
      UnregisterOk(tb, consumers, ids[0]);
      UnregisterStep(tb, consumers, ids, locks);
      FirstHandedBack(tb, consumers, ids, id);
      var (tb1, head) := Unregister(tb, ids[0]);
      var (tb2, rest) := UnregisterAll(tb1, ids[1..]);
      UnregisterAllOk(tb1, consumers - multiset{ids[0]}, ids[1..], locks[1..]);
      if id in tb1.lockOf {
        HandedBackBut(tb1, consumers - multiset{ids[0]}, ids[1..], locks[1..], id);
      } else {
        NotAmong(tb, tb1, ids[1..], locks[1..], id, rest);
      }
      hide TableOk, LocksFor, Unregister, Shrunk, HandedBack;
      assert multiset(head + rest)[tb.lockOf[id]] == multiset(head)[tb.lockOf[id]] + multiset(rest)[tb.lockOf[id]];
    }
  }

  lemma FirstHandedBack(tb: Table, consumers: multiset<Id>, ids: seq<Id>, id: Id)
    requires ids != [] && TableOk(tb, consumers) && multiset(ids) <= consumers && id in tb.lockOf && CanUnregister(tb, ids[0])
    ensures var (tb1, head) := Unregister(tb, ids[0]);
            && multiset(head)[tb.lockOf[id]] == (if ids[0] == id && id in tb1.lockOf then 1 else 0)
            && (id in tb1.lockOf ==> tb1.lockOf[id] == tb.lockOf[id])
            && (id !in tb1.lockOf ==> ids[0] == id && multiset(ids)[id] == 1)
    ensures multiset(ids)[id] == (if ids[0] == id then 1 else 0) + multiset(ids[1..])[id]
  {
    assert ids == [ids[0]] + ids[1..];
    assert multiset(ids)[id] <= consumers[id];
  }

  lemma NotAmong(tb: Table, tb1: Table, ids: seq<Id>, locks: seq<Lock>, id: Id, rest: seq<Lock>)
    requires LocksFor(tb1, ids, locks) && Shrunk(tb, tb1) && id in tb.lockOf && id !in tb1.lockOf && multiset(rest) <= multiset(locks)
    requires forall a, b :: a in tb.lockOf && b in tb.lockOf && tb.lockOf[a] == tb.lockOf[b] ==> a == b
    ensures multiset(rest)[tb.lockOf[id]] == 0
  {
    forall i | 0 <= i < |locks| ensures locks[i] != tb.lockOf[id] {
      assert ids[i] in tb1.lockOf && tb1.lockOf[ids[i]] == locks[i];
    }
    assert tb.lockOf[id] !in locks;
  }

  lemma UnregisterStep(tb: Table, consumers: multiset<Id>, ids: seq<Id>, locks: seq<Lock>)
    requires ids != [] && TableOk(tb, consumers) && multiset(ids) <= consumers && LocksFor(tb, ids, locks)
    requires CanUnregister(tb, ids[0])
    ensures multiset(ids[1..]) <= consumers - multiset{ids[0]}
    ensures LocksFor(Unregister(tb, ids[0]).0, ids[1..], locks[1..])
  {
    var rest := ids[1..];
    assert ids == [ids[0]] + rest;
    forall i | 0 <= i < |rest| ensures rest[i] == ids[0] ==> CountOf(tb, ids[0]) > 1 {
      if rest[i] == ids[0] {
        assert rest[i] in multiset(rest);
        assert multiset(ids)[ids[0]] >= 2;
      }
    }
  }

  lemma HandOneBack(tb: Table, tb1: Table, tb2: Table, id: Id, locks: seq<Lock>, head: seq<Lock>, rest: seq<Lock>)
    requires locks != [] && id in tb.lockOf && tb.lockOf[id] == locks[0]
    requires forall a, b :: a in tb.lockOf && b in tb.lockOf && tb.lockOf[a] == tb.lockOf[b] ==> a == b
    requires Shrunk(tb, tb1) && Shrunk(tb1, tb2)
    requires head == [] || head == [locks[0]]
    requires id in tb1.lockOf ==> head == [locks[0]]
    requires HandedBack(tb2, locks[1..], rest)
    ensures HandedBack(tb2, locks, head + rest) && Shrunk(tb, tb2)
  {
    assert locks == [locks[0]] + locks[1..];
    assert multiset(locks) == multiset{locks[0]} + multiset(locks[1..]);
    assert multiset(head + rest) == multiset(head) + multiset(rest);
    forall a | a in tb2.lockOf ensures multiset(head + rest)[tb2.lockOf[a]] == multiset(locks)[tb2.lockOf[a]] {
      assert a != id ==> tb2.lockOf[a] != locks[0];
    }
  }

  // ----- every step keeps the invariant -----------------------------------------------------------

  lemma InitInv(w: World)
    requires Init(w)
    ensures Inv(w)
  {
    TotalEmpty(w.sessions, Consumes);
    TotalEmpty(w.sessions, ReadHolds);
    TotalEmpty(w.sessions, WriteHolds);
  }

  lemma Totals(sessions: seq<Session>, t: nat, x: Session)
    requires t < |sessions|
    ensures var r := sessions[t := x];
            && Total(r, Consumes) == Total(sessions, Consumes) - Consumes(sessions[t]) + Consumes(x)
            && Total(r, ReadHolds) == Total(sessions, ReadHolds) - ReadHolds(sessions[t]) + ReadHolds(x)
            && Total(r, WriteHolds) == Total(sessions, WriteHolds) - WriteHolds(sessions[t]) + WriteHolds(x)
            && Consumes(sessions[t]) <= Total(sessions, Consumes)
            && ReadHolds(sessions[t]) <= Total(sessions, ReadHolds)
            && WriteHolds(sessions[t]) <= Total(sessions, WriteHolds)
  {
    var r := sessions[t := x];
    TotalUpdate(sessions, t, x, Consumes);
    TotalUpdate(sessions, t, x, ReadHolds);
    TotalUpdate(sessions, t, x, WriteHolds);
    TotalAt(sessions, t, Consumes);
    TotalAt(sessions, t, ReadHolds);
    TotalAt(sessions, t, WriteHolds);
    Balance(Total(r, Consumes), Consumes(sessions[t]), Total(sessions, Consumes), Consumes(x));
    Balance(Total(r, ReadHolds), ReadHolds(sessions[t]), Total(sessions, ReadHolds), ReadHolds(x));
    Balance(Total(r, WriteHolds), WriteHolds(sessions[t]), Total(sessions, WriteHolds), WriteHolds(x));
  }

  lemma Balance<T(!new)>(a: multiset<T>, b: multiset<T>, c: multiset<T>, d: multiset<T>)
    requires a + b == c + d && b <= c
    ensures a == c - b + d
  {
    forall l ensures a[l] == (c - b + d)[l] {
      assert (a + b)[l] == (c + d)[l];
    }
  }

  // the locks alone

  lemma GrowLocks(tb: Table, tb': Table, locks: map<Lock, RWLock>, r: multiset<Lock>, w: multiset<Lock>)
    requires LocksOk(tb, locks, r, w) && Grown(tb, tb')
    ensures LocksOk(tb', locks, r, w)
  {
    forall l: Lock ensures LockOk(tb', LockState(locks, l), l, r[l], w[l]) {
      assert LockOk(tb, LockState(locks, l), l, r[l], w[l]);
    }
  }

  lemma AcquireLocks(tb: Table, locks: map<Lock, RWLock>, r: multiset<Lock>, w: multiset<Lock>, l0: Lock, write: bool)
    requires LocksOk(tb, locks, r, w) && Live(tb, l0) && l0 < tb.next && CanAcquire(LockState(locks, l0), write)
    ensures LocksOk(tb, locks[l0 := Acquired(LockState(locks, l0), write)],
                    if write then r else r + multiset{l0}, if write then w + multiset{l0} else w)
  {
    hide Live;
    var locks' := locks[l0 := Acquired(LockState(locks, l0), write)];
    var r', w' := if write then r else r + multiset{l0}, if write then w + multiset{l0} else w;
    forall l: Lock ensures LockOk(tb, LockState(locks', l), l, r'[l], w'[l]) {
      assert LockOk(tb, LockState(locks, l), l, r[l], w[l]);
    }
  }

  lemma ReleaseLocks(tb: Table, locks: map<Lock, RWLock>, r: multiset<Lock>, w: multiset<Lock>, l0: Lock, write: bool)
    requires LocksOk(tb, locks, r, w) && CanRelease(LockState(locks, l0), write)
    requires if write then l0 in w else l0 in r
    ensures LocksOk(tb, locks[l0 := Released(LockState(locks, l0), write)],
                    if write then r else r - multiset{l0}, if write then w - multiset{l0} else w)
  {
    hide Live;
    var locks' := locks[l0 := Released(LockState(locks, l0), write)];
    var r', w' := if write then r else r - multiset{l0}, if write then w - multiset{l0} else w;
    forall l: Lock ensures LockOk(tb, LockState(locks', l), l, r'[l], w'[l]) {
      assert LockOk(tb, LockState(locks, l), l, r[l], w[l]);
    }
  }

  lemma ShrinkLocks(tb: Table, tb': Table, locks: map<Lock, RWLock>, r: multiset<Lock>, w: multiset<Lock>,
                    r': multiset<Lock>, w': multiset<Lock>)
    requires LocksOk(tb, locks, r, w) && Shrunk(tb, tb') && r' <= r && w' <= w
    requires forall a :: a in tb'.lockOf ==> r'[tb'.lockOf[a]] == r[tb'.lockOf[a]] && w'[tb'.lockOf[a]] == w[tb'.lockOf[a]]
    ensures LocksOk(tb', locks, r', w')
  {
    forall l: Lock ensures LockOk(tb', LockState(locks, l), l, r'[l], w'[l]) {
      assert LockOk(tb, LockState(locks, l), l, r[l], w[l]);
      assert r'[l] <= r[l] && w'[l] <= w[l];
    }
  }

  // the steps

  lemma BeginInv(w: World, t: nat, write: bool, ids: seq<Id>, w': World)
    requires Inv(w) && t < |w.sessions| && w.sessions[t].Out? && Begins(w, t, write, ids, w')
    ensures Inv(w')
  {
    hide Total, RegisterAll, TableOk, LocksOk;
    var (tb, locks) := RegisterAll(w.table, ids);
    RegisterAllOk(w.table, Total(w.sessions, Consumes), ids);
    Totals(w.sessions, t, Registered(write, ids, locks, 0));
    assert Total(w'.sessions, Consumes) == Total(w.sessions, Consumes) + multiset(ids);
    assert locks[..0] == [];
    assert Total(w'.sessions, ReadHolds) == Total(w.sessions, ReadHolds);
    assert Total(w'.sessions, WriteHolds) == Total(w.sessions, WriteHolds);
    GrowLocks(w.table, tb, w.locks, Total(w.sessions, ReadHolds), Total(w.sessions, WriteHolds));
    SessionsKept(w.table, tb, w.sessions, t, Registered(write, ids, locks, 0));
  }

  lemma AcquireInv(w: World, t: nat, w': World)
    requires Inv(w) && t < |w.sessions| && Step(w, t, w')
    requires w.sessions[t].Registered? && w.sessions[t].k < |w.sessions[t].locks|
    ensures Inv(w')
  {
    hide Total, LocksOk, SessionsOk;
    var s := w.sessions[t];
    var x := Registered(s.write, s.ids, s.locks, s.k + 1);
    var l0 := s.locks[s.k];
    RefersToLive(w.table, w.sessions, t);
    AcquireLocks(w.table, w.locks, Total(w.sessions, ReadHolds), Total(w.sessions, WriteHolds), l0, s.write);
    hide TableOk, Acquired, CanAcquire, SessionOk, Holds;
    TotalsMore(w.sessions, t);
    SessionsKept(w.table, w.table, w.sessions, t, x);
  }

  lemma TotalsMore(sessions: seq<Session>, t: nat)
    requires t < |sessions| && sessions[t].Registered? && sessions[t].k < |sessions[t].locks|
    ensures var s := sessions[t];
            var r, l0 := sessions[t := Registered(s.write, s.ids, s.locks, s.k + 1)], s.locks[s.k];
            && Total(r, Consumes) == Total(sessions, Consumes)
            && Total(r, ReadHolds) == (if s.write then Total(sessions, ReadHolds) else Total(sessions, ReadHolds) + multiset{l0})
            && Total(r, WriteHolds) == (if s.write then Total(sessions, WriteHolds) + multiset{l0} else Total(sessions, WriteHolds))
  {
    hide Total, Holds;
    var s := sessions[t];
    var x := Registered(s.write, s.ids, s.locks, s.k + 1);
    Totals(sessions, t, x);
    Recount(Total(sessions, Consumes), Consumes(s), multiset{});
    HoldsMore(s, Total(sessions, ReadHolds), Total(sessions, WriteHolds));
  }

  lemma RefersToLive(tb: Table, sessions: seq<Session>, t: nat)
    requires SessionsOk(tb, sessions) && t < |sessions| && sessions[t].Registered? && sessions[t].k < |sessions[t].locks|
    requires forall id :: id in tb.lockOf ==> tb.lockOf[id] < tb.next
    ensures var s := sessions[t];
            Live(tb, s.locks[s.k]) && s.locks[s.k] < tb.next && SessionOk(tb, Registered(s.write, s.ids, s.locks, s.k + 1))
  {
    var s := sessions[t];
    assert SessionOk(tb, s);
    assert tb.lockOf[s.ids[s.k]] == s.locks[s.k];
  }

  lemma SessionsKept(tb: Table, tb': Table, sessions: seq<Session>, t: nat, x: Session)
    requires t < |sessions| && SessionOk(tb', x) && SessionsOk(tb, sessions)
    requires forall a :: a in tb.lockOf ==> a in tb'.lockOf && tb'.lockOf[a] == tb.lockOf[a]
    ensures SessionsOk(tb', sessions[t := x])
  {
    var r := sessions[t := x];
    forall u | 0 <= u < |r| ensures SessionOk(tb', r[u]) {
      assert u != t ==> SessionOk(tb, sessions[u]);
    }
  }

  lemma HoldsMore(s: Session, r: multiset<Lock>, w: multiset<Lock>)
    requires s.Registered? && s.k < |s.locks| && ReadHolds(s) <= r && WriteHolds(s) <= w
    ensures var x, l0 := Registered(s.write, s.ids, s.locks, s.k + 1), s.locks[s.k];
            && r - ReadHolds(s) + ReadHolds(x) == (if s.write then r else r + multiset{l0})
            && w - WriteHolds(s) + WriteHolds(x) == (if s.write then w + multiset{l0} else w)
  {
    var x, l0 := Registered(s.write, s.ids, s.locks, s.k + 1), s.locks[s.k];
    assert Holds(x) == Holds(s) + multiset{l0} by {
      assert s.locks[..s.k + 1] == s.locks[..s.k] + [l0];
    }
    hide Holds;
    if s.write {
      Recount(w, Holds(s), multiset{l0});
      Recount(r, multiset{}, multiset{});
    } else {
      Recount(r, Holds(s), multiset{l0});
      Recount(w, multiset{}, multiset{});
    }
  }

  lemma Recount<T>(all: multiset<T>, part: multiset<T>, more: multiset<T>)
    requires part <= all
    ensures all - part + (part + more) == all + more
    ensures all - part + part == all
  {
  }

  lemma EndInv(w: World, t: nat, w': World)
    requires Inv(w) && t < |w.sessions| && Step(w, t, w')
    requires w.sessions[t].Registered? && w.sessions[t].k >= |w.sessions[t].locks|
    ensures Inv(w')
  {
    hide Total, UnregisterAll, CanUnregisterAll, LocksOk, TableOk;
    var s := w.sessions[t];
    assert SessionOk(w.table, s);
    var (tb, rest) := UnregisterAll(w.table, s.ids);
    var x := Releasing(s.write, rest);
    Totals(w.sessions, t, x);
    UnregisterAllOk(w.table, Total(w.sessions, Consumes), s.ids, s.locks);
    assert Total(w'.sessions, Consumes) == Total(w.sessions, Consumes) - multiset(s.ids);
    EndSessions(w, t, tb, w');
    var r, wr := Total(w.sessions, ReadHolds), Total(w.sessions, WriteHolds);
    EndHolds(tb, s, rest, r, wr);
    ShrinkLocks(w.table, tb, w.locks, r, wr, r - ReadHolds(s) + ReadHolds(x), wr - WriteHolds(s) + WriteHolds(x));
  }

  lemma EndHolds(tb: Table, s: Session, rest: seq<Lock>, r: multiset<Lock>, w: multiset<Lock>)
    requires s.Registered? && s.k == |s.locks| && HandedBack(tb, s.locks, rest)
    requires ReadHolds(s) <= r && WriteHolds(s) <= w
    ensures var x := Releasing(s.write, rest);
            var r', w' := r - ReadHolds(s) + ReadHolds(x), w - WriteHolds(s) + WriteHolds(x);
            && r' <= r && w' <= w
            && forall a :: a in tb.lockOf ==> r'[tb.lockOf[a]] == r[tb.lockOf[a]] && w'[tb.lockOf[a]] == w[tb.lockOf[a]]
  {
    var x := Releasing(s.write, rest);
    assert s.locks[..|s.locks|] == s.locks;
    HandBack(tb, r, ReadHolds(s), ReadHolds(x));
    HandBack(tb, w, WriteHolds(s), WriteHolds(x));
  }

  lemma HandBack(tb: Table, all: multiset<Lock>, held: multiset<Lock>, rest: multiset<Lock>)
    requires held <= all && rest <= held
    requires forall a :: a in tb.lockOf ==> rest[tb.lockOf[a]] == held[tb.lockOf[a]]
    ensures all - held + rest <= all
    ensures forall a :: a in tb.lockOf ==> (all - held + rest)[tb.lockOf[a]] == all[tb.lockOf[a]]
  {
  }

  lemma EndSessions(w: World, t: nat, tb: Table, w': World)
    requires t < |w.sessions| == |w'.sessions| && w'.sessions == w.sessions[t := w'.sessions[t]] && !w'.sessions[t].Registered?
    requires SessionsOk(w.table, w.sessions)
    requires Shrunk(w.table, tb) && TableOk(tb, Total(w'.sessions, Consumes))
    ensures SessionsOk(tb, w'.sessions)
  {
    forall u | 0 <= u < |w'.sessions| ensures SessionOk(tb, w'.sessions[u]) {
      if u != t && w'.sessions[u].Registered? {
        assert SessionOk(w.table, w.sessions[u]);
        TotalAt(w'.sessions, u, Consumes);
        StillRegistered(w.table, tb, Total(w'.sessions, Consumes), w.sessions[u]);
      }
    }
  }

  lemma StillRegistered(tb: Table, tb': Table, consumers: multiset<Id>, s: Session)
    requires s.Registered? && SessionOk(tb, s) && Shrunk(tb, tb') && TableOk(tb', consumers) && Consumes(s) <= consumers
    ensures SessionOk(tb', s)
  {
    forall i | 0 <= i < |s.ids| ensures s.ids[i] in tb'.lockOf {
      assert s.ids[i] in multiset(s.ids);
    }
  }

  lemma ReleaseInv(w: World, t: nat, w': World)
    requires Inv(w) && t < |w.sessions| && Step(w, t, w') && w.sessions[t].Releasing?
    ensures Inv(w')
  {
    hide Total, TableOk, LocksOk;
    var s, x := w.sessions[t], w'.sessions[t];
    SessionsKept(w.table, w.table, w.sessions, t, x);
    hide SessionOk;
    Totals(w.sessions, t, x);
    var r, wr := Total(w.sessions, ReadHolds), Total(w.sessions, WriteHolds);
    Recount(Total(w.sessions, Consumes), Consumes(s), multiset{});
    if s.locks == [] {
      Recount(r, multiset{}, multiset{});
      Recount(wr, multiset{}, multiset{});
    } else {
      HoldsOneLess(s, r, wr);
      ReleaseLocks(w.table, w.locks, r, wr, s.locks[0], s.write);
    }
  }

  lemma HoldsOneLess(s: Session, r: multiset<Lock>, w: multiset<Lock>)
    requires s.Releasing? && s.locks != [] && ReadHolds(s) <= r && WriteHolds(s) <= w
    ensures var x, l0 := Releasing(s.write, s.locks[1..]), s.locks[0];
            && (if s.write then l0 in w else l0 in r)
            && r - ReadHolds(s) + ReadHolds(x) == (if s.write then r else r - multiset{l0})
            && w - WriteHolds(s) + WriteHolds(x) == (if s.write then w - multiset{l0} else w)
  {
    var l0 := s.locks[0];
    assert s.locks == [l0] + s.locks[1..];
    assert multiset(s.locks) == multiset{l0} + multiset(s.locks[1..]);
    OneLess(if s.write then w else r, multiset{l0}, multiset(s.locks[1..]));
  }

  lemma OneLess<T>(all: multiset<T>, one: multiset<T>, rest: multiset<T>)
    ensures one + rest <= all ==> all - (one + rest) + rest == all - one
  {
  }

  lemma MinusOk(tb: Table, s: Session, i: nat)
    requires Reading(s) && i < |s.ids| && SessionOk(tb, s)
    ensures SessionOk(tb, Minus(s, i))
    ensures s.ids[i] in tb.lockOf && tb.lockOf[s.ids[i]] == s.locks[i]
    ensures Consumes(s) == Consumes(Minus(s, i)) + multiset{s.ids[i]}
    ensures ReadHolds(s) == ReadHolds(Minus(s, i)) + multiset{s.locks[i]} && WriteHolds(Minus(s, i)) == WriteHolds(s)
  {
    TakenAway(s.ids, i);
    TakenAway(s.locks, i);
    var x := Minus(s, i);
    assert s.locks[..s.k] == s.locks && x.locks[..x.k] == x.locks;
    MinusSession(tb, s, i);
    hide SessionOk;
  }

  lemma TakenAway<T>(xs: seq<T>, i: nat)
    requires i < |xs|
    ensures multiset(xs) == multiset(xs[..i] + xs[i + 1..]) + multiset{xs[i]}
  {
    assert xs == xs[..i] + [xs[i]] + xs[i + 1..];
  }

  lemma MinusSession(tb: Table, s: Session, i: nat)
    requires Reading(s) && i < |s.ids| && SessionOk(tb, s)
    ensures SessionOk(tb, Minus(s, i))
  {
  }

  lemma PlusOk(tb: Table, s: Session, id: Id, lock: Lock)
    requires (s.Out? || Reading(s)) && SessionOk(tb, s) && id in tb.lockOf && tb.lockOf[id] == lock
    ensures SessionOk(tb, Plus(s, id, lock))
    ensures Consumes(Plus(s, id, lock)) == Consumes(s) + multiset{id}
    ensures ReadHolds(Plus(s, id, lock)) == ReadHolds(s) + multiset{lock} && WriteHolds(Plus(s, id, lock)) == WriteHolds(s)
  {
    var x := Plus(s, id, lock);
    assert x.locks[..x.k] == x.locks;
    if s.Registered? {
      assert s.locks[..s.k] == s.locks;
    }
  }

  lemma Moved<T>(all: multiset<T>, a: multiset<T>, a': multiset<T>, b: multiset<T>, b': multiset<T>, one: multiset<T>)
    requires a <= all && b <= all - a + a' && a == a' + one && b' == b + one
    ensures all - a + a' - b + b' == all
  {
  }

  /** Something that moves from one session to another does not change the total. */
  lemma TotalMoved<T(!new)>(sessions: seq<Session>, t: nat, s': Session, u: nat, x': Session, f: Session -> multiset<T>,
                            one: multiset<T>)
    requires t < |sessions| && u < |sessions| && t != u
    requires f(sessions[t]) == f(s') + one && f(x') == f(sessions[u]) + one
    ensures Total(sessions[t := s'][u := x'], f) == Total(sessions, f)
  {
    hide Total;
    var half := sessions[t := s'];
    TotalUpdate(sessions, t, s', f);
    TotalAt(sessions, t, f);
    TotalUpdate(half, u, x', f);
    TotalAt(half, u, f);
    Balance(Total(half, f), f(sessions[t]), Total(sessions, f), f(s'));
    Balance(Total(half[u := x'], f), f(half[u]), Total(half, f), f(x'));
    Moved(Total(sessions, f), f(sessions[t]), f(s'), f(half[u]), f(x'), one);
  }

  lemma RegroupInv(w: World, t: nat, i: nat, u: nat, w': World)
    requires Inv(w) && Regroups(w, t, i, u, w')
    ensures Inv(w')
  {
    hide Total, TableOk, LocksOk;
    var s, x := w.sessions[t], w.sessions[u];
    var s', x' := Minus(s, i), Plus(x, s.ids[i], s.locks[i]);
    assert SessionOk(w.table, s) && SessionOk(w.table, x);
    MinusOk(w.table, s, i);
    PlusOk(w.table, x, s.ids[i], s.locks[i]);
    SessionsKept(w.table, w.table, w.sessions, t, s');
    SessionsKept(w.table, w.table, w.sessions[t := s'], u, x');
    hide *;
    TotalMoved(w.sessions, t, s', u, x', Consumes, multiset{s.ids[i]});
    TotalMoved(w.sessions, t, s', u, x', ReadHolds, multiset{s.locks[i]});
    TotalMoved(w.sessions, t, s', u, x', WriteHolds, multiset{});
    SameTotals(w, w');
  }

  lemma SameTotals(w: World, w': World)
    requires Inv(w) && w'.table == w.table && w'.locks == w.locks && SessionsOk(w.table, w'.sessions)
    requires Total(w'.sessions, Consumes) == Total(w.sessions, Consumes)
    requires Total(w'.sessions, ReadHolds) == Total(w.sessions, ReadHolds)
    requires Total(w'.sessions, WriteHolds) == Total(w.sessions, WriteHolds)
    ensures Inv(w')
  {
    hide Total, TableOk, LocksOk, SessionsOk;
  }

  lemma NextInv(w: World, w': World)
    requires Inv(w) && Next(w, w')
    ensures Inv(w')
  {
    if t, i, u :| Regroups(w, t, i, u, w') {
      RegroupInv(w, t, i, u, w');
    } else {
      StepInv(w, w');
    }
  }

  lemma StepInv(w: World, w': World)
    requires Inv(w) && exists t :: 0 <= t < |w.sessions| && Step(w, t, w')
    ensures Inv(w')
  {
    var t :| 0 <= t < |w.sessions| && Step(w, t, w');
    match w.sessions[t]
    case Out =>
      var write: bool, ids: seq<Id> :| Begins(w, t, write, ids, w');
      BeginInv(w, t, write, ids, w');
    case Registered(_, _, locks, k) =>
      if k < |locks| {
        AcquireInv(w, t, w');
      } else {
        EndInv(w, t, w');
      }
    case Releasing(_, _) => ReleaseInv(w, t, w');
  }

  lemma {:induction false} RunInv(run: seq<World>, i: nat)
    requires IsRun(run) && i < |run|
    ensures Inv(run[i])
  {
    if i == 0 {
      InitInv(run[0]);
    } else {
      RunInv(run, i - 1);
      NextInv(run[i - 1], run[i]);
    }
  }

  // ----- what every run keeps -----------------------------------------------------------------------

  /** Goroutine t has locked entity id and has not begun to unlock it. */
  predicate HoldsEntity(s: Session, id: Id)
  {
    s.Registered? && s.k == |s.locks| == |s.ids| && id in s.ids
  }

  /** A writer of an entity never overlaps another holder of it. */
  lemma Exclusion(run: seq<World>, i: nat, t: nat, u: nat, id: Id)
    requires IsRun(run) && i < |run| && t < |run[i].sessions| && u < |run[i].sessions| && t != u
    requires HoldsEntity(run[i].sessions[t], id) && run[i].sessions[t].write
    ensures !HoldsEntity(run[i].sessions[u], id)
  {
    RunInv(run, i);
    var w := run[i];
    var a, b := w.sessions[t], w.sessions[u];
    if HoldsEntity(b, id) {
      assert SessionOk(w.table, a) && SessionOk(w.table, b);
      var l := w.table.lockOf[id];
      HeldLock(w.table, a, id);
      HeldLock(w.table, b, id);
      assert LockOk(w.table, LockState(w.locks, l), l, Total(w.sessions, ReadHolds)[l], Total(w.sessions, WriteHolds)[l]);
      TotalAt(w.sessions, t, WriteHolds);
      assert WriteHolds(a)[l] <= Total(w.sessions, WriteHolds)[l];
      if b.write {
        TotalTwo(w.sessions, t, u, WriteHolds);
      } else {
        TotalAt(w.sessions, u, ReadHolds);
      }
    }
  }

  lemma HeldLock(tb: Table, s: Session, id: Id)
    requires SessionOk(tb, s) && HoldsEntity(s, id)
    ensures id in tb.lockOf && tb.lockOf[id] in Holds(s)
  {
    var i :| 0 <= i < |s.ids| && s.ids[i] == id;
    assert s.locks[..s.k] == s.locks;
    assert s.locks[i] in multiset(s.locks);
  }

  /** Whoever is registered for the entity has the lock that is in the table. */
  ghost predicate RefersTo(s: Session, id: Id, tb: Table)
  {
    s.Registered? ==>
      && |s.locks| == |s.ids|
      && forall j :: 0 <= j < |s.ids| && s.ids[j] == id ==> id in tb.lockOf && s.locks[j] == tb.lockOf[id]
  }

  /** The table has an entry, with the number of consumers, exactly for the entities with
      registered consumers, and each of those refers to the lock in the table. */
  lemma OneLockPerEntity(run: seq<World>, i: nat, id: Id)
    requires IsRun(run) && i < |run|
    ensures var w := run[i];
            var n := Total(w.sessions, Consumes)[id];
            && (id in w.table.lockOf <==> n > 0) && (id in w.table.count <==> n > 0)
            && (n > 0 ==> w.table.count[id] == n)
            && (forall t :: 0 <= t < |w.sessions| ==> RefersTo(w.sessions[t], id, w.table))
  {
    RunInv(run, i);
    var w := run[i];
    forall t | 0 <= t < |w.sessions| ensures RefersTo(w.sessions[t], id, w.table) {
      assert SessionOk(w.table, w.sessions[t]);
    }
  }

  /** A lock object that was in the table and is no longer. */
  ghost predicate Dropped(w: World, l: Lock) { l < w.table.next && !Live(w.table, l) }

  lemma DroppedGrown(tb: Table, tb': Table, l: Lock)
    requires (Grown(tb, tb') || Shrunk(tb, tb')) && l < tb.next && !Live(tb, l)
    ensures l < tb'.next && !Live(tb', l)
  {
  }

  lemma DroppedStep(w: World, w': World, l: Lock)
    requires Inv(w) && Next(w, w') && Dropped(w, l)
    ensures Dropped(w', l)
  {
    hide LocksOk, Grown, Shrunk, Live;
    if t, i, u :| Regroups(w, t, i, u, w') {
      return;
    }
    var t :| 0 <= t < |w.sessions| && Step(w, t, w');
    match w.sessions[t]
    case Out =>
      var write: bool, ids: seq<Id> :| Begins(w, t, write, ids, w');
      RegisterAllOk(w.table, Total(w.sessions, Consumes), ids);
      DroppedGrown(w.table, w'.table, l);
    case Registered(_, ids, locks, k) =>
      if k >= |locks| {
        assert SessionOk(w.table, w.sessions[t]);
        TotalAt(w.sessions, t, Consumes);
        UnregisterAllOk(w.table, Total(w.sessions, Consumes), ids, locks);
        DroppedGrown(w.table, w'.table, l);
      }
    case Releasing(_, _) =>
  }

  /** A dropped lock object never comes back. */
  lemma {:induction false} DroppedForGood(run: seq<World>, i: nat, j: nat, l: Lock)
    requires IsRun(run) && i <= j < |run| && Dropped(run[i], l)
    ensures Dropped(run[j], l)
  {
    hide Inv, Next, Dropped, Init;
    if i < j {
      DroppedForGood(run, i, j - 1, l);
      RunInv(run, j - 1);
      assert Next(run[j - 1], run[j - 1 + 1]);
      DroppedStep(run[j - 1], run[j], l);
    }
  }

  /** However late a lock is released after it was dropped, the locks that are in the table by
      then, its replacement among them, stay as they are. */
  lemma LateReleaseHarmless(run: seq<World>, i: nat, j: nat, t: nat, l: Lock, id: Id)
    requires IsRun(run) && i <= j < |run| - 1 && Dropped(run[i], l)
    requires t < |run[j].sessions| && Step(run[j], t, run[j + 1])
    requires run[j].sessions[t].Releasing? && run[j].sessions[t].locks != [] && run[j].sessions[t].locks[0] == l
    requires id in run[j].table.lockOf
    ensures run[j + 1].table == run[j].table && run[j].table.lockOf[id] != l
    ensures LockState(run[j + 1].locks, run[j].table.lockOf[id]) == LockState(run[j].locks, run[j].table.lockOf[id])
  {
    DroppedForGood(run, i, j, l);
  }

  /** The lock in the table always counts exactly the goroutines that hold it now, whatever
      became of the locks the entity had before. */
  lemma TableLockExact(run: seq<World>, i: nat, id: Id)
    requires IsRun(run) && i < |run| && id in run[i].table.lockOf
    ensures var w, l := run[i], run[i].table.lockOf[id];
            && LockState(w.locks, l).readers == Total(w.sessions, ReadHolds)[l]
            && (LockState(w.locks, l).writer <==> Total(w.sessions, WriteHolds)[l] == 1)
  {
    RunInv(run, i);
    var w := run[i];
    var l := w.table.lockOf[id];
    assert Live(w.table, l);
    assert LockOk(w.table, LockState(w.locks, l), l, Total(w.sessions, ReadHolds)[l], Total(w.sessions, WriteHolds)[l]);
  }

  /** A session that waits for its next lock gets it if and only if no writer has it, and for
      writing nobody at all: readers do not keep each other out, however many there are. */
  lemma Admission(run: seq<World>, i: nat, t: nat)
    requires IsRun(run) && i < |run| && t < |run[i].sessions|
    requires run[i].sessions[t].Registered? && run[i].sessions[t].k < |run[i].sessions[t].locks|
    ensures var s := run[i].sessions[t];
            var l := s.locks[s.k];
            (exists w' :: Step(run[i], t, w')) <==>
              forall u :: 0 <= u < |run[i].sessions| ==>
                && l !in WriteHolds(run[i].sessions[u])
                && (s.write ==> l !in ReadHolds(run[i].sessions[u]))
  {
    RunInv(run, i);
    var w, s := run[i], run[i].sessions[t];
    var l := s.locks[s.k];
    assert SessionOk(w.table, s);
    TableLockExact(run, i, s.ids[s.k]);
    assert LockOk(w.table, LockState(w.locks, l), l, Total(w.sessions, ReadHolds)[l], Total(w.sessions, WriteHolds)[l]);
    TotalNone(w.sessions, l, ReadHolds);
    TotalNone(w.sessions, l, WriteHolds);
    if CanAcquire(LockState(w.locks, l), s.write) {
      var w' := w.(sessions := w.sessions[t := Registered(s.write, s.ids, s.locks, s.k + 1)],
                   locks := w.locks[l := Acquired(LockState(w.locks, l), s.write)]);
      assert Step(w, t, w');
    }
  }

  lemma {:induction false} TotalNone<T>(sessions: seq<Session>, x: T, f: Session -> multiset<T>)
    ensures Total(sessions, f)[x] == 0 <==> forall u :: 0 <= u < |sessions| ==> x !in f(sessions[u])
  {
    if sessions != [] {
      TotalNone(sessions[1..], x, f);
      assert forall u :: 0 < u < |sessions| ==> sessions[u] == sessions[1..][u - 1];
      assert forall u :: 0 <= u < |sessions| - 1 ==> sessions[1..][u] == sessions[u + 1];
    }
  }

  /** Any entities can be asked for at any time for reading, and any one for writing. */
  lemma CanAsk(w: World, t: nat, write: bool, ids: seq<Id>)
    requires t < |w.sessions| && w.sessions[t].Out? && (write ==> |ids| == 1)
    ensures exists w' :: Begins(w, t, write, ids, w') && Step(w, t, w')
  {
    var (tb, locks) := RegisterAll(w.table, ids);
    var w' := w.(sessions := w.sessions[t := Registered(write, ids, locks, 0)], table := tb);
    assert Begins(w, t, write, ids, w');
  }

  /** A session that has begun to lock certain entities holds exactly those once it has all its
      locks, in the mode it asked for. */
  lemma LocksWhatWasAsked(run: seq<World>, i: nat, t: nat, write: bool, ids: seq<Id>)
    requires IsRun(run) && i + 1 < |run| && t < |run[i].sessions| && run[i].sessions[t].Out? && Begins(run[i], t, write, ids, run[i + 1])
    ensures var s := run[i + 1].sessions[t];
            && s.Registered? && s.write == write && s.ids == ids && s.k == 0 && |s.locks| == |ids|
            && forall j :: 0 <= j < |ids| ==> ids[j] in run[i + 1].table.lockOf && run[i + 1].table.lockOf[ids[j]] == s.locks[j]
  {
    RunInv(run, i + 1);
    assert SessionOk(run[i + 1].table, run[i + 1].sessions[t]);
  }

  /** An unlock call releases the locks of its entities, each as often as it was locked; only the
      last consumer of an entity drops its lock without releasing it. */
  lemma ReleasesAllBut(run: seq<World>, i: nat, t: nat, id: Id)
    requires IsRun(run) && i + 1 < |run| && t < |run[i].sessions| && run[i].sessions[t].Registered? && Step(run[i], t, run[i + 1])
    requires run[i].sessions[t].k == |run[i].sessions[t].locks| && id in run[i].table.lockOf
    ensures var s, s' := run[i].sessions[t], run[i + 1].sessions[t];
            && s'.Releasing? && s'.write == s.write
            && multiset(s'.locks)[run[i].table.lockOf[id]] + (if id in run[i + 1].table.lockOf then 0 else 1) == multiset(s.ids)[id]
  {
    RunInv(run, i);
    var w, s := run[i], run[i].sessions[t];
    assert SessionOk(w.table, s);
    TotalAt(w.sessions, t, Consumes);
    HandedBackBut(w.table, Total(w.sessions, Consumes), s.ids, s.locks, id);
  }

  /** No matched run panics: the table knows every registered entity, and a lock that is
      released is held in the right mode. */
  lemma NoPanic(run: seq<World>, i: nat, t: nat)
    requires IsRun(run) && i < |run| && t < |run[i].sessions|
    ensures var s := run[i].sessions[t];
            && (s.Registered? ==> CanUnregisterAll(run[i].table, s.ids))
            && (s.Releasing? && s.locks != [] ==> CanRelease(LockState(run[i].locks, s.locks[0]), s.write))
  {
    RunInv(run, i);
    if run[i].sessions[t].Registered? {
      UnregisterAllowed(run[i], t);
    } else if run[i].sessions[t].Releasing? && run[i].sessions[t].locks != [] {
      ReleaseAllowed(run[i], t);
    }
  }

  lemma UnregisterAllowed(w: World, t: nat)
    requires Inv(w) && t < |w.sessions| && w.sessions[t].Registered?
    ensures CanUnregisterAll(w.table, w.sessions[t].ids)
  {
    var s := w.sessions[t];
    assert SessionOk(w.table, s);
    TotalAt(w.sessions, t, Consumes);
    UnregisterAllOk(w.table, Total(w.sessions, Consumes), s.ids, s.locks);
  }

  lemma ReleaseAllowed(w: World, t: nat)
    requires Inv(w) && t < |w.sessions| && w.sessions[t].Releasing? && w.sessions[t].locks != []
    ensures CanRelease(LockState(w.locks, w.sessions[t].locks[0]), w.sessions[t].write)
  {
    var s := w.sessions[t];
    var l := s.locks[0];
    assert l in multiset(s.locks);
    TotalAt(w.sessions, t, ReadHolds);
    TotalAt(w.sessions, t, WriteHolds);
    assert LockOk(w.table, LockState(w.locks, l), l, Total(w.sessions, ReadHolds)[l], Total(w.sessions, WriteHolds)[l]);
    assert ReadHolds(s)[l] <= Total(w.sessions, ReadHolds)[l];
    assert WriteHolds(s)[l] <= Total(w.sessions, WriteHolds)[l];
  }
}
