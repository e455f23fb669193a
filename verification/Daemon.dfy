/** The daemon that starts background workers and shuts them down in order. */
module Daemon {

  // ----- state -----------------------------------------------------------------------------

  /** What a worker's goroutine does: the handler, then Done on the wait group of its order,
      then the cleanup, and last the running flag is unset. */
  datatype Phase = Waiting | Handling | Returned | Signed | Cleaned | Over

  datatype Worker = Worker(name: string, order: int, phase: Phase, cancelled: bool)

  /** The running flag. */
  predicate Flag(w: Worker) { w.phase.Handling? || w.phase.Returned? || w.phase.Signed? || w.phase.Cleaned? }

  predicate InGroup(w: Worker) { w.phase.Handling? || w.phase.Returned? }

  predicate HasReturned(w: Worker) { !w.phase.Waiting? && !w.phase.Handling? }

  /** Where shutdown is: before it, with the stopped flag set, ended because the daemon did
      not run, in the loop of stopWorkers over the snapshot (saw: the worker at i was seen
      running), after it, with the running flag unset (inside: a registration may have had the
      lock at that moment and may have seen the flag set), or cleared. */
  datatype Stopper =
    | Idle | Flagged | Aborted
    | Loop(snap: seq<nat>, i: nat, prev: int, saw: bool)
    | Finished | Halted(inside: bool) | Cleared

  /** All workers there have been, the registered ones by name, the shutdown order, the
      wait groups by order. starting: Start is going through the workers under the lock. */
  datatype State = State(workers: seq<Worker>, reg: map<string, nat>, list: seq<string>, groups: map<int, int>,
                         running: bool, starting: bool, stopper: Stopper)

  function Stopped(d: State): bool { !d.stopper.Idle? }

  // ----- the shutdown order --------------------------------------------------------------------

  function Without(list: seq<string>, name: string): (r: seq<string>)
    ensures name !in list ==> r == list
    ensures |r| <= |list|
  {
    if list == [] then [] else if list[0] == name then list[1..] else [list[0]] + Without(list[1..], name)
  }

  lemma {:induction false} WithoutAt(list: seq<string>, name: string, i: nat)
    requires i < |list| && list[i] == name && name !in list[..i]
    ensures Without(list, name) == list[..i] + list[i + 1..]
  {
    if i > 0 {
      assert list[0] == list[..i][0] && list[1..][..i - 1] == list[..i][1..];
      WithoutAt(list[1..], name, i - 1);
    }
  }

  /** removeWorkerFromShutdownOrder: takes the name out of the slice and gives its new length. */
  method RemoveFromOrder(list: array<string>, name: string) returns (n: nat)
    modifies list
    ensures n <= list.Length && list[..n] == Without(old(list[..]), name)
  {
    n := list.Length;
    var i := 0;
    while i < list.Length
      invariant i <= n == list.Length && name !in list[..i] && list[..] == old(list[..])
    {
      if list[i] == name {
        hide Without;
        assert list[..i] == list[..][..i];
        WithoutAt(list[..], name, i);
        forall k | i <= k < list.Length - 1 {
          list[k] := list[k + 1];
        }
        list[list.Length - 1] := "";
        n := list.Length - 1;
        assert list[..n] == old(list[..])[..i] + old(list[..])[i + 1..];
        return;
      }
      i := i + 1;
    }
    assert list[..i] == list[..];
  }

  ghost predicate Distinct(list: seq<string>)
  {
    forall i, j :: 0 <= i < j < |list| ==> list[i] != list[j]
  }

  ghost predicate RegOk(workers: seq<Worker>, reg: map<string, nat>)
  {
    forall name :: name in reg ==> reg[name] < |workers| && workers[reg[name]].name == name
  }

  function OrderOf(workers: seq<Worker>, reg: map<string, nat>, name: string): int
  {
    if name in reg && reg[name] < |workers| then workers[reg[name]].order else 0
  }

  ghost predicate Descending(workers: seq<Worker>, reg: map<string, nat>, list: seq<string>)
  {
    forall i, j :: 0 <= i < j < |list| ==> OrderOf(workers, reg, list[i]) >= OrderOf(workers, reg, list[j])
  }

  /** Every registered worker once, the higher orders first. */
  ghost predicate ListOk(workers: seq<Worker>, reg: map<string, nat>, list: seq<string>)
  {
    Distinct(list) && (forall name :: name in list <==> name in reg) && Descending(workers, reg, list)
  }

  // ----- steps ------------------------------------------------------------------------------------

  function Bump(groups: map<int, int>, order: int, n: int): map<int, int>
  {
    groups[order := (if order in groups then groups[order] else 0) + n]
  }

  /** The running flag is set under the lock but unset without it, so whoever has the lock may
      have seen it set a moment ago. */
  predicate SeenRunning(d: State) { d.running || d.stopper == Halted(true) }

  /** A registration that gets the lock after the flag was unset does not see it set. */
  function LockTaken(st: Stopper): Stopper { if st.Halted? then Halted(false) else st }

  /** BackgroundWorker, when it releases the lock. The check of the stopped flag comes before, so
      it may have passed although the flag is set now. first and second are the two looks at the
      running flag. list' is what sort.Slice makes of the extended list. */
  ghost predicate Register(d: State, name: string, order: int, list': seq<string>, first: bool, second: bool, d': State)
  {
    && !d.starting && !d.stopper.Cleared? && RegOk(d.workers, d.reg)
    && (second ==> first) && (first ==> SeenRunning(d)) && (!second ==> !d.running)
    && if name in d.reg && (!first || Flag(d.workers[d.reg[name]])) then d' == d.(stopper := LockTaken(d.stopper))
       else
         var base := if name in d.reg then Without(d.list, name) else d.list;
         var w := Worker(name, order, if second then Handling else Waiting, false);
         var reg' := d.reg[name := |d.workers|];
         && d' == d.(workers := d.workers + [w], reg := reg', list := list',
                     groups := Bump(d.groups, order, if second then 1 else 0), stopper := LockTaken(d.stopper))
         && multiset(list') == multiset(base + [name])
         && Descending(d'.workers, reg', list')
  }

  /** Start, worker by worker. */
  ghost predicate StartBegin(d: State, d': State)
  {
    !d.starting && !d.stopper.Halted? && !d.stopper.Cleared? && !d.running && d' == d.(running := true, starting := true)
  }

  ghost predicate StartOne(d: State, id: nat, d': State)
  {
    && d.starting && id < |d.workers| && d.workers[id].phase.Waiting?
    && d.workers[id].name in d.reg && d.reg[d.workers[id].name] == id
    && d' == d.(workers := d.workers[id := d.workers[id].(phase := Handling)], groups := Bump(d.groups, d.workers[id].order, 1))
  }

  ghost predicate StartEnd(d: State, d': State)
  {
    && d.starting && RegOk(d.workers, d.reg)
    && (forall name :: name in d.reg ==> !d.workers[d.reg[name]].phase.Waiting?)
    && d' == d.(starting := false)
  }

  /** The handler returns, for whatever reason. */
  ghost predicate Return(d: State, id: nat, d': State)
  {
    && id < |d.workers| && d.workers[id].phase.Handling?
    && d' == d.(workers := d.workers[id := d.workers[id].(phase := Returned)])
  }

  ghost predicate SignOff(d: State, id: nat, d': State)
  {
    && id < |d.workers| && d.workers[id].phase.Returned?
    && d' == d.(workers := d.workers[id := d.workers[id].(phase := Signed)], groups := Bump(d.groups, d.workers[id].order, -1))
  }

  /** cleanupWorker */
  ghost predicate Cleanup(d: State, id: nat, d': State)
  {
    && id < |d.workers| && d.workers[id].phase.Signed? && !d.starting
    && var name, workers' := d.workers[id].name, d.workers[id := d.workers[id].(phase := Cleaned)];
       d' == if Stopped(d) then d.(workers := workers')
             else d.(workers := workers', reg := d.reg - {name}, list := Without(d.list, name))
  }

  ghost predicate FlagOff(d: State, id: nat, d': State)
  {
    && id < |d.workers| && d.workers[id].phase.Cleaned?
    && d' == d.(workers := d.workers[id := d.workers[id].(phase := Over)])
  }

  /** shutdown: the stopped flag, */
  ghost predicate StopFlag(d: State, d': State)
  {
    d.stopper.Idle? && d' == d.(stopper := Flagged)
  }

  /** then a copy of the workers in shutdown order, unless the daemon does not run, */
  ghost predicate Snapshot(d: State, snap: seq<nat>, d': State)
  {
    && d.stopper.Flagged?
    && if !d.running then d' == d.(stopper := Aborted)
       else
         && !d.starting && |snap| == |d.list| && (forall k :: 0 <= k < |d.list| ==> d.list[k] in d.reg && snap[k] == d.reg[d.list[k]])
         && (forall k :: 0 <= k < |snap| ==> snap[k] < |d.workers|)
         && d' == d.(stopper := if snap == [] then Finished else Loop(snap, 0, d.workers[snap[0]].order, false))
  }

  ghost predicate InLoop(d: State)
  {
    && d.stopper.Loop? && d.stopper.i < |d.stopper.snap|
    && d.stopper.snap[d.stopper.i] < |d.workers|
  }

  function Cancelled(workers: seq<Worker>, id: nat): seq<Worker>
    requires id < |workers|
  {
    workers[id := workers[id].(cancelled := true)]
  }

  /** then, for each worker, a look at its running flag: one that does not run is cancelled
      and passed over, */
  ghost predicate Look(d: State, d': State)
  {
    && InLoop(d) && !d.stopper.saw
    && var id := d.stopper.snap[d.stopper.i];
       d' == if Flag(d.workers[id]) then d.(stopper := d.stopper.(saw := true))
             else d.(workers := Cancelled(d.workers, id), stopper := d.stopper.(i := d.stopper.i + 1))
  }

  /** for one of a lower order the wait group of the previous order must be done first, */
  ghost predicate Waited(d: State, d': State)
  {
    && InLoop(d) && d.stopper.saw
    && var order := d.workers[d.stopper.snap[d.stopper.i]].order;
       && order < d.stopper.prev && d.stopper.prev in d.groups && d.groups[d.stopper.prev] == 0
       && d' == d.(stopper := d.stopper.(prev := order))
  }

  /** and then it is cancelled; */
  ghost predicate CancelSeen(d: State, d': State)
  {
    && InLoop(d) && d.stopper.saw
    && var id := d.stopper.snap[d.stopper.i];
       && !(d.workers[id].order < d.stopper.prev)
       && d' == d.(workers := Cancelled(d.workers, id), stopper := d.stopper.(i := d.stopper.i + 1, saw := false))
  }

  /** the last order is waited for, */
  ghost predicate LastWait(d: State, d': State)
  {
    && d.stopper.Loop? && d.stopper.i == |d.stopper.snap| && d.stopper.prev in d.groups && d.groups[d.stopper.prev] == 0
    && d' == d.(stopper := Finished)
  }

  /** the running flag is unset, */
  ghost predicate Halt(d: State, d': State)
  {
    d.stopper.Finished? && d' == d.(running := false, stopper := Halted(true))
  }

  /** and the daemon is cleared under the lock. */
  ghost predicate Clear(d: State, d': State)
  {
    d.stopper.Halted? && !d.starting && d' == d.(reg := map[], list := [], stopper := Cleared)
  }

  ghost predicate Step(d: State, d': State)
  {
    || (exists name, order, list', first, second :: Register(d, name, order, list', first, second, d'))
    || StartBegin(d, d') || (exists id :: StartOne(d, id, d')) || StartEnd(d, d')
    || (exists id :: Return(d, id, d')) || (exists id :: SignOff(d, id, d'))
    || (exists id :: Cleanup(d, id, d')) || (exists id :: FlagOff(d, id, d'))
    || StopFlag(d, d') || (exists snap :: Snapshot(d, snap, d'))
    || Look(d, d') || Waited(d, d') || CancelSeen(d, d') || LastWait(d, d')
    || Halt(d, d') || Clear(d, d')
  }

  ghost predicate Initial(d: State) { d == State([], map[], [], map[], false, false, Idle) }

  ghost predicate IsRun(run: seq<State>)
  {
    && run != [] && Initial(run[0])
    && forall i :: 0 <= i < |run| - 1 ==> Step(run[i], run[i + 1])
  }

  // ----- the invariant -------------------------------------------------------------------------

  function CountIn(workers: seq<Worker>, order: int): nat
  {
    if workers == [] then 0
    else CountIn(workers[..|workers| - 1], order) + Part(workers[|workers| - 1], order)
  }

  function Part(w: Worker, order: int): nat { if w.order == order && InGroup(w) then 1 else 0 }

  lemma {:induction false} CountUpdate(workers: seq<Worker>, id: nat, w: Worker, order: int)
    requires id < |workers|
    ensures CountIn(workers[id := w], order) == CountIn(workers, order) - Part(workers[id], order) + Part(w, order)
  {
    var n := |workers| - 1;
    if id == n {
      assert workers[id := w][..n] == workers[..n];
    } else {
      assert workers[id := w][..n] == workers[..n][id := w];
      CountUpdate(workers[..n], id, w, order);
    }
  }

  lemma {:induction false} CountAtLeast(workers: seq<Worker>, id: nat, order: int)
    requires id < |workers|
    ensures CountIn(workers, order) >= Part(workers[id], order)
  {
    if id < |workers| - 1 {
      CountAtLeast(workers[..|workers| - 1], id, order);
    }
  }

  ghost predicate GroupsOk(workers: seq<Worker>, groups: map<int, int>)
  {
    && (forall id :: 0 <= id < |workers| ==> workers[id].order in groups)
    && (forall order :: order in groups ==> groups[order] == CountIn(workers, order))
  }

  /** Until its cleanup, a worker is the one registered under its name. */
  ghost predicate Owned(workers: seq<Worker>, reg: map<string, nat>)
  {
    forall id :: 0 <= id < |workers| && !workers[id].phase.Cleaned? && !workers[id].phase.Over? ==>
      workers[id].name in reg && reg[workers[id].name] == id
  }

  /** The loop of stopWorkers: what has been passed is cancelled, and is of the order to be
      waited for next or has returned. */
  ghost predicate LoopOk(workers: seq<Worker>, groups: map<int, int>, snap: seq<nat>, i: nat, prev: int)
  {
    && i <= |snap| && prev in groups
    && (forall k :: 0 <= k < |snap| ==> snap[k] < |workers| && !workers[snap[k]].phase.Waiting?)
    && (forall j, k :: 0 <= j < k < |snap| ==> workers[snap[j]].order >= workers[snap[k]].order)
    && (forall k :: 0 <= k < i ==> workers[snap[k]].cancelled)
    && (forall k :: 0 <= k < i ==> workers[snap[k]].order == prev || HasReturned(workers[snap[k]]))
    && (forall k :: i <= k < |snap| ==> workers[snap[k]].order <= prev)
  }

  ghost predicate Inv(d: State)
  {
    && RegOk(d.workers, d.reg) && ListOk(d.workers, d.reg, d.list) && GroupsOk(d.workers, d.groups)
    && (!d.stopper.Cleared? ==> Owned(d.workers, d.reg))
    && (d.starting ==> d.running && !d.stopper.Cleared?)
    && (d.stopper.Loop? || d.stopper.Finished? ==> d.running && !d.starting)
    && (SeenRunning(d) && !d.starting ==> forall id :: 0 <= id < |d.workers| ==> !d.workers[id].phase.Waiting?)
    && (d.stopper.Loop? ==> LoopOk(d.workers, d.groups, d.stopper.snap, d.stopper.i, d.stopper.prev))
    && (d.stopper.Loop? && d.stopper.saw ==> d.stopper.i < |d.stopper.snap|)
  }

  /** How workers change: never backwards. */
  ghost predicate Later(workers: seq<Worker>, workers': seq<Worker>)
  {
    && |workers| <= |workers'|
    && forall id :: 0 <= id < |workers| ==> LaterOne(workers[id], workers'[id])
  }

  predicate LaterOne(w: Worker, w': Worker)
  {
    && w'.name == w.name && w'.order == w.order && (w.cancelled ==> w'.cancelled)
    && (HasReturned(w) ==> HasReturned(w')) && (!w.phase.Waiting? ==> !w'.phase.Waiting?)
  }

  lemma LaterKeeps(workers: seq<Worker>, workers': seq<Worker>, reg: map<string, nat>, list: seq<string>)
    requires Later(workers, workers') && RegOk(workers, reg) && ListOk(workers, reg, list)
    ensures RegOk(workers', reg) && ListOk(workers', reg, list)
  {
    assert forall name :: name in reg ==> OrderOf(workers', reg, name) == OrderOf(workers, reg, name);
  }

  lemma LaterLoop(workers: seq<Worker>, workers': seq<Worker>, groups: map<int, int>, groups': map<int, int>,
                  snap: seq<nat>, i: nat, prev: int)
    requires Later(workers, workers') && groups.Keys <= groups'.Keys && LoopOk(workers, groups, snap, i, prev)
    ensures LoopOk(workers', groups', snap, i, prev)
  {
  }

  predicate BeforeCleanup(w: Worker) { !w.phase.Cleaned? && !w.phase.Over? }

  lemma UpdateGroups(workers: seq<Worker>, groups: map<int, int>, id: nat, w: Worker, groups': map<int, int>)
    requires GroupsOk(workers, groups) && id < |workers| && groups'.Keys == groups.Keys && w.order == workers[id].order
    requires forall order :: order in groups ==> groups'[order] == groups[order] - Part(workers[id], order) + Part(w, order)
    ensures GroupsOk(workers[id := w], groups')
  {
    forall order | order in groups' ensures groups'[order] == CountIn(workers[id := w], order) {
      CountUpdate(workers, id, w, order);
    }
  }

  /** One worker goes on. */
  lemma WorkerInv(d: State, id: nat, w: Worker, d': State)
    requires Inv(d) && id < |d.workers| && LaterOne(d.workers[id], w) && (BeforeCleanup(w) ==> BeforeCleanup(d.workers[id]))
    requires d' == d.(workers := d.workers[id := w], groups := d'.groups) && d'.groups.Keys == d.groups.Keys
    requires forall order :: order in d.groups ==>
      d'.groups[order] == d.groups[order] - Part(d.workers[id], order) + Part(w, order)
    ensures Inv(d')
  {
    hide ListOk, RegOk, LoopOk, GroupsOk;
    assert Later(d.workers, d'.workers);
    LaterKeeps(d.workers, d'.workers, d.reg, d.list);
    UpdateGroups(d.workers, d.groups, id, w, d'.groups);
    if d.stopper.Loop? {
      LaterLoop(d.workers, d'.workers, d.groups, d'.groups, d.stopper.snap, d.stopper.i, d.stopper.prev);
    }
  }

  lemma StartInv(d: State, d': State)
    requires Inv(d)
    requires StartBegin(d, d') || (exists id :: StartOne(d, id, d')) || StartEnd(d, d')
    ensures Inv(d')
  {
    hide ListOk, LoopOk;
    if id: nat :| StartOne(d, id, d') {
      WorkerInv(d, id, d.workers[id].(phase := Handling), d');
    }
  }

  lemma GoroutineInv(d: State, d': State)
    requires Inv(d)
    requires (exists id :: Return(d, id, d')) || (exists id :: SignOff(d, id, d')) || (exists id :: FlagOff(d, id, d'))
    ensures Inv(d')
  {
    hide ListOk, RegOk, LoopOk, Owned;
    if id: nat :| Return(d, id, d') {
      WorkerInv(d, id, d.workers[id].(phase := Returned), d');
    } else if id: nat :| SignOff(d, id, d') {
      WorkerInv(d, id, d.workers[id].(phase := Signed), d');
    } else {
      var id: nat :| FlagOff(d, id, d');
      WorkerInv(d, id, d.workers[id].(phase := Over), d');
    }
  }

  lemma WithoutIs(list: seq<string>, name: string)
    requires Distinct(list)
    ensures var r := Without(list, name);
            && Distinct(r) && (forall n :: n in r <==> n in list && n != name)
            && (name in list ==> exists k :: 0 <= k < |list| && list[k] == name && r == list[..k] + list[k + 1..])
  {
    if name in list {
      var k :| 0 <= k < |list| && list[k] == name;
      hide Without;
      assert name !in list[..k];
      WithoutAt(list, name, k);
      CutDistinct(list, k);
    }
  }

  lemma CutDistinct(list: seq<string>, k: nat)
    requires Distinct(list) && k < |list|
    ensures var r := list[..k] + list[k + 1..];
            Distinct(r) && forall n :: n in r <==> n in list && n != list[k]
  {
    var r := list[..k] + list[k + 1..];
    assert forall i :: 0 <= i < |r| ==> r[i] == list[if i < k then i else i + 1];
    forall n | n in list && n != list[k] ensures n in r {
      var j :| 0 <= j < |list| && list[j] == n;
      assert r[if j < k then j else j - 1] == n;
    }
  }

  lemma DescendingCut(workers: seq<Worker>, reg: map<string, nat>, list: seq<string>, k: nat)
    requires Descending(workers, reg, list) && k < |list|
    ensures Descending(workers, reg, list[..k] + list[k + 1..])
  {
    var r := list[..k] + list[k + 1..];
    assert forall i :: 0 <= i < |r| ==> r[i] == list[if i < k then i else i + 1];
  }

  /** The list is still descending if the orders of its own names stay. */
  lemma DescendingAgain(workers: seq<Worker>, reg: map<string, nat>, workers': seq<Worker>, reg': map<string, nat>,
                        list: seq<string>)
    requires Descending(workers, reg, list)
    requires forall n :: n in list ==> OrderOf(workers', reg', n) == OrderOf(workers, reg, n)
    ensures Descending(workers', reg', list)
  {
  }

  lemma UnregisterList(workers: seq<Worker>, reg: map<string, nat>, list: seq<string>, name: string)
    requires RegOk(workers, reg) && ListOk(workers, reg, list)
    ensures RegOk(workers, reg - {name}) && ListOk(workers, reg - {name}, Without(list, name))
  {
    hide Without, Descending, Distinct;
    var r := Without(list, name);
    WithoutIs(list, name);
    if name in list {
      var k :| 0 <= k < |list| && list[k] == name && r == list[..k] + list[k + 1..];
      DescendingCut(workers, reg, list, k);
    }
    DescendingAgain(workers, reg, workers, reg - {name}, r);
  }

  lemma CleanupInv(d: State, id: nat, d': State)
    requires Inv(d) && Cleanup(d, id, d')
    ensures Inv(d')
  {
    hide ListOk, RegOk, LoopOk, GroupsOk, Without;
    var d1 := d.(workers := d.workers[id := d.workers[id].(phase := Cleaned)]);
    WorkerInv(d, id, d.workers[id].(phase := Cleaned), d1);
    if !Stopped(d) {
      UnregisterList(d1.workers, d1.reg, d1.list, d.workers[id].name);
    }
  }

  lemma {:induction false} DistinctOnce(list: seq<string>, x: string)
    requires Distinct(list)
    ensures multiset(list)[x] <= 1
  {
    if list != [] {
      var n := |list| - 1;
      DistinctOnce(list[..n], x);
      assert list == list[..n] + [list[n]];
      if list[n] == x {
        assert x !in list[..n];
      }
    }
  }

  lemma PermutedDistinct(list: seq<string>, list': seq<string>)
    requires Distinct(list) && multiset(list') == multiset(list)
    ensures Distinct(list') && forall n :: n in list' <==> n in list
  {
    forall i, j | 0 <= i < j < |list'| ensures list'[i] != list'[j] {
      assert list' == list'[..j] + [list'[j]] + list'[j + 1..];
      assert list'[i] in list'[..j];
      DistinctOnce(list, list'[j]);
    }
    forall n ensures n in list' <==> n in list {
      assert n in multiset(list') <==> n in multiset(list);
    }
  }

  lemma RegisterList(workers: seq<Worker>, reg: map<string, nat>, list: seq<string>, w: Worker, list': seq<string>)
    requires RegOk(workers, reg) && ListOk(workers, reg, list)
    requires multiset(list') == multiset((if w.name in reg then Without(list, w.name) else list) + [w.name])
    requires Descending(workers + [w], reg[w.name := |workers|], list')
    ensures RegOk(workers + [w], reg[w.name := |workers|]) && ListOk(workers + [w], reg[w.name := |workers|], list')
  {
    hide Without, Descending;
    var base := if w.name in reg then Without(list, w.name) else list;
    WithoutIs(list, w.name);
    PermutedDistinct(base + [w.name], list');
  }

  lemma CountMore(workers: seq<Worker>, w: Worker, order: int)
    ensures CountIn(workers + [w], order) == CountIn(workers, order) + Part(w, order)
  {
    assert (workers + [w])[..|workers|] == workers;
  }

  lemma RegisterGroups(workers: seq<Worker>, groups: map<int, int>, w: Worker, n: int)
    requires GroupsOk(workers, groups) && n == Part(w, w.order)
    ensures GroupsOk(workers + [w], Bump(groups, w.order, n))
  {
    hide CountIn;
    var groups' := Bump(groups, w.order, n);
    if w.order !in groups {
      NoneIn(workers, groups, w.order);
    }
    forall order | order in groups' ensures groups'[order] == CountIn(workers + [w], order) {
      CountMore(workers, w, order);
    }
  }

  lemma {:induction false} NoneIn(workers: seq<Worker>, groups: map<int, int>, order: int)
    requires order !in groups && forall id :: 0 <= id < |workers| ==> workers[id].order in groups
    ensures CountIn(workers, order) == 0
  {
    if workers != [] {
      NoneIn(workers[..|workers| - 1], groups, order);
    }
  }

  lemma RegisterInv(d: State, name: string, order: int, list': seq<string>, first: bool, second: bool, d': State)
    requires Inv(d) && Register(d, name, order, list', first, second, d')
    ensures Inv(d')
  {
    hide ListOk, LoopOk, GroupsOk, Descending, Without, Later;
    if d'.workers != d.workers {
      var w := d'.workers[|d.workers|];
      RegisterList(d.workers, d.reg, d.list, w, list');
      RegisterGroups(d.workers, d.groups, w, if second then 1 else 0);
      RegisterOwned(d.workers, d.reg, w);
      hide Owned, RegOk;
      if d.stopper.Loop? {
        LaterMore(d.workers, w);
        LaterLoop(d.workers, d'.workers, d.groups, d'.groups, d.stopper.snap, d.stopper.i, d.stopper.prev);
      }
    }
  }

  /** The worker that is replaced is over. */
  lemma RegisterOwned(workers: seq<Worker>, reg: map<string, nat>, w: Worker)
    requires RegOk(workers, reg) && Owned(workers, reg)
    requires w.name in reg ==> workers[reg[w.name]].phase.Over?
    ensures Owned(workers + [w], reg[w.name := |workers|])
  {
  }

  lemma LaterMore(workers: seq<Worker>, w: Worker)
    ensures Later(workers, workers + [w])
  {
  }

  // ----- stopping --------------------------------------------------------------------------------

  lemma {:induction false} NobodyIn(workers: seq<Worker>, order: int, id: nat)
    requires CountIn(workers, order) == 0 && id < |workers| && workers[id].order == order
    ensures !InGroup(workers[id])
  {
    CountAtLeast(workers, id, order);
  }

  lemma SnapshotInv(d: State, snap: seq<nat>, d': State)
    requires Inv(d) && Snapshot(d, snap, d')
    ensures Inv(d')
  {
    hide CountIn;
    if d'.stopper.Loop? {
      forall j, k | 0 <= j < k < |snap| ensures d.workers[snap[j]].order >= d.workers[snap[k]].order {
        assert OrderOf(d.workers, d.reg, d.list[j]) >= OrderOf(d.workers, d.reg, d.list[k]);
      }
    }
  }

  /** The loop passes a worker that does not run: it has returned before. */
  lemma LookInv(d: State, d': State)
    requires Inv(d) && Look(d, d')
    ensures Inv(d')
  {
    hide CountIn, ListOk, RegOk;
    var st := d.stopper;
    var id := st.snap[st.i];
    if !Flag(d.workers[id]) {
      var d1 := d.(workers := Cancelled(d.workers, id));
      WorkerInv(d, id, d.workers[id].(cancelled := true), d1);
    }
  }

  lemma WaitedInv(d: State, d': State)
    requires Inv(d) && Waited(d, d')
    ensures Inv(d')
  {
    hide CountIn, ListOk, RegOk;
    var st := d.stopper;
    forall k | 0 <= k < st.i ensures HasReturned(d.workers[st.snap[k]]) {
      if d.workers[st.snap[k]].order == st.prev {
        NobodyIn(d.workers, st.prev, st.snap[k]);
      }
    }
  }

  lemma CancelSeenInv(d: State, d': State)
    requires Inv(d) && CancelSeen(d, d')
    ensures Inv(d')
  {
    hide CountIn, ListOk, RegOk;
    var st := d.stopper;
    var id := st.snap[st.i];
    var d1 := d.(workers := Cancelled(d.workers, id));
    WorkerInv(d, id, d.workers[id].(cancelled := true), d1);
  }

  lemma StepInv(d: State, d': State)
    requires Inv(d) && Step(d, d')
    ensures Inv(d')
  {
    hide Inv, Return, SignOff, FlagOff, Cleanup, Register, Snapshot, Look, Waited, CancelSeen, StartBegin, StartOne, StartEnd;
    if name, order, list', first, second :| Register(d, name, order, list', first, second, d') {
      RegisterInv(d, name, order, list', first, second, d');
    } else if StartBegin(d, d') || (exists id :: StartOne(d, id, d')) || StartEnd(d, d') {
      StartInv(d, d');
    } else if (exists id :: Return(d, id, d')) || (exists id :: SignOff(d, id, d')) || (exists id :: FlagOff(d, id, d')) {
      GoroutineInv(d, d');
    } else if id: nat :| Cleanup(d, id, d') {
      CleanupInv(d, id, d');
    } else if snap :| Snapshot(d, snap, d') {
      SnapshotInv(d, snap, d');
    } else if Look(d, d') {
      LookInv(d, d');
    } else if Waited(d, d') {
      WaitedInv(d, d');
    } else if CancelSeen(d, d') {
      CancelSeenInv(d, d');
    } else {
      EndInv(d, d');
    }
  }

  lemma EndInv(d: State, d': State)
    requires Inv(d) && (StopFlag(d, d') || LastWait(d, d') || Halt(d, d') || Clear(d, d'))
    ensures Inv(d')
  {
  }

  lemma {:induction false} RunInv(run: seq<State>, i: nat)
    requires IsRun(run) && i < |run|
    ensures Inv(run[i])
  {
    if i > 0 {
      RunInv(run, i - 1);
      StepInv(run[i - 1], run[i]);
    }
  }

  // ----- what holds in every run ------------------------------------------------------------------

  /** The shutdown order always lists each registered worker once, higher orders first. */
  lemma ShutdownOrder(run: seq<State>, i: nat)
    requires IsRun(run) && i < |run|
    ensures ListOk(run[i].workers, run[i].reg, run[i].list)
  {
    RunInv(run, i);
  }

  /** stopWorkers cancels a worker that it saw running only when every worker of the snapshot
      with a higher order has returned from its handler. */
  lemma HigherOrdersFirst(run: seq<State>, i: nat, k: nat)
    requires IsRun(run) && i + 1 < |run| && CancelSeen(run[i], run[i + 1]) && k < |run[i].stopper.snap|
    ensures var d := run[i];
            && d.stopper.snap[k] < |d.workers|
            && (d.workers[d.stopper.snap[k]].order > d.workers[d.stopper.snap[d.stopper.i]].order ==>
                  HasReturned(d.workers[d.stopper.snap[k]]))
  {
    RunInv(run, i);
  }

  /** When stopWorkers ends, every worker of the snapshot has returned. */
  lemma AllReturned(run: seq<State>, i: nat, k: nat)
    requires IsRun(run) && i + 1 < |run| && LastWait(run[i], run[i + 1]) && k < |run[i].stopper.snap|
    ensures run[i].stopper.snap[k] < |run[i].workers| && HasReturned(run[i].workers[run[i].stopper.snap[k]])
  {
    RunInv(run, i);
    var d := run[i];
    var id := d.stopper.snap[k];
    if d.workers[id].order == d.stopper.prev {
      NobodyIn(d.workers, d.stopper.prev, id);
    }
  }

  /** While stopWorkers waits for an order, every worker of the snapshot with this order has
      been cancelled. */
  lemma WaitsForCancelled(run: seq<State>, i: nat, k: nat)
    requires IsRun(run) && i < |run| && run[i].stopper.Loop? && k < |run[i].stopper.snap|
    requires var d := run[i];
             var st := d.stopper;
             st.i == |st.snap| || (InLoop(d) && st.saw && d.workers[st.snap[st.i]].order < st.prev)
    ensures var d := run[i];
            && d.stopper.prev in d.groups && d.stopper.snap[k] < |d.workers|
            && (d.workers[d.stopper.snap[k]].order == d.stopper.prev ==> d.workers[d.stopper.snap[k]].cancelled)
  {
    RunInv(run, i);
  }

  /** The cleanup of a finished worker takes out its own registration. */
  lemma CleanupOwn(run: seq<State>, i: nat, id: nat)
    requires IsRun(run) && i + 1 < |run| && Cleanup(run[i], id, run[i + 1]) && !Stopped(run[i])
    ensures run[i].workers[id].name in run[i].reg && run[i].reg[run[i].workers[id].name] == id
    ensures var name := run[i].workers[id].name;
            && name !in run[i + 1].reg && name !in run[i + 1].list
            && forall n :: n in run[i].reg && n != name ==> n in run[i + 1].reg && run[i + 1].reg[n] == run[i].reg[n]
  {
    RunInv(run, i);
    WithoutIs(run[i].list, run[i].workers[id].name);
  }

  // ----- what was asked for --------------------------------------------------------------------------

  /** A registration is refused exactly if its name is taken by a worker and the daemon was not seen
      running or that worker is still running. Otherwise there is a new worker with the name and
      the order that were asked for; it is started exactly if the daemon was seen running. */
  lemma RegisterSays(d: State, name: string, order: int, list': seq<string>, first: bool, second: bool, d': State)
    requires Inv(d) && Register(d, name, order, list', first, second, d')
    ensures name in d'.reg && d'.reg[name] < |d'.workers| && name in d'.list
    ensures var refused := name in d.reg && (!first || Flag(d.workers[d.reg[name]]));
            && (refused ==> d'.workers == d.workers && d'.reg == d.reg && d'.list == d.list && d'.groups == d.groups)
            && (!refused ==>
                  && d'.reg[name] == |d.workers| && |d'.workers| == |d.workers| + 1 && d'.workers[..|d.workers|] == d.workers
                  && d'.workers[|d.workers|].name == name && d'.workers[|d.workers|].order == order
                  && !d'.workers[|d.workers|].cancelled
                  && (d'.workers[|d.workers|].phase == if second then Handling else Waiting)
                  && (forall n :: n in d.reg && n != name ==> n in d'.reg && d'.reg[n] == d.reg[n]))
  {
    RegisterInv(d, name, order, list', first, second, d');
    assert ListOk(d'.workers, d'.reg, d'.list);
  }

  lemma UpdateLater(workers: seq<Worker>, id: nat, w: Worker)
    requires id < |workers| && LaterOne(workers[id], w)
    ensures Later(workers, workers[id := w])
  {
  }

  lemma SameLater(workers: seq<Worker>)
    ensures Later(workers, workers)
  {
  }

  lemma LaterTransitive(a: seq<Worker>, b: seq<Worker>, c: seq<Worker>)
    requires Later(a, b) && Later(b, c)
    ensures Later(a, c)
  {
    forall id | 0 <= id < |a| ensures LaterOne(a[id], c[id]) {
      assert LaterOne(a[id], b[id]) && LaterOne(b[id], c[id]);
    }
  }

  lemma RegisterLater(d: State, name: string, order: int, list': seq<string>, first: bool, second: bool, d': State)
    requires Register(d, name, order, list', first, second, d')
    ensures Later(d.workers, d'.workers)
  {
    hide Later;
    SameLater(d.workers);
    if d'.workers != d.workers {
      LaterMore(d.workers, d'.workers[|d.workers|]);
    }
  }

  lemma WorkLater(d: State, id: nat, d': State)
    requires StartOne(d, id, d') || Return(d, id, d') || SignOff(d, id, d') || Cleanup(d, id, d') || FlagOff(d, id, d')
    ensures Later(d.workers, d'.workers)
  {
    hide Later;
    UpdateLater(d.workers, id, d'.workers[id]);
  }

  lemma StopLater(d: State, d': State)
    requires Look(d, d') || CancelSeen(d, d')
    ensures Later(d.workers, d'.workers)
  {
    hide Later;
    SameLater(d.workers);
    var id := d.stopper.snap[d.stopper.i];
    UpdateLater(d.workers, id, d.workers[id].(cancelled := true));
  }

  lemma StepLater(d: State, d': State)
    requires Step(d, d')
    ensures Later(d.workers, d'.workers)
  {
    hide Later, Register, StartOne, Return, SignOff, Cleanup, FlagOff, Look, CancelSeen;
    if name, order, list', first, second :| Register(d, name, order, list', first, second, d') {
      RegisterLater(d, name, order, list', first, second, d');
    } else if id: nat :| StartOne(d, id, d') || Return(d, id, d') || SignOff(d, id, d') || Cleanup(d, id, d') || FlagOff(d, id, d') {
      WorkLater(d, id, d');
    } else if Look(d, d') || CancelSeen(d, d') {
      StopLater(d, d');
    } else {
      SameLater(d.workers);
    }
  }

  /** A worker keeps its name and order. */
  lemma {:induction false} RunLater(run: seq<State>, i: nat, j: nat)
    requires IsRun(run) && i <= j < |run|
    ensures Later(run[i].workers, run[j].workers)
  {
    hide Later, Step, Initial;
    SameLater(run[i].workers);
    if i < j {
      RunLater(run, i, j - 1);
      assert Step(run[j - 1], run[j - 1 + 1]);
      StepLater(run[j - 1], run[j]);
      LaterTransitive(run[i].workers, run[j - 1].workers, run[j].workers);
    }
  }

  /** The step has registered a new worker under the name, with the order asked for. */
  ghost predicate Accepted(d: State, name: string, order: int, d': State)
  {
    && |d'.workers| > |d.workers|
    && exists list', first, second :: Register(d, name, order, list', first, second, d')
  }

  lemma AcceptedStays(run: seq<State>, i: nat, j: nat, name: string, order: int)
    requires IsRun(run) && i < j < |run| && Accepted(run[i], name, order, run[i + 1])
    ensures var id := |run[i].workers|;
            id < |run[j].workers| && run[j].workers[id].name == name && run[j].workers[id].order == order
  {
    hide Inv, Step, Initial, Register;
    var d, d' := run[i], run[i + 1];
    var list', first, second :| Register(d, name, order, list', first, second, d');
    RunInv(run, i);
    RegisterSays(d, name, order, list', first, second, d');
    RunLater(run, i + 1, j);
    assert LaterOne(d'.workers[|d.workers|], run[j].workers[|d.workers|]);
  }

  /** Of two workers, the one for which the higher order was asked is shut down first: when
      stopWorkers cancels the other, having seen it running, it has returned from its handler. */
  lemma HigherRequestFirst(run: seq<State>, j: nat, i1: nat, name1: string, order1: int, i2: nat, name2: string, order2: int, k: nat)
    requires IsRun(run) && i1 < j && i2 < j && j + 1 < |run| && CancelSeen(run[j], run[j + 1]) && k < |run[j].stopper.snap|
    requires Accepted(run[i1], name1, order1, run[i1 + 1]) && Accepted(run[i2], name2, order2, run[i2 + 1]) && order1 > order2
    requires run[j].stopper.snap[k] == |run[i1].workers| && run[j].stopper.snap[run[j].stopper.i] == |run[i2].workers|
    ensures |run[i1].workers| < |run[j].workers| && HasReturned(run[j].workers[|run[i1].workers|])
  {
    hide Step, Initial, Accepted, HasReturned;
    AcceptedStays(run, i1, j, name1, order1);
    AcceptedStays(run, i2, j, name2, order2);
    HigherOrdersFirst(run, j, k);
  }

  /** Every worker that is registered when stopWorkers copies the list is in the copy. */
  lemma SnapshotComplete(run: seq<State>, i: nat, snap: seq<nat>, name: string)
    requires IsRun(run) && i + 1 < |run| && Snapshot(run[i], snap, run[i + 1]) && run[i].running && name in run[i].reg
    ensures run[i].reg[name] in snap && run[i + 1].stopper.Loop? && run[i + 1].stopper.snap == snap && run[i + 1].stopper.i == 0
  {
    RunInv(run, i);
    var d := run[i];
    assert name in d.list;
    var k :| 0 <= k < |d.list| && d.list[k] == name;
    assert snap[k] == d.reg[name];
  }

  // ----- shutdown comes to an end ------------------------------------------------------------------------

  function PhaseLeft(w: Worker): nat
  {
    match w.phase
    case Waiting => 5
    case Handling => 4
    case Returned => 3
    case Signed => 2
    case Cleaned => 1
    case Over => 0
  }

  function WorkersLeft(workers: seq<Worker>): nat
  {
    if workers == [] then 0
    else WorkersLeft(workers[..|workers| - 1]) + PhaseLeft(workers[|workers| - 1])
  }

  lemma {:induction false} LeftUpdate(workers: seq<Worker>, id: nat, w: Worker)
    requires id < |workers|
    ensures WorkersLeft(workers[id := w]) == WorkersLeft(workers) - PhaseLeft(workers[id]) + PhaseLeft(w)
  {
    var n := |workers| - 1;
    if id == n {
      assert workers[id := w][..n] == workers[..n];
    } else {
      assert workers[id := w][..n] == workers[..n][id := w];
      LeftUpdate(workers[..n], id, w);
    }
  }

  function StopLeft(d: State): nat
  {
    match d.stopper
    case Idle => 3 * |d.list| + 10
    case Flagged => 3 * |d.list| + 9
    case Aborted => 0
    case Loop(snap, i, prev, saw) =>
      5 + (if i <= |snap| then 3 * (|snap| - i) else 0)
        + (if !saw then 2 else if i < |snap| && snap[i] < |d.workers| && d.workers[snap[i]].order < prev then 1 else 0)
    case Finished => 3
    case Halted(_) => 2
    case Cleared => 0
  }

  function AllLeft(d: State): nat
  {
    WorkersLeft(d.workers) + StopLeft(d) + if d.starting then 1 else 0
  }

  /** A worker that has begun and is not over. */
  predicate Active(w: Worker) { !w.phase.Waiting? && !w.phase.Over? }

  /** The daemon runs, or its shutdown has come past that point. */
  predicate Stoppable(d: State) { d.running || d.stopper.Halted? || d.stopper.Cleared? }

  lemma WorkerStep(d: State, id: nat) returns (d': State)
    requires Inv(d) && !d.starting && id < |d.workers| && Active(d.workers[id])
    ensures Step(d, d') && AllLeft(d') < AllLeft(d) && d'.running == d.running && d'.stopper == d.stopper
  {
    var w := d.workers[id];
    if w.phase.Signed? {
      d' := CleanupStep(d, id);
    } else {
      var w' := w.(phase := if w.phase.Handling? then Returned else if w.phase.Returned? then Signed else Over);
      d' := d.(workers := d.workers[id := w'], groups := if w.phase.Returned? then Bump(d.groups, w.order, -1) else d.groups);
      assert Return(d, id, d') || SignOff(d, id, d') || FlagOff(d, id, d');
      LessLeft(d, id, w', d');
    }
  }

  lemma CleanupStep(d: State, id: nat) returns (d': State)
    requires Inv(d) && !d.starting && id < |d.workers| && d.workers[id].phase.Signed?
    ensures Step(d, d') && AllLeft(d') < AllLeft(d) && d'.running == d.running && d'.stopper == d.stopper
  {
    var w, w' := d.workers[id], d.workers[id].(phase := Cleaned);
    d' := if Stopped(d) then d.(workers := d.workers[id := w'])
          else d.(workers := d.workers[id := w'], reg := d.reg - {w.name}, list := Without(d.list, w.name));
    assert Cleanup(d, id, d');
    LessLeft(d, id, w', d');
  }

  lemma LessLeft(d: State, id: nat, w: Worker, d': State)
    requires id < |d.workers| && w.order == d.workers[id].order && PhaseLeft(w) < PhaseLeft(d.workers[id])
    requires d'.workers == d.workers[id := w] && d'.stopper == d.stopper && d'.starting == d.starting && |d'.list| <= |d.list|
    ensures AllLeft(d') < AllLeft(d)
  {
    hide WorkersLeft;
    LeftUpdate(d.workers, id, w);
  }

  lemma StartStep(d: State) returns (d': State)
    requires Inv(d) && d.starting
    ensures Step(d, d') && AllLeft(d') < AllLeft(d) && d'.running == d.running && d'.stopper == d.stopper && d'.reg == d.reg
  {
    if name :| name in d.reg && d.workers[d.reg[name]].phase.Waiting? {
      var id := d.reg[name];
      d' := d.(workers := d.workers[id := d.workers[id].(phase := Handling)], groups := Bump(d.groups, d.workers[id].order, 1));
      assert StartOne(d, id, d');
      LeftUpdate(d.workers, id, d.workers[id].(phase := Handling));
    } else {
      d' := d.(starting := false);
      assert StartEnd(d, d');
    }
  }

  lemma {:induction false} NobodyCounts(workers: seq<Worker>, order: int)
    requires forall id :: 0 <= id < |workers| ==> !InGroup(workers[id])
    ensures CountIn(workers, order) == 0
  {
    if workers != [] {
      NobodyCounts(workers[..|workers| - 1], order);
    }
  }

  lemma LoopStep(d: State) returns (d': State)
    requires Inv(d) && d.stopper.Loop? && forall id :: 0 <= id < |d.workers| ==> !Active(d.workers[id])
    ensures Step(d, d') && AllLeft(d') < AllLeft(d) && Stoppable(d')
  {
    var st := d.stopper;
    NobodyCounts(d.workers, st.prev);
    assert d.groups[st.prev] == 0;
    if st.i == |st.snap| {
      d' := d.(stopper := Finished);
      assert LastWait(d, d');
    } else {
      var id := st.snap[st.i];
      var w := d.workers[id];
      if !st.saw {
        d' := d.(workers := Cancelled(d.workers, id), stopper := st.(i := st.i + 1));
        assert Look(d, d');
        LeftUpdate(d.workers, id, w.(cancelled := true));
      } else if w.order < st.prev {
        d' := d.(stopper := st.(prev := w.order));
        assert Waited(d, d');
      } else {
        d' := d.(workers := Cancelled(d.workers, id), stopper := st.(i := st.i + 1, saw := false));
        assert CancelSeen(d, d');
        LeftUpdate(d.workers, id, w.(cancelled := true));
      }
    }
  }

  lemma StopStep(d: State) returns (d': State)
    requires Inv(d) && Stoppable(d) && !d.starting && !d.stopper.Cleared? && !d.stopper.Aborted?
    requires forall id :: 0 <= id < |d.workers| ==> !Active(d.workers[id])
    ensures Step(d, d') && AllLeft(d') < AllLeft(d) && Stoppable(d') && !d'.stopper.Aborted?
  {
    match d.stopper
    case Idle =>
      d' := d.(stopper := Flagged);
      assert StopFlag(d, d');
    case Flagged => d' := SnapshotStep(d);
    case Loop(_, _, _, _) => d' := LoopStep(d);
    case Finished =>
      d' := d.(running := false, stopper := Halted(true));
      assert Halt(d, d');
    case Halted(_) =>
      d' := d.(reg := map[], list := [], stopper := Cleared);
      assert Clear(d, d');
  }

  lemma SnapshotStep(d: State) returns (d': State)
    requires Inv(d) && d.running && !d.starting && d.stopper.Flagged?
    ensures Step(d, d') && AllLeft(d') < AllLeft(d) && Stoppable(d') && !d'.stopper.Aborted?
  {
    assert forall k :: 0 <= k < |d.list| ==> d.list[k] in d.reg;
    var snap := seq(|d.list|, k requires 0 <= k < |d.list| => d.reg[d.list[k]]);
    d' := d.(stopper := if snap == [] then Finished else Loop(snap, 0, d.workers[snap[0]].order, false));
    assert Snapshot(d, snap, d');
  }

  ghost predicate IsPath(run: seq<State>)
  {
    run != [] && forall i :: 0 <= i < |run| - 1 ==> Step(run[i], run[i + 1])
  }

  /** A daemon that runs can always be shut down: if the handlers return, stopWorkers gets through
      its list, and the daemon is cleared. */
  lemma {:induction false} CanShutDown(d: State) returns (run: seq<State>)
    requires Inv(d) && Stoppable(d) && !d.stopper.Aborted?
    ensures IsPath(run) && run[0] == d && run[|run| - 1].stopper.Cleared?
    decreases AllLeft(d)
  {
    hide Inv, Step, AllLeft;
    if d.stopper.Cleared? {
      run := [d];
    } else {
      var d1: State;
      if d.starting {
        d1 := StartStep(d);
      } else if id :| 0 <= id < |d.workers| && Active(d.workers[id]) {
        d1 := WorkerStep(d, id);
      } else {
        d1 := StopStep(d);
      }
      StepInv(d, d1);
      var rest := CanShutDown(d1);
      run := [d] + rest;
      assert forall i :: 0 < i < |run| - 1 ==> run[i] == rest[i - 1] && run[i + 1] == rest[i];
    }
  }

  /** A daemon that does not run and was not stopped can be started, and then every registered
      worker has been started. */
  lemma CanStart(d: State) returns (run: seq<State>)
    requires Inv(d) && !d.running && d.stopper.Idle?
    ensures IsPath(run) && run[0] == d
    ensures var e := run[|run| - 1];
            e.running && !e.starting && e.reg == d.reg && RegOk(e.workers, e.reg)
            && forall name :: name in e.reg ==> !e.workers[e.reg[name]].phase.Waiting?
  {
    var d1 := d.(running := true, starting := true);
    assert StartBegin(d, d1);
    StepInv(d, d1);
    var rest := FinishStart(d1);
    run := [d] + rest;
    assert forall i :: 0 < i < |run| - 1 ==> run[i] == rest[i - 1] && run[i + 1] == rest[i];
  }

  lemma NoneWaiting(d: State)
    requires Inv(d) && d.running && !d.starting
    ensures RegOk(d.workers, d.reg) && forall name :: name in d.reg ==> !d.workers[d.reg[name]].phase.Waiting?
  {
  }

  lemma {:induction false} FinishStart(d: State) returns (run: seq<State>)
    requires Inv(d) && d.running
    ensures IsPath(run) && run[0] == d
    ensures var e := run[|run| - 1];
            e.running && !e.starting && e.reg == d.reg && RegOk(e.workers, e.reg)
            && forall name :: name in e.reg ==> !e.workers[e.reg[name]].phase.Waiting?
    decreases AllLeft(d)
  {
    hide Inv, Step, AllLeft;
    if !d.starting {
      NoneWaiting(d);
      run := [d];
    } else {
      var d1 := StartStep(d);
      StepInv(d, d1);
      var rest := FinishStart(d1);
      run := [d] + rest;
      assert forall i :: 0 < i < |run| - 1 ==> run[i] == rest[i - 1] && run[i + 1] == rest[i];
    }
  }

  /** Where a new worker goes in the shutdown order. */
  function Place(workers: seq<Worker>, reg: map<string, nat>, list: seq<string>, order: int): (k: nat)
    ensures k <= |list|
    ensures forall j :: 0 <= j < k ==> OrderOf(workers, reg, list[j]) >= order
    ensures k < |list| ==> OrderOf(workers, reg, list[k]) < order
  {
    if list == [] || OrderOf(workers, reg, list[0]) < order then 0
    else 1 + Place(workers, reg, list[1..], order)
  }

  /** Registration is possible whenever the lock is free: with any name and any order. */
  lemma CanRegister(d: State, name: string, order: int)
    requires Inv(d) && !d.starting && !d.stopper.Cleared?
    ensures exists list', d' :: Register(d, name, order, list', d.running, d.running, d')
  {
    hide ListOk, GroupsOk, Owned, LoopOk, Descending, Without, OrderOf;
    var seen := d.running;
    if name in d.reg && (!seen || Flag(d.workers[d.reg[name]])) {
      assert Register(d, name, order, [], seen, seen, d.(stopper := LockTaken(d.stopper)));
    } else {
      var base := if name in d.reg then Without(d.list, name) else d.list;
      var w := Worker(name, order, if seen then Handling else Waiting, false);
      var list' := SortedIn(d, w, base);
      var d' := d.(workers := d.workers + [w], reg := d.reg[name := |d.workers|], list := list',
                   groups := Bump(d.groups, order, if seen then 1 else 0), stopper := LockTaken(d.stopper));
      assert Register(d, name, order, list', seen, seen, d');
    }
  }

  lemma SortedIn(d: State, w: Worker, base: seq<string>) returns (list': seq<string>)
    requires RegOk(d.workers, d.reg) && ListOk(d.workers, d.reg, d.list)
    requires base == if w.name in d.reg then Without(d.list, w.name) else d.list
    ensures multiset(list') == multiset(base + [w.name]) && Descending(d.workers + [w], d.reg[w.name := |d.workers|], list')
  {
    hide ListOk, Descending, Without, Place;
    var workers', reg' := d.workers + [w], d.reg[w.name := |d.workers|];
    BaseDescends(d, w.name, w, base);
    var k := Place(workers', reg', base, w.order);
    list' := base[..k] + [w.name] + base[k..];
    PlacedDescends(workers', reg', base, w.name, w.order, k);
    assert base == base[..k] + base[k..];
  }

  lemma BaseDescends(d: State, name: string, w: Worker, base: seq<string>)
    requires RegOk(d.workers, d.reg) && ListOk(d.workers, d.reg, d.list) && w.name == name
    requires base == if name in d.reg then Without(d.list, name) else d.list
    ensures Descending(d.workers + [w], d.reg[name := |d.workers|], base) && name !in base
  {
    UnregisterList(d.workers, d.reg, d.list, name);
    WithoutIs(d.list, name);
    hide Without;
    DescendingAgain(d.workers, d.reg - {name}, d.workers + [w], d.reg[name := |d.workers|], base);
  }

  lemma PlacedDescends(workers: seq<Worker>, reg: map<string, nat>, base: seq<string>, name: string, order: int, k: nat)
    requires Descending(workers, reg, base) && k == Place(workers, reg, base, order) && OrderOf(workers, reg, name) == order
    ensures Descending(workers, reg, base[..k] + [name] + base[k..])
  {
    hide OrderOf;
    var list' := base[..k] + [name] + base[k..];
    forall i, j | 0 <= i < j < |list'| ensures OrderOf(workers, reg, list'[i]) >= OrderOf(workers, reg, list'[j]) {
      if i == k {
        assert list'[j] == base[j - 1];
        assert OrderOf(workers, reg, base[k]) >= OrderOf(workers, reg, base[j - 1]);
      } else if j == k {
        assert list'[i] == base[i];
      } else {
        assert list'[i] == base[if i < k then i else i - 1] && list'[j] == base[if j < k then j else j - 1];
      }
    }
  }
}
