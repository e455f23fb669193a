/** The counters of a tree of worker pools: every group counts its busy children. */
module CounterTree {

  // ----- state -----------------------------------------------------------------------------

  /** What holds a counter's lock: nobody; an update that has changed the value and owes the
      parent's counter a change (1 or -1); one that is inside the call which changes the
      parent's counter; one that has nothing left to do but unlock. */
  datatype Phase = Free | Owing(owed: int) | Telling | Done

  /** A pool or a group with its counter. The parent was created before; the root is node 0
      and has no parent. */
  datatype Node = Node(isPool: bool, parent: int, value: int, phase: Phase)

  /** What the parent's counter does not reflect yet. */
  function Owed(n: Node): int { if n.phase.Owing? then n.phase.owed else 0 }

  function Busy(n: Node): int { if n.value != 0 then 1 else 0 }

  /** What the callback given to Subscribe does for one change of the counter. */
  function Owes(oldValue: int, newValue: int): int
  {
    if oldValue == newValue then 0    // no notification
    else if oldValue == 0 then 1
    else if newValue == 0 then -1
    else 0
  }

  ghost predicate TreeOk(nodes: seq<Node>)
  {
    && nodes != [] && nodes[0].parent == -1 && !nodes[0].isPool
    && (forall n :: 0 < n < |nodes| ==> 0 <= nodes[n].parent < n)
    && (forall n :: 0 < n < |nodes| ==> !nodes[nodes[n].parent].isPool)
  }

  /** The busy children of a group, less what they owe to its counter. */
  function Counted(nodes: seq<Node>, g: int): int
  {
    if nodes == [] then 0
    else Counted(nodes[..|nodes| - 1], g) + Share(nodes[|nodes| - 1], g)
  }

  function Share(n: Node, g: int): int { if n.parent == g then Busy(n) - Owed(n) else 0 }

  lemma {:induction false} CountedUpdate(nodes: seq<Node>, k: nat, x: Node, g: int)
    requires k < |nodes|
    ensures Counted(nodes[k := x], g) == Counted(nodes, g) - Share(nodes[k], g) + Share(x, g)
  {
    var n := |nodes| - 1;
    if k == n {
      assert nodes[k := x][..n] == nodes[..n];
    } else {
      assert nodes[k := x][..n] == nodes[..n][k := x];
      CountedUpdate(nodes[..n], k, x, g);
    }
  }

  lemma CountedMore(nodes: seq<Node>, x: Node, g: int)
    ensures Counted(nodes + [x], g) == Counted(nodes, g) + Share(x, g)
  {
    assert (nodes + [x])[..|nodes|] == nodes;
  }

  // ----- steps: updates of many pools at the same time ---------------------------------------

  /** A counter gets a new value; its lock is held from now on. */
  function Changed(x: Node, newValue: int): Node
  {
    var owed := if x.parent == -1 then 0 else Owes(x.value, newValue);
    x.(value := newValue, phase := if owed == 0 then Done else Owing(owed))
  }

  ghost predicate Create(s: seq<Node>, g: nat, isPool: bool, s': seq<Node>)
  {
    g < |s| && !s[g].isPool && s' == s + [Node(isPool, g, 0, Free)]
  }

  /** Set, Update, Increase or Decrease on the counter of a pool. */
  ghost predicate Work(s: seq<Node>, n: nat, newValue: int, s': seq<Node>)
  {
    n < |s| && s[n].isPool && s[n].phase.Free? && s' == s[n := Changed(s[n], newValue)]
  }

  /** The subscription calls Increase or Decrease on the parent's counter, as soon as its lock
      is free. */
  ghost predicate Tell(s: seq<Node>, n: nat, s': seq<Node>)
  {
    && n < |s| && s[n].phase.Owing? && 0 <= s[n].parent < n && s[s[n].parent].phase.Free?
    && var p := s[n].parent;
       s' == s[n := s[n].(phase := Telling)][p := Changed(s[p], s[p].value + s[n].phase.owed)]
  }

  /** That call unlocks the parent's counter and returns. */
  ghost predicate Return(s: seq<Node>, n: nat, s': seq<Node>)
  {
    && n < |s| && s[n].phase.Telling? && 0 <= s[n].parent < n && s[s[n].parent].phase.Done?
    && var p := s[n].parent;
       s' == s[n := s[n].(phase := Done)][p := s[p].(phase := Free)]
  }

  /** The update of a pool's counter, where it all started, unlocks it. */
  ghost predicate Finish(s: seq<Node>, n: nat, s': seq<Node>)
  {
    n < |s| && s[n].isPool && s[n].phase.Done? && s' == s[n := s[n].(phase := Free)]
  }

  ghost predicate Step(s: seq<Node>, s': seq<Node>)
  {
    || (exists g, isPool :: Create(s, g, isPool, s'))
    || (exists n, newValue :: Work(s, n, newValue, s'))
    || (exists n :: Tell(s, n, s')) || (exists n :: Return(s, n, s')) || (exists n :: Finish(s, n, s'))
  }

  ghost predicate IsRun(run: seq<seq<Node>>)
  {
    && run != [] && run[0] == [Node(false, -1, 0, Free)]
    && forall i :: 0 <= i < |run| - 1 ==> Step(run[i], run[i + 1])
  }

  /** A group's counter is its busy children less what they owe. */
  ghost predicate CountsOk(s: seq<Node>)
  {
    && (forall n :: 0 <= n < |s| ==> OwedOk(s[n]))
    && (forall g :: 0 <= g < |s| && !s[g].isPool ==> s[g].value == Counted(s, g))
  }

  /** Whoever calls the parent's counter has its lock. */
  ghost predicate CallsOk(s: seq<Node>)
  {
    && (forall n :: 0 <= n < |s| && (s[n].phase.Telling? || s[n].phase.Owing?) ==> n > 0)
    && (forall n :: 0 <= n < |s| && s[n].phase.Telling? ==> 0 <= s[n].parent < |s| && !s[s[n].parent].phase.Free?)
  }

  ghost predicate OneCaller(s: seq<Node>)
  {
    forall n, m :: 0 <= n < m < |s| && s[n].phase.Telling? && s[m].phase.Telling? ==> s[n].parent != s[m].parent
  }

  ghost predicate AllTold(s: seq<Node>)
  {
    forall g :: 0 <= g < |s| && !s[g].isPool && !s[g].phase.Free? ==> Told(s, g)
  }

  /** A group's lock is held by exactly one call, made by a child that is telling it. */
  ghost predicate LocksOk(s: seq<Node>) { CallsOk(s) && OneCaller(s) && AllTold(s) }

  ghost predicate Told(s: seq<Node>, g: int)
  {
    exists n :: 0 <= n < |s| && s[n].parent == g && s[n].phase.Telling?
  }

  ghost predicate Inv(s: seq<Node>) { TreeOk(s) && CountsOk(s) && LocksOk(s) }

  /** A counter that is owed up for is busy, one that is owed down for is idle. */
  predicate OwedOk(x: Node)
  {
    Owed(x) == 0 || (Owed(x) == 1 && x.value != 0) || (Owed(x) == -1 && x.value == 0)
  }

  /** The tree itself does not change. */
  ghost predicate SameTree(s: seq<Node>, s': seq<Node>)
  {
    |s'| == |s| && forall k :: 0 <= k < |s| ==> s'[k].parent == s[k].parent && s'[k].isPool == s[k].isPool
  }

  lemma TreeKept(s: seq<Node>, s': seq<Node>)
    requires TreeOk(s) && SameTree(s, s')
    ensures TreeOk(s')
  {
  }

  lemma CreateInv(s: seq<Node>, g: nat, isPool: bool, s': seq<Node>)
    requires Inv(s) && Create(s, g, isPool, s')
    ensures Inv(s')
  {
    CreateCounts(s, g, isPool, s');
    hide CountsOk;
    CreateLocks(s, g, isPool, s');
  }

  lemma CreateCounts(s: seq<Node>, g: nat, isPool: bool, s': seq<Node>)
    requires TreeOk(s) && CountsOk(s) && Create(s, g, isPool, s')
    ensures CountsOk(s')
  {
    hide Counted;
    var x := s'[|s|];
    forall h | 0 <= h < |s'| && !s'[h].isPool ensures s'[h].value == Counted(s', h) {
      CountedMore(s, x, h);
      if h == |s| {
        NoChildren(s, h);
      }
    }
  }

  lemma CreateLocks(s: seq<Node>, g: nat, isPool: bool, s': seq<Node>)
    requires LocksOk(s) && Create(s, g, isPool, s')
    ensures LocksOk(s')
  {
    forall h | 0 <= h < |s'| && !s'[h].isPool && !s'[h].phase.Free? ensures Told(s', h) {
      assert Told(s, h);
      var n :| 0 <= n < |s| && s[n].parent == h && s[n].phase.Telling?;
      assert s'[n].phase.Telling?;
    }
  }

  lemma {:induction false} NoChildren(s: seq<Node>, g: int)
    requires forall n :: 0 <= n < |s| ==> s[n].parent < g
    ensures Counted(s, g) == 0
  {
    if s != [] {
      NoChildren(s[..|s| - 1], g);
    }
  }

  /** A pool's lock is nobody else's business. */
  lemma PoolLocks(s: seq<Node>, n: nat, x: Node)
    requires TreeOk(s) && LocksOk(s) && n < |s| && s[n].isPool && !s[n].phase.Telling? && !x.phase.Telling?
    requires x.parent == s[n].parent && x.isPool
    ensures LocksOk(s[n := x])
  {
    PoolTold(s, n, x);
    hide AllTold;
    var s' := s[n := x];
    assert forall k :: 0 <= k < |s| && k != n ==> s'[k] == s[k];
  }

  lemma PoolTold(s: seq<Node>, n: nat, x: Node)
    requires AllTold(s) && n < |s| && s[n].isPool && !s[n].phase.Telling? && x.isPool
    ensures AllTold(s[n := x])
  {
    var s' := s[n := x];
    forall h | 0 <= h < |s'| && !s'[h].isPool && !s'[h].phase.Free? ensures Told(s', h) {
      assert Told(s, h);
      var m :| 0 <= m < |s| && s[m].parent == h && s[m].phase.Telling?;
      assert s'[m].phase.Telling?;
    }
  }

  /** Changing a pool changes what it owes by what it starts or ceases to be. */
  lemma PoolCounts(s: seq<Node>, n: nat, x: Node)
    requires CountsOk(s) && n < |s| && s[n].isPool && x.isPool && x.parent == s[n].parent && OwedOk(x)
    requires Busy(x) - Owed(x) == Busy(s[n]) - Owed(s[n])
    ensures CountsOk(s[n := x])
  {
    hide Counted;
    var s' := s[n := x];
    forall g | 0 <= g < |s'| && !s'[g].isPool ensures s'[g].value == Counted(s', g) {
      CountedUpdate(s, n, x, g);
    }
  }

  lemma WorkInv(s: seq<Node>, n: nat, newValue: int, s': seq<Node>)
    requires Inv(s) && Work(s, n, newValue, s')
    ensures Inv(s')
  {
    TreeKept(s, s');
    hide CountsOk, LocksOk;
    PoolLocks(s, n, s'[n]);
    PoolCounts(s, n, s'[n]);
  }

  lemma FinishInv(s: seq<Node>, n: nat, s': seq<Node>)
    requires Inv(s) && Finish(s, n, s')
    ensures Inv(s')
  {
    TreeKept(s, s');
    hide CountsOk, LocksOk;
    PoolLocks(s, n, s'[n]);
    PoolCounts(s, n, s'[n]);
  }

  lemma TellInv(s: seq<Node>, n: nat, s': seq<Node>)
    requires Inv(s) && Tell(s, n, s')
    ensures Inv(s')
  {
    TreeKept(s, s');
    hide CountsOk, LocksOk;
    TellLocks(s, n, s');
    TellCounts(s, n, s');
  }

  lemma TellCounts(s: seq<Node>, n: nat, s': seq<Node>)
    requires TreeOk(s) && CountsOk(s) && Tell(s, n, s')
    ensures CountsOk(s')
  {
    hide Counted;
    forall g | 0 <= g < |s'| && !s'[g].isPool ensures s'[g].value == Counted(s', g) {
      TellCounted(s, n, s', g);
    }
  }

  lemma TellCounted(s: seq<Node>, n: nat, s': seq<Node>, g: nat)
    requires Tell(s, n, s') && OwedOk(s[n]) && g < |s|
    requires s[g].value == Counted(s, g) && !s[g].isPool && s[n].parent < n && s[s[n].parent].parent < s[n].parent
    ensures s'[g].value == Counted(s', g)
  {
    hide Counted;
    var p := s[n].parent;
    var s1 := s[n := s[n].(phase := Telling)];
    CountedUpdate(s, n, s1[n], g);
    CountedUpdate(s1, p, s'[p], g);
  }

  lemma TellLocks(s: seq<Node>, n: nat, s': seq<Node>)
    requires TreeOk(s) && LocksOk(s) && Tell(s, n, s')
    ensures LocksOk(s')
  {
    TellTold(s, n, s');
    hide AllTold;
    TellCalls(s, n, s');
  }

  lemma TellCalls(s: seq<Node>, n: nat, s': seq<Node>)
    requires TreeOk(s) && CallsOk(s) && OneCaller(s) && Tell(s, n, s')
    ensures CallsOk(s') && OneCaller(s')
  {
    var p := s[n].parent;
    assert s'[n].phase.Telling? && s'[n].parent == p && !s'[p].phase.Telling? && !s'[p].phase.Free?;
    assert forall k :: 0 <= k < |s| && k != n && k != p ==> s'[k] == s[k];
    assert s'[p].phase.Owing? ==> p > 0;
  }

  lemma TellTold(s: seq<Node>, n: nat, s': seq<Node>)
    requires AllTold(s) && Tell(s, n, s')
    ensures AllTold(s')
  {
    var p := s[n].parent;
    assert s'[n].phase.Telling?;
    forall h | 0 <= h < |s'| && !s'[h].isPool && !s'[h].phase.Free? ensures Told(s', h) {
      if h != p {
        assert Told(s, h);
        var m :| 0 <= m < |s| && s[m].parent == h && s[m].phase.Telling?;
        assert s'[m].phase.Telling?;
      }
    }
  }

  lemma ReturnInv(s: seq<Node>, n: nat, s': seq<Node>)
    requires Inv(s) && Return(s, n, s')
    ensures Inv(s')
  {
    TreeKept(s, s');
    hide CountsOk, LocksOk;
    ReturnLocks(s, n, s');
    ReturnCounts(s, n, s');
  }

  lemma ReturnCounts(s: seq<Node>, n: nat, s': seq<Node>)
    requires CountsOk(s) && Return(s, n, s')
    ensures CountsOk(s')
  {
    hide Counted;
    var p := s[n].parent;
    var s1 := s[n := s[n].(phase := Done)];
    forall g | 0 <= g < |s'| && !s'[g].isPool ensures s'[g].value == Counted(s', g) {
      CountedUpdate(s, n, s1[n], g);
      CountedUpdate(s1, p, s'[p], g);
    }
  }

  lemma ReturnLocks(s: seq<Node>, n: nat, s': seq<Node>)
    requires TreeOk(s) && LocksOk(s) && Return(s, n, s')
    ensures LocksOk(s')
  {
    ReturnTold(s, n, s');
    hide AllTold;
    ReturnCalls(s, n, s');
  }

  lemma ReturnCalls(s: seq<Node>, n: nat, s': seq<Node>)
    requires CallsOk(s) && OneCaller(s) && Return(s, n, s')
    ensures CallsOk(s') && OneCaller(s')
  {
    var p := s[n].parent;
    assert forall k :: 0 <= k < |s| && k != n && k != p ==> s'[k] == s[k];
    forall k | 0 <= k < |s'| && s'[k].phase.Telling? ensures !s'[s'[k].parent].phase.Free? {
      assert s[k].phase.Telling? && s[k].parent != p;
    }
  }

  lemma ReturnTold(s: seq<Node>, n: nat, s': seq<Node>)
    requires AllTold(s) && Return(s, n, s')
    ensures AllTold(s')
  {
    var p := s[n].parent;
    forall h | 0 <= h < |s'| && !s'[h].isPool && !s'[h].phase.Free? ensures Told(s', h) {
      assert Told(s, h);
      var m :| 0 <= m < |s| && s[m].parent == h && s[m].phase.Telling?;
      assert s'[m].phase.Telling?;
    }
  }

  lemma StepInv(s: seq<Node>, s': seq<Node>)
    requires Inv(s) && Step(s, s')
    ensures Inv(s')
  {
    hide Inv, Create, Work, Tell, Return, Finish;
    if g: nat, isPool :| Create(s, g, isPool, s') {
      CreateInv(s, g, isPool, s');
    } else if n: nat, newValue :| Work(s, n, newValue, s') {
      WorkInv(s, n, newValue, s');
    } else if n: nat :| Tell(s, n, s') {
      TellInv(s, n, s');
    } else if n: nat :| Return(s, n, s') {
      ReturnInv(s, n, s');
    } else {
      var n: nat :| Finish(s, n, s');
      FinishInv(s, n, s');
    }
  }

  lemma {:induction false} RunInv(run: seq<seq<Node>>, i: nat)
    requires IsRun(run) && i < |run|
    ensures Inv(run[i])
  {
    if i > 0 {
      RunInv(run, i - 1);
      StepInv(run[i - 1], run[i]);
    }
  }

  // ----- what the counters say ----------------------------------------------------------------

  /** No update is in progress. */
  ghost predicate Quiescent(s: seq<Node>)
  {
    forall n :: 0 <= n < |s| ==> s[n].phase.Free?
  }

  /** n is g or below it. */
  predicate Under(s: seq<Node>, g: int, n: int)
    requires TreeOk(s) && 0 <= n < |s|
    decreases n
  {
    n == g || (n > 0 && Under(s, g, s[n].parent))
  }

  /** The group counts exactly its busy children. */
  lemma {:induction false} ZeroCounted(s: seq<Node>, g: int)
    requires Quiescent(s)
    ensures Counted(s, g) >= 0
    ensures Counted(s, g) == 0 <==> forall n :: 0 <= n < |s| && s[n].parent == g ==> s[n].value == 0
  {
    if s != [] {
      var r := s[..|s| - 1];
      ZeroCounted(r, g);
      if Counted(s, g) == 0 {
        assert forall n :: 0 <= n < |r| ==> r[n] == s[n];
      } else if Counted(r, g) != 0 {
        var n :| 0 <= n < |r| && r[n].parent == g && r[n].value != 0;
        assert s[n].parent == g && s[n].value != 0;
      }
    }
  }

  /** Below an idle group everything is idle. */
  lemma {:induction false} IdleBelow(s: seq<Node>, g: nat, n: nat)
    requires Inv(s) && Quiescent(s) && g < |s| && s[g].value == 0 && !s[g].isPool && n < |s| && Under(s, g, n)
    ensures s[n].value == 0
    decreases n
  {
    if n != g {
      var p := s[n].parent;
      IdleBelow(s, g, p);
      ZeroCounted(s, p);
    }
  }

  lemma UnderChild(s: seq<Node>, g: nat, c: nat, n: nat)
    requires TreeOk(s) && g < |s| && c < |s| && c > 0 && s[c].parent == g && n < |s| && Under(s, c, n)
    ensures Under(s, g, n)
    decreases n
  {
    if n != c {
      UnderChild(s, g, c, s[n].parent);
    }
  }

  ghost predicate PoolsIdle(s: seq<Node>, g: nat)
    requires TreeOk(s)
  {
    forall n :: 0 <= n < |s| && Under(s, g, n) && s[n].isPool ==> s[n].value == 0
  }

  lemma {:induction false} IdleAbove(s: seq<Node>, g: nat)
    requires Inv(s) && Quiescent(s) && g < |s| && PoolsIdle(s, g)
    ensures s[g].value == 0
    decreases |s| - g
  {
    if !s[g].isPool {
      forall c | 0 <= c < |s| && s[c].parent == g ensures s[c].value == 0 {
        forall n | 0 <= n < |s| && Under(s, c, n) ensures Under(s, g, n) {
          UnderChild(s, g, c, n);
        }
        IdleAbove(s, c);
      }
      ZeroCounted(s, g);
    } else {
      assert Under(s, g, g);
    }
  }

  /** In every reachable state without an update in progress, the counter of a group, and so
      of the root, is zero exactly when every pool below it is idle. */
  lemma ZeroIffIdle(run: seq<seq<Node>>, i: nat, g: nat)
    requires IsRun(run) && i < |run| && Quiescent(run[i]) && g < |run[i]| && !run[i][g].isPool
    ensures TreeOk(run[i]) && (run[i][g].value == 0 <==> PoolsIdle(run[i], g))
  {
    RunInv(run, i);
    ZeroShows(run[i], g);
  }

  lemma ZeroShows(s: seq<Node>, g: nat)
    requires Inv(s) && Quiescent(s) && g < |s| && !s[g].isPool
    ensures s[g].value == 0 <==> PoolsIdle(s, g)
  {
    if s[g].value == 0 {
      forall n | 0 <= n < |s| && Under(s, g, n) ensures s[n].value == 0 {
        IdleBelow(s, g, n);
      }
    } else if PoolsIdle(s, g) {
      IdleAbove(s, g);
    }
  }

  lemma RootCoversAll(s: seq<Node>, n: nat)
    requires TreeOk(s) && n < |s|
    ensures Under(s, 0, n)
    decreases n
  {
    if n > 0 {
      RootCoversAll(s, s[n].parent);
    }
  }

  /** The root is zero exactly when every pool in the tree is idle. */
  lemma RootZeroIffIdle(run: seq<seq<Node>>, i: nat)
    requires IsRun(run) && i < |run| && Quiescent(run[i])
    ensures run[i] != [] && (run[i][0].value == 0 <==> forall n :: 0 <= n < |run[i]| && run[i][n].isPool ==> run[i][n].value == 0)
  {
    RunInv(run, i);
    RootShows(run[i]);
  }

  ghost predicate AllPoolsIdle(s: seq<Node>) { forall n :: 0 <= n < |s| && s[n].isPool ==> s[n].value == 0 }

  lemma RootShows(s: seq<Node>)
    requires Inv(s) && Quiescent(s)
    ensures s[0].value == 0 <==> AllPoolsIdle(s)
  {
    ZeroShows(s, 0);
    forall n | 0 <= n < |s| ensures Under(s, 0, n) {
      RootCoversAll(s, n);
    }
  }

  function BusyChildren(s: seq<Node>, g: int): set<int>
  {
    set n | 0 <= n < |s| && s[n].parent == g && s[n].value != 0
  }

  lemma {:induction false} CountedIsBusyChildren(s: seq<Node>, g: int)
    requires Quiescent(s)
    ensures Counted(s, g) == |BusyChildren(s, g)|
  {
    if s != [] {
      var k := |s| - 1;
      CountedIsBusyChildren(s[..k], g);
      if s[k].parent == g && s[k].value != 0 {
        assert BusyChildren(s, g) == BusyChildren(s[..k], g) + {k};
      } else {
        assert BusyChildren(s, g) == BusyChildren(s[..k], g);
      }
    }
  }

  /** In every reachable state without an update in progress, a group's counter is the number
      of its direct children with a counter other than zero. */
  lemma CounterIsBusyChildren(run: seq<seq<Node>>, i: nat, g: nat)
    requires IsRun(run) && i < |run| && Quiescent(run[i]) && g < |run[i]| && !run[i][g].isPool
    ensures run[i][g].value == |BusyChildren(run[i], g)|
  {
    RunInv(run, i);
    CountedIsBusyChildren(run[i], g);
  }

  /** Some update that holds a lock can go on. */
  ghost predicate CanGoOn(s: seq<Node>)
  {
    (exists n, s' :: Tell(s, n, s')) || (exists n, s' :: Return(s, n, s')) || (exists n, s' :: Finish(s, n, s'))
  }

  /** No deadlock, although every call keeps its locks until all calls above it have returned:
      the locks are taken towards the root only. */
  lemma {:induction false} NoDeadlock(s: seq<Node>, n: nat)
    requires Inv(s) && n < |s| && !s[n].phase.Free?
    ensures CanGoOn(s)
    decreases n
  {
    hide CountsOk, OneCaller, AllTold, CanGoOn;
    var p := s[n].parent;
    if s[n].phase.Done? {
      DoneGoesOn(s, n);
    } else if s[p].phase.Free? {
      OwingGoesOn(s, n);
    } else {
      NoDeadlock(s, p);
    }
  }

  lemma OwingGoesOn(s: seq<Node>, n: nat)
    requires Inv(s) && 0 < n < |s| && !s[n].phase.Free? && !s[n].phase.Done? && s[s[n].parent].phase.Free?
    ensures CanGoOn(s)
  {
    hide CountsOk, OneCaller, AllTold;
    var p := s[n].parent;
    assert Tell(s, n, s[n := s[n].(phase := Telling)][p := Changed(s[p], s[p].value + s[n].phase.owed)]);
  }

  lemma DoneGoesOn(s: seq<Node>, n: nat)
    requires Inv(s) && n < |s| && s[n].phase.Done?
    ensures CanGoOn(s)
  {
    hide CountsOk, OneCaller;
    if s[n].isPool {
      assert Finish(s, n, s[n := s[n].(phase := Free)]);
    } else {
      assert Told(s, n);
      var c :| 0 <= c < |s| && s[c].parent == n && s[c].phase.Telling?;
      assert Return(s, c, s[c := s[c].(phase := Done)][n := s[n].(phase := Free)]);
    }
  }

  // ----- what is asked for happens ------------------------------------------------------------------

  /** Creating and updating does what it says: a new node is an idle child of the group it was
      created in, an update gives its pool the new value, and nothing else changes a pool, and
      nothing at all the tree. */
  lemma StepSays(s: seq<Node>, s': seq<Node>)
    requires TreeOk(s) && Step(s, s')
    ensures |s| <= |s'| <= |s| + 1
    ensures |s'| > |s| ==> s'[|s|].value == 0 && s'[|s|].phase.Free? && Create(s, s'[|s|].parent, s'[|s|].isPool, s')
    ensures forall n :: 0 <= n < |s| ==> s'[n].parent == s[n].parent && s'[n].isPool == s[n].isPool
    ensures forall n :: 0 <= n < |s| && s[n].isPool && s'[n].value != s[n].value ==> Work(s, n, s'[n].value, s')
  {
    hide Tell, Return, Finish, Changed;
    if g: nat, isPool :| Create(s, g, isPool, s') {
      assert s'[|s|] == Node(isPool, g, 0, Free);
    } else if n: nat, newValue :| Work(s, n, newValue, s') {
      WorkSays(s, n, newValue, s');
    } else {
      GoingOnSays(s, s');
    }
  }

  /** An update in progress goes on. */
  ghost predicate GoesOn(s: seq<Node>, s': seq<Node>)
  {
    (exists n :: Tell(s, n, s')) || (exists n :: Return(s, n, s')) || (exists n :: Finish(s, n, s'))
  }

  lemma GoingOnSays(s: seq<Node>, s': seq<Node>)
    requires TreeOk(s) && GoesOn(s, s')
    ensures SameTree(s, s') && forall n :: 0 <= n < |s| && s[n].isPool ==> s'[n].value == s[n].value
  {
    hide TreeOk;
    if n: nat :| Tell(s, n, s') {
      var p := s[n].parent;
      GroupAbove(s, n);
      OnlyTwo(s, n, s[n].(phase := Telling), p, Changed(s[p], s[p].value + s[n].phase.owed), s');
    } else if n: nat :| Return(s, n, s') {
      var p := s[n].parent;
      GroupAbove(s, n);
      OnlyTwo(s, n, s[n].(phase := Done), p, s[p].(phase := Free), s');
    } else {
      var n: nat :| Finish(s, n, s');
      OnlyTwo(s, n, s'[n], n, s'[n], s');
    }
  }

  lemma GroupAbove(s: seq<Node>, n: nat)
    requires TreeOk(s) && 0 < n < |s|
    ensures 0 <= s[n].parent < n && !s[s[n].parent].isPool
  {
  }

  lemma OnlyTwo(s: seq<Node>, n: nat, x: Node, p: nat, y: Node, s': seq<Node>)
    requires n < |s| && p < |s| && s' == s[n := x][p := y]
    requires x.parent == s[n].parent && x.isPool == s[n].isPool && y.parent == s[p].parent && y.isPool == s[p].isPool
    requires x.value == s[n].value && (!s[p].isPool || y.value == s[p].value)
    ensures SameTree(s, s') && forall k :: 0 <= k < |s| && s[k].isPool ==> s'[k].value == s[k].value
  {
  }

  lemma CreateSays(s: seq<Node>, g: nat, isPool: bool, s': seq<Node>)
    requires Create(s, g, isPool, s')
    ensures |s'| == |s| + 1 && s'[..|s|] == s && s'[|s|].parent == g && s'[|s|].isPool == isPool && s'[|s|].value == 0
  {
  }

  lemma WorkSays(s: seq<Node>, n: nat, newValue: int, s': seq<Node>)
    requires TreeOk(s) && Work(s, n, newValue, s')
    ensures |s'| == |s| && s'[n].value == newValue && s'[n].parent == s[n].parent && s'[n].isPool
    ensures forall k :: 0 <= k < |s| && k != n ==> s'[k] == s[k]
    ensures s'[n].phase == if s[n].value == 0 && newValue != 0 then Owing(1)
                           else if s[n].value != 0 && newValue == 0 then Owing(-1) else Done
  {
  }

  /** Pools and groups can be created in any group, and a pool can be given any value, at any time. */
  lemma AtAnyTime(s: seq<Node>, g: nat, isPool: bool, n: nat, newValue: int)
    requires g < |s| && !s[g].isPool && n < |s| && s[n].isPool && s[n].phase.Free?
    ensures exists s' :: Create(s, g, isPool, s') && Step(s, s')
    ensures exists s' :: Work(s, n, newValue, s') && Step(s, s')
  {
    assert Create(s, g, isPool, s + [Node(isPool, g, 0, Free)]);
    assert Work(s, n, newValue, s[n := Changed(s[n], newValue)]);
  }

  /** What was created in a group stays its child, of the kind that was asked for. */
  lemma {:induction false} CreatedStays(run: seq<seq<Node>>, i: nat, j: nat, g: nat, isPool: bool)
    requires IsRun(run) && i < j < |run| && Create(run[i], g, isPool, run[i + 1])
    ensures var n := |run[i]|;
            g < n < |run[j]| && run[j][n].parent == g && run[j][n].isPool == isPool
  {
    hide Step, Inv;
    if j == i + 1 {
      CreateSays(run[i], g, isPool, run[j]);
    } else {
      CreatedStays(run, i, j - 1, g, isPool);
      RunInv(run, j - 1);
      assert Step(run[j - 1], run[j - 1 + 1]);
      TreeOf(run[j - 1]);
      StepSays(run[j - 1], run[j]);
    }
  }

  lemma TreeOf(s: seq<Node>)
    requires Inv(s)
    ensures TreeOk(s)
  {
  }

  /** How far an update at node n is from its end, the calls above it included. */
  function Remains(x: Node, n: nat): nat
  {
    match x.phase
    case Free => 0
    case Owing(_) => 2 * n + 2
    case Telling => 1
    case Done => 1
  }

  function AllRemains(s: seq<Node>): nat
  {
    if s == [] then 0 else AllRemains(s[..|s| - 1]) + Remains(s[|s| - 1], |s| - 1)
  }

  lemma {:induction false} RemainsUpdate(s: seq<Node>, n: nat, x: Node)
    requires n < |s|
    ensures AllRemains(s[n := x]) == AllRemains(s) - Remains(s[n], n) + Remains(x, n)
  {
    var k := |s| - 1;
    if n == k {
      assert s[n := x][..k] == s[..k];
    } else {
      assert s[n := x][..k] == s[..k][n := x];
      RemainsUpdate(s[..k], n, x);
    }
  }

  /** In whatever order updates go on, they come nearer to their end; no pool changes meanwhile. */
  lemma EveryStepCounts(s: seq<Node>, s': seq<Node>)
    requires TreeOk(s) && GoesOn(s, s')
    ensures |s'| == |s| && AllRemains(s') < AllRemains(s)
    ensures forall n :: 0 <= n < |s| && s[n].isPool ==> s'[n].value == s[n].value
  {
    hide AllRemains;
    if n: nat :| Tell(s, n, s') {
      var p := s[n].parent;
      RemainsUpdate(s, n, s[n].(phase := Telling));
      RemainsUpdate(s[n := s[n].(phase := Telling)], p, s'[p]);
    } else if n: nat :| Return(s, n, s') {
      var p := s[n].parent;
      RemainsUpdate(s, n, s[n].(phase := Done));
      RemainsUpdate(s[n := s[n].(phase := Done)], p, s'[p]);
    } else {
      var n: nat :| Finish(s, n, s');
      RemainsUpdate(s, n, s'[n]);
    }
  }

  ghost predicate IsPath(run: seq<seq<Node>>)
  {
    run != [] && forall i :: 0 <= i < |run| - 1 ==> GoesOn(run[i], run[i + 1])
  }

  /** So every update that has begun can be brought to its end, and if nothing new is started that
      is where it ends. */
  lemma {:induction false} UpdatesEnd(s: seq<Node>) returns (run: seq<seq<Node>>)
    requires Inv(s)
    ensures IsPath(run) && run[0] == s && Quiescent(run[|run| - 1]) && Inv(run[|run| - 1]) && |run[|run| - 1]| == |s|
    ensures forall n :: 0 <= n < |s| ==> run[|run| - 1][n].isPool == s[n].isPool
    ensures forall n :: 0 <= n < |s| && s[n].isPool ==> run[|run| - 1][n].value == s[n].value
    decreases AllRemains(s)
  {
    hide AllRemains, GoesOn, CountsOk, LocksOk;
    if Quiescent(s) {
      run := [s];
    } else {
      var s1 := SomeStep(s);
      EveryStepCounts(s, s1);
      StepInv(s, s1);
      StepSays(s, s1);
      var rest := UpdatesEnd(s1);
      run := [s] + rest;
      assert forall i :: 0 < i < |run| - 1 ==> run[i] == rest[i - 1] && run[i + 1] == rest[i];
    }
  }

  lemma SomeStep(s: seq<Node>) returns (s': seq<Node>)
    requires Inv(s) && !Quiescent(s)
    ensures GoesOn(s, s') && Step(s, s')
  {
    hide CountsOk, LocksOk, Tell, Return, Finish;
    var n :| 0 <= n < |s| && !s[n].phase.Free?;
    NoDeadlock(s, n);
    if n, s1 :| Tell(s, n, s1) {
      s' := s1;
    } else if n, s1 :| Return(s, n, s1) {
      s' := s1;
    } else {
      var n, s1 :| Finish(s, n, s1);
      s' := s1;
    }
  }

  /** From every reachable state the counters come to show which pools are busy now. */
  lemma RootComesRight(run: seq<seq<Node>>, i: nat) returns (more: seq<seq<Node>>)
    requires IsRun(run) && i < |run|
    ensures IsPath(more) && more[0] == run[i] && more[|more| - 1] != []
    ensures more[|more| - 1][0].value == 0 <==> forall n :: 0 <= n < |run[i]| && run[i][n].isPool ==> run[i][n].value == 0
  {
    hide Inv, Step, GoesOn;
    RunInv(run, i);
    more := UpdatesEnd(run[i]);
    var s, s' := run[i], more[|more| - 1];
    NotEmpty(s');
    RootShows(s');
    SamePools(s, s');
  }

  lemma SamePools(s: seq<Node>, s': seq<Node>)
    requires |s'| == |s| && forall n :: 0 <= n < |s| ==> s'[n].isPool == s[n].isPool
    requires forall n :: 0 <= n < |s| && s[n].isPool ==> s'[n].value == s[n].value
    ensures AllPoolsIdle(s') <==> AllPoolsIdle(s)
  {
    if AllPoolsIdle(s') {
      forall n | 0 <= n < |s| && s[n].isPool ensures s[n].value == 0 {
        assert s'[n].isPool;
      }
    }
  }

  lemma NotEmpty(s: seq<Node>)
    requires Inv(s)
    ensures s != []
  {
  }

  // ----- one update at a time --------------------------------------------------------------------

  class Tree {
    var nodes: seq<Node>

    constructor ()
      ensures Inv(nodes) && Quiescent(nodes) && |nodes| == 1
    {
      nodes := [Node(false, -1, 0, Free)];
    }

    /** The value of a pool's counter is changed; subscribers are notified before update returns. */
    method Update(pool: nat, newValue: int)
      requires Inv(nodes) && Quiescent(nodes) && pool < |nodes| && nodes[pool].isPool
      modifies this
      ensures Inv(nodes) && Quiescent(nodes) && |nodes| == |old(nodes)| && nodes[pool].value == newValue
      ensures forall n :: 0 <= n < |nodes| && nodes[n].isPool && n != pool ==> nodes[n] == old(nodes)[n]
    {
      hide Inv;
      WorkInv(nodes, pool, newValue, nodes[pool := Changed(nodes[pool], newValue)]);
      nodes := nodes[pool := Changed(nodes[pool], newValue)];
      NotifySubscribers(pool);
      FinishInv(nodes, pool, nodes[pool := nodes[pool].(phase := Free)]);
      nodes := nodes[pool := nodes[pool].(phase := Free)];
    }

    /** notifySubscribers, with the nested update of the parent's counter. */
    method NotifySubscribers(n: nat)
      requires Inv(nodes) && n < |nodes| && (nodes[n].phase.Owing? || nodes[n].phase.Done?)
      requires forall k :: 0 <= k < n ==> nodes[k].phase.Free?
      modifies this
      ensures Inv(nodes) && SameTree(old(nodes), nodes) && nodes[n] == old(nodes)[n].(phase := Done)
      ensures forall k :: 0 <= k < n ==> nodes[k].phase.Free?
      ensures forall k :: n < k < |nodes| ==> nodes[k] == old(nodes)[k]
      ensures forall k :: 0 <= k < |nodes| && old(nodes)[k].isPool && k != n ==> nodes[k] == old(nodes)[k]
      decreases n
    {
      hide Inv;
      if nodes[n].phase.Owing? {
        OwedParent(nodes, n);
        var p := nodes[n].parent;
        TellInv(nodes, n, nodes[n := nodes[n].(phase := Telling)][p := Changed(nodes[p], nodes[p].value + nodes[n].phase.owed)]);
        nodes := nodes[n := nodes[n].(phase := Telling)][p := Changed(nodes[p], nodes[p].value + nodes[n].phase.owed)];
        NotifySubscribers(p);
        ReturnInv(nodes, n, nodes[n := nodes[n].(phase := Done)][p := nodes[p].(phase := Free)]);
        nodes := nodes[n := nodes[n].(phase := Done)][p := nodes[p].(phase := Free)];
      }
    }
  }

  lemma OwedParent(s: seq<Node>, n: nat)
    requires Inv(s) && n < |s| && s[n].phase.Owing?
    ensures 0 <= s[n].parent < n && !s[s[n].parent].isPool
  {
  }
}
