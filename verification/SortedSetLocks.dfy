/** The locks of the sorted set: its own mutex, and the execution mutex of each subscription to a
    weight. addSorted and deleteSorted take the first and then the second, a weight change the
    second and then the first. */
module SortedSetLocks {
  type Element = string    // only equality matters

  /** A subscription to the weight of an element. listed: still among the callbacks of the weight
      variable; stored: addSorted has stored its unsubscribe function; marked: unsubscribed. */
  datatype Sub = Sub(elem: Element, listed: bool, stored: bool, marked: bool)

  /** What a goroutine is doing, c being a subscription. */
  datatype Proc =
    | Idle
    | Adding(e: Element)      // addSorted, waits for the mutex
    | Subscribing(c: nat)     // inside OnUpdate, with the first call of the callback
    | Storing(c: nat)         // OnUpdate has returned
    | Deleting(e: Element)    // deleteSorted, waits for the mutex
    | Holding(c: nat)         // has it, and has taken the element out of the map
    | Marking(c: nat)         // has taken the callback out of the list, waits for the execution mutex
    | Leaving                 // the rest, with the mutex
    | Notifying(c: nat)       // Compute on the weight, waits for the execution mutex
    | Checking(c: nat)        // has it, looks for the unsubscribe function
    | Calling(c: nat)         // waits for the mutex
    | Moving(c: nat)          // has both
    | Loose(c: nat)           // goes on without the mutex, taking this for the first call
    | Ending(c: nat)          // the callback has returned

  datatype State = State(procs: seq<Proc>, subs: seq<Sub>, elements: map<Element, nat>)

  // ----- who has which lock --------------------------------------------------------------------

  predicate HasMutex(p: Proc)
  {
    p.Subscribing? || p.Storing? || p.Holding? || p.Marking? || p.Leaving? || p.Moving?
  }

  predicate HasExec(p: Proc, c: nat)
  {
    (p.Subscribing? || p.Checking? || p.Calling? || p.Moving? || p.Loose? || p.Ending?) && p.c == c
  }

  predicate MutexFree(s: State) { forall p :: 0 <= p < |s.procs| ==> !HasMutex(s.procs[p]) }

  predicate ExecFree(s: State, c: nat) { forall p :: 0 <= p < |s.procs| ==> !HasExec(s.procs[p], c) }

  /** Elements are added and deleted by the callback of the underlying set, one at a time. */
  predicate Writes(p: Proc)
  {
    p.Adding? || p.Subscribing? || p.Storing? || p.Deleting? || p.Holding? || p.Marking? || p.Leaving?
  }

  predicate NoWriter(s: State) { forall p :: 0 <= p < |s.procs| ==> !Writes(s.procs[p]) }

  /** A weight changes one update at a time. */
  predicate Updates(s: State, p: Proc, e: Element)
  {
    (p.Notifying? || p.Checking? || p.Calling? || p.Moving? || p.Loose? || p.Ending?) && p.c < |s.subs| && s.subs[p.c].elem == e
  }

  predicate NoUpdate(s: State, e: Element) { forall p :: 0 <= p < |s.procs| ==> !Updates(s, s.procs[p], e) }

  // ----- steps ----------------------------------------------------------------------------------

  function Go(s: State, p: nat, x: Proc): State
    requires p < |s.procs|
  {
    s.(procs := s.procs[p := x])
  }

  /** Goroutine p begins to add or delete an element, or to change a weight that has subscription c. */
  ghost predicate Begins(s: State, p: nat, x: Proc)
  {
    match x
    case Adding(_) => NoWriter(s)
    case Deleting(_) => NoWriter(s)
    case Notifying(c) => c < |s.subs| && s.subs[c].listed && NoUpdate(s, s.subs[c].elem)
    case _ => false
  }

  ghost predicate Step(s: State, p: nat, s': State)
    requires p < |s.procs|
  {
    match s.procs[p]
    case Idle => exists x :: Begins(s, p, x) && s' == Go(s, p, x)
    case Adding(e) =>
      && MutexFree(s)
      && s' == if e in s.elements then Go(s, p, Leaving)
               else State(s.procs[p := Subscribing(|s.subs|)], s.subs + [Sub(e, true, false, false)], s.elements[e := |s.subs|])
    case Subscribing(c) => s' == Go(s, p, Storing(c))
    case Storing(c) =>
      c < |s.subs| && s' == State(s.procs[p := Leaving], s.subs[c := s.subs[c].(stored := true)], s.elements)
    case Deleting(e) =>
      && MutexFree(s)
      && s' == if e in s.elements then State(s.procs[p := Holding(s.elements[e])], s.subs, s.elements - {e})
               else Go(s, p, Leaving)
    case Holding(c) =>
      c < |s.subs| && s' == State(s.procs[p := Marking(c)], s.subs[c := s.subs[c].(listed := false)], s.elements)
    case Marking(c) =>
      && c < |s.subs| && ExecFree(s, c)
      && s' == State(s.procs[p := Leaving], s.subs[c := s.subs[c].(marked := true)], s.elements)
    case Leaving => s' == Go(s, p, Idle)
    case Notifying(c) => c < |s.subs| && ExecFree(s, c) && s' == Go(s, p, if s.subs[c].marked then Idle else Checking(c))
    case Checking(c) => c < |s.subs| && s' == Go(s, p, if s.subs[c].stored then Calling(c) else Loose(c))
    case Calling(c) => MutexFree(s) && s' == Go(s, p, Moving(c))
    case Moving(c) => s' == Go(s, p, Ending(c))
    case Loose(c) => s' == Go(s, p, Ending(c))
    case Ending(_) => s' == Go(s, p, Idle)
  }

  ghost predicate Next(s: State, s': State) { exists p :: 0 <= p < |s.procs| && Step(s, p, s') }

  ghost predicate Initial(s: State)
  {
    s.subs == [] && s.elements == map[] && forall p :: 0 <= p < |s.procs| ==> s.procs[p].Idle?
  }

  ghost predicate IsPath(run: seq<State>)
  {
    run != [] && forall i :: 0 <= i < |run| - 1 ==> Next(run[i], run[i + 1])
  }

  ghost predicate IsRun(run: seq<State>) { IsPath(run) && Initial(run[0]) }

  // ----- the invariant --------------------------------------------------------------------------

  ghost predicate OneMutex(s: State)
  {
    forall p, q :: 0 <= p < q < |s.procs| ==> !(HasMutex(s.procs[p]) && HasMutex(s.procs[q]))
  }

  ghost predicate OneExec(s: State)
  {
    forall p, q, c: nat :: 0 <= p < q < |s.procs| ==> !(HasExec(s.procs[p], c) && HasExec(s.procs[q], c))
  }

  predicate Refers(p: Proc) { !p.Idle? && !p.Adding? && !p.Deleting? && !p.Leaving? }

  ghost predicate RefsOk(s: State)
  {
    && (forall p :: 0 <= p < |s.procs| && Refers(s.procs[p]) ==> s.procs[p].c < |s.subs|)
    && (forall e :: e in s.elements ==> s.elements[e] < |s.subs|)
  }

  predicate AddsSub(p: Proc, c: nat) { (p.Subscribing? || p.Storing?) && p.c == c }

  ghost predicate BeingAdded(s: State, c: nat) { exists p :: 0 <= p < |s.procs| && AddsSub(s.procs[p], c) }

  /** An unsubscribe function is missing exactly while addSorted is about to store it, and never
      when deleteSorted calls it. */
  ghost predicate StoredOk(s: State)
  {
    && (forall c :: 0 <= c < |s.subs| ==> (!s.subs[c].stored <==> BeingAdded(s, c)))
    && (forall p :: 0 <= p < |s.procs| && (s.procs[p].Holding? || s.procs[p].Marking?) && s.procs[p].c < |s.subs| ==>
          s.subs[s.procs[p].c].stored)
  }

  /** Every element has a live subscription of its own; what is being deleted is not among them. */
  ghost predicate ElementsOk(s: State)
  {
    && (forall e :: e in s.elements && s.elements[e] < |s.subs| ==>
          var sub := s.subs[s.elements[e]]; sub.elem == e && sub.listed && !sub.marked)
    && (forall p, e :: 0 <= p < |s.procs| && (s.procs[p].Holding? || s.procs[p].Marking?) && e in s.elements ==>
          s.elements[e] != s.procs[p].c)
  }

  ghost predicate Inv(s: State) { RefsOk(s) && OneMutex(s) && OneExec(s) && StoredOk(s) && ElementsOk(s) }

  lemma StepRefs(s: State, p: nat, s': State)
    requires RefsOk(s) && p < |s.procs| && Step(s, p, s')
    ensures RefsOk(s') && |s'.procs| == |s.procs| && |s'.subs| >= |s.subs|
    ensures forall q :: 0 <= q < |s.procs| && q != p ==> s'.procs[q] == s.procs[q]
  {
  }

  lemma StepLocks(s: State, p: nat, s': State)
    requires RefsOk(s) && OneMutex(s) && OneExec(s) && p < |s.procs| && Step(s, p, s')
    ensures OneMutex(s') && OneExec(s')
  {
    StepMutex(s, p, s');
    StepExec(s, p, s');
  }

  lemma StepMutex(s: State, p: nat, s': State)
    requires RefsOk(s) && OneMutex(s) && p < |s.procs| && Step(s, p, s')
    ensures OneMutex(s')
  {
    StepRefs(s, p, s');
    forall q | 0 <= q < |s.procs| && q != p ensures HasMutex(s'.procs[p]) ==> !HasMutex(s'.procs[q]) {
      assert s'.procs[q] == s.procs[q];
      assert p < q || q < p;
    }
  }

  lemma StepExec(s: State, p: nat, s': State)
    requires RefsOk(s) && OneExec(s) && p < |s.procs| && Step(s, p, s')
    ensures OneExec(s')
  {
    StepRefs(s, p, s');
    forall q, c: nat | 0 <= q < |s.procs| && q != p ensures HasExec(s'.procs[p], c) ==> !HasExec(s'.procs[q], c) {
      assert s'.procs[q] == s.procs[q];
      assert p < q || q < p;
    }
  }

  lemma StepStored(s: State, p: nat, s': State)
    requires Inv(s) && p < |s.procs| && Step(s, p, s')
    ensures StoredOk(s')
  {
    StepRefs(s, p, s');
    forall c | 0 <= c < |s'.subs| ensures !s'.subs[c].stored <==> BeingAdded(s', c) {
      SubStored(s, p, s', c);
    }
    forall q | 0 <= q < |s'.procs| && (s'.procs[q].Holding? || s'.procs[q].Marking?) && s'.procs[q].c < |s'.subs|
      ensures s'.subs[s'.procs[q].c].stored
    {
      DeletedStored(s, p, s', q);
    }
  }

  lemma SubStored(s: State, p: nat, s': State, c: nat)
    requires Inv(s) && p < |s.procs| && Step(s, p, s') && c < |s'.subs|
    ensures !s'.subs[c].stored <==> BeingAdded(s', c)
  {
    StepRefs(s, p, s');
    var was, now := s.procs[p], s'.procs[p];
    if AddsSub(now, c) {
      assert BeingAdded(s', c);
    } else if BeingAdded(s', c) {
      var q :| 0 <= q < |s'.procs| && AddsSub(s'.procs[q], c);
      assert AddsSub(s.procs[q], c);
      assert HasMutex(s.procs[q]);
    } else if c < |s.subs| && BeingAdded(s, c) {
      var q :| 0 <= q < |s.procs| && AddsSub(s.procs[q], c);
      assert q == p;
    }
  }

  lemma DeletedStored(s: State, p: nat, s': State, q: nat)
    requires Inv(s) && p < |s.procs| && Step(s, p, s') && q < |s'.procs|
    requires (s'.procs[q].Holding? || s'.procs[q].Marking?) && s'.procs[q].c < |s'.subs|
    ensures s'.subs[s'.procs[q].c].stored
  {
    StepRefs(s, p, s');
    assert s'.procs[q].c < |s.subs|;
  }

  lemma StepElements(s: State, p: nat, s': State)
    requires RefsOk(s) && ElementsOk(s) && p < |s.procs| && Step(s, p, s')
    ensures ElementsOk(s')
  {
    StepRefs(s, p, s');
  }

  lemma StepInv(s: State, s': State)
    requires Inv(s) && Next(s, s')
    ensures Inv(s')
  {
    hide Step, RefsOk, OneMutex, OneExec, StoredOk, ElementsOk;
    var p :| 0 <= p < |s.procs| && Step(s, p, s');
    StepRefs(s, p, s');
    StepLocks(s, p, s');
    StepStored(s, p, s');
    StepElements(s, p, s');
  }

  lemma {:induction false} RunInv(run: seq<State>, i: nat)
    requires IsRun(run) && i < |run|
    ensures Inv(run[i])
  {
    if i > 0 {
      RunInv(run, i - 1);
      StepInv(run[i - 1], run[i]);
    }
  }

  // ----- a delete and a weight change that block each other -----------------------------------------

  /** Goroutine d deletes the element of subscription c and has the mutex but not yet the execution
      mutex; goroutine u changes its weight and has the execution mutex but not yet the mutex. */
  predicate Crossed(s: State, d: nat, u: nat, c: nat)
  {
    && d < |s.procs| && u < |s.procs|
    && (s.procs[d] == Holding(c) || s.procs[d] == Marking(c))
    && (s.procs[u] == Checking(c) || s.procs[u] == Calling(c))
  }

  ghost predicate Deadlocked(s: State) { exists d: nat, u: nat, c: nat :: Crossed(s, d, u, c) }

  lemma CrossedStep(s: State, s': State, d: nat, u: nat, c: nat)
    requires Inv(s) && Next(s, s') && Crossed(s, d, u, c)
    ensures Crossed(s', d, u, c)
  {
    var p :| 0 <= p < |s.procs| && Step(s, p, s');
    StepRefs(s, p, s');
    assert HasMutex(s.procs[d]) && HasExec(s.procs[u], c);
    if p == u {
      assert s.subs[c].stored;
    }
  }

  /** They do so for good: the mutex is never released, whatever the others do. */
  lemma {:induction false} CrossedForGood(run: seq<State>, i: nat, j: nat, d: nat, u: nat, c: nat)
    requires IsRun(run) && i <= j < |run| && Crossed(run[i], d, u, c)
    ensures Crossed(run[j], d, u, c) && !MutexFree(run[j])
  {
    hide Inv, Next, Initial, OneMutex, MutexFree;
    if i < j {
      CrossedForGood(run, i, j - 1, d, u, c);
      RunInv(run, j - 1);
      assert Next(run[j - 1], run[j - 1 + 1]);
      CrossedStep(run[j - 1], run[j], d, u, c);
    }
    MutexHeld(run[j], d);
  }

  lemma MutexHeld(s: State, d: nat)
    requires d < |s.procs| && HasMutex(s.procs[d])
    ensures !MutexFree(s)
  {
  }

  ghost predicate Leads(s: State, t: State) { exists run: seq<State> :: IsPath(run) && run[0] == s && run[|run| - 1] == t }

  lemma LeadsNowhere(s: State)
    ensures Leads(s, s)
  {
    var run := [s];
    assert IsPath(run) && run[0] == s && run[|run| - 1] == s;
  }

  lemma LeadsOn(s: State, p: nat, s1: State, t: State)
    requires p < |s.procs| && Step(s, p, s1) && Leads(s1, t)
    ensures Leads(s, t)
  {
    var run :| IsPath(run) && run[0] == s1 && run[|run| - 1] == t;
    var more := [s] + run;
    assert Next(s, s1);
    assert forall i :: 0 < i < |more| - 1 ==> more[i] == run[i - 1] && more[i + 1] == run[i];
    assert IsPath(more) && more[0] == s && more[|more| - 1] == t;
  }

  /** The mutex is released by its holder alone. */
  lemma Freed(s: State, h: nat, x: Proc)
    requires OneMutex(s) && h < |s.procs| && HasMutex(s.procs[h]) && !HasMutex(x)
    ensures MutexFree(Go(s, h, x))
  {
    forall p | 0 <= p < |s.procs| && p != h ensures !HasMutex(s.procs[p]) {
      assert p < h || h < p;
    }
  }

  /** Goroutines that wait for the mutex. */
  predicate Waits(p: Proc) { p.Adding? || p.Deleting? || p.Calling? }

  ghost predicate StillWait(s: State, t: State)
  {
    |t.procs| == |s.procs| && forall q :: 0 <= q < |s.procs| && Waits(s.procs[q]) ==> t.procs[q] == s.procs[q]
  }

  lemma LeavingFrees(s: State, h: nat) returns (t: State)
    requires OneMutex(s) && h < |s.procs| && s.procs[h].Leaving?
    ensures Leads(s, t) && MutexFree(t) && StillWait(s, t)
  {
    t := Go(s, h, Idle);
    Freed(s, h, Idle);
    LeadsNowhere(t);
    assert Step(s, h, t);
    LeadsOn(s, h, t, t);
  }

  lemma StoringFrees(s: State, h: nat) returns (t: State)
    requires Inv(s) && h < |s.procs| && s.procs[h].Storing?
    ensures Leads(s, t) && MutexFree(t) && StillWait(s, t)
  {
    var c := s.procs[h].c;
    var s1 := State(s.procs[h := Leaving], s.subs[c := s.subs[c].(stored := true)], s.elements);
    assert Step(s, h, s1);
    StepLocks(s, h, s1);
    t := LeavingFrees(s1, h);
    LeadsOn(s, h, s1, t);
  }

  lemma MarkingFrees(s: State, h: nat) returns (t: State)
    requires Inv(s) && h < |s.procs| && s.procs[h].Marking? && ExecFree(s, s.procs[h].c)
    ensures Leads(s, t) && MutexFree(t) && StillWait(s, t)
  {
    var c := s.procs[h].c;
    var s1 := State(s.procs[h := Leaving], s.subs[c := s.subs[c].(marked := true)], s.elements);
    assert Step(s, h, s1);
    StepLocks(s, h, s1);
    t := LeavingFrees(s1, h);
    LeadsOn(s, h, s1, t);
  }

  /** A callback that has returned makes way for the delete. */
  lemma EndingFrees(s: State, h: nat, u: nat) returns (t: State)
    requires Inv(s) && h < |s.procs| && s.procs[h].Marking? && u < |s.procs| && s.procs[u] == Ending(s.procs[h].c)
    ensures Leads(s, t) && MutexFree(t) && StillWait(s, t)
  {
    var c, s1 := s.procs[h].c, Go(s, u, Idle);
    assert Step(s, u, s1);
    assert Next(s, s1);
    StepInv(s, s1);
    forall p | 0 <= p < |s1.procs| ensures !HasExec(s1.procs[p], c) {
      assert HasExec(s.procs[u], c);
      assert p < u || p == u || u < p;
    }
    t := MarkingFrees(s1, h);
    LeadsOn(s, u, s1, t);
  }

  lemma DeleteFrees(s: State, h: nat) returns (t: State)
    requires Inv(s) && h < |s.procs| && s.procs[h].Marking? && !Deadlocked(s)
    ensures Leads(s, t) && MutexFree(t) && StillWait(s, t)
  {
    var c := s.procs[h].c;
    if ExecFree(s, c) {
      t := MarkingFrees(s, h);
    } else {
      var u :| 0 <= u < |s.procs| && HasExec(s.procs[u], c);
      ExecHolder(s, h, u, c);
      if s.procs[u].Loose? {
        var s1 := Go(s, u, Ending(c));
        assert Step(s, u, s1);
        assert Next(s, s1);
        StepInv(s, s1);
        t := EndingFrees(s1, h, u);
        LeadsOn(s, u, s1, t);
      } else {
        t := EndingFrees(s, h, u);
      }
    }
  }

  lemma ExecHolder(s: State, h: nat, u: nat, c: nat)
    requires Inv(s) && h < |s.procs| && (s.procs[h] == Holding(c) || s.procs[h] == Marking(c)) && !Deadlocked(s)
    requires u < |s.procs| && HasExec(s.procs[u], c)
    ensures s.procs[u] == Loose(c) || s.procs[u] == Ending(c)
  {
    assert HasMutex(s.procs[h]) && u != h;
    assert u < h || h < u;
    assert !Crossed(s, h, u, c);
  }

  lemma CrossedBefore(s: State, h: nat, s1: State)
    requires OneMutex(s1) && h < |s.procs| && s.procs[h].Holding? && s1.procs == s.procs[h := Marking(s.procs[h].c)]
    ensures Deadlocked(s1) ==> Deadlocked(s)
  {
    forall d: nat, u: nat, c: nat | Crossed(s1, d, u, c) ensures Deadlocked(s) {
      assert HasMutex(s1.procs[d]) && HasMutex(s1.procs[h]);
      assert d == h;
      assert Crossed(s, h, u, c);
    }
  }

  lemma HoldingFrees(s: State, h: nat) returns (t: State)
    requires Inv(s) && h < |s.procs| && s.procs[h].Holding? && !Deadlocked(s)
    ensures Leads(s, t) && MutexFree(t) && StillWait(s, t)
  {
    var c := s.procs[h].c;
    var s1 := State(s.procs[h := Marking(c)], s.subs[c := s.subs[c].(listed := false)], s.elements);
    assert Step(s, h, s1);
    assert Next(s, s1);
    StepInv(s, s1);
    CrossedBefore(s, h, s1);
    t := DeleteFrees(s1, h);
    LeadsOn(s, h, s1, t);
  }

  /** In every other state whoever has the mutex can release it again. */
  lemma MutexFreed(s: State, h: nat) returns (t: State)
    requires Inv(s) && h < |s.procs| && HasMutex(s.procs[h]) && !Deadlocked(s)
    ensures Leads(s, t) && MutexFree(t) && StillWait(s, t)
  {
    match s.procs[h]
    case Leaving => t := LeavingFrees(s, h);
    case Storing(_) => t := StoringFrees(s, h);
    case Subscribing(c) =>
      var s1 := Go(s, h, Storing(c));
      assert Step(s, h, s1);
      assert Next(s, s1);
      StepInv(s, s1);
      t := StoringFrees(s1, h);
      LeadsOn(s, h, s1, t);
    case Moving(c) =>
      t := Go(s, h, Ending(c));
      Freed(s, h, Ending(c));
      LeadsNowhere(t);
      assert Step(s, h, t);
      LeadsOn(s, h, t, t);
    case Marking(_) => t := DeleteFrees(s, h);
    case Holding(_) => t := HoldingFrees(s, h);
  }

  lemma {:induction false} PathCrossed(run: seq<State>, d: nat, u: nat, c: nat)
    requires IsPath(run) && Inv(run[0]) && Crossed(run[0], d, u, c)
    ensures Inv(run[|run| - 1]) && Crossed(run[|run| - 1], d, u, c)
  {
    var n := |run| - 1;
    if n > 0 {
      assert Next(run[n - 1], run[n - 1 + 1]);
      PathCrossed(run[..n], d, u, c);
      StepInv(run[n - 1], run[n]);
      CrossedStep(run[n - 1], run[n], d, u, c);
    }
  }

  /** Whatever has happened, the mutex can become free if and only if no delete has crossed a
      weight change of the same element. */
  lemma FreeUnlessCrossed(run: seq<State>, i: nat)
    requires IsRun(run) && i < |run|
    ensures (exists t :: Leads(run[i], t) && MutexFree(t)) <==> !Deadlocked(run[i])
  {
    var s := run[i];
    RunInv(run, i);
    if Deadlocked(s) {
      var d: nat, u: nat, c: nat :| Crossed(s, d, u, c);
      forall t | Leads(s, t) ensures !MutexFree(t) {
        var path :| IsPath(path) && path[0] == s && path[|path| - 1] == t;
        PathCrossed(path, d, u, c);
        assert HasMutex(t.procs[d]);
      }
    } else if MutexFree(s) {
      LeadsNowhere(s);
    } else {
      var h :| 0 <= h < |s.procs| && HasMutex(s.procs[h]);
      var t := MutexFreed(s, h);
    }
  }

  /** Unless there is such a crossing, whoever waits for the mutex can get it. */
  lemma WaiterGetsIn(run: seq<State>, i: nat, q: nat)
    requires IsRun(run) && i < |run| && q < |run[i].procs| && Waits(run[i].procs[q]) && !Deadlocked(run[i])
    ensures exists t :: Leads(run[i], t) && q < |t.procs| && HasMutex(t.procs[q])
  {
    hide Leads;
    var s := run[i];
    RunInv(run, i);
    var t := s;
    if MutexFree(s) {
      LeadsNowhere(s);
    } else {
      var h :| 0 <= h < |s.procs| && HasMutex(s.procs[h]);
      t := MutexFreed(s, h);
    }
    var t' := Enters(t, q);
    LeadsFurther(s, t, q, t');
  }

  lemma Enters(s: State, q: nat) returns (s': State)
    requires q < |s.procs| && Waits(s.procs[q]) && MutexFree(s)
    ensures Step(s, q, s') && q < |s'.procs| && HasMutex(s'.procs[q])
  {
    match s.procs[q]
    case Adding(e) =>
      s' := if e in s.elements then Go(s, q, Leaving)
            else State(s.procs[q := Subscribing(|s.subs|)], s.subs + [Sub(e, true, false, false)], s.elements[e := |s.subs|]);
    case Deleting(e) =>
      s' := if e in s.elements then State(s.procs[q := Holding(s.elements[e])], s.subs, s.elements - {e}) else Go(s, q, Leaving);
    case Calling(c) => s' := Go(s, q, Moving(c));
  }

  lemma LeadsFurther(s: State, t: State, p: nat, t': State)
    requires Leads(s, t) && p < |t.procs| && Step(t, p, t')
    ensures Leads(s, t')
  {
    hide Step;
    var run :| IsPath(run) && run[0] == s && run[|run| - 1] == t;
    var more := run + [t'];
    assert Next(t, t');
    forall i | 0 <= i < |more| - 1 ensures Next(more[i], more[i + 1]) {
      if i < |run| - 1 {
        assert Next(run[i], run[i + 1]);
      }
    }
    assert IsPath(more) && more[0] == s && more[|more| - 1] == t';
  }

  /** It takes no more than a delete that is about to take the mutex and a weight change that is about
      to take the execution mutex: if both get their first lock, they have crossed. */
  lemma OverlapCrosses(s: State, d: nat, u: nat, e: Element)
    requires Inv(s) && d < |s.procs| && u < |s.procs| && e in s.elements && MutexFree(s) && ExecFree(s, s.elements[e])
    requires s.procs[d] == Deleting(e) && s.procs[u] == Notifying(s.elements[e]) && !s.subs[s.elements[e]].marked
    ensures exists s1, s2 :: Step(s, d, s1) && u < |s1.procs| && Step(s1, u, s2) && Crossed(s2, d, u, s.elements[e])
  {
    var c := s.elements[e];
    var s1 := State(s.procs[d := Holding(c)], s.subs, s.elements - {e});
    var s2 := Go(s1, u, Checking(c));
    assert Step(s, d, s1) && Step(s1, u, s2) && Crossed(s2, d, u, c);
  }

  /** So it can happen to every element at any time when nothing else is going on. */
  lemma AnyDeleteMayCross(s: State, d: nat, u: nat, e: Element)
    requires Inv(s) && d < |s.procs| && u < |s.procs| && d != u && e in s.elements
    requires forall p :: 0 <= p < |s.procs| ==> s.procs[p].Idle?
    ensures exists t :: Leads(s, t) && Deadlocked(t)
  {
    hide Leads;
    var c := s.elements[e];
    var s1 := Go(s, d, Deleting(e));
    var s2 := Go(s1, u, Notifying(c));
    assert Begins(s, d, Deleting(e)) && Begins(s1, u, Notifying(c));
    assert Step(s, d, s1) && Step(s1, u, s2);
    assert Next(s, s1) && Next(s1, s2);
    StepInv(s, s1);
    StepInv(s1, s2);
    assert MutexFree(s2) && ExecFree(s2, c) && !s2.subs[c].marked;
    OverlapCrosses(s2, d, u, e);
    hide Inv, Step, MutexFree, ExecFree;
    var s3, t :| Step(s2, d, s3) && u < |s3.procs| && Step(s3, u, t) && Crossed(t, d, u, c);
    LeadsNowhere(t);
    LeadsOn(s3, u, t, t);
    LeadsOn(s2, d, s3, t);
    LeadsOn(s1, u, s2, t);
    LeadsOn(s, d, s1, t);
  }

  // ----- weight changes without the mutex --------------------------------------------------------------

  /** Goroutines that work on the sorted elements. */
  predicate Inside(p: Proc) { HasMutex(p) || p.Loose? }

  /** Two of them are there at once only if one is a weight change that took its callback for the
      first call, */
  lemma InsideAlone(run: seq<State>, i: nat, p: nat, q: nat)
    requires IsRun(run) && i < |run| && p < q < |run[i].procs| && Inside(run[i].procs[p]) && Inside(run[i].procs[q])
    ensures run[i].procs[p].Loose? || run[i].procs[q].Loose?
  {
    RunInv(run, i);
  }

  /** and this happens exactly if it looks while addSorted has returned from OnUpdate but has not
      yet stored the unsubscribe function. */
  lemma LooseExactly(run: seq<State>, i: nat, p: nat, s': State)
    requires IsRun(run) && i < |run| && p < |run[i].procs| && run[i].procs[p].Checking? && Step(run[i], p, s')
    ensures s'.procs[p].Loose? <==> exists q :: 0 <= q < |run[i].procs| && run[i].procs[q] == Storing(run[i].procs[p].c)
  {
    RunInv(run, i);
    var s, c := run[i], run[i].procs[p].c;
    if BeingAdded(s, c) {
      var q :| 0 <= q < |s.procs| && AddsSub(s.procs[q], c);
      assert p < q || q < p;
      assert HasExec(s.procs[p], c);
      assert s.procs[q] == Storing(c);
    }
    if q :| 0 <= q < |s.procs| && s.procs[q] == Storing(c) {
      assert AddsSub(s.procs[q], c);
    }
  }

  /** The second goroutine changes a weight while the first is about to store the function, and is
      still at it when the first adds the next element. */
  lemma LooseReachable()
    ensures exists s, t :: Initial(s) && Leads(s, t) && t.procs == [Subscribing(1), Loose(0)]
  {
    hide Leads, MutexFree, NoUpdate;
    var s := State([Idle, Idle], [], map[]);
    var t := State([Subscribing(1), Loose(0)], [Sub("x", true, true, false), Sub("y", true, false, false)],
                   map["x" := 0, "y" := 1]);
    LooseGoesOn(t);
    LooseStarts(t);
    FirstAdded(s, t);
  }

  lemma FirstAdded(s: State, t: State)
    requires s == State([Idle, Idle], [], map[])
    requires Leads(State([Storing(0), Idle], [Sub("x", true, false, false)], map["x" := 0]), t)
    ensures Leads(s, t)
  {
    hide Leads;
    var sub := Sub("x", true, false, false);
    var s1 := State([Adding("x"), Idle], [], map[]);
    var s2 := State([Subscribing(0), Idle], [sub], map["x" := 0]);
    LeadsOn(s2, 0, State([Storing(0), Idle], [sub], map["x" := 0]), t);
    assert Step(s1, 0, s2);
    LeadsOn(s1, 0, s2, t);
    assert Begins(s, 0, Adding("x")) && s1 == Go(s, 0, Adding("x"));
    LeadsOn(s, 0, s1, t);
  }

  lemma LooseStarts(t: State)
    requires Leads(State([Storing(0), Loose(0)], [Sub("x", true, false, false)], map["x" := 0]), t)
    ensures Leads(State([Storing(0), Idle], [Sub("x", true, false, false)], map["x" := 0]), t)
  {
    hide Leads;
    var subs, elements := [Sub("x", true, false, false)], map["x" := 0];
    var s3 := State([Storing(0), Idle], subs, elements);
    var s4 := State([Storing(0), Notifying(0)], subs, elements);
    var s5 := State([Storing(0), Checking(0)], subs, elements);
    LeadsOn(s5, 1, State([Storing(0), Loose(0)], subs, elements), t);
    assert Step(s4, 1, s5);
    LeadsOn(s4, 1, s5, t);
    assert Begins(s3, 1, Notifying(0)) && s4 == Go(s3, 1, Notifying(0));
    LeadsOn(s3, 1, s4, t);
  }

  lemma LooseGoesOn(t: State)
    requires t == State([Subscribing(1), Loose(0)], [Sub("x", true, true, false), Sub("y", true, false, false)],
                        map["x" := 0, "y" := 1])
    ensures Leads(State([Storing(0), Loose(0)], [Sub("x", true, false, false)], map["x" := 0]), t)
  {
    hide Leads;
    var subs, elements := [Sub("x", true, true, false)], map["x" := 0];
    var s6 := State([Storing(0), Loose(0)], [Sub("x", true, false, false)], elements);
    var s7 := State([Leaving, Loose(0)], subs, elements);
    var s8 := State([Idle, Loose(0)], subs, elements);
    var s9 := State([Adding("y"), Loose(0)], subs, elements);
    LeadsNowhere(t);
    assert Step(s9, 0, t);
    LeadsOn(s9, 0, t, t);
    assert Begins(s8, 0, Adding("y")) && s9 == Go(s8, 0, Adding("y"));
    LeadsOn(s8, 0, s9, t);
    LeadsOn(s7, 0, s8, t);
    LeadsOn(s6, 0, s7, t);
  }
}
