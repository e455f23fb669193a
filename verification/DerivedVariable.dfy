/** NewDerivedVariable2: a variable computed from two inputs. Each of its two callbacks waits
    for the derived variable's locks, combines the value it was notified with and a fresh read
    of the other input, and stores the result before it lets the locks go. */
module DerivedVariable {
  import opened ReactiveVariable

  type Compute2 = (Value, Value) -> Value

  /** Where a callback of the derived variable is: it is called with the new value of its
      input and calls Compute on the derived variable, it has read the other input under the
      locks, it has stored the result. */
  datatype Job = Idle | Waits(x: Value) | Computed(x: Value, y: Value) | Stored(x: Value)

  /** Who holds the locks of the derived variable: the callback of the first or the second input. */
  datatype Holder = Nobody | First | Second

  /** An input with the derived variable's callback on it: its number (-1 before OnUpdate has
      been called) and what it is doing. */
  datatype Side = Side(v: Variable, c: int, job: Job)

  datatype Derived = Derived(a: Side, b: Side, holder: Holder, value: Value)

  ghost predicate InitDerived(d: Derived)
  {
    && Inv(d.a.v) && Inv(d.b.v) && d.a.c == -1 && d.b.c == -1
    && d.a.job.Idle? && d.b.job.Idle? && d.holder.Nobody?
  }

  function Current(v: Variable): Value
    requires v.history != []
  {
    v.history[|v.history| - 1]
  }

  /** The value a step passes to callback c, if it calls c: Compute and OnUpdate call it
      while they hold its execution mutex. */
  function Called(v: Variable, action: Action, c: int): (r: seq<Value>)
    requires v.history != []
  {
    if action == Invoke && v.writer.Update? && v.writer.todo != [] && v.writer.todo[0] == c then [Current(v)]
    else if action.InitialInvoke? && action.c == c && c < |v.callbacks| && v.callbacks[c].registeredAt < |v.history| then
      [v.history[v.callbacks[c].registeredAt]]
    else []
  }

  /** A step that unlocks the execution mutex after a call of c: the callback has returned. */
  predicate Returns(v: Variable, action: Action, c: int)
  {
    || (action == UnlockExecution && v.writer.Update? && v.writer.todo != [] && v.writer.todo[0] == c)
    || (action.InitialUnlock? && action.c == c)
  }

  predicate Leaves(action: Action, c: int)
  {
    !(action.RemoveFromList? && action.c == c) && !(action.MarkUnsubscribed? && action.c == c)
  }

  /** OnUpdate has returned. */
  predicate Ready(v: Variable, c: int)
  {
    0 <= c < |v.callbacks| && !v.callbacks[c].execution.Registering?
  }

  // ----- steps ---------------------------------------------------------------------------------

  /** A step of an input by anyone. Calling the derived variable's callback starts a job; the
      call returns when the job is done. Nobody unsubscribes the callback. */
  ghost predicate InputStep(s: Side, x: Action, s': Side, mayLink: bool)
  {
    && s.v.history != [] && Step(s.v, x, s'.v) && Leaves(x, s.c)
    && (s'.c == s.c || (s.c == -1 && mayLink && x == OnUpdate(true) && s'.c == |s.v.callbacks|))
    && (Returns(s.v, x, s.c) ==> s.job.Idle?)
    && var called := Called(s.v, x, s.c);
       s'.job == if called != [] then Waits(called[0]) else s.job
  }

  /** The constructor calls OnUpdate on the second input when that on the first has returned. */
  ghost predicate StepA(d: Derived, x: Action, d': Derived)
  {
    InputStep(d.a, x, d'.a, true) && d' == d.(a := d'.a)
  }

  ghost predicate StepB(d: Derived, x: Action, d': Derived)
  {
    InputStep(d.b, x, d'.b, Ready(d.a.v, d.a.c)) && d' == d.(b := d'.b)
  }

  /** Compute locks the derived variable. */
  ghost predicate Acquire(d: Derived, d': Derived)
  {
    && d.holder.Nobody?
    && ((d.a.job.Waits? && d' == d.(holder := First)) || (d.b.job.Waits? && d' == d.(holder := Second)))
  }

  /** The compute function gets the notified value and a read of the other input. */
  ghost predicate ReadOther(d: Derived, d': Derived)
  {
    && d.a.v.history != [] && d.b.v.history != []
    && ((d.holder.First? && d.a.job.Waits? && d' == d.(a := d.a.(job := Computed(d.a.job.x, Current(d.b.v)))))
        || (d.holder.Second? && d.b.job.Waits? && d' == d.(b := d.b.(job := Computed(d.b.job.x, Current(d.a.v))))))
  }

  ghost predicate StoreResult(f: Compute2, d: Derived, d': Derived)
  {
    || (d.holder.First? && d.a.job.Computed?
        && d' == d.(a := d.a.(job := Stored(d.a.job.x)), value := f(d.a.job.x, d.a.job.y)))
    || (d.holder.Second? && d.b.job.Computed?
        && d' == d.(b := d.b.(job := Stored(d.b.job.x)), value := f(d.b.job.y, d.b.job.x)))
  }

  /** Compute unlocks, after the derived variable's own subscribers have been notified, and the
      callback returns. */
  ghost predicate Finish(d: Derived, d': Derived)
  {
    || (d.holder.First? && d.a.job.Stored? && d' == d.(a := d.a.(job := Idle), holder := Nobody))
    || (d.holder.Second? && d.b.job.Stored? && d' == d.(b := d.b.(job := Idle), holder := Nobody))
  }

  ghost predicate StepDerived(f: Compute2, d: Derived, d': Derived)
  {
    || (exists x :: StepA(d, x, d')) || (exists x :: StepB(d, x, d'))
    || Acquire(d, d') || ReadOther(d, d') || StoreResult(f, d, d') || Finish(d, d')
  }

  ghost predicate IsDerivedRun(f: Compute2, run: seq<Derived>)
  {
    && run != [] && InitDerived(run[0])
    && forall i :: 0 <= i < |run| - 1 ==> StepDerived(f, run[i], run[i + 1])
  }

  // ----- the invariant ---------------------------------------------------------------------------

  /** The callback has been called and its execution mutex is still held. */
  predicate InCall(cb: Callback) { cb.execution == Notifying(true) || cb.execution == Registering(true) }

  /** Callback c has been called for the latest update. */
  predicate UpToDate(v: Variable, c: int)
  {
    0 <= c < |v.callbacks| && Seen(v.callbacks[c]) == |v.history| - 1
  }

  /** A job runs only inside a call, and if that call is for the latest update the job has the
      current value. */
  ghost predicate SideOk(s: Side)
  {
    && Inv(s.v)
    && (s.c == -1 || (0 <= s.c < |s.v.callbacks| && s.v.callbacks[s.c].listed && s.v.callbacks[s.c].trigger))
    && (!s.job.Idle? ==> s.c >= 0 && InCall(s.v.callbacks[s.c]))
    && (!s.job.Idle? && UpToDate(s.v, s.c) ==> s.job.x == Current(s.v))
  }

  ghost predicate HolderOk(d: Derived)
  {
    && (d.a.job.Computed? || d.a.job.Stored? ==> d.holder.First?)
    && (d.b.job.Computed? || d.b.job.Stored? ==> d.holder.Second?)
    && (d.holder.First? ==> !d.a.job.Idle?) && (d.holder.Second? ==> !d.b.job.Idle?)
  }

  /** The latest update of the input has gone into the derived value. */
  predicate Settled(s: Side) { UpToDate(s.v, s.c) && (s.job.Idle? || s.job.Stored?) }

  /** What was read of the other input is still its value, or the other input's callback has
      yet to do its work. */
  ghost predicate ReadOk(s: Side, other: Side)
  {
    Inv(other.v) && (s.job.Computed? && Settled(other) ==> s.job.y == Current(other.v))
  }

  ghost predicate InvDerived(f: Compute2, d: Derived)
  {
    && SideOk(d.a) && SideOk(d.b) && HolderOk(d) && ReadOk(d.a, d.b) && ReadOk(d.b, d.a)
    && (Settled(d.a) && Settled(d.b) ==> d.value == f(Current(d.a.v), Current(d.b.v)))
  }

  /** A step brings a callback up to date only by calling it with the current value, and a call
      with an older value leaves it behind. Inside a call only its return ends it. */
  lemma CallsAndUpdates(v: Variable, x: Action, v': Variable, c: int)
    requires Inv(v) && Step(v, x, v') && 0 <= c < |v.callbacks| && v.callbacks[c].listed && v.callbacks[c].trigger
    requires Leaves(x, c)
    ensures Inv(v') && c < |v'.callbacks| && v'.callbacks[c].listed && v'.callbacks[c].trigger
    ensures UpToDate(v', c) && Called(v, x, c) == [] ==> UpToDate(v, c) && v'.history == v.history
    ensures UpToDate(v', c) && Called(v, x, c) != [] ==> Called(v, x, c)[0] == Current(v')
    ensures Called(v, x, c) != [] ==> InCall(v'.callbacks[c]) && !InCall(v.callbacks[c])
    ensures InCall(v.callbacks[c]) && !Returns(v, x, c) ==> InCall(v'.callbacks[c])
  {
    StepInv(v, x, v');
    hide Inv;
    Updates(v, x, v', c);
    Calls(v, x, v', c);
    hide Step, UpToDate, Called, InCall, Returns;
  }

  lemma Updates(v: Variable, x: Action, v': Variable, c: int)
    requires Inv(v) && Inv(v') && Step(v, x, v') && 0 <= c < |v.callbacks| && Leaves(x, c)
    requires v.callbacks[c].listed && v.callbacks[c].trigger
    ensures c < |v'.callbacks| && v'.callbacks[c].listed && v'.callbacks[c].trigger
    ensures UpToDate(v', c) && Called(v, x, c) == [] ==> UpToDate(v, c) && v'.history == v.history
    ensures UpToDate(v', c) && Called(v, x, c) != [] ==> Called(v, x, c)[0] == Current(v')
  {
    assert HistoryOk(v, v.callbacks[c]) && ProtocolOk(v, c);
    assert HistoryOk(v', v'.callbacks[c]) && ProtocolOk(v', c);
    StaysListed(v, x, v', c);
    if x.Invoke? {
      InvokeUpdates(v, v', c);
    } else if x.InitialInvoke? {
      FirstUpdates(v, x, v', c);
    } else if x.Compute? || x.LockExecution? || x.UnlockExecution? || x.FinishCompute? || x.OnUpdate? {
      NotCalled(v, x, v', c);
    } else {
      OtherUpdates(v, x, v', c);
    }
    hide *;
  }

  lemma StaysListed(v: Variable, x: Action, v': Variable, c: int)
    requires v.history != [] && Step(v, x, v') && 0 <= c < |v.callbacks| && Leaves(x, c)
    requires v.callbacks[c].listed && v.callbacks[c].trigger
    ensures c < |v'.callbacks| && v'.callbacks[c].listed && v'.callbacks[c].trigger
  {
    hide Listed, InitialCall;
  }

  lemma InvokeUpdates(v: Variable, v': Variable, c: int)
    requires v.history != [] && Step(v, Invoke, v') && 0 <= c < |v.callbacks| && c < |v'.callbacks|
    requires ProtocolOk(v, c)
    ensures v'.history == v.history
    ensures UpToDate(v', c) && Called(v, Invoke, c) == [] ==> UpToDate(v, c)
    ensures Called(v, Invoke, c) != [] ==> Called(v, Invoke, c)[0] == Current(v')
  {
  }

  lemma FirstUpdates(v: Variable, x: Action, v': Variable, c: int)
    requires v.history != [] && x.InitialInvoke? && Step(v, x, v') && 0 <= c < |v.callbacks| && c < |v'.callbacks|
    requires HistoryOk(v, v.callbacks[c])
    ensures v'.history == v.history
    ensures UpToDate(v', c) && Called(v, x, c) == [] ==> UpToDate(v, c)
    ensures UpToDate(v', c) && Called(v, x, c) != [] ==> Called(v, x, c)[0] == Current(v')
  {
    hide InitialCall, Pairs;
  }

  lemma OtherUpdates(v: Variable, x: Action, v': Variable, c: int)
    requires v.history != [] && Step(v, x, v') && 0 <= c < |v.callbacks| && c < |v'.callbacks|
    requires x.InitialUnlock? || x.RemoveFromList? || x.MarkUnsubscribed?
    ensures v'.history == v.history && Called(v, x, c) == [] && (UpToDate(v', c) ==> UpToDate(v, c))
  {
  }

  lemma NotCalled(v: Variable, x: Action, v': Variable, c: int)
    requires v.history != [] && Step(v, x, v') && 0 <= c < |v.callbacks| && c < |v'.callbacks| && v'.history != []
    requires x.Compute? || x.LockExecution? || x.UnlockExecution? || x.FinishCompute? || x.OnUpdate?
    requires v'.callbacks[c].lastUpdate < |v'.history| && v.callbacks[c].lastUpdate < |v.history|
    ensures Called(v, x, c) == [] && (UpToDate(v', c) ==> UpToDate(v, c) && v'.history == v.history)
  {
  }

  lemma Calls(v: Variable, x: Action, v': Variable, c: int)
    requires Inv(v) && Inv(v') && Step(v, x, v') && 0 <= c < |v.callbacks| && c < |v'.callbacks|
    ensures Called(v, x, c) != [] ==> InCall(v'.callbacks[c]) && !InCall(v.callbacks[c])
    ensures InCall(v.callbacks[c]) && !Returns(v, x, c) ==> InCall(v'.callbacks[c])
  {
    assert ProtocolOk(v, c) && ProtocolOk(v', c);
    hide Inv, InitialCall, Listed;
  }

  /** What a step of an input does to its side. */
  lemma InputKeeps(s: Side, x: Action, s': Side, mayLink: bool)
    requires SideOk(s) && InputStep(s, x, s', mayLink)
    ensures SideOk(s')
    ensures Settled(s') ==> Settled(s) && s'.v.history == s.v.history && s'.job == s.job
    ensures s'.job == s.job || (s.job.Idle? && s'.job.Waits?)
  {
    StepInv(s.v, x, s'.v);
    if s.c >= 0 {
      CallsAndUpdates(s.v, x, s'.v, s.c);
    }
  }

  lemma StepADerived(f: Compute2, d: Derived, x: Action, d': Derived)
    requires InvDerived(f, d) && StepA(d, x, d')
    ensures InvDerived(f, d')
  {
    hide InputStep, SideOk, Settled;
    InputKeeps(d.a, x, d'.a, true);
    InvOf(d'.a);
  }

  lemma StepBDerived(f: Compute2, d: Derived, x: Action, d': Derived)
    requires InvDerived(f, d) && StepB(d, x, d')
    ensures InvDerived(f, d')
  {
    hide InputStep, SideOk, Settled;
    InputKeeps(d.b, x, d'.b, Ready(d.a.v, d.a.c));
    InvOf(d'.b);
  }

  lemma InvOf(s: Side)
    requires SideOk(s)
    ensures Inv(s.v)
  {
  }

  lemma JobDerived(f: Compute2, d: Derived, d': Derived)
    requires InvDerived(f, d)
    requires Acquire(d, d') || ReadOther(d, d') || StoreResult(f, d, d') || Finish(d, d')
    ensures InvDerived(f, d')
  {
  }

  lemma {:induction false} DerivedRunInv(f: Compute2, run: seq<Derived>, i: nat)
    requires IsDerivedRun(f, run) && i < |run|
    ensures InvDerived(f, run[i])
  {
    if i > 0 {
      DerivedRunInv(f, run, i - 1);
      DerivedStepInv(f, run[i - 1], run[i]);
    }
  }

  lemma DerivedStepInv(f: Compute2, d: Derived, d': Derived)
    requires InvDerived(f, d) && StepDerived(f, d, d')
    ensures InvDerived(f, d')
  {
    hide InvDerived, StepA, StepB, Acquire, ReadOther, StoreResult, Finish;
    if x :| StepA(d, x, d') {
      StepADerived(f, d, x, d');
    } else if x :| StepB(d, x, d') {
      StepBDerived(f, d, x, d');
    } else {
      JobDerived(f, d, d');
    }
  }

  /** In every interleaving, once the constructor is done and no write or notification of
      either input is in progress, the derived value is the function of the two inputs. */
  lemma DerivedConsistent(f: Compute2, run: seq<Derived>, i: nat)
    requires IsDerivedRun(f, run) && i < |run|
    requires var d := run[i]; Ready(d.a.v, d.a.c) && Ready(d.b.v, d.b.c) && d.a.v.writer.Quiet? && d.b.v.writer.Quiet?
    ensures var d := run[i];
            d.a.v.history != [] && d.b.v.history != [] && d.value == f(Current(d.a.v), Current(d.b.v))
  {
    DerivedRunInv(f, run, i);
    var d := run[i];
    assert ProtocolOk(d.a.v, d.a.c) && ProtocolOk(d.b.v, d.b.c);
  }

  // ----- the callbacks get done ---------------------------------------------------------------------

  ghost predicate DerivedLeads(f: Compute2, d: Derived, e: Derived)
  {
    exists run :: IsDerivedPath(f, run) && run[0] == d && run[|run| - 1] == e
  }

  ghost predicate IsDerivedPath(f: Compute2, run: seq<Derived>)
  {
    run != [] && forall i :: 0 <= i < |run| - 1 ==> StepDerived(f, run[i], run[i + 1])
  }

  lemma DerivedNowhere(f: Compute2, d: Derived)
    ensures DerivedLeads(f, d, d)
  {
    assert IsDerivedPath(f, [d]);
  }

  lemma DerivedOn(f: Compute2, d: Derived, d1: Derived, e: Derived)
    requires StepDerived(f, d, d1) && DerivedLeads(f, d1, e)
    ensures DerivedLeads(f, d, e)
  {
    hide StepDerived;
    var run :| IsDerivedPath(f, run) && run[0] == d1 && run[|run| - 1] == e;
    var more := [d] + run;
    assert forall i :: 0 < i < |more| - 1 ==> more[i] == run[i - 1] && more[i + 1] == run[i];
    assert IsDerivedPath(f, more) && more[0] == d && more[|more| - 1] == e;
  }

  function Work(job: Job, holds: bool): nat
  {
    match job
    case Idle => 0
    case Waits(_) => if holds then 3 else 4
    case Computed(_, _) => 2
    case Stored(_) => 1
  }

  function Unlinked(s: Side): nat { if s.c < 0 then 1 else 0 }

  function Todo(d: Derived): nat
  {
    5 * (Remaining(d.a.v) + Remaining(d.b.v)) + Work(d.a.job, d.holder.First?) + Work(d.b.job, d.holder.Second?)
  }

  /** A callback that has been called can always go on, or the other one can. */
  lemma JobStep(f: Compute2, d: Derived) returns (e: Derived)
    requires d.a.v.history != [] && d.b.v.history != [] && HolderOk(d) && !(d.a.job.Idle? && d.b.job.Idle?)
    ensures Acquire(d, e) || ReadOther(d, e) || StoreResult(f, d, e) || Finish(d, e)
    ensures Todo(e) < Todo(d) && e.a.v == d.a.v && e.b.v == d.b.v && e.a.c == d.a.c && e.b.c == d.b.c
  {
    hide Remaining;
    match d.holder
    case Nobody => e := if d.a.job.Waits? then d.(holder := First) else d.(holder := Second);
    case First =>
      match d.a.job {
        case Waits(x) => e := d.(a := d.a.(job := Computed(x, Current(d.b.v))));
        case Computed(x, y) => e := d.(a := d.a.(job := Stored(x)), value := f(x, y));
        case Stored(_) => e := d.(a := d.a.(job := Idle), holder := Nobody);
      }
    case Second =>
      match d.b.job {
        case Waits(x) => e := d.(b := d.b.(job := Computed(x, Current(d.a.v))));
        case Computed(x, y) => e := d.(b := d.b.(job := Stored(x)), value := f(y, x));
        case Stored(_) => e := d.(b := d.b.(job := Idle), holder := Nobody);
      }
  }

  /** Nothing is in progress at an input. */
  predicate Still(s: Side) { s.c >= 0 && s.job.Idle? && ReactiveVariable.Settled(s.v) }

  lemma SideStep(s: Side, mayLink: bool) returns (x: Action, s': Side)
    requires SideOk(s) && s.job.Idle? && !Still(s) && (s.c < 0 ==> mayLink)
    ensures InputStep(s, x, s', mayLink)
    ensures Unlinked(s') < Unlinked(s) || (s'.c == s.c && 5 * Remaining(s'.v) + Work(s'.job, false) < 5 * Remaining(s.v))
  {
    hide Remaining;
    if s.c < 0 {
      var id := |s.v.history| - 1;
      x := OnUpdate(true);
      var v' := s.v.(callbacks := s.v.callbacks + [Callback(id, true, id, true, false, Registering(false), [])]);
      s' := Side(v', |s.v.callbacks|, Idle);
    } else {
      var v';
      x, v' := SomeStep(s.v);
      var called := Called(s.v, x, s.c);
      s' := Side(v', s.c, if called != [] then Waits(called[0]) else Idle);
    }
  }

  /** Once the constructor has come that far, no callback is left waiting: from every reachable state
      the derived variable can be completed and brought up to date. */
  lemma {:induction false} CanComplete(f: Compute2, d: Derived) returns (e: Derived)
    requires InvDerived(f, d)
    ensures DerivedLeads(f, d, e) && InvDerived(f, e) && Still(e.a) && Still(e.b)
    decreases Unlinked(d.a) + Unlinked(d.b), Todo(d)
  {
    hide InvDerived, StepDerived, DerivedLeads, Todo, Still;
    if Still(d.a) && Still(d.b) {
      e := d;
      DerivedNowhere(f, d);
    } else {
      var d1 := OneStep(f, d);
      DerivedStepInv(f, d, d1);
      e := CanComplete(f, d1);
      DerivedOn(f, d, d1, e);
    }
  }

  lemma OneStep(f: Compute2, d: Derived) returns (e: Derived)
    requires InvDerived(f, d) && !(Still(d.a) && Still(d.b))
    ensures StepDerived(f, d, e)
    ensures Unlinked(e.a) + Unlinked(e.b) < Unlinked(d.a) + Unlinked(d.b)
         || (Unlinked(e.a) + Unlinked(e.b) == Unlinked(d.a) + Unlinked(d.b) && Todo(e) < Todo(d))
  {
    hide Remaining, InputStep;
    if !(d.a.job.Idle? && d.b.job.Idle?) {
      e := JobStep(f, d);
    } else if !Still(d.a) {
      var x, s := SideStep(d.a, true);
      e := d.(a := s);
      assert StepA(d, x, e);
    } else {
      var x, s := SideStep(d.b, Ready(d.a.v, d.a.c));
      e := d.(b := s);
      assert StepB(d, x, e);
    }
  }

  lemma DerivedGoesThrough(f: Compute2, run: seq<Derived>, i: nat)
    requires IsDerivedRun(f, run) && i < |run|
    ensures exists e :: DerivedLeads(f, run[i], e) && UpToDate(e.a.v, e.a.c) && UpToDate(e.b.v, e.b.c) && Result(f, e)
  {
    DerivedRunInv(f, run, i);
    var e := CanComplete(f, run[i]);
    assert ProtocolOk(e.a.v, e.a.c) && ProtocolOk(e.b.v, e.b.c);
    assert Settled(e.a) && Settled(e.b);
    assert Result(f, e);
  }

  /** The derived value is the function of the two inputs. */
  predicate Result(f: Compute2, d: Derived)
  {
    d.a.v.history != [] && d.b.v.history != [] && d.value == f(Current(d.a.v), Current(d.b.v))
  }
}
