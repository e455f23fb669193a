/** A reactive variable as a state machine: writers, subscriptions and unsubscriptions
    interleave; the update order mutex, the value mutex and the execution mutex of each
    callback decide which steps are possible. */
module ReactiveVariable {

  /** Values of a comparable type; 0 stands for its zero value. */
  type Value = int

  /** Who holds a callback's execution mutex, and whether Invoke has been called yet. */
  datatype Execution =
    | Free
    | Registering(invoked: bool)    // OnUpdate holds it until the initial call is done
    | Notifying(invoked: bool)      // Compute holds it for the update in progress

  datatype Callback = Callback(
    registeredAt: nat,      // the update the variable was at when OnUpdate read it
    trigger: bool,          // triggerWithInitialZeroValue
    lastUpdate: nat,
    listed: bool,           // in registeredCallbacks
    unsubscribed: bool,
    execution: Execution,
    log: seq<(Value, Value)>)

  /** Whether a Compute holds the update order mutex, and whom it still has to notify. */
  datatype Writer = Quiet | Update(todo: seq<nat>)

  /** history[n] is the value after n updates; uniqueUpdateID is |history| - 1. */
  datatype Variable = Variable(history: seq<Value>, callbacks: seq<Callback>, writer: Writer)

  function UpdateID(v: Variable): int { |v.history| - 1 }

  ghost predicate Init(v: Variable)
  {
    |v.history| == 1 && v.callbacks == [] && v.writer == Quiet
  }

  /** registeredCallbacks.Values(): the callbacks in the list, oldest first. */
  function Listed(cs: seq<Callback>): (r: seq<nat>)
    ensures forall c :: c in r <==> 0 <= c < |cs| && cs[c].listed
    ensures forall i, j :: 0 <= i < j < |r| ==> r[i] < r[j]
  {
    if cs == [] then [] else
      var front := Listed(cs[..|cs| - 1]);
      assert forall c :: 0 <= c < |cs| - 1 ==> cs[..|cs| - 1][c] == cs[c];
      assert forall c :: c in front ==> c < |cs| - 1;
      assert forall i :: 0 <= i < |front| ==> front[i] in front;
      if cs[|cs| - 1].listed then front + [|cs| - 1] else front
  }

  datatype Action =
    | Compute(newValue: Value)              // updateValue
    | LockExecution                         // of the next callback to notify
    | Invoke | UnlockExecution              // the callback of the update in progress
    | FinishCompute
    | OnUpdate(trigger: bool)
    | InitialInvoke(c: nat) | InitialUnlock(c: nat)
    | RemoveFromList(c: nat) | MarkUnsubscribed(c: nat)   // unsubscribe, in this order

  function Put(v: Variable, c: nat, cb: Callback): Variable
    requires c < |v.callbacks|
  {
    v.(callbacks := v.callbacks[c := cb])
  }

  /** What the new value is compared with decides whether anybody is notified. */
  ghost predicate Step(v: Variable, a: Action, v': Variable)
    requires v.history != []
  {
    var id := |v.history| - 1;
    match a
    case Compute(x) =>
      && v.writer.Quiet?
      && v' == if x == v.history[id] then v
               else v.(history := v.history + [x], writer := Update(Listed(v.callbacks)))
    case LockExecution =>
      && v.writer.Update? && v.writer.todo != [] && v.writer.todo[0] < |v.callbacks|
      && var c := v.writer.todo[0];
         var cb := v.callbacks[c];
         && cb.execution.Free?
         && v' == if cb.unsubscribed || (id != 0 && id == cb.lastUpdate)
                  then v.(writer := Update(v.writer.todo[1..]))
                  else Put(v, c, cb.(lastUpdate := id, execution := Notifying(false)))
    case Invoke =>
      && v.writer.Update? && v.writer.todo != [] && v.writer.todo[0] < |v.callbacks| && id > 0
      && var c := v.writer.todo[0];
         var cb := v.callbacks[c];
         && cb.execution == Notifying(false)
         && v' == Put(v, c, cb.(log := cb.log + [(v.history[id - 1], v.history[id])], execution := Notifying(true)))
    case UnlockExecution =>
      && v.writer.Update? && v.writer.todo != [] && v.writer.todo[0] < |v.callbacks|
      && var c := v.writer.todo[0];
         var cb := v.callbacks[c];
         && cb.execution == Notifying(true)
         && v' == Put(v, c, cb.(execution := Free)).(writer := Update(v.writer.todo[1..]))
    case FinishCompute => v.writer == Update([]) && v' == v.(writer := Quiet)
    case OnUpdate(trigger) =>
      v' == v.(callbacks := v.callbacks + [Callback(id, trigger, id, true, false, Registering(false), [])])
    case InitialInvoke(c) =>
      && c < |v.callbacks| && v.callbacks[c].execution == Registering(false)
      && var cb := v.callbacks[c];
         v' == Put(v, c, cb.(log := cb.log + InitialCall(v, cb), execution := Registering(true)))
    case InitialUnlock(c) =>
      && c < |v.callbacks| && v.callbacks[c].execution == Registering(true)
      && v' == Put(v, c, v.callbacks[c].(execution := Free))
    case RemoveFromList(c) =>
      && c < |v.callbacks| && !v.callbacks[c].execution.Registering?
      && v' == Put(v, c, v.callbacks[c].(listed := false))
    case MarkUnsubscribed(c) =>
      && c < |v.callbacks| && !v.callbacks[c].listed && v.callbacks[c].execution.Free?
      && v' == Put(v, c, v.callbacks[c].(unsubscribed := true))
  }

  /** The call with which OnUpdate starts: the value read at registration, unless it is
      the zero value and the caller did not ask for that. */
  function InitialCall(v: Variable, cb: Callback): seq<(Value, Value)>
  {
    if cb.registeredAt < |v.history| && (v.history[cb.registeredAt] != 0 || cb.trigger)
    then [(0, v.history[cb.registeredAt])] else []
  }

  ghost predicate IsRun(run: seq<Variable>, actions: seq<Action>)
  {
    && |run| == |actions| + 1 && Init(run[0])
    && forall i :: 0 <= i < |actions| ==> run[i].history != [] && Step(run[i], actions[i], run[i + 1])
  }

  // ----- what a subscriber sees -------------------------------------------------------------

  /** The (previous, new) pairs of the updates after from, up to and including to. */
  function Pairs(history: seq<Value>, from: nat, to: nat): (r: seq<(Value, Value)>)
    requires from <= to < |history|
    ensures |r| == to - from && forall i :: 0 <= i < |r| ==> r[i] == (history[from + i], history[from + i + 1])
  {
    seq(to - from, i requires 0 <= i < to - from => (history[from + i], history[from + i + 1]))
  }

  /** The last update the callback has been called for, -1 before the initial call. */
  function Seen(cb: Callback): int
  {
    if cb.execution == Registering(false) then -1
    else if cb.execution == Notifying(false) then cb.lastUpdate - 1
    else cb.lastUpdate
  }

  /** The initial call, then every update since registration once and in order. */
  ghost predicate HistoryOk(v: Variable, cb: Callback)
  {
    && cb.registeredAt <= cb.lastUpdate < |v.history|
    && (cb.execution == Registering(false) ==> cb.log == [] && cb.lastUpdate == cb.registeredAt)
    && (cb.execution != Registering(false) ==>
          && cb.registeredAt <= Seen(cb)
          && cb.log == InitialCall(v, cb) + Pairs(v.history, cb.registeredAt, Seen(cb)))
  }

  /** Where the callback stands in the update in progress. */
  ghost predicate ProtocolOk(v: Variable, c: nat)
    requires c < |v.callbacks|
  {
    var cb, id := v.callbacks[c], |v.history| - 1;
    && (cb.unsubscribed ==> !cb.listed && cb.execution.Free?)
    && (cb.execution.Registering? ==> cb.listed)
    && (cb.execution.Notifying? ==> v.writer.Update? && v.writer.todo != [] && v.writer.todo[0] == c && cb.lastUpdate == id)
    && (v.writer.Quiet? && cb.listed ==> cb.lastUpdate == id)
    && (v.writer.Update? && c in v.writer.todo && !cb.execution.Notifying? ==> cb.unsubscribed || cb.lastUpdate == id - 1)
    && (v.writer.Update? && c !in v.writer.todo && cb.listed ==> cb.lastUpdate == id)
  }

  ghost predicate TodoOk(v: Variable)
  {
    v.writer.Update? ==>
      && |v.history| > 1
      && (forall i :: 0 <= i < |v.writer.todo| ==> v.writer.todo[i] < |v.callbacks|)
      && (forall i, j :: 0 <= i < j < |v.writer.todo| ==> v.writer.todo[i] < v.writer.todo[j])
  }

  ghost predicate Inv(v: Variable)
  {
    && v.history != [] && TodoOk(v)
    && forall c :: 0 <= c < |v.callbacks| ==> HistoryOk(v, v.callbacks[c]) && ProtocolOk(v, c)
  }

  lemma InitInv(v: Variable)
    requires Init(v)
    ensures Inv(v)
  {
  }

  lemma HistoryExtends(v: Variable, v': Variable, cb: Callback)
    requires HistoryOk(v, cb) && v.history <= v'.history
    ensures HistoryOk(v', cb)
  {
    if cb.execution != Registering(false) {
      assert Pairs(v'.history, cb.registeredAt, Seen(cb)) == Pairs(v.history, cb.registeredAt, Seen(cb));
    }
  }

  lemma ComputeInv(v: Variable, x: Value, v': Variable)
    requires Inv(v) && Step(v, Compute(x), v')
    ensures Inv(v')
  {
    forall c | 0 <= c < |v'.callbacks| ensures HistoryOk(v', v'.callbacks[c]) && ProtocolOk(v', c) {
      assert HistoryOk(v, v.callbacks[c]) && ProtocolOk(v, c);
      HistoryExtends(v, v', v.callbacks[c]);
    }
    var todo := Listed(v.callbacks);
    assert forall i :: 0 <= i < |todo| ==> todo[i] in todo;
  }

  lemma TodoTail(todo: seq<nat>)
    requires todo != [] && forall i, j :: 0 <= i < j < |todo| ==> todo[i] < todo[j]
    ensures todo[0] !in todo[1..]
    ensures forall c :: c in todo[1..] <==> c in todo && c != todo[0]
  {
    assert todo == [todo[0]] + todo[1..];
  }

  lemma LockExecutionInv(v: Variable, v': Variable)
    requires Inv(v) && Step(v, LockExecution, v')
    ensures Inv(v')
  {
    var todo := v.writer.todo;
    TodoTail(todo);
    assert HistoryOk(v, v.callbacks[todo[0]]) && ProtocolOk(v, todo[0]);
    forall c | 0 <= c < |v'.callbacks| ensures HistoryOk(v', v'.callbacks[c]) && ProtocolOk(v', c) {
      assert HistoryOk(v, v.callbacks[c]) && ProtocolOk(v, c);
      HistoryExtends(v, v', v.callbacks[c]);
    }
  }

  lemma InvokeInv(v: Variable, v': Variable)
    requires Inv(v) && Step(v, Invoke, v')
    ensures Inv(v')
  {
    forall c | 0 <= c < |v'.callbacks| ensures HistoryOk(v', v'.callbacks[c]) && ProtocolOk(v', c) {
      assert HistoryOk(v, v.callbacks[c]) && ProtocolOk(v, c);
      if c == v.writer.todo[0] {
        var cb, id := v.callbacks[c], |v.history| - 1;
        assert Pairs(v.history, cb.registeredAt, id)
            == Pairs(v.history, cb.registeredAt, id - 1) + [(v.history[id - 1], v.history[id])];
      } else {
        HistoryExtends(v, v', v.callbacks[c]);
      }
    }
  }

  lemma UnlockExecutionInv(v: Variable, v': Variable)
    requires Inv(v) && Step(v, UnlockExecution, v')
    ensures Inv(v')
  {
    var todo := v.writer.todo;
    TodoTail(todo);
    assert HistoryOk(v, v.callbacks[todo[0]]) && ProtocolOk(v, todo[0]);
    forall c | 0 <= c < |v'.callbacks| ensures HistoryOk(v', v'.callbacks[c]) && ProtocolOk(v', c) {
      assert HistoryOk(v, v.callbacks[c]) && ProtocolOk(v, c);
      HistoryExtends(v, v', v.callbacks[c]);
    }
  }

  lemma SubscribeInv(v: Variable, a: Action, v': Variable)
    requires Inv(v) && Step(v, a, v') && (a.OnUpdate? || a.FinishCompute?)
    ensures Inv(v')
  {
    forall c | 0 <= c < |v'.callbacks| ensures HistoryOk(v', v'.callbacks[c]) && ProtocolOk(v', c) {
      if c < |v.callbacks| {
        assert HistoryOk(v, v.callbacks[c]) && ProtocolOk(v, c);
        HistoryExtends(v, v', v.callbacks[c]);
      } else if v.writer.Update? {
        assert c !in v.writer.todo;
      }
    }
  }

  /** The callback that an action is about. */
  function About(a: Action): nat
    requires a.InitialInvoke? || a.InitialUnlock? || a.RemoveFromList? || a.MarkUnsubscribed?
  {
    match a
    case InitialInvoke(c) => c
    case InitialUnlock(c) => c
    case RemoveFromList(c) => c
    case MarkUnsubscribed(c) => c
  }

  lemma OneCallbackInv(v: Variable, a: Action, v': Variable)
    requires Inv(v) && Step(v, a, v')
    requires a.InitialInvoke? || a.InitialUnlock? || a.RemoveFromList? || a.MarkUnsubscribed?
    ensures Inv(v')
  {
    forall c | 0 <= c < |v'.callbacks| ensures HistoryOk(v', v'.callbacks[c]) && ProtocolOk(v', c) {
      assert HistoryOk(v, v.callbacks[c]) && ProtocolOk(v, c);
      if c == About(a) {
        ThisCallbackOk(v, a, v', c);
      } else {
        assert v'.callbacks[c] == v.callbacks[c];
        HistoryExtends(v, v', v.callbacks[c]);
      }
    }
  }

  lemma ThisCallbackOk(v: Variable, a: Action, v': Variable, c: nat)
    requires v.history != [] && Step(v, a, v') && c < |v.callbacks| && HistoryOk(v, v.callbacks[c]) && ProtocolOk(v, c)
    requires a == InitialInvoke(c) || a == InitialUnlock(c) || a == RemoveFromList(c) || a == MarkUnsubscribed(c)
    ensures HistoryOk(v', v'.callbacks[c]) && ProtocolOk(v', c)
  {
    var cb := v.callbacks[c];
    assert Pairs(v.history, cb.registeredAt, cb.registeredAt) == [];
  }

  lemma StepInv(v: Variable, a: Action, v': Variable)
    requires Inv(v) && Step(v, a, v')
    ensures Inv(v')
  {
    match a
    case Compute(x) => ComputeInv(v, x, v');
    case LockExecution => LockExecutionInv(v, v');
    case Invoke => InvokeInv(v, v');
    case UnlockExecution => UnlockExecutionInv(v, v');
    case FinishCompute => SubscribeInv(v, a, v');
    case OnUpdate(_) => SubscribeInv(v, a, v');
    case _ => OneCallbackInv(v, a, v');
  }

  lemma {:induction false} RunInv(run: seq<Variable>, actions: seq<Action>, i: nat)
    requires IsRun(run, actions) && i < |run|
    ensures Inv(run[i])
  {
    if i == 0 {
      InitInv(run[0]);
    } else {
      RunInv(run, actions, i - 1);
      StepInv(run[i - 1], actions[i - 1], run[i]);
    }
  }

  // ----- what every run keeps -----------------------------------------------------------------

  /** At every moment a subscriber has been called for the value at its registration and
      then for the updates that followed, each once, in order and without a gap; when no
      write is in progress a subscriber that is registered has seen every update. */
  lemma SubscriberHistory(run: seq<Variable>, actions: seq<Action>, i: nat, c: nat)
    requires IsRun(run, actions) && i < |run| && c < |run[i].callbacks|
    ensures var v := run[i];
            var cb := v.callbacks[c];
            && v.history != [] && cb.registeredAt < |v.history| && Seen(cb) <= UpdateID(v)
            && (Seen(cb) < 0 ==> cb.log == [])
            && (Seen(cb) >= 0 ==>
                  && cb.registeredAt <= Seen(cb)
                  && cb.log == InitialCall(v, cb) + Pairs(v.history, cb.registeredAt, Seen(cb)))
            && (v.writer.Quiet? && cb.listed && cb.execution.Free? ==> Seen(cb) == UpdateID(v))
  {
    RunInv(run, actions, i);
    assert HistoryOk(run[i], run[i].callbacks[c]) && ProtocolOk(run[i], c);
  }

  /** Nothing is delivered after unsubscribe has returned. */
  lemma {:induction false} NothingAfterUnsubscribe(run: seq<Variable>, actions: seq<Action>, i: nat, j: nat, c: nat)
    requires IsRun(run, actions) && i <= j < |run| && c < |run[i].callbacks|
    requires run[i].callbacks[c].unsubscribed
    ensures c < |run[j].callbacks| && run[j].callbacks[c].unsubscribed
    ensures run[j].callbacks[c].log == run[i].callbacks[c].log
    decreases j - i
  {
    if i < j {
      RunInv(run, actions, i);
      assert ProtocolOk(run[i], c);
      assert Step(run[i], actions[i], run[i + 1]);
      NothingAfterUnsubscribe(run, actions, i + 1, j, c);
    }
  }

  /** The check against lastUpdate never suppresses an update a subscriber has not seen:
      whoever is skipped has unsubscribed. */
  lemma OnlyUnsubscribedSkipped(run: seq<Variable>, actions: seq<Action>, i: nat, c: nat)
    requires IsRun(run, actions) && i < |actions| && actions[i].LockExecution?
    requires run[i].writer.Update? && run[i].writer.todo != [] && c == run[i].writer.todo[0] < |run[i].callbacks|
    ensures run[i + 1].callbacks == run[i].callbacks <==> run[i].callbacks[c].unsubscribed
  {
    RunInv(run, actions, i);
    assert ProtocolOk(run[i], c) && Step(run[i], actions[i], run[i + 1]);
    if !run[i].callbacks[c].unsubscribed {
      assert run[i + 1].callbacks[c] != run[i].callbacks[c];
    }
  }

  /** The history only grows, and an update is a change. */
  lemma {:induction false} HistoryGrows(run: seq<Variable>, actions: seq<Action>, i: nat, j: nat)
    requires IsRun(run, actions) && i <= j < |run|
    ensures run[i].history <= run[j].history
    ensures forall k :: 0 < k < |run[j].history| ==> run[j].history[k - 1] != run[j].history[k]
    decreases j, j - i
  {
    if j > 0 {
      HistoryGrows(run, actions, if i < j then i else j - 1, j - 1);
      assert Step(run[j - 1], actions[j - 1], run[j]);
    }
  }

  // ----- what the calls of a run ask for -------------------------------------------------------

  /** Compute makes its argument the current value, and an update of it if it is a new one. */
  lemma ComputeSets(run: seq<Variable>, actions: seq<Action>, i: nat)
    requires IsRun(run, actions) && i < |actions| && actions[i].Compute?
    ensures var x, h, h' := actions[i].newValue, run[i].history, run[i + 1].history;
            && h != [] && h' != [] && h'[|h'| - 1] == x
            && (h' == h || h' == h + [x])
            && (h' == h <==> h[|h| - 1] == x)
            && (h' == h <==> run[i + 1].writer.Quiet?)
  {
    assert Step(run[i], actions[i], run[i + 1]);
  }

  /** An update is for exactly the callbacks that are registered when it happens, and the older ones
      among those still to be called come first. */
  lemma OldestFirst(run: seq<Variable>, actions: seq<Action>, i: nat)
    requires IsRun(run, actions) && i < |run| && run[i].writer.Update?
    ensures forall p, q :: 0 <= p < q < |run[i].writer.todo| ==> run[i].writer.todo[p] < run[i].writer.todo[q]
    ensures i > 0 && actions[i - 1].Compute? ==>
      forall c :: c in run[i].writer.todo <==> 0 <= c < |run[i].callbacks| && run[i].callbacks[c].listed
  {
    RunInv(run, actions, i);
    if i > 0 {
      assert Step(run[i - 1], actions[i - 1], run[i]);
    }
  }

  lemma {:induction false} CallbackStays(run: seq<Variable>, actions: seq<Action>, i: nat, j: nat, c: nat)
    requires IsRun(run, actions) && i <= j < |run| && c < |run[i].callbacks|
    ensures c < |run[j].callbacks|
    ensures run[j].callbacks[c].registeredAt == run[i].callbacks[c].registeredAt
    ensures run[j].callbacks[c].trigger == run[i].callbacks[c].trigger
    decreases j - i
  {
    if i < j {
      assert Step(run[i], actions[i], run[i + 1]);
      CallbackStays(run, actions, i + 1, j, c);
    }
  }

  /** The first call is for the value at the time of OnUpdate, with the zero value before it; it is
      left out exactly if that value is zero and the caller did not ask for it. What follows are
      the changes since then. */
  lemma FirstCall(run: seq<Variable>, actions: seq<Action>, i: nat, j: nat)
    requires IsRun(run, actions) && i < j < |run| && actions[i].OnUpdate?
    ensures var c, now := |run[i].callbacks|, UpdateID(run[i]);
            && c < |run[j].callbacks| && run[i].history != [] && run[i].history <= run[j].history
            && var cb, h := run[j].callbacks[c], run[j].history;
               var called := run[i].history[now] != 0 || actions[i].trigger;
               && (Seen(cb) < 0 ==> cb.log == [])
               && (Seen(cb) >= 0 && called ==> now <= Seen(cb) < |h| && cb.log == [(0, run[i].history[now])] + Pairs(h, now, Seen(cb)))
               && (Seen(cb) >= 0 && !called ==> now <= Seen(cb) < |h| && cb.log == Pairs(h, now, Seen(cb)))
  {
    var c := |run[i].callbacks|;
    assert Step(run[i], actions[i], run[i + 1]);
    CallbackStays(run, actions, i + 1, j, c);
    HistoryGrows(run, actions, i, j);
    SubscriberHistory(run, actions, j, c);
    var cb := run[j].callbacks[c];
    if Seen(cb) >= 0 {
      assert [] + Pairs(run[j].history, cb.registeredAt, Seen(cb)) == Pairs(run[j].history, cb.registeredAt, Seen(cb));
    }
  }

  // ----- no call waits forever --------------------------------------------------------------------

  ghost predicate Leads(v: Variable, w: Variable)
  {
    exists run: seq<Variable>, actions: seq<Action> ::
      && IsPath(run, actions) && run[0] == v && run[|run| - 1] == w
  }

  ghost predicate IsPath(run: seq<Variable>, actions: seq<Action>)
  {
    && |run| == |actions| + 1
    && forall i :: 0 <= i < |actions| ==> run[i].history != [] && Step(run[i], actions[i], run[i + 1])
  }

  lemma LeadsNowhere(v: Variable)
    ensures Leads(v, v)
  {
    assert IsPath([v], []);
  }

  lemma LeadsOn(v: Variable, a: Action, v1: Variable, w: Variable)
    requires v.history != [] && Step(v, a, v1) && Leads(v1, w)
    ensures Leads(v, w)
  {
    var run, actions :| IsPath(run, actions) && run[0] == v1 && run[|run| - 1] == w;
    var run', actions' := [v] + run, [a] + actions;
    assert forall i :: 0 < i < |actions'| ==> run'[i] == run[i - 1] && run'[i + 1] == run[i] && actions'[i] == actions[i - 1];
    assert IsPath(run', actions') && run'[0] == v && run'[|run'| - 1] == w;
  }

  /** What is left to do of a registration. */
  function Left(cb: Callback): nat
  {
    if cb.execution == Registering(false) then 2 else if cb.execution == Registering(true) then 1 else 0
  }

  /** What has been done for the next callback to notify. */
  function Spent(v: Variable): nat
    requires v.writer.Update?
  {
    var todo := v.writer.todo;
    if todo == [] || todo[0] >= |v.callbacks| then 0
    else if v.callbacks[todo[0]].execution == Notifying(false) then 1
    else if v.callbacks[todo[0]].execution == Notifying(true) then 2
    else 0
  }

  function AllLeft(cs: seq<Callback>): nat
  {
    if cs == [] then 0 else AllLeft(cs[..|cs| - 1]) + Left(cs[|cs| - 1])
  }

  lemma {:induction false} LeftUpdate(cs: seq<Callback>, c: nat, cb: Callback)
    requires c < |cs|
    ensures AllLeft(cs[c := cb]) == AllLeft(cs) - Left(cs[c]) + Left(cb)
  {
    var n := |cs| - 1;
    if c == n {
      assert cs[c := cb][..n] == cs[..n];
    } else {
      assert cs[c := cb][..n] == cs[..n][c := cb];
      LeftUpdate(cs[..n], c, cb);
    }
  }

  function Remaining(v: Variable): nat
  {
    AllLeft(v.callbacks) + if v.writer.Update? then 3 * |v.writer.todo| + 1 - Spent(v) else 0
  }

  predicate Settled(v: Variable)
  {
    v.writer.Quiet? && forall c :: 0 <= c < |v.callbacks| ==> v.callbacks[c].execution.Free?
  }

  /** Whatever is going on, one of the goroutines concerned can take its next step. */
  lemma SomeStep(v: Variable) returns (a: Action, v': Variable)
    requires Inv(v) && !Settled(v)
    ensures Step(v, a, v') && Remaining(v') < Remaining(v) && v'.history == v.history && |v'.callbacks| == |v.callbacks|
    ensures forall c :: 0 <= c < |v.callbacks| ==> v'.callbacks[c].listed == v.callbacks[c].listed
    ensures !a.RemoveFromList? && !a.MarkUnsubscribed? && !a.OnUpdate? && !a.Compute?
  {
    if c :| 0 <= c < |v.callbacks| && v.callbacks[c].execution.Registering? {
      a, v' := FinishRegistering(v, c);
    } else {
      MustBeUpdating(v);
      if v.writer.todo == [] {
        a, v' := FinishCompute, v.(writer := Quiet);
      } else {
        a, v' := NotifyNext(v);
      }
    }
  }

  lemma MustBeUpdating(v: Variable)
    requires Inv(v) && !Settled(v) && forall c :: 0 <= c < |v.callbacks| ==> !v.callbacks[c].execution.Registering?
    ensures v.writer.Update?
  {
    forall c | 0 <= c < |v.callbacks| ensures v.callbacks[c].execution.Free? || v.writer.Update? {
      assert ProtocolOk(v, c);
    }
  }

  lemma FinishRegistering(v: Variable, c: nat) returns (a: Action, v': Variable)
    requires v.history != [] && c < |v.callbacks| && v.callbacks[c].execution.Registering?
    ensures Step(v, a, v') && Remaining(v') < Remaining(v) && v'.history == v.history && |v'.callbacks| == |v.callbacks|
    ensures forall c :: 0 <= c < |v.callbacks| ==> v'.callbacks[c].listed == v.callbacks[c].listed
    ensures !a.RemoveFromList? && !a.MarkUnsubscribed? && !a.OnUpdate? && !a.Compute?
  {
    var cb := v.callbacks[c];
    if cb.execution.invoked {
      a, v' := InitialUnlock(c), Put(v, c, cb.(execution := Free));
    } else {
      a, v' := InitialInvoke(c), Put(v, c, cb.(log := cb.log + InitialCall(v, cb), execution := Registering(true)));
    }
    LeftUpdate(v.callbacks, c, v'.callbacks[c]);
  }

  lemma NotifyNext(v: Variable) returns (a: Action, v': Variable)
    requires Inv(v) && v.writer.Update? && v.writer.todo != [] && !v.callbacks[v.writer.todo[0]].execution.Registering?
    ensures Step(v, a, v') && Remaining(v') < Remaining(v) && v'.history == v.history && |v'.callbacks| == |v.callbacks|
    ensures forall c :: 0 <= c < |v.callbacks| ==> v'.callbacks[c].listed == v.callbacks[c].listed
    ensures !a.RemoveFromList? && !a.MarkUnsubscribed? && !a.OnUpdate? && !a.Compute?
  {
    if v.callbacks[v.writer.todo[0]].execution.Free? {
      a, v' := LockNext(v);
    } else {
      a, v' := CallNext(v);
    }
  }

  lemma LockNext(v: Variable) returns (a: Action, v': Variable)
    requires Inv(v) && v.writer.Update? && v.writer.todo != [] && v.callbacks[v.writer.todo[0]].execution.Free?
    ensures Step(v, a, v') && Remaining(v') < Remaining(v) && v'.history == v.history && |v'.callbacks| == |v.callbacks|
    ensures forall c :: 0 <= c < |v.callbacks| ==> v'.callbacks[c].listed == v.callbacks[c].listed
    ensures !a.RemoveFromList? && !a.MarkUnsubscribed? && !a.OnUpdate? && !a.Compute?
  {
    hide Remaining;
    var c, id := v.writer.todo[0], |v.history| - 1;
    var cb := v.callbacks[c];
    a := LockExecution;
    if cb.unsubscribed || id == cb.lastUpdate {
      v' := v.(writer := Update(v.writer.todo[1..]));
      TodoLess(v, cb, v');
    } else {
      v' := Put(v, c, cb.(lastUpdate := id, execution := Notifying(false)));
      SpentMore(v, v'.callbacks[c], v');
    }
    hide HistoryOk, ProtocolOk;
  }

  lemma CallNext(v: Variable) returns (a: Action, v': Variable)
    requires Inv(v) && v.writer.Update? && v.writer.todo != [] && v.callbacks[v.writer.todo[0]].execution.Notifying?
    ensures Step(v, a, v') && Remaining(v') < Remaining(v) && v'.history == v.history && |v'.callbacks| == |v.callbacks|
    ensures forall c :: 0 <= c < |v.callbacks| ==> v'.callbacks[c].listed == v.callbacks[c].listed
    ensures !a.RemoveFromList? && !a.MarkUnsubscribed? && !a.OnUpdate? && !a.Compute?
  {
    hide Remaining;
    var c, id := v.writer.todo[0], |v.history| - 1;
    var cb := v.callbacks[c];
    if cb.execution.invoked {
      a, v' := UnlockExecution, Put(v, c, cb.(execution := Free)).(writer := Update(v.writer.todo[1..]));
      TodoLess(v, cb.(execution := Free), v');
    } else {
      a := Invoke;
      v' := Put(v, c, cb.(log := cb.log + [(v.history[id - 1], v.history[id])], execution := Notifying(true)));
      SpentMore(v, v'.callbacks[c], v');
    }
    hide HistoryOk, ProtocolOk;
  }

  lemma SpentMore(v: Variable, cb: Callback, v': Variable)
    requires v.writer.Update? && v.writer.todo != [] && v.writer.todo[0] < |v.callbacks| && v' == Put(v, v.writer.todo[0], cb)
    requires Left(v.callbacks[v.writer.todo[0]]) == Left(cb) && Spent(v') > Spent(v)
    ensures Remaining(v') < Remaining(v)
  {
    hide AllLeft;
    LeftUpdate(v.callbacks, v.writer.todo[0], cb);
  }

  lemma TodoLess(v: Variable, cb: Callback, v': Variable)
    requires Inv(v) && v.writer.Update? && v.writer.todo != [] && v'.writer == Update(v.writer.todo[1..])
    requires v'.callbacks == v.callbacks[v.writer.todo[0] := cb] && Left(v.callbacks[v.writer.todo[0]]) == Left(cb)
    ensures Remaining(v') < Remaining(v)
  {
    NextUnspent(v, v');
    hide AllLeft, Inv;
    LeftUpdate(v.callbacks, v.writer.todo[0], cb);
  }

  lemma NextUnspent(v: Variable, v': Variable)
    requires Inv(v) && v.writer.Update? && v.writer.todo != [] && v'.writer == Update(v.writer.todo[1..])
    requires |v'.callbacks| == |v.callbacks|
    requires forall c :: 0 <= c < |v.callbacks| && c != v.writer.todo[0] ==> v'.callbacks[c] == v.callbacks[c]
    ensures Spent(v') == 0
  {
    var todo := v.writer.todo;
    if |todo| > 1 {
      assert todo[0] < todo[1] && todo[1..][0] == todo[1];
      assert ProtocolOk(v, todo[1]);
    }
  }

  lemma {:induction false} CanSettle(v: Variable) returns (w: Variable)
    requires Inv(v)
    ensures Leads(v, w) && Inv(w) && Settled(w) && w.history == v.history && |w.callbacks| == |v.callbacks|
    ensures forall c :: 0 <= c < |v.callbacks| ==> w.callbacks[c].listed == v.callbacks[c].listed
    decreases Remaining(v)
  {
    hide Inv, Leads, Remaining;
    if Settled(v) {
      w := v;
      LeadsNowhere(v);
    } else {
      var a, v1 := SomeStep(v);
      StepInv(v, a, v1);
      w := CanSettle(v1);
      InvHistory(v);
      LeadsOn(v, a, v1, w);
    }
  }

  lemma InvHistory(v: Variable)
    requires Inv(v)
    ensures v.history != []
  {
  }

  /** From every reachable state every value can still be written, and told to everybody who is
      subscribed: no lock is ever held for good. */
  lemma WriteGoesThrough(run: seq<Variable>, actions: seq<Action>, i: nat, x: Value)
    requires IsRun(run, actions) && i < |run|
    ensures exists w :: Leads(run[i], w) && Settled(w) && Written(run[i], w, x)
  {
    var v := run[i];
    RunInv(run, actions, i);
    var v1 := CanSettle(v);
    InvHistory(v1);
    var v2 := if x == v1.history[|v1.history| - 1] then v1
              else v1.(history := v1.history + [x], writer := Update(Listed(v1.callbacks)));
    assert Step(v1, Compute(x), v2);
    StepInv(v1, Compute(x), v2);
    var w := CanSettle(v2);
    LeadsOn(v1, Compute(x), v2, w);
    LeadsTogether(v, v1, w);
    forall c | 0 <= c < |v.callbacks| && v.callbacks[c].listed ensures Seen(w.callbacks[c]) == UpdateID(w) {
      assert ProtocolOk(w, c);
    }
  }

  ghost predicate Written(v: Variable, w: Variable, x: Value)
  {
    && v.history <= w.history && w.history != [] && w.history[|w.history| - 1] == x && |w.callbacks| == |v.callbacks|
    && forall c :: 0 <= c < |v.callbacks| && v.callbacks[c].listed ==> Seen(w.callbacks[c]) == UpdateID(w)
  }

  /** And everybody can still subscribe, be told the present value, and unsubscribe. */
  lemma SubscribeGoesThrough(run: seq<Variable>, actions: seq<Action>, i: nat, trigger: bool)
    requires IsRun(run, actions) && i < |run|
    ensures var c := |run[i].callbacks|;
            exists w :: Leads(run[i], w) && Settled(w) && c < |w.callbacks| && w.callbacks[c].listed && Seen(w.callbacks[c]) == UpdateID(w)
  {
    var v := run[i];
    RunInv(run, actions, i);
    InvHistory(v);
    var id := |v.history| - 1;
    var v1 := v.(callbacks := v.callbacks + [Callback(id, trigger, id, true, false, Registering(false), [])]);
    assert Step(v, OnUpdate(trigger), v1);
    StepInv(v, OnUpdate(trigger), v1);
    var w := CanSettle(v1);
    LeadsOn(v, OnUpdate(trigger), v1, w);
    assert v1.callbacks[|v.callbacks|].listed;
    assert ProtocolOk(w, |v.callbacks|);
  }

  lemma UnsubscribeGoesThrough(run: seq<Variable>, actions: seq<Action>, i: nat, c: nat)
    requires IsRun(run, actions) && i < |run| && c < |run[i].callbacks|
    ensures exists w :: Leads(run[i], w) && c < |w.callbacks| && w.callbacks[c].unsubscribed
  {
    var v := run[i];
    RunInv(run, actions, i);
    var v1 := CanSettle(v);
    var v2 := Put(v1, c, v1.callbacks[c].(listed := false));
    var w := Put(v2, c, v2.callbacks[c].(unsubscribed := true));
    InvHistory(v1);
    assert Step(v1, RemoveFromList(c), v2) && Step(v2, MarkUnsubscribed(c), w);
    LeadsNowhere(w);
    LeadsOn(v2, MarkUnsubscribed(c), w, w);
    LeadsOn(v1, RemoveFromList(c), v2, w);
    LeadsTogether(v, v1, w);
  }

  lemma LeadsTogether(u: Variable, v: Variable, w: Variable)
    requires Leads(u, v) && Leads(v, w)
    ensures Leads(u, w)
  {
    var run, actions :| IsPath(run, actions) && run[0] == u && run[|run| - 1] == v;
    PathOn(run, actions, w);
  }

  lemma {:induction false} PathOn(run: seq<Variable>, actions: seq<Action>, w: Variable)
    requires IsPath(run, actions) && Leads(run[|run| - 1], w)
    ensures Leads(run[0], w)
    decreases actions
  {
    hide Leads;
    if actions != [] {
      assert Step(run[0], actions[0], run[0 + 1]);
      PathOn(run[1..], actions[1..], w);
      LeadsOn(run[0], actions[0], run[1], w);
    }
  }
}
