/** StarvingMutex as a state machine. Every goroutine runs lock sessions; the inner
    mutex, the two condition variables and the notifications that are sent after the
    inner mutex has been released are separate steps that interleave freely. */
module StarvingMutex {

  /** Where a goroutine is. "In" states hold the inner mutex. */
  datatype PC =
    | Idle
    | RLockWant | RLockIn | RWaiting | RWoken | Reading | RUnlockWant | RUnlockIn
    | LockWant | LockNew | LockIn | WWaiting | WWoken | Writing | UnlockWant | UnlockIn
    | SignalWriter        // about to call writerCond.Signal, inner mutex already released
    | BroadcastReaders    // about to call readerCond.Broadcast, inner mutex already released

  predicate Inside(p: PC) { p.RLockIn? || p.RUnlockIn? || p.LockNew? || p.LockIn? || p.UnlockIn? }
  predicate ReadHolder(p: PC) { p.Reading? || p.RUnlockWant? || p.RUnlockIn? }
  predicate WriteHolder(p: PC) { p.Writing? || p.UnlockWant? || p.UnlockIn? }
  predicate Pending(p: PC) { p.LockIn? || p.WWaiting? || p.WWoken? }
  predicate Blocked(p: PC) { p.RWaiting? || p.WWaiting? }
  predicate Woken(p: PC) { p.RWoken? || p.WWoken? }
  predicate Undelivered(p: PC) { p.SignalWriter? || p.BroadcastReaders? }

  /** The fields of the mutex; inner says whether the inner mutex is locked. */
  datatype Vars = Vars(readersActive: nat, writerActive: bool, pendingWriters: nat, inner: bool)

  datatype State = State(pcs: seq<PC>, v: Vars)

  predicate CanWrite(v: Vars) { !v.writerActive && v.readersActive == 0 }

  ghost predicate Init(s: State)
  {
    && s.v == Vars(0, false, 0, false)
    && forall t :: 0 <= t < |s.pcs| ==> s.pcs[t] == Idle
  }

  /** A goroutine moves from p to q and the fields change from v to v'. A failed check
      (a panic) has no move: see CanStep. */
  predicate Move(p: PC, v: Vars, q: PC, v': Vars)
  {
    match p
    case Idle => (q.RLockWant? || q.LockWant?) && v' == v
    // RLock
    case RLockWant => !v.inner && q.RLockIn? && v' == v.(inner := true)
    case RLockIn =>
      if v.writerActive then q.RWaiting? && v' == v.(inner := false)
      else q.Reading? && v' == v.(readersActive := v.readersActive + 1, inner := false)
    case RWoken => !v.inner && q.RLockIn? && v' == v.(inner := true)
    // RUnlock
    case Reading => q.RUnlockWant? && v' == v
    case RUnlockWant => !v.inner && q.RUnlockIn? && v' == v.(inner := true)
    case RUnlockIn =>
      && v.readersActive > 0 && !v.writerActive
      && (if v.readersActive == 1 && v.pendingWriters > 0 then q.SignalWriter? else q.Idle?)
      && v' == v.(readersActive := v.readersActive - 1, inner := false)
    // Lock
    case LockWant => !v.inner && q.LockNew? && v' == v.(inner := true)
    case LockNew => q.LockIn? && v' == v.(pendingWriters := v.pendingWriters + 1)
    case LockIn =>
      if CanWrite(v) then
        && v.pendingWriters > 0 && q.Writing?
        && v' == v.(pendingWriters := v.pendingWriters - 1, writerActive := true, inner := false)
      else q.WWaiting? && v' == v.(inner := false)
    case WWoken => !v.inner && q.LockIn? && v' == v.(inner := true)
    // Unlock
    case Writing => q.UnlockWant? && v' == v
    case UnlockWant => !v.inner && q.UnlockIn? && v' == v.(inner := true)
    case UnlockIn =>
      && v.readersActive == 0
      && (if v.pendingWriters == 0 then q.BroadcastReaders? else q.SignalWriter?)
      && v' == v.(writerActive := false, inner := false)
    // blocked goroutines and notifications do not move like this
    case _ => false
  }

  /** readerCond.Broadcast: every reader that waits is woken. */
  function WakeReaders(pcs: seq<PC>): (r: seq<PC>)
    ensures |r| == |pcs|
    ensures forall i :: 0 <= i < |pcs| ==> r[i] == if pcs[i] == RWaiting then RWoken else pcs[i]
  {
    seq(|pcs|, i requires 0 <= i < |pcs| => if pcs[i] == RWaiting then RWoken else pcs[i])
  }

  ghost predicate SomeWriterWaits(pcs: seq<PC>) { exists u :: 0 <= u < |pcs| && pcs[u].WWaiting? }

  /** writerCond.Signal by t: one writer that waits, if any, is woken. */
  ghost predicate Signals(pcs: seq<PC>, t: nat, pcs': seq<PC>)
    requires t < |pcs|
  {
    if SomeWriterWaits(pcs)
    then exists u :: 0 <= u < |pcs| && pcs[u].WWaiting? && pcs' == pcs[t := Idle][u := WWoken]
    else pcs' == pcs[t := Idle]
  }

  /** One step of goroutine t. */
  ghost predicate Step(s: State, t: nat, s': State)
    requires t < |s.pcs|
  {
    match s.pcs[t]
    case SignalWriter => s'.v == s.v && Signals(s.pcs, t, s'.pcs)
    case BroadcastReaders => s'.v == s.v && s'.pcs == WakeReaders(s.pcs[t := Idle])
    case _ => |s'.pcs| == |s.pcs| && s'.pcs == s.pcs[t := s'.pcs[t]] && Move(s.pcs[t], s.v, s'.pcs[t], s'.v)
  }

  ghost predicate Next(s: State, s': State)
  {
    exists t :: 0 <= t < |s.pcs| && Step(s, t, s')
  }

  ghost predicate IsRun(run: seq<State>)
  {
    && run != [] && Init(run[0])
    && forall i :: 0 <= i < |run| - 1 ==> Next(run[i], run[i + 1])
  }

  // ----- counting ----------------------------------------------------------------------

  function Count(pcs: seq<PC>, p: PC -> bool): nat
  {
    if pcs == [] then 0 else (if p(pcs[0]) then 1 else 0) + Count(pcs[1..], p)
  }

  function One(b: bool): nat { if b then 1 else 0 }

  lemma {:induction false} CountUpdate(pcs: seq<PC>, t: nat, q: PC, p: PC -> bool)
    requires t < |pcs|
    ensures Count(pcs[t := q], p) + One(p(pcs[t])) == Count(pcs, p) + One(p(q))
  {
    if t == 0 {
      assert pcs[0 := q][1..] == pcs[1..];
    } else {
      assert pcs[t := q][1..] == pcs[1..][t - 1 := q];
      CountUpdate(pcs[1..], t - 1, q, p);
    }
  }

  lemma {:induction false} CountSame(a: seq<PC>, b: seq<PC>, p: PC -> bool)
    requires |a| == |b| && forall i :: 0 <= i < |a| ==> p(a[i]) == p(b[i])
    ensures Count(a, p) == Count(b, p)
  {
    if a != [] {
      CountSame(a[1..], b[1..], p);
    }
  }

  lemma {:induction false} CountMember(pcs: seq<PC>, t: nat, p: PC -> bool)
    requires t < |pcs| && p(pcs[t])
    ensures Count(pcs, p) > 0
  {
    if t > 0 {
      CountMember(pcs[1..], t - 1, p);
    }
  }

  lemma {:induction false} CountTwo(pcs: seq<PC>, t: nat, u: nat, p: PC -> bool)
    requires t < u < |pcs| && p(pcs[t]) && p(pcs[u])
    ensures Count(pcs, p) > 1
  {
    if t > 0 {
      CountTwo(pcs[1..], t - 1, u - 1, p);
    } else {
      CountMember(pcs[1..], u - 1, p);
    }
  }

  lemma {:induction false} CountWitness(pcs: seq<PC>, p: PC -> bool) returns (t: nat)
    requires Count(pcs, p) > 0
    ensures t < |pcs| && p(pcs[t])
  {
    if p(pcs[0]) {
      t := 0;
    } else {
      t := CountWitness(pcs[1..], p);
      t := t + 1;
    }
  }

  lemma {:induction false} CountNone(pcs: seq<PC>, p: PC -> bool)
    requires forall i :: 0 <= i < |pcs| ==> !p(pcs[i])
    ensures Count(pcs, p) == 0
  {
    if pcs != [] {
      CountNone(pcs[1..], p);
    }
  }

  // ----- the invariant -----------------------------------------------------------------

  /** The fields describe what the goroutines hold. */
  ghost predicate Accounts(s: State)
  {
    && s.v.readersActive == Count(s.pcs, ReadHolder)
    && One(s.v.writerActive) == Count(s.pcs, WriteHolder)
    && s.v.pendingWriters == Count(s.pcs, Pending)
    && One(s.v.inner) == Count(s.pcs, Inside)
    && (s.v.writerActive ==> s.v.readersActive == 0)
  }

  predicate WriterComing(p: PC) { p.SignalWriter? || p.WWoken? || p.LockIn? }

  /** A writer that waits while the lock is free is about to be told; a reader that
      waits is behind a writer, behind pending writers, or about to be told. */
  ghost predicate WritersTold(s: State)
  {
    SomeWriterWaits(s.pcs) && CanWrite(s.v) ==> exists t :: 0 <= t < |s.pcs| && WriterComing(s.pcs[t])
  }

  ghost predicate ReadersTold(s: State)
  {
    (exists t :: 0 <= t < |s.pcs| && s.pcs[t].RWaiting?) ==>
      || s.v.writerActive || s.v.pendingWriters > 0
      || exists t :: 0 <= t < |s.pcs| && s.pcs[t].BroadcastReaders?
  }

  ghost predicate Inv(s: State) { Accounts(s) && WritersTold(s) && ReadersTold(s) }

  lemma InitInv(s: State)
    requires Init(s)
    ensures Inv(s)
  {
    CountNone(s.pcs, ReadHolder);
    CountNone(s.pcs, WriteHolder);
    CountNone(s.pcs, Pending);
    CountNone(s.pcs, Inside);
  }

  lemma Moves(pcs: seq<PC>, t: nat, q: PC)
    requires t < |pcs|
    ensures var r := pcs[t := q];
            && Count(r, ReadHolder) + One(ReadHolder(pcs[t])) == Count(pcs, ReadHolder) + One(ReadHolder(q))
            && Count(r, WriteHolder) + One(WriteHolder(pcs[t])) == Count(pcs, WriteHolder) + One(WriteHolder(q))
            && Count(r, Pending) + One(Pending(pcs[t])) == Count(pcs, Pending) + One(Pending(q))
            && Count(r, Inside) + One(Inside(pcs[t])) == Count(pcs, Inside) + One(Inside(q))
  {
    CountUpdate(pcs, t, q, ReadHolder);
    CountUpdate(pcs, t, q, WriteHolder);
    CountUpdate(pcs, t, q, Pending);
    CountUpdate(pcs, t, q, Inside);
  }

  lemma Woke(a: seq<PC>)
    ensures var b := WakeReaders(a);
            && Count(a, ReadHolder) == Count(b, ReadHolder) && Count(a, WriteHolder) == Count(b, WriteHolder)
            && Count(a, Pending) == Count(b, Pending) && Count(a, Inside) == Count(b, Inside)
  {
    var b := WakeReaders(a);
    CountSame(a, b, ReadHolder);
    CountSame(a, b, WriteHolder);
    CountSame(a, b, Pending);
    CountSame(a, b, Inside);
  }

  /** A move changes each field by what the goroutine's own place changes. */
  lemma MoveAccounts(p: PC, v: Vars, q: PC, v': Vars)
    requires Move(p, v, q, v')
    requires WriteHolder(p) ==> v.writerActive
    requires v.writerActive ==> v.readersActive == 0
    requires Inside(p) ==> v.inner
    ensures v'.readersActive + One(ReadHolder(p)) == v.readersActive + One(ReadHolder(q))
    ensures One(v'.writerActive) + One(WriteHolder(p)) == One(v.writerActive) + One(WriteHolder(q))
    ensures v'.pendingWriters + One(Pending(p)) == v.pendingWriters + One(Pending(q))
    ensures One(v'.inner) + One(Inside(p)) == One(v.inner) + One(Inside(q))
    ensures v'.writerActive ==> v'.readersActive == 0
  {
  }

  lemma StepAccounts(s: State, t: nat, s': State)
    requires Accounts(s) && t < |s.pcs| && Step(s, t, s')
    ensures Accounts(s') && |s'.pcs| == |s.pcs|
  {
    hide Count;
    if s.pcs[t].BroadcastReaders? {
      Moves(s.pcs, t, Idle);
      Woke(s.pcs[t := Idle]);
    } else if s.pcs[t].SignalWriter? {
      Moves(s.pcs, t, Idle);
      if SomeWriterWaits(s.pcs) {
        var u :| 0 <= u < |s.pcs| && s.pcs[u].WWaiting? && s'.pcs == s.pcs[t := Idle][u := WWoken];
        Moves(s.pcs[t := Idle], u, WWoken);
      }
    } else {
      hide Move;
      if WriteHolder(s.pcs[t]) {
        CountMember(s.pcs, t, WriteHolder);
      }
      if Inside(s.pcs[t]) {
        CountMember(s.pcs, t, Inside);
      }
      Moves(s.pcs, t, s'.pcs[t]);
      MoveAccounts(s.pcs[t], s.v, s'.pcs[t], s'.v);
    }
  }

  lemma StepWritersTold(s: State, t: nat, s': State)
    requires Accounts(s) && WritersTold(s) && t < |s.pcs| && Step(s, t, s')
    ensures WritersTold(s')
  {
    hide Count;
    if SomeWriterWaits(s'.pcs) && CanWrite(s'.v) {
      var w :| 0 <= w < |s'.pcs| && s'.pcs[w].WWaiting?;
      if s.pcs[t].SignalWriter? {
        assert s.pcs[w].WWaiting?;
        var u :| 0 <= u < |s.pcs| && s.pcs[u].WWaiting? && s'.pcs == s.pcs[t := Idle][u := WWoken];
        assert WriterComing(s'.pcs[u]);
      } else if WriterComing(s'.pcs[t]) {
      } else {
        assert w != t && s.pcs[w].WWaiting?;
        CountMember(s.pcs, w, Pending);
        assert CanWrite(s.v);
        var c :| 0 <= c < |s.pcs| && WriterComing(s.pcs[c]);
        assert WriterComing(s'.pcs[c]);
      }
    }
  }

  lemma StepReadersTold(s: State, t: nat, s': State)
    requires ReadersTold(s) && t < |s.pcs| && Step(s, t, s')
    ensures ReadersTold(s')
  {
    if r :| 0 <= r < |s'.pcs| && s'.pcs[r].RWaiting? {
      if r == t {
        assert s'.v.writerActive;
      } else {
        assert s.pcs[r].RWaiting?;
        if b :| 0 <= b < |s.pcs| && s.pcs[b].BroadcastReaders? {
          assert s'.pcs[b].BroadcastReaders?;
        } else if s.pcs[t].UnlockIn? {
          assert s.v.pendingWriters == 0 ==> s'.pcs[t].BroadcastReaders?;
        }
      }
    }
  }

  lemma NextInv(s: State, s': State)
    requires Inv(s) && Next(s, s')
    ensures Inv(s') && |s'.pcs| == |s.pcs|
  {
    var t :| 0 <= t < |s.pcs| && Step(s, t, s');
    StepAccounts(s, t, s');
    StepWritersTold(s, t, s');
    StepReadersTold(s, t, s');
  }

  lemma {:induction false} RunInv(run: seq<State>, i: nat)
    requires IsRun(run) && i < |run|
    ensures Inv(run[i])
  {
    if i == 0 {
      InitInv(run[0]);
    } else {
      RunInv(run, i - 1);
      NextInv(run[i - 1], run[i]);
    }
  }

  // ----- what every run keeps ----------------------------------------------------------

  /** No state of any run has a writer together with a reader or a second writer. */
  lemma Exclusion(run: seq<State>, i: nat, t: nat, u: nat)
    requires IsRun(run) && i < |run| && t < |run[i].pcs| && u < |run[i].pcs| && t != u
    requires WriteHolder(run[i].pcs[t])
    ensures !ReadHolder(run[i].pcs[u]) && !WriteHolder(run[i].pcs[u])
  {
    RunInv(run, i);
    var pcs := run[i].pcs;
    CountMember(pcs, t, WriteHolder);
    if ReadHolder(pcs[u]) {
      CountMember(pcs, u, ReadHolder);
    }
    if WriteHolder(pcs[u]) {
      CountTwo(pcs, if t < u then t else u, if t < u then u else t, WriteHolder);
    }
  }

  /** Whenever a goroutine is blocked, someone holds the lock, a woken waiter has yet to run, a
      notification has yet to be delivered, or a writer is about to look at the lock. */
  lemma NoLostWakeUp(run: seq<State>, i: nat, t: nat)
    requires IsRun(run) && i < |run| && t < |run[i].pcs|
    requires Blocked(run[i].pcs[t])
    ensures exists u :: 0 <= u < |run[i].pcs| && Mover(run[i].pcs[u])
  {
    RunInv(run, i);
    SomeMover(run[i], t);
  }

  lemma SomeMover(s: State, t: nat)
    requires Inv(s) && t < |s.pcs| && Blocked(s.pcs[t])
    ensures exists u :: 0 <= u < |s.pcs| && Mover(s.pcs[u])
  {
    if s.v.readersActive > 0 {
      var u := CountWitness(s.pcs, ReadHolder);
    } else if s.v.writerActive {
      var u := CountWitness(s.pcs, WriteHolder);
    } else if s.pcs[t].WWaiting? {
      WriterOnTheWay(s, t);
    } else if s.v.pendingWriters > 0 {
      var w := CountWitness(s.pcs, Pending);
      if s.pcs[w].WWaiting? {
        WriterOnTheWay(s, w);
      } else {
        assert Mover(s.pcs[w]);
      }
    } else {
      var b :| 0 <= b < |s.pcs| && s.pcs[b].BroadcastReaders?;
      assert Mover(s.pcs[b]);
    }
  }

  /** Whom a blocked goroutine can wait for. */
  predicate Mover(p: PC) { ReadHolder(p) || WriteHolder(p) || Woken(p) || Undelivered(p) || p.LockIn? }

  lemma WriterOnTheWay(s: State, w: nat)
    requires Inv(s) && w < |s.pcs| && s.pcs[w].WWaiting? && CanWrite(s.v)
    ensures exists u :: 0 <= u < |s.pcs| && Mover(s.pcs[u])
  {
    var c :| 0 <= c < |s.pcs| && WriterComing(s.pcs[c]);
    assert Mover(s.pcs[c]);
  }

  /** No deadlock: in every state with a blocked goroutine some goroutine that is neither
      idle nor blocked has a step. */
  lemma Progress(run: seq<State>, i: nat, t: nat)
    requires IsRun(run) && i < |run| && t < |run[i].pcs| && Blocked(run[i].pcs[t])
    ensures exists u, s' :: 0 <= u < |run[i].pcs| && !run[i].pcs[u].Idle? && !Blocked(run[i].pcs[u]) && Step(run[i], u, s')
  {
    RunInv(run, i);
    var u, s' := SomeoneSteps(run[i], t);
  }

  /** As long as anybody is not idle, somebody who is not idle can go on. */
  lemma SomeoneSteps(s: State, t: nat) returns (u: nat, s': State)
    requires Inv(s) && t < |s.pcs| && !s.pcs[t].Idle?
    ensures u < |s.pcs| && !s.pcs[u].Idle? && !Blocked(s.pcs[u]) && Step(s, u, s')
  {
    if s.v.inner {
      u := CountWitness(s.pcs, Inside);
    } else if Blocked(s.pcs[t]) {
      SomeMover(s, t);
      u :| 0 <= u < |s.pcs| && Mover(s.pcs[u]);
      if s.pcs[u].LockIn? {
        CountMember(s.pcs, u, Inside);
      }
    } else {
      u := t;
    }
    s' := CanStep(s, u);
  }

  /** A goroutine that is not blocked and not kept out of the inner mutex can go on: in
      particular the checks of RUnlock and Unlock never panic. */
  lemma CanStep(s: State, t: nat) returns (s': State)
    requires Inv(s) && t < |s.pcs| && !Blocked(s.pcs[t])
    requires s.v.inner ==> Inside(s.pcs[t]) || s.pcs[t].Idle? || s.pcs[t].Reading? || s.pcs[t].Writing? || Undelivered(s.pcs[t])
    ensures Step(s, t, s')
  {
    if ReadHolder(s.pcs[t]) {
      CountMember(s.pcs, t, ReadHolder);
    }
    if Pending(s.pcs[t]) {
      CountMember(s.pcs, t, Pending);
    }
    if WriteHolder(s.pcs[t]) {
      CountMember(s.pcs, t, WriteHolder);
    }
    if s.pcs[t].BroadcastReaders? {
      s' := State(WakeReaders(s.pcs[t := Idle]), s.v);
    } else if s.pcs[t].SignalWriter? {
      if u :| 0 <= u < |s.pcs| && s.pcs[u].WWaiting? {
        s' := State(s.pcs[t := Idle][u := WWoken], s.v);
      } else {
        s' := State(s.pcs[t := Idle], s.v);
      }
    } else {
      var q, v' := CanMove(s.pcs[t], s.v);
      s' := State(s.pcs[t := q], v');
    }
  }

  lemma CanMove(p: PC, v: Vars) returns (q: PC, v': Vars)
    requires !Blocked(p) && !Undelivered(p)
    requires v.inner ==> Inside(p) || p.Idle? || p.Reading? || p.Writing?
    requires ReadHolder(p) ==> v.readersActive > 0
    requires Pending(p) ==> v.pendingWriters > 0
    requires WriteHolder(p) ==> v.writerActive
    requires v.writerActive ==> v.readersActive == 0
    ensures Move(p, v, q, v')
  {
    match p
    case Idle => q, v' := RLockWant, v;
    case RLockWant => q, v' := RLockIn, v.(inner := true);
    case RLockIn =>
      if v.writerActive {
        q, v' := RWaiting, v.(inner := false);
      } else {
        q, v' := Reading, v.(readersActive := v.readersActive + 1, inner := false);
      }
    case RWoken => q, v' := RLockIn, v.(inner := true);
    case Reading => q, v' := RUnlockWant, v;
    case RUnlockWant => q, v' := RUnlockIn, v.(inner := true);
    case RUnlockIn =>
      q := if v.readersActive == 1 && v.pendingWriters > 0 then SignalWriter else Idle;
      v' := v.(readersActive := v.readersActive - 1, inner := false);
    case LockWant => q, v' := LockNew, v.(inner := true);
    case LockNew => q, v' := LockIn, v.(pendingWriters := v.pendingWriters + 1);
    case LockIn =>
      if CanWrite(v) {
        q, v' := Writing, v.(pendingWriters := v.pendingWriters - 1, writerActive := true, inner := false);
      } else {
        q, v' := WWaiting, v.(inner := false);
      }
    case WWoken => q, v' := LockIn, v.(inner := true);
    case Writing => q, v' := UnlockWant, v;
    case UnlockWant => q, v' := UnlockIn, v.(inner := true);
    case UnlockIn =>
      q := if v.pendingWriters == 0 then BroadcastReaders else SignalWriter;
      v' := v.(writerActive := false, inner := false);
  }

  // ----- who is let in ---------------------------------------------------------------------

  /** A reader that looks at the lock is let in unless there is a writer in it, no matter how many
      writers are waiting. */
  lemma ReaderLetIn(run: seq<State>, i: nat, t: nat)
    requires IsRun(run) && i + 1 < |run| && t < |run[i].pcs| && run[i].pcs[t].RLockIn? && Step(run[i], t, run[i + 1])
    ensures t < |run[i + 1].pcs|
    ensures run[i + 1].pcs[t] == if exists u :: 0 <= u < |run[i].pcs| && WriteHolder(run[i].pcs[u]) then RWaiting else Reading
  {
    RunInv(run, i);
    var pcs := run[i].pcs;
    if run[i].v.writerActive {
      var u := CountWitness(pcs, WriteHolder);
    } else if u :| 0 <= u < |pcs| && WriteHolder(pcs[u]) {
      CountMember(pcs, u, WriteHolder);
    }
  }

  predicate Holder(p: PC) { ReadHolder(p) || WriteHolder(p) }

  /** A writer is let in unless there is anybody in the lock. */
  lemma WriterLetIn(run: seq<State>, i: nat, t: nat)
    requires IsRun(run) && i + 1 < |run| && t < |run[i].pcs| && run[i].pcs[t].LockIn? && Step(run[i], t, run[i + 1])
    ensures t < |run[i + 1].pcs|
    ensures run[i + 1].pcs[t] == if exists u :: 0 <= u < |run[i].pcs| && Holder(run[i].pcs[u]) then WWaiting else Writing
  {
    RunInv(run, i);
    var pcs := run[i].pcs;
    if run[i].v.writerActive {
      var u := CountWitness(pcs, WriteHolder);
    } else if run[i].v.readersActive > 0 {
      var u := CountWitness(pcs, ReadHolder);
    } else if u :| 0 <= u < |pcs| && Holder(pcs[u]) {
      if WriteHolder(pcs[u]) {
        CountMember(pcs, u, WriteHolder);
      } else {
        CountMember(pcs, u, ReadHolder);
      }
    }
  }

  /** The last reader to leave tells a writer if one wants to write; a writer that leaves tells a
      writer if one wants to write, and all readers otherwise. */
  lemma WhoIsTold(run: seq<State>, i: nat, t: nat)
    requires IsRun(run) && i + 1 < |run| && t < |run[i].pcs| && Step(run[i], t, run[i + 1])
    requires run[i].pcs[t].RUnlockIn? || run[i].pcs[t].UnlockIn?
    ensures t < |run[i + 1].pcs|
    ensures var pcs := run[i].pcs;
            var wanted := exists u :: 0 <= u < |pcs| && Pending(pcs[u]);
            run[i + 1].pcs[t] ==
              if pcs[t].UnlockIn? then (if wanted then SignalWriter else BroadcastReaders)
              else if wanted && (forall u :: 0 <= u < |pcs| && u != t ==> !ReadHolder(pcs[u])) then SignalWriter
              else Idle
  {
    RunInv(run, i);
    var pcs := run[i].pcs;
    if run[i].v.pendingWriters > 0 {
      var u := CountWitness(pcs, Pending);
    } else if u :| 0 <= u < |pcs| && Pending(pcs[u]) {
      CountMember(pcs, u, Pending);
    }
    if pcs[t].RUnlockIn? {
      LastReader(pcs, t);
    }
  }

  lemma LastReader(pcs: seq<PC>, t: nat)
    requires t < |pcs| && ReadHolder(pcs[t])
    ensures Count(pcs, ReadHolder) == 1 <==> forall u :: 0 <= u < |pcs| && u != t ==> !ReadHolder(pcs[u])
  {
    var rest := pcs[t := Idle];
    CountUpdate(pcs, t, Idle, ReadHolder);
    if Count(rest, ReadHolder) > 0 {
      var u := CountWitness(rest, ReadHolder);
      assert u != t && ReadHolder(pcs[u]);
    } else if u :| 0 <= u < |pcs| && u != t && ReadHolder(pcs[u]) {
      CountMember(rest, u, ReadHolder);
    }
  }

  // ----- everybody is served if nobody new comes ---------------------------------------------------

  predicate Busy(p: PC) { !p.Idle? }

  function Weight(p: PC): nat
  {
    match p
    case Idle => 0
    case SignalWriter => 1
    case BroadcastReaders => 1
    case RUnlockIn => 2
    case UnlockIn => 2
    case RUnlockWant => 3
    case UnlockWant => 3
    case Reading => 4
    case Writing => 4
    case RWaiting => 5
    case WWaiting => 5
    case RLockIn => 6
    case LockIn => 6
    case RLockWant => 7
    case RWoken => 7
    case WWoken => 7
    case LockNew => 7
    case LockWant => 8
  }

  function Load(pcs: seq<PC>): nat
  {
    if pcs == [] then 0 else Weight(pcs[0]) + Load(pcs[1..])
  }

  lemma {:induction false} LoadUpdate(pcs: seq<PC>, t: nat, q: PC)
    requires t < |pcs|
    ensures Load(pcs[t := q]) + Weight(pcs[t]) == Load(pcs) + Weight(q)
  {
    if t == 0 {
      assert pcs[0 := q][1..] == pcs[1..];
    } else {
      assert pcs[t := q][1..] == pcs[1..][t - 1 := q];
      LoadUpdate(pcs[1..], t - 1, q);
    }
  }

  /** Whatever order they run in, every step of a goroutine that is not idle takes them nearer to the
      end: a run in which nobody new asks for the lock cannot go on for ever. */
  lemma EveryStepCounts(s: State, t: nat, s': State)
    requires t < |s.pcs| && !s.pcs[t].Idle? && Step(s, t, s')
    ensures |s'.pcs| == |s.pcs| && Count(s'.pcs, Busy) <= Count(s.pcs, Busy)
    ensures Count(s'.pcs, Busy) < Count(s.pcs, Busy) || Load(s'.pcs) < Load(s.pcs)
  {
    hide Count, Load;
    if s.pcs[t].SignalWriter? {
      CountUpdate(s.pcs, t, Idle, Busy);
      if SomeWriterWaits(s.pcs) {
        var u :| 0 <= u < |s.pcs| && s.pcs[u].WWaiting? && s'.pcs == s.pcs[t := Idle][u := WWoken];
        CountUpdate(s.pcs[t := Idle], u, WWoken, Busy);
      }
    } else if s.pcs[t].BroadcastReaders? {
      CountUpdate(s.pcs, t, Idle, Busy);
      CountSame(s.pcs[t := Idle], WakeReaders(s.pcs[t := Idle]), Busy);
    } else {
      assert !Blocked(s.pcs[t]);
      CountUpdate(s.pcs, t, s'.pcs[t], Busy);
      LoadUpdate(s.pcs, t, s'.pcs[t]);
    }
  }

  ghost predicate IsPath(run: seq<State>)
  {
    run != [] && forall i :: 0 <= i < |run| - 1 ==> Next(run[i], run[i + 1])
  }

  ghost predicate Leads(s: State, s': State) { exists run :: IsPath(run) && run[0] == s && run[|run| - 1] == s' }

  lemma LeadsNowhere(s: State)
    ensures Leads(s, s)
  {
    assert IsPath([s]);
  }

  lemma LeadsOn(s: State, t: nat, s1: State, s': State)
    requires t < |s.pcs| && Step(s, t, s1) && Leads(s1, s')
    ensures Leads(s, s')
  {
    hide Step;
    var run :| IsPath(run) && run[0] == s1 && run[|run| - 1] == s';
    var more := [s] + run;
    assert Next(s, s1);
    assert forall i :: 0 < i < |more| - 1 ==> more[i] == run[i - 1] && more[i + 1] == run[i];
    assert IsPath(more) && more[0] == s && more[|more| - 1] == s';
  }

  predicate AllIdle(s: State) { forall t :: 0 <= t < |s.pcs| ==> s.pcs[t].Idle? }

  lemma {:induction false} CanDrain(s: State) returns (s': State)
    requires Inv(s)
    ensures Leads(s, s') && Inv(s') && AllIdle(s') && |s'.pcs| == |s.pcs|
    decreases Count(s.pcs, Busy), Load(s.pcs)
  {
    hide Inv, Step, Leads, Count, Load;
    if t :| 0 <= t < |s.pcs| && !s.pcs[t].Idle? {
      var u, s1 := SomeoneSteps(s, t);
      EveryStepCounts(s, u, s1);
      assert Next(s, s1);
      NextInv(s, s1);
      s' := CanDrain(s1);
      LeadsOn(s, u, s1, s');
    } else {
      s' := s;
      LeadsNowhere(s);
    }
  }

  lemma FreeWhenIdle(s: State)
    requires Inv(s) && AllIdle(s)
    ensures s.v == Vars(0, false, 0, false)
  {
    CountNone(s.pcs, ReadHolder);
    CountNone(s.pcs, WriteHolder);
    CountNone(s.pcs, Pending);
    CountNone(s.pcs, Inside);
  }

  /** In every reachable state every goroutine can still come to read, and to write. */
  lemma EverybodyCan(run: seq<State>, i: nat, t: nat)
    requires IsRun(run) && i < |run| && t < |run[i].pcs|
    ensures exists r :: Leads(run[i], r) && t < |r.pcs| && r.pcs[t] == Reading
    ensures exists w :: Leads(run[i], w) && t < |w.pcs| && w.pcs[t] == Writing
  {
    RunInv(run, i);
    var s := CanDrain(run[i]);
    FreeWhenIdle(s);
    var r := CanRead(s, t);
    var w := CanWriteNow(s, t);
    LeadsTogether(run[i], s, r);
    LeadsTogether(run[i], s, w);
  }

  lemma CanRead(s: State, t: nat) returns (r: State)
    requires t < |s.pcs| && AllIdle(s) && s.v == Vars(0, false, 0, false)
    ensures Leads(s, r) && |r.pcs| == |s.pcs| && r.pcs[t] == Reading
  {
    hide Leads;
    var s1 := State(s.pcs[t := RLockWant], s.v);
    var s2 := State(s1.pcs[t := RLockIn], Vars(0, false, 0, true));
    r := State(s2.pcs[t := Reading], Vars(1, false, 0, false));
    LeadsNowhere(r);
    assert Step(s, t, s1) && Step(s1, t, s2) && Step(s2, t, r);
    LeadsOn(s2, t, r, r);
    LeadsOn(s1, t, s2, r);
    LeadsOn(s, t, s1, r);
  }

  lemma CanWriteNow(s: State, t: nat) returns (w: State)
    requires t < |s.pcs| && AllIdle(s) && s.v == Vars(0, false, 0, false)
    ensures Leads(s, w) && |w.pcs| == |s.pcs| && w.pcs[t] == Writing
  {
    hide Leads;
    var s1 := State(s.pcs[t := LockWant], s.v);
    var s2 := State(s1.pcs[t := LockNew], Vars(0, false, 0, true));
    var s3 := State(s2.pcs[t := LockIn], Vars(0, false, 1, true));
    w := State(s3.pcs[t := Writing], Vars(0, true, 0, false));
    LeadsNowhere(w);
    assert Step(s, t, s1) && Step(s1, t, s2) && Step(s2, t, s3) && Step(s3, t, w);
    LeadsOn(s3, t, w, w);
    LeadsOn(s2, t, s3, w);
    LeadsOn(s1, t, s2, w);
    LeadsOn(s, t, s1, w);
  }

  lemma LeadsTogether(a: State, b: State, c: State)
    requires Leads(a, b) && Leads(b, c)
    ensures Leads(a, c)
  {
    var x :| IsPath(x) && x[0] == a && x[|x| - 1] == b;
    var y :| IsPath(y) && y[0] == b && y[|y| - 1] == c;
    hide Next;
    var z := x + y[1..];
    forall i | 0 <= i < |z| - 1 ensures Next(z[i], z[i + 1]) {
      if i >= |x| - 1 {
        assert z[i] == y[i - |x| + 1] && z[i + 1] == y[i - |x| + 2];
      } else {
        assert z[i] == x[i] && z[i + 1] == x[i + 1];
      }
    }
    assert IsPath(z) && z[0] == a && z[|z| - 1] == c;
  }

  // ----- the plain reader/writer lock it implements -------------------------------------

  /** The specification: acquire and release steps of a reader/writer lock. */
  datatype RWLock = RWLock(readers: nat, writer: bool)

  predicate RWStep(a: RWLock, b: RWLock)
  {
    || b == a
    || (!a.writer && b == RWLock(a.readers + 1, false))
    || (a.readers > 0 && !a.writer && b == RWLock(a.readers - 1, false))
    || (!a.writer && a.readers == 0 && b == RWLock(0, true))
    || (a.writer && a.readers == 0 && b == RWLock(0, false))
  }

  /** Every step of every run is a step of the plain lock or leaves it alone. */
  lemma RefinesRWLock(run: seq<State>, i: nat)
    requires IsRun(run) && i + 1 < |run|
    ensures RWStep(RWLock(run[i].v.readersActive, run[i].v.writerActive), RWLock(run[i + 1].v.readersActive, run[i + 1].v.writerActive))
  {
    RunInv(run, i);
    var s, s' := run[i], run[i + 1];
    assert Next(s, s');
    var t :| 0 <= t < |s.pcs| && Step(s, t, s');
    if WriteHolder(s.pcs[t]) {
      CountMember(s.pcs, t, WriteHolder);
    }
  }
}
