/** A sequence of numbers that a store backs: numbers are leased from the store in intervals,
    and what was leased and not used is given back or lost. */
module Sequence {
  import opened ByteStrings
  import opened SerializerObjects

  // ----- runs ----------------------------------------------------------------------------------

  /** Numbers are 64 bits wide. */
  const Limit: nat := Pow256(8)

  /** The stored number (0 if there is none), the instance in use if there is one, and two
      things that no instance keeps: whether it has completed a Next, and all numbers handed
      out so far, by whatever instance. */
  datatype State = State(stored: nat, live: bool, interval: nat, next: nat, reserved: nat, ready: bool, returned: seq<nat>)

  const Start := State(0, false, 0, 0, 0, false, [])

  /** Create also stands for a restart: the instance before it is not used again. CrashInNext
      is a crash after Next has reserved its lease and before it returns. */
  datatype Command =
    | Create(interval: nat)
    | Next(getFails: bool, setFails: bool)
    | Release(setFails: bool)
    | CrashInNext

  /** What update reserves; the sum is cut to 64 bits. */
  function Leased(s: State): nat { (s.stored + s.interval) % Limit }

  function HandOut(s: State): State
  {
    s.(next := (s.next + 1) % Limit, ready := true, returned := s.returned + [s.next])
  }

  function Updated(s: State): State { s.(next := s.stored, reserved := Leased(s), stored := Leased(s)) }

  /** An interval of zero is refused. A failed Set leaves the store as it was. */
  function Exec(s: State, c: Command): State
  {
    match c
    case Create(interval) =>
      if interval == 0 then s else s.(live := true, interval := interval, next := 0, reserved := 0, ready := false)
    case Next(getFails, setFails) =>
      if !s.live then s
      else if s.next < s.reserved then HandOut(s)
      else if getFails then s
      else if setFails then s.(next := s.stored)
      else HandOut(Updated(s))
    case Release(setFails) =>
      if !s.live || setFails then s else s.(stored := s.next, reserved := s.next)
    case CrashInNext =>
      if s.live && s.next >= s.reserved then s.(live := false, stored := Leased(s)) else s.(live := false)
  }

  function Run(s: State, commands: seq<Command>): State
    decreases commands
  {
    if commands == [] then s else Run(Exec(s, commands[0]), commands[1..])
  }

  // ----- the invariant --------------------------------------------------------------------------

  ghost predicate Below(ns: seq<nat>, n: nat) { forall x :: x in ns ==> x < n }

  ghost predicate Increasing(ns: seq<nat>) { forall i, j :: 0 <= i < j < |ns| ==> ns[i] < ns[j] }

  lemma BelowLast(ns: seq<nat>, n: nat)
    requires Increasing(ns)
    ensures Below(ns, n) <==> ns == [] || ns[|ns| - 1] < n
  {
    if ns != [] {
      assert ns[|ns| - 1] in ns;
    }
    if ns != [] && ns[|ns| - 1] < n {
      forall x | x in ns ensures x < n {
        var i :| 0 <= i < |ns| && ns[i] == x;
      }
    }
  }

  lemma IncreasingAppend(ns: seq<nat>, n: nat)
    requires Increasing(ns)
    ensures Increasing(ns + [n]) <==> Below(ns, n)
    ensures forall m :: n < m && Below(ns, n) ==> Below(ns + [n], m)
  {
    var r := ns + [n];
    if Increasing(r) {
      forall x | x in ns ensures x < n {
        var i :| 0 <= i < |ns| && ns[i] == x;
        assert r[i] < r[|ns|];
      }
    }
    assert forall i :: 0 <= i < |ns| ==> ns[i] in ns;
  }

  ghost predicate InstanceOk(s: State)
  {
    && 0 < s.interval < Limit && s.next < Limit && s.reserved <= s.stored
    && (s.next < s.reserved ==> s.ready)
    && (s.ready ==> Below(s.returned, s.next))
    && (!s.ready ==> s.next == 0 || s.next == s.stored)
  }

  /** The numbers handed out are increasing and lie below the stored one, and whoever holds a
      lease goes on between the two. */
  ghost predicate Inv(s: State)
  {
    Increasing(s.returned) && Below(s.returned, s.stored) && s.stored < Limit && (s.live ==> InstanceOk(s))
  }

  // ----- exactly which commands keep it ---------------------------------------------------------------

  /** A lease must not pass 64 bits, unless a crash loses it and the store still lies above the
      last number; a Release is for an instance that has completed a Next, or has read the
      store, or is the first one at all. */
  predicate Sound(s: State, c: Command)
  {
    match c
    case Create(interval) => interval < Limit
    case Next(getFails, setFails) =>
      s.live && s.next >= s.reserved && !getFails && !setFails ==> s.stored + s.interval < Limit
    case Release(setFails) =>
      s.live && !setFails ==> s.ready || s.next == s.stored || s.returned == []
    case CrashInNext =>
      s.live && s.next >= s.reserved ==>
        s.stored + s.interval < Limit || s.returned == [] || s.returned[|s.returned| - 1] < Leased(s)
  }

  lemma LeasedIs(s: State)
    requires s.stored < Limit && s.interval < Limit
    ensures Leased(s) == if s.stored + s.interval < Limit then s.stored + s.interval else s.stored + s.interval - Limit
  {
  }

  /** A command keeps the invariant if and only if it is sound. */
  lemma ExecInv(s: State, c: Command)
    requires Inv(s)
    ensures Inv(Exec(s, c)) <==> Sound(s, c)
  {
    match c
    case Create(_) =>
    case Next(_, _) => NextInv(s, c);
    case Release(_) => ReleaseInv(s, c);
    case CrashInNext => CrashInv(s);
  }

  lemma NextInv(s: State, c: Command)
    requires Inv(s) && c.Next?
    ensures Inv(Exec(s, c)) <==> Sound(s, c)
  {
    if s.live {
      if s.next < s.reserved {
        LeaseInv(s);
      } else if !c.getFails && !c.setFails {
        UpdateInv(s);
      }
    }
  }

  lemma LeaseInv(s: State)
    requires Inv(s) && s.live && s.next < s.reserved
    ensures Inv(HandOut(s))
  {
    IncreasingAppend(s.returned, s.next);
    assert (s.next + 1) % Limit == s.next + 1;
  }

  lemma UpdateInv(s: State)
    requires Inv(s) && s.live && s.next >= s.reserved
    ensures Inv(HandOut(Updated(s))) <==> s.stored + s.interval < Limit
  {
    LeasedIs(s);
    var r := s.returned + [s.stored];
    IncreasingAppend(s.returned, s.stored);
    hide Increasing;
    assert r[|s.returned|] == s.stored && s.stored in r;
    if s.stored + s.interval < Limit {
      assert (s.stored + 1) % Limit == s.stored + 1;
    }
  }

  lemma ReleaseInv(s: State, c: Command)
    requires Inv(s) && c.Release?
    ensures Inv(Exec(s, c)) <==> Sound(s, c)
  {
    if s.live && !c.setFails && s.returned != [] {
      assert s.returned[0] in s.returned;
    }
  }

  lemma CrashInv(s: State)
    requires Inv(s)
    ensures Inv(Exec(s, CrashInNext)) <==> Sound(s, CrashInNext)
  {
    if s.live && s.next >= s.reserved {
      LeasedIs(s);
      BelowLast(s.returned, Leased(s));
    }
  }

  predicate AllSound(s: State, commands: seq<Command>)
    decreases commands
  {
    commands == [] || (Sound(s, commands[0]) && AllSound(Exec(s, commands[0]), commands[1..]))
  }

  lemma {:induction false} RunInv(s: State, commands: seq<Command>)
    requires Inv(s) && AllSound(s, commands)
    ensures Inv(Run(s, commands))
    decreases commands
  {
    if commands != [] {
      ExecInv(s, commands[0]);
      RunInv(Exec(s, commands[0]), commands[1..]);
    }
  }

  /** Over any run of creations, crashes, Next and Release that are sound, with whatever
      failures of the store, the numbers handed out are strictly increasing. */
  lemma RunIncreasing(commands: seq<Command>)
    requires AllSound(Start, commands)
    ensures Increasing(Run(Start, commands).returned)
  {
    RunInv(Start, commands);
  }

  /** And no other command can be allowed: what it leaves behind makes a later Next hand out a
      number that is not above all others. */
  lemma UnsoundRepeats(s: State, c: Command) returns (later: seq<Command>)
    requires Inv(s) && !c.Create? && !Sound(s, c)
    ensures !Increasing(Run(Exec(s, c), later).returned)
  {
    var n := Next(false, false);
    if c.CrashInNext? {
      later := [Create(1), n];
      UnsoundCrash(s);
    } else {
      later := [n];
      assert Run(Exec(s, c), later) == Exec(Exec(s, c), n) by {
        assert later[1..] == [];
      }
      if c.Release? {
        UnsoundRelease(s, c);
      } else {
        UnsoundNext(s, c);
      }
    }
  }

  lemma UnsoundRelease(s: State, c: Command)
    requires Inv(s) && c.Release? && !Sound(s, c)
    ensures !Increasing(Exec(Exec(s, c), Next(false, false)).returned)
  {
    assert s.next == 0 && s.returned != [];
    assert s.returned[0] in s.returned;
    IncreasingAppend(s.returned, 0);
  }

  lemma UnsoundNext(s: State, c: Command)
    requires Inv(s) && c.Next? && !Sound(s, c)
    ensures !Increasing(Exec(Exec(s, c), Next(false, false)).returned)
  {
    LeasedIs(s);
    var s1 := Exec(s, c);
    var r, x := s1.returned, if s1.next < s1.reserved then s1.next else s1.stored;
    assert Exec(s1, Next(false, false)).returned == r + [x];
    assert r[|s.returned|] == s.stored && x <= s.stored;
    assert (r + [x])[|s.returned|] >= (r + [x])[|r|];
  }

  lemma UnsoundCrash(s: State)
    requires Inv(s) && !Sound(s, CrashInNext)
    ensures !Increasing(Run(Exec(s, CrashInNext), [Create(1), Next(false, false)]).returned)
  {
    var s1 := Exec(s, CrashInNext);
    var s2 := Exec(s1, Create(1));
    var s3 := Exec(s2, Next(false, false));
    var later := [Create(1), Next(false, false)];
    assert later[1..] == [Next(false, false)] && later[1..][1..] == [];
    assert Run(s1, later) == s3;
    var r := s.returned;
    assert s3.returned == r + [Leased(s)];
    assert (r + [Leased(s)])[|r| - 1] >= (r + [Leased(s)])[|r|];
  }

  // ----- which numbers exactly ------------------------------------------------------------------------

  /** k calls of Next with a store that works. */
  function Nexts(k: nat): seq<Command> { seq(k, i => Next(false, false)) }

  /** The numbers first, first + 1, ..., k of them. */
  function From(first: nat, k: nat): (ns: seq<nat>)
    ensures |ns| == k && forall i :: 0 <= i < k ==> ns[i] == first + i
  {
    seq(k, i => first + i)
  }

  lemma {:induction false} RunSplit(s: State, a: seq<Command>, b: seq<Command>)
    ensures Run(s, a + b) == Run(Run(s, a), b)
    decreases a
  {
    if a == [] {
      assert [] + b == b;
    } else {
      assert (a + b)[1..] == a[1..] + b && (a + b)[0] == a[0];
      RunSplit(Exec(s, a[0]), a[1..], b);
    }
  }

  /** Where an instance goes on: with its lease, or where the store says. */
  function First(s: State): nat { if s.next < s.reserved then s.next else s.stored }

  /** The stored number after m leases. */
  function Leases(stored: nat, interval: nat, m: nat): nat { stored + m * interval }

  /** An instance that no other one has interfered with hands out consecutive numbers, whatever
      its interval, and the store is ahead of them by less than one interval. */
  lemma {:induction false} Consecutive(s: State, k: nat)
    requires s.live && 0 < s.interval && (s.next < s.reserved ==> s.reserved == s.stored)
    requires First(s) + k + s.interval <= Limit
    ensures var s', last := Run(s, Nexts(k)), First(s) + k;
            && s'.returned == s.returned + From(First(s), k)
            && s'.live && s'.interval == s.interval && (s'.next < s'.reserved ==> s'.reserved == s'.stored)
            && First(s') == last && last <= s'.stored && s.stored <= s'.stored
            && (s'.stored > s.stored ==> s'.stored < last + s.interval)
            && exists m: nat :: s'.stored == Leases(s.stored, s.interval, m)
  {
    if k == 0 {
      assert From(First(s), 0) == [];
      assert s.stored == Leases(s.stored, s.interval, 0);
    } else {
      var s1 := Run(s, Nexts(k - 1));
      Consecutive(s, k - 1);
      assert Nexts(k) == Nexts(k - 1) + [Next(false, false)];
      RunSplit(s, Nexts(k - 1), [Next(false, false)]);
      assert Run(s1, [Next(false, false)]) == Exec(s1, Next(false, false)) by {
        assert [Next(false, false)][1..] == [];
      }
      hide Run, Nexts;
      OneMore(s1);
      var m: nat :| s1.stored == Leases(s.stored, s.interval, m);
      OneLeaseMore(s.stored, s.interval, m);
      hide Leases;
      assert From(First(s), k) == From(First(s), k - 1) + [First(s) + k - 1];
    }
  }

  lemma OneMore(s: State)
    requires s.live && 0 < s.interval && (s.next < s.reserved ==> s.reserved == s.stored) && First(s) + 1 + s.interval <= Limit
    ensures var s' := Exec(s, Next(false, false));
            && s'.returned == s.returned + [First(s)] && s'.live && s'.interval == s.interval
            && (s'.next < s'.reserved ==> s'.reserved == s'.stored) && First(s') == First(s) + 1
            && s'.stored == if s.next < s.reserved then s.stored else s.stored + s.interval
  {
    Small(First(s) + 1);
    if s.next >= s.reserved {
      Small(s.stored + s.interval);
    }
  }

  lemma OneLeaseMore(stored: nat, interval: nat, m: nat)
    ensures Leases(stored, interval, m) + interval == Leases(stored, interval, m + 1)
  {
    assert (m + 1) * interval == m * interval + interval;
  }

  lemma Small(n: nat)
    requires n < Limit
    ensures n % Limit == n
  {
  }

  /** A fresh instance reads the store once for a whole lease: the first is exactly the numbers
      from the stored one on, and the second starts where the first ends. */
  lemma LeaseExactly(s: State, interval: nat)
    requires 0 < interval && s.stored + 2 * interval < Limit
    ensures var s1 := Run(Exec(s, Create(interval)), Nexts(interval));
            && s1.returned == s.returned + From(s.stored, interval) && s1.stored == s.stored + interval
            && Exec(s1, Next(false, false)).returned == s1.returned + [s.stored + interval]
            && Exec(s1, Next(false, false)).stored == s.stored + 2 * interval
  {
    var begun := Exec(s, Create(interval));
    Consecutive(begun, interval);
    var s1 := Run(begun, Nexts(interval));
    var m: nat :| s1.stored == Leases(s.stored, interval, m);
    OnlyOne(m, interval);
    OneMore(s1);
  }

  lemma OnlyOne(m: nat, d: nat)
    requires d <= m * d < 2 * d
    ensures m == 1
  {
  }

  /** After a crash or a restart the next instance goes on with the stored number, and a call that
      fails hands out nothing. */
  lemma RestartGoesOn(s: State, interval: nat, getFails: bool, setFails: bool)
    requires 0 < interval && (getFails || setFails)
    ensures var begun := Exec(Exec(s, CrashInNext), Create(interval));
            && begun.stored == (if s.live && s.next >= s.reserved then (s.stored + s.interval) % Limit else s.stored)
            && Exec(begun, Next(getFails, setFails)).returned == s.returned
            && Exec(begun, Next(getFails, setFails)).stored == begun.stored
            && Exec(Exec(begun, Next(getFails, setFails)), Next(false, false)).returned == s.returned + [begun.stored]
  {
  }

  /** The lease given back is taken up by the next instance: nothing is wasted. */
  lemma ReleaseWastesNothing(s: State, interval: nat)
    requires s.live && 0 < interval
    ensures Run(s, [Release(false), Create(interval), Next(false, false)]).returned == s.returned + [s.next]
  {
    var s1 := Exec(s, Release(false));
    var s2 := Exec(s1, Create(interval));
    var cs := [Release(false), Create(interval), Next(false, false)];
    assert cs[1..] == [Create(interval), Next(false, false)] && cs[1..][1..] == [Next(false, false)];
    assert cs[1..][1..][1..] == [];
    assert Run(s2, cs[1..][1..]) == Exec(s2, Next(false, false));
    assert Run(s1, cs[1..]) == Run(s2, cs[1..][1..]);
  }

  // ----- the two failures at work ----------------------------------------------------------------------

  /** Released before it has handed out anything, a second instance starts all over. */
  lemma EarlyReleaseRepeats(interval: nat)
    requires 0 < interval < Limit
    ensures Run(Start, [Create(interval), Next(false, false), Create(interval), Release(false), Next(false, false)]).returned
         == [0, 0]
  {
    var a := Exec(Exec(Start, Create(interval)), Next(false, false));
    var b := Exec(Exec(Exec(a, Create(interval)), Release(false)), Next(false, false));
    assert b.returned == [0, 0];
    Run5(Start, Create(interval), Next(false, false), Create(interval), Release(false), Next(false, false));
  }

  lemma Run5(s: State, c1: Command, c2: Command, c3: Command, c4: Command, c5: Command)
    ensures Run(s, [c1, c2, c3, c4, c5]) == Exec(Exec(Exec(Exec(Exec(s, c1), c2), c3), c4), c5)
  {
    var cs := [c1, c2, c3, c4, c5];
    assert cs[1..] == [c2, c3, c4, c5] && cs[1..][1..] == [c3, c4, c5] && cs[1..][1..][1..] == [c4, c5];
    assert cs[1..][1..][1..][1..] == [c5] && cs[1..][1..][1..][1..][1..] == [];
    var s1 := Exec(s, c1);
    var s2 := Exec(s1, c2);
    var s3 := Exec(s2, c3);
    var s4 := Exec(s3, c4);
    hide Exec;
    assert Run(s4, [c5]) == Exec(s4, c5);
    assert Run(s3, [c4, c5]) == Run(s4, [c5]);
    assert Run(s2, [c3, c4, c5]) == Run(s3, [c4, c5]);
    assert Run(s1, [c2, c3, c4, c5]) == Run(s2, [c3, c4, c5]);
  }

  /** With leases of half the range the second one wraps the stored number around to zero. */
  lemma WrappedLeaseRepeats()
    ensures var half := Limit / 2;
            var a := Exec(Exec(Start, Create(half)), Next(false, false));
            var b := Exec(Exec(a, Create(half)), Next(false, false));
            var c := Exec(Exec(b, Create(half)), Next(false, false));
            b.stored == 0 && c.returned == [0, half, 0]
  {
    assert Limit == 256 * Pow256(7);
    HalfWraps(Limit / 2);
  }

  lemma HalfWraps(half: nat)
    requires half > 1 && 2 * half == Limit
    ensures (0 + half) % Limit == half && (half + half) % Limit == 0 && (half + 1) % Limit == half + 1
  {
  }

  // ----- the objects ------------------------------------------------------------------------------------

  /** binary.BigEndian.PutUint64 and Uint64. */
  function PutUint64(n: nat): Bytes { Reversed(LittleEndian(n, 8)) }

  function Uint64(b: Bytes): nat { FromBigEndian(b) }

  lemma Uint64RoundTrip(n: nat)
    requires n < Limit
    ensures Uint64(PutUint64(n)) == n
  {
    ReversedIsBigEndian(LittleEndian(n, 8));
    LittleEndianRoundTrip(n, 8);
  }

  /** The most significant byte comes first. */
  lemma PutUint64Bytes(n: nat, i: nat)
    requires n < Limit && i < 8
    ensures |PutUint64(n)| == 8 && PutUint64(n)[i] == n / Pow256(7 - i) % 256
  {
    LittleEndianByte(n, 8, 7 - i);
  }

  /** The store under the sequence's key. It outlives the instances that use it. */
  class Store {
    var value: Option<Bytes>
    ghost var returned: seq<nat>

    function Stored(): nat
      reads this
    {
      if value.Some? then Uint64(value.value) else 0
    }

    constructor ()
      ensures value == None && returned == []
    {
      value, returned := None, [];
    }

    method Set(value: Bytes, fails: bool) returns (ok: bool)
      modifies this`value
      ensures ok == !fails && this.value == if fails then old(this.value) else Some(value)
    {
      ok := !fails;
      if !fails {
        this.value := Some(value);
      }
    }
  }

  class Sequence {
    const store: Store
    const interval: nat
    var next: nat
    var reserved: nat
    ghost var ready: bool

    ghost function View(): State
      reads this, store
    {
      State(store.Stored(), true, interval, next, reserved, ready, store.returned)
    }

    /** Nothing but what 64-bit numbers are. */
    ghost predicate Sized()
      reads this, store
    {
      0 < interval < Limit && next < Limit && reserved < Limit && store.Stored() < Limit
    }

    /** NewSequence */
    constructor (store: Store, interval: nat)
      requires 0 < interval < Limit && store.Stored() < Limit
      ensures this.store == store && Sized()
      ensures forall s: State :: s.stored == store.Stored() && s.returned == store.returned ==>
        View() == Exec(s, Create(interval))
    {
      this.store, this.interval := store, interval;
      next, reserved, ready := 0, 0, false;
    }

    /** Next */
    method Next(getFails: bool, setFails: bool) returns (val: nat, ok: bool)
      requires Sized()
      modifies this, store
      ensures Sized() && View() == Exec(old(View()), Command.Next(getFails, setFails))
      ensures ok <==> old(next < reserved) || (!getFails && !setFails)
      ensures store.returned == if ok then old(store.returned) + [val] else old(store.returned)
    {
      if next >= reserved {
        ok := Update(getFails, setFails);
        if !ok {
          return 0, false;
        }
      }
      val, ok := next, true;
      next := (next + 1) % Limit;
      store.returned := store.returned + [val];
      ready := true;
    }

    /** update */
    method Update(getFails: bool, setFails: bool) returns (ok: bool)
      requires Sized()
      modifies this`next, this`reserved, store`value
      ensures Sized() && (ok <==> !getFails && !setFails)
      ensures View() == if ok then Updated(old(View()))
                        else if getFails then old(View())
                        else old(View()).(next := old(store.Stored()))
    {
      if getFails {
        return false;
      }
      if store.value.None? {
        next := 0;
      } else {
        next := Uint64(store.value.value);
      }
      var lease := (next + interval) % Limit;
      Uint64RoundTrip(lease);
      ok := store.Set(PutUint64(lease), setFails);
      if !ok {
        return false;
      }
      reserved := lease;
    }

    /** Release */
    method Release(setFails: bool) returns (ok: bool)
      requires Sized()
      modifies this`reserved, store`value
      ensures ok == !setFails && Sized() && View() == Exec(old(View()), Command.Release(setFails))
    {
      Uint64RoundTrip(next);
      ok := store.Set(PutUint64(next), setFails);
      if !ok {
        return false;
      }
      reserved := next;
    }
  }

  /** The early Release once more, with the objects: both instances hand out the same number. */
  method ReleaseTooEarly(interval: nat) returns (first: nat, second: nat)
    requires 0 < interval < Limit
    ensures first == second
  {
    var store := new Store();
    var a := new Sequence(store, interval);
    var ok;
    first, ok := a.Next(false, false);
    assert a.View().returned == [0];
    assert store.returned[0] == first;
    var b := new Sequence(store, interval);
    ok := b.Release(false);
    second, ok := b.Next(false, false);
    assert b.View().returned == [0, 0];
    assert store.returned[1] == second;
  }
}
