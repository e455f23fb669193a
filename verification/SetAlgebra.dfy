/** Sets with mutations, the counters that turn mutations of several sets into mutations
    of their combination, and the reactive sets built on them. */
module SetAlgebra {

  type Element = string    // only equality matters

  datatype Mutations = Mutations(added: set<Element>, deleted: set<Element>)

  const NoMutations := Mutations({}, {})

  // ----- applying mutations ------------------------------------------------------------

  /** What a set is after mutations, and which of them took effect. */
  function After(value: set<Element>, m: Mutations): set<Element> { (value + m.added) - m.deleted }

  function Applied(value: set<Element>, m: Mutations): Mutations
  {
    Mutations(m.added - value, m.deleted * (value + m.added))
  }

  /** Mutations that say exactly what changes in a set. */
  predicate Exact(value: set<Element>, m: Mutations)
  {
    m.added !! value && m.deleted <= value + m.added
  }

  lemma AppliedIsExact(value: set<Element>, m: Mutations)
    ensures Exact(value, Applied(value, m)) && After(value, Applied(value, m)) == After(value, m)
  {
  }

  class Set {
    var value: set<Element>

    constructor ()
      ensures value == {}
    {
      value := {};
    }

    /** set.apply: the added elements, in whatever order they are iterated, then the
        deleted ones. */
    method Apply(m: Mutations) returns (applied: Mutations)
      modifies this
      ensures value == After(old(value), m) && applied == Applied(old(value), m)
    {
      var addedElements, removedElements := {}, {};
      var rest := m.added;
      while rest != {}
        invariant rest <= m.added
        invariant value == old(value) + (m.added - rest)
        invariant addedElements == (m.added - rest) - old(value)
        decreases rest
      {
        var e :| e in rest;
        if e !in value {
          addedElements := addedElements + {e};
        }
        value := value + {e};
        rest := rest - {e};
      }
      rest := m.deleted;
      while rest != {}
        invariant rest <= m.deleted
        invariant value == old(value) + m.added - (m.deleted - rest)
        invariant removedElements == (m.deleted - rest) * (old(value) + m.added)
        decreases rest
      {
        var e :| e in rest;
        if e in value {
          value := value - {e};
          removedElements := removedElements + {e};
        }
        rest := rest - {e};
      }
      applied := Mutations(addedElements, removedElements);
    }
  }

  // ----- counting ------------------------------------------------------------------------

  type Counts = map<Element, int>

  function CountOf(counts: Counts, e: Element): int { if e in counts then counts[e] else 0 }

  function One(b: bool): int { if b then 1 else 0 }

  /** Exactly the elements whose count crosses the threshold between before and after. */
  ghost predicate Crossings(before: Counts, after: Counts, threshold: int, m: Mutations)
  {
    forall e ::
      && (e in m.added <==> CountOf(before, e) < threshold <= CountOf(after, e))
      && (e in m.deleted <==> CountOf(after, e) < threshold <= CountOf(before, e))
  }

  ghost predicate Shifted(before: Counts, after: Counts, up: set<Element>, down: set<Element>)
  {
    forall e :: CountOf(after, e) == CountOf(before, e) + One(e in up) - One(e in down)
  }

  class SetArithmetic {
    var counts: Counts

    constructor ()
      ensures counts == map[]
    {
      counts := map[];
    }

    /** elementsCollector: one call, in either direction. Whatever calls came before, the
        collected mutations are the crossings since the counts they started from. */
    method Collect(m: Mutations, e: Element, increase: bool, threshold: int, ghost start: Counts) returns (r: Mutations)
      requires Crossings(start, counts, threshold, m)
      modifies this
      ensures Crossings(start, counts, threshold, r)
      ensures counts == old(counts)[e := old(CountOf(counts, e)) + if increase then 1 else -1]
    {
      r := m;
      counts := counts[e := CountOf(counts, e) + if increase then 1 else -1];
      if CountOf(counts, e) == if increase then threshold else threshold - 1 {
        if increase {
          if e in m.deleted {
            r := m.(deleted := m.deleted - {e});
          } else {
            r := m.(added := m.added + {e});
          }
        } else {
          if e in m.added {
            r := m.(added := m.added - {e});
          } else {
            r := m.(deleted := m.deleted + {e});
          }
        }
      }
    }

    /** Range over a set with a collector, in whatever order. */
    method CollectAll(m: Mutations, es: set<Element>, increase: bool, threshold: int,
                      ghost start: Counts) returns (r: Mutations)
      requires Crossings(start, counts, threshold, m)
      modifies this
      ensures Crossings(start, counts, threshold, r)
      ensures if increase then Shifted(old(counts), counts, es, {}) else Shifted(old(counts), counts, {}, es)
    {
      r := m;
      var rest := es;
      while rest != {}
        invariant rest <= es
        invariant Crossings(start, counts, threshold, r)
        invariant if increase then Shifted(old(counts), counts, es - rest, {})
                  else Shifted(old(counts), counts, {}, es - rest)
        decreases rest
      {
        var e :| e in rest;
        r := Collect(r, e, increase, threshold, start);
        rest := rest - {e};
      }
    }

    /** Add: net mutations of the elements that reach the threshold. */
    method Add(m: Mutations, threshold: int := 1) returns (r: Mutations)
      modifies this
      ensures Shifted(old(counts), counts, m.added, m.deleted)
      ensures Crossings(old(counts), counts, threshold, r)
    {
      r := CollectAll(NoMutations, m.added, true, threshold, counts);
      r := CollectAll(r, m.deleted, false, threshold, old(counts));
    }

    /** Subtract: the same with the two directions exchanged. */
    method Subtract(m: Mutations, threshold: int := 1) returns (r: Mutations)
      modifies this
      ensures Shifted(old(counts), counts, m.deleted, m.added)
      ensures Crossings(old(counts), counts, threshold, r)
    {
      r := CollectAll(NoMutations, m.added, false, threshold, counts);
      r := CollectAll(r, m.deleted, true, threshold, old(counts));
    }
  }

  /** A set that follows others through its counters: a DerivedSet (sign 1 throughout), or
      the result of SubtractReactive (sign -1 for the subtracted sets). */
  class DerivedSet {
    const elements: Set
    const arithmetic: SetArithmetic

    constructor ()
      ensures elements.value == {} && arithmetic.counts == map[]
    {
      elements := new Set();
      arithmetic := new SetArithmetic();
    }

    /** applyInheritedMutations, and the Compute inside SubtractReactive. */
    method Inherit(m: Mutations, sign: int) returns (applied: Mutations)
      requires sign == 1 || sign == -1
      modifies elements, arithmetic
      ensures Inherited(old(arithmetic.counts), old(elements.value), m, sign, arithmetic.counts, elements.value)
      ensures (forall e :: e in old(elements.value) <==> CountOf(old(arithmetic.counts), e) >= 1) ==>
                Crossings(old(arithmetic.counts), arithmetic.counts, 1, applied)
    {
      var net;
      if sign == 1 {
        net := arithmetic.Add(m);
      } else {
        net := arithmetic.Subtract(m);
      }
      applied := elements.Apply(net);
    }
  }

  // ----- reactive sets --------------------------------------------------------------------

  /** How far a source's subscription has come: unsubscribing first stops the notifications
      and then takes the source's elements out. */
  datatype Link = Subscribed | Stopped | Gone

  /** A source set, the copy of it that the subscriber has seen, and the mutations that
      have been applied to the source but not delivered yet. The sign is -1 for the sets
      that SubtractReactive subtracts. */
  datatype Source = Source(value: set<Element>, mirror: set<Element>, queue: seq<Mutations>, link: Link, sign: int)

  datatype Net = Net(sources: seq<Source>, counts: Counts, derived: set<Element>)

  function Drain(s: set<Element>, queue: seq<Mutations>): set<Element>
    decreases queue
  {
    if queue == [] then s else Drain(After(s, queue[0]), queue[1..])
  }

  ghost predicate AllExact(s: set<Element>, queue: seq<Mutations>)
    decreases queue
  {
    queue == [] || (Exact(s, queue[0]) && AllExact(After(s, queue[0]), queue[1..]))
  }

  /** Weighted number of subscribed sources that have shown the element. */
  function Weight(sources: seq<Source>, e: Element): int
  {
    if sources == [] then 0
    else Weight(sources[..|sources| - 1], e) + Share(sources[|sources| - 1], e)
  }

  function Share(s: Source, e: Element): int { if !s.link.Gone? && e in s.mirror then s.sign else 0 }

  lemma {:induction false} WeightUpdate(sources: seq<Source>, k: nat, s: Source, e: Element)
    requires k < |sources|
    ensures Weight(sources[k := s], e) == Weight(sources, e) - Share(sources[k], e) + Share(s, e)
  {
    var n := |sources| - 1;
    if k == n {
      assert sources[k := s][..n] == sources[..n];
    } else {
      assert sources[k := s][..n] == sources[..n][k := s];
      WeightUpdate(sources[..n], k, s, e);
    }
  }

  /** One step: a write to a source, a delivery, or a step of subscribing or unsubscribing. */
  ghost predicate Step(n: Net, n': Net)
  {
    || (exists k, m :: Write(n, k, m, n'))
    || (exists k :: Deliver(n, k, n'))
    || (exists value, sign :: Subscribe(n, value, sign, n'))
    || (exists k :: Stop(n, k, n'))
    || (exists k :: TakeOut(n, k, n'))
  }

  /** Apply or Compute on source k: the applied mutations are to be delivered. */
  ghost predicate Write(n: Net, k: nat, m: Mutations, n': Net)
  {
    && k < |n.sources|
    && var s := n.sources[k];
       n' == n.(sources := n.sources[k := s.(value := After(s.value, m),
         queue := if s.link.Subscribed? then s.queue + [Applied(s.value, m)] else s.queue)])
  }

  /** What DerivedSet.Inherit promises: the counts are shifted by the mutations and the
      crossings are applied to the derived set. */
  ghost predicate Inherited(counts: Counts, derived: set<Element>, m: Mutations, sign: int,
                            counts': Counts, derived': set<Element>)
  {
    && (if sign == 1 then Shifted(counts, counts', m.added, m.deleted) else Shifted(counts, counts', m.deleted, m.added))
    && exists net :: Crossings(counts, counts', 1, net) && derived' == After(derived, net)
  }

  ghost predicate Deliver(n: Net, k: nat, n': Net)
  {
    && k < |n.sources| && n.sources[k].link.Subscribed? && n.sources[k].queue != []
    && var s := n.sources[k];
       && Inherited(n.counts, n.derived, Applied(s.mirror, s.queue[0]), s.sign, n'.counts, n'.derived)
       && n'.sources == n.sources[k := s.(mirror := After(s.mirror, s.queue[0]), queue := s.queue[1..])]
  }

  /** OnUpdate: what the set holds at registration is delivered first. */
  ghost predicate Subscribe(n: Net, value: set<Element>, sign: int, n': Net)
  {
    && (sign == 1 || sign == -1)
    && n' == n.(sources := n.sources + [Source(value, {}, [Mutations(value, {})], Subscribed, sign)])
  }

  ghost predicate Stop(n: Net, k: nat, n': Net)
  {
    && k < |n.sources| && n.sources[k].link.Subscribed?
    && n' == n.(sources := n.sources[k := n.sources[k].(link := Stopped, queue := [])])
  }

  /** removeSourceElements */
  ghost predicate TakeOut(n: Net, k: nat, n': Net)
  {
    && k < |n.sources| && n.sources[k].link.Stopped?
    && var s := n.sources[k];
       && Inherited(n.counts, n.derived, Mutations({}, s.mirror), s.sign, n'.counts, n'.derived)
       && n'.sources == n.sources[k := s.(link := Gone)]
  }

  /** The unsubscribe function called again: the source's elements are taken out once more. */
  ghost predicate TakeOutAgain(n: Net, k: nat, n': Net)
  {
    && k < |n.sources| && n.sources[k].link.Gone?
    && Inherited(n.counts, n.derived, Mutations({}, n.sources[k].mirror), n.sources[k].sign, n'.counts, n'.derived)
    && n'.sources == n.sources
  }

  // ----- the invariant ---------------------------------------------------------------------

  ghost predicate SourceOk(s: Source)
  {
    && (s.sign == 1 || s.sign == -1)
    && (s.link.Subscribed? ==> Drain(s.mirror, s.queue) == s.value && AllExact(s.mirror, s.queue))
    && (!s.link.Subscribed? ==> s.queue == [])
  }

  /** The counts are the weights less a drift, and the derived set is what they say. */
  ghost predicate Balanced(n: Net, drift: Counts)
  {
    && (forall k :: 0 <= k < |n.sources| ==> SourceOk(n.sources[k]))
    && (forall e :: CountOf(n.counts, e) == Weight(n.sources, e) - CountOf(drift, e))
    && (forall e :: e in n.derived <==> CountOf(n.counts, e) >= 1)
  }

  ghost predicate Inv(n: Net) { Balanced(n, map[]) }

  ghost predicate Initial(n: Net) { n == Net([], map[], {}) }

  ghost predicate IsRun(run: seq<Net>)
  {
    && run != [] && Initial(run[0])
    && forall i :: 0 <= i < |run| - 1 ==> Step(run[i], run[i + 1])
  }

  lemma {:induction false} DrainAppend(s: set<Element>, queue: seq<Mutations>, m: Mutations)
    ensures Drain(s, queue + [m]) == After(Drain(s, queue), m)
    ensures AllExact(s, queue) && Exact(Drain(s, queue), m) ==> AllExact(s, queue + [m])
    decreases queue
  {
    if queue == [] {
      assert queue + [m] == [m] && [m][1..] == [];
    } else {
      assert (queue + [m])[0] == queue[0] && (queue + [m])[1..] == queue[1..] + [m];
      DrainAppend(After(s, queue[0]), queue[1..], m);
    }
  }

  lemma WriteKeeps(n: Net, k: nat, m: Mutations, n': Net, drift: Counts)
    requires Balanced(n, drift) && Write(n, k, m, n')
    ensures Balanced(n', drift)
  {
    var s, s' := n.sources[k], n'.sources[k];
    AppliedIsExact(s.value, m);
    if s.link.Subscribed? {
      DrainAppend(s.mirror, s.queue, Applied(s.value, m));
    }
    assert SourceOk(s');
    forall e ensures Weight(n'.sources, e) == Weight(n.sources, e) {
      WeightUpdate(n.sources, k, s', e);
    }
  }

  /** Shifting the counts by what changes in a source keeps their distance to the weights, and
      applying the crossings keeps the derived set equal to the elements counted. */
  lemma InheritKeeps(n: Net, k: nat, m: Mutations, s': Source, n': Net, drift: Counts)
    requires Balanced(n, drift) && k < |n.sources| && n'.sources == n.sources[k := s'] && SourceOk(s')
    requires Inherited(n.counts, n.derived, m, n.sources[k].sign, n'.counts, n'.derived)
    requires forall e ::
      Share(s', e) - Share(n.sources[k], e) == n.sources[k].sign * (One(e in m.added) - One(e in m.deleted))
    ensures Balanced(n', drift)
  {
    forall e ensures CountOf(n'.counts, e) == Weight(n'.sources, e) - CountOf(drift, e) {
      WeightUpdate(n.sources, k, s', e);
    }
    var net :| Crossings(n.counts, n'.counts, 1, net) && n'.derived == After(n.derived, net);
    forall e ensures e in n'.derived <==> CountOf(n'.counts, e) >= 1 {
      assert e in n.derived <==> CountOf(n.counts, e) >= 1;
    }
  }

  /** No step makes a drift greater or smaller. */
  lemma StepKeeps(n: Net, n': Net, drift: Counts)
    requires Balanced(n, drift) && Step(n, n')
    ensures Balanced(n', drift)
  {
    hide Balanced, Write, Deliver, Subscribe, Stop, TakeOut;
    if k: nat, m :| Write(n, k, m, n') {
      WriteKeeps(n, k, m, n', drift);
    } else if k: nat :| Deliver(n, k, n') {
      DeliverKeeps(n, k, n', drift);
    } else if value, sign :| Subscribe(n, value, sign, n') {
      SubscribeKeeps(n, value, sign, n', drift);
    } else if k: nat :| Stop(n, k, n') {
      StopKeeps(n, k, n', drift);
    } else {
      var k: nat :| TakeOut(n, k, n');
      TakeOutKeeps(n, k, n', drift);
    }
  }

  lemma DeliverKeeps(n: Net, k: nat, n': Net, drift: Counts)
    requires Balanced(n, drift) && Deliver(n, k, n')
    ensures Balanced(n', drift)
  {
    var s := n.sources[k];
    assert SourceOk(s);
    hide Inherited;
    AppliedIsExact(s.mirror, s.queue[0]);
    InheritKeeps(n, k, Applied(s.mirror, s.queue[0]), n'.sources[k], n', drift);
  }

  lemma StopKeeps(n: Net, k: nat, n': Net, drift: Counts)
    requires Balanced(n, drift) && Stop(n, k, n')
    ensures Balanced(n', drift)
  {
    forall e ensures Weight(n'.sources, e) == Weight(n.sources, e) {
      WeightUpdate(n.sources, k, n'.sources[k], e);
    }
  }

  lemma TakeOutKeeps(n: Net, k: nat, n': Net, drift: Counts)
    requires Balanced(n, drift) && TakeOut(n, k, n')
    ensures Balanced(n', drift)
  {
    assert SourceOk(n.sources[k]);
    hide Inherited;
    InheritKeeps(n, k, Mutations({}, n.sources[k].mirror), n'.sources[k], n', drift);
  }

  lemma SubscribeKeeps(n: Net, value: set<Element>, sign: int, n': Net, drift: Counts)
    requires Balanced(n, drift) && Subscribe(n, value, sign, n')
    ensures Balanced(n', drift)
  {
    var s := n'.sources[|n.sources|];
    assert s.queue[1..] == [];
    assert SourceOk(s);
    assert n'.sources[..|n.sources|] == n.sources;
  }

  lemma StepInv(n: Net, n': Net)
    requires Inv(n) && Step(n, n')
    ensures Inv(n')
  {
    StepKeeps(n, n', map[]);
  }

  lemma {:induction false} RunInv(run: seq<Net>, i: nat)
    requires IsRun(run) && i < |run|
    ensures Inv(run[i])
  {
    if i > 0 {
      RunInv(run, i - 1);
      StepInv(run[i - 1], run[i]);
    }
  }

  // ----- what the derived sets hold -----------------------------------------------------------

  /** Nothing is in flight: every notification has been delivered and no source is in the
      middle of being unsubscribed. */
  ghost predicate Quiescent(n: Net)
  {
    forall k :: 0 <= k < |n.sources| ==> n.sources[k].queue == [] && !n.sources[k].link.Stopped?
  }

  ghost predicate Holds(s: Source, e: Element) { s.link.Subscribed? && e in s.value }

  lemma {:induction false} WeightOfUnion(sources: seq<Source>, e: Element)
    requires forall k :: 0 <= k < |sources| ==> sources[k].sign == 1
    ensures Weight(sources, e) >= 0
    ensures Weight(sources, e) >= 1 <==> exists k :: 0 <= k < |sources| && Share(sources[k], e) == 1
  {
    if sources != [] {
      var n := |sources| - 1;
      WeightOfUnion(sources[..n], e);
      if Share(sources[n], e) != 1 && Weight(sources[..n], e) >= 1 {
        var k :| 0 <= k < n && Share(sources[..n][k], e) == 1;
        assert Share(sources[k], e) == 1;
      }
      if k :| 0 <= k < |sources| && Share(sources[k], e) == 1 {
        if k < n {
          assert Share(sources[..n][k], e) == 1;
        }
      }
    }
  }

  lemma {:induction false} WeightOfDifference(sources: seq<Source>, e: Element)
    requires sources != [] && sources[0].sign == 1
    requires forall k :: 0 < k < |sources| ==> sources[k].sign == -1
    ensures Weight(sources, e) <= 1
    ensures Weight(sources, e) >= 1 <==>
      Share(sources[0], e) == 1 && forall k :: 0 < k < |sources| ==> Share(sources[k], e) == 0
  {
    var n := |sources| - 1;
    if n == 0 {
      assert sources[..n] == [];
    } else {
      WeightOfDifference(sources[..n], e);
      assert forall k :: 0 <= k < n ==> sources[..n][k] == sources[k];
    }
  }

  lemma MirrorIsValue(s: Source, e: Element)
    requires SourceOk(s) && s.queue == [] && !s.link.Stopped?
    ensures Share(s, e) == if Holds(s, e) then s.sign else 0
  {
  }

  /** DerivedSet: in every reachable state with nothing in flight, it is the union of the
      sources that are still subscribed, whatever was written, subscribed and unsubscribed
      in whatever order. */
  lemma DerivedIsUnion(run: seq<Net>, i: nat, e: Element)
    requires IsRun(run) && i < |run| && Quiescent(run[i])
    requires forall k :: 0 <= k < |run[i].sources| ==> run[i].sources[k].sign == 1
    ensures e in run[i].derived <==> exists k :: 0 <= k < |run[i].sources| && Holds(run[i].sources[k], e)
  {
    var n := run[i];
    RunInv(run, i);
    WeightOfUnion(n.sources, e);
    assert e in n.derived <==> CountOf(n.counts, e) >= 1;
    forall k | 0 <= k < |n.sources| ensures Share(n.sources[k], e) == 1 <==> Holds(n.sources[k], e) {
      MirrorIsValue(n.sources[k], e);
    }
  }

  /** SubtractReactive: the first set without everything the others hold. */
  lemma SubtractIsDifference(run: seq<Net>, i: nat, e: Element)
    requires IsRun(run) && i < |run| && Quiescent(run[i]) && run[i].sources != [] && run[i].sources[0].sign == 1
    requires forall k :: 0 < k < |run[i].sources| ==> run[i].sources[k].sign == -1
    ensures e in run[i].derived <==>
      Holds(run[i].sources[0], e) && forall k :: 0 < k < |run[i].sources| ==> !Holds(run[i].sources[k], e)
  {
    var n := run[i];
    RunInv(run, i);
    WeightOfDifference(n.sources, e);
    assert e in n.derived <==> CountOf(n.counts, e) >= 1;
    forall k | 0 <= k < |n.sources| ensures Share(n.sources[k], e) == 0 <==> !Holds(n.sources[k], e) {
      MirrorIsValue(n.sources[k], e);
    }
    MirrorIsValue(n.sources[0], e);
  }

  // ----- calling unsubscribe twice ---------------------------------------------------------------

  /** What a second call adds to the drift. */
  function Drifted(drift: Counts, taken: set<Element>): Counts
  {
    map e | e in drift.Keys + taken :: CountOf(drift, e) + One(e in taken)
  }

  lemma AgainDrifts(n: Net, k: nat, n': Net, drift: Counts)
    requires Balanced(n, drift) && TakeOutAgain(n, k, n') && n.sources[k].sign == 1
    ensures Balanced(n', Drifted(drift, n.sources[k].mirror))
  {
    var net :| Crossings(n.counts, n'.counts, 1, net) && n'.derived == After(n.derived, net);
    forall e ensures e in n'.derived <==> CountOf(n'.counts, e) >= 1 {
      assert e in n.derived <==> CountOf(n.counts, e) >= 1;
    }
  }

  /** A second call is harmless exactly if the source held nothing when it was taken out. */
  lemma SecondUnsubscribe(n: Net, k: nat, n': Net)
    requires Inv(n) && TakeOutAgain(n, k, n')
    ensures Inv(n') <==> n.sources[k].mirror == {}
  {
    var s := n.sources[k];
    assert SourceOk(s);
    if e :| e in s.mirror {
      assert CountOf(n.counts, e) == Weight(n.sources, e);
      assert CountOf(n'.counts, e) != CountOf(n.counts, e);
    } else {
      var net :| Crossings(n.counts, n'.counts, 1, net) && n'.derived == After(n.derived, net);
      assert forall e :: CountOf(n'.counts, e) == CountOf(n.counts, e);
      assert forall e :: e !in net.added && e !in net.deleted;
    }
  }

  // ----- runs with second calls --------------------------------------------------------------------

  /** Runs of a DerivedSet in which unsubscribe functions may be called any number of times,
      with the drift that has built up. */
  ghost predicate LooseStep(n: Net, drift: Counts, n': Net, drift': Counts)
  {
    || (Step(n, n') && drift' == drift)
    || (exists k: nat :: Again(n, k, drift, n', drift'))
  }

  ghost predicate Again(n: Net, k: nat, drift: Counts, n': Net, drift': Counts)
  {
    TakeOutAgain(n, k, n') && drift' == Drifted(drift, n.sources[k].mirror)
  }

  ghost predicate Unions(n: Net) { forall k :: 0 <= k < |n.sources| ==> n.sources[k].sign == 1 }

  ghost predicate IsLooseRun(run: seq<Net>, drifts: seq<Counts>)
  {
    && run != [] && |drifts| == |run| && Initial(run[0]) && drifts[0] == map[]
    && (forall i :: 0 <= i < |run| ==> Unions(run[i]))
    && forall i :: 0 <= i < |run| - 1 ==> LooseStep(run[i], drifts[i], run[i + 1], drifts[i + 1])
  }

  lemma {:induction false} LooseRunBalanced(run: seq<Net>, drifts: seq<Counts>, i: nat)
    requires IsLooseRun(run, drifts) && i < |run|
    ensures Balanced(run[i], drifts[i])
  {
    if i > 0 {
      LooseRunBalanced(run, drifts, i - 1);
      assert LooseStep(run[i - 1], drifts[i - 1], run[i], drifts[i]) && Unions(run[i - 1]);
      LooseStepKeeps(run[i - 1], drifts[i - 1], run[i], drifts[i]);
    }
  }

  lemma LooseStepKeeps(n: Net, drift: Counts, n': Net, drift': Counts)
    requires Balanced(n, drift) && Unions(n) && LooseStep(n, drift, n', drift')
    ensures Balanced(n', drift')
  {
    hide Step, Balanced, TakeOutAgain, Drifted;
    if Step(n, n') && drift' == drift {
      StepKeeps(n, n', drift);
    } else {
      var k: nat :| Again(n, k, drift, n', drift');
      AgainBalanced(n, k, drift, n', drift');
    }
  }

  lemma AgainBalanced(n: Net, k: nat, drift: Counts, n': Net, drift': Counts)
    requires Balanced(n, drift) && Unions(n) && Again(n, k, drift, n', drift')
    ensures Balanced(n', drift')
  {
    hide Balanced, Drifted;
    AgainDrifts(n, k, n', drift);
  }

  function Holders(sources: seq<Source>, e: Element): set<int>
  {
    set k | 0 <= k < |sources| && sources[k].link.Subscribed? && e in sources[k].value
  }

  lemma {:induction false} WeightIsHolders(sources: seq<Source>, e: Element)
    requires forall k :: 0 <= k < |sources| ==> SourceOk(sources[k]) && sources[k].sign == 1
    requires forall k :: 0 <= k < |sources| ==> sources[k].queue == [] && !sources[k].link.Stopped?
    ensures Weight(sources, e) == |Holders(sources, e)|
  {
    if sources != [] {
      var k := |sources| - 1;
      var front := sources[..k];
      WeightIsHolders(front, e);
      MirrorIsValue(sources[k], e);
      LastHolder(sources, e);
      hide Holders;
    }
  }

  lemma LastHolder(sources: seq<Source>, e: Element)
    requires sources != []
    ensures var k := |sources| - 1;
            |Holders(sources, e)| == |Holders(sources[..k], e)| + if Holds(sources[k], e) then 1 else 0
  {
    var k := |sources| - 1;
    if Holds(sources[k], e) {
      assert Holders(sources, e) == Holders(sources[..k], e) + {k};
    } else {
      assert Holders(sources, e) == Holders(sources[..k], e);
    }
  }

  /** With nothing in flight, a DerivedSet holds an element exactly if more subscribed sources
      hold it than second calls have taken it out. */
  lemma DerivedWithDrift(run: seq<Net>, drifts: seq<Counts>, i: nat, e: Element)
    requires IsLooseRun(run, drifts) && i < |run| && Quiescent(run[i])
    ensures e in run[i].derived <==> |Holders(run[i].sources, e)| > CountOf(drifts[i], e)
  {
    LooseRunBalanced(run, drifts, i);
    WeightIsHolders(run[i].sources, e);
    assert e in run[i].derived <==> CountOf(run[i].counts, e) >= 1;
  }

  /** In particular it is the union as long as every second call was of a source that held
      nothing. */
  lemma UnionWithoutDrift(run: seq<Net>, drifts: seq<Counts>, i: nat, e: Element)
    requires IsLooseRun(run, drifts) && i < |run| && Quiescent(run[i])
    requires forall j, k :: 0 <= j < i && 0 <= k < |run[j].sources| && TakeOutAgain(run[j], k, run[j + 1]) ==>
      run[j].sources[k].mirror == {}
    ensures e in run[i].derived <==> exists k :: 0 <= k < |run[i].sources| && Holds(run[i].sources[k], e)
  {
    NoDrift(run, drifts, i);
    DerivedWithDrift(run, drifts, i, e);
    var holders := Holders(run[i].sources, e);
    if k :| 0 <= k < |run[i].sources| && Holds(run[i].sources[k], e) {
      assert k in holders;
    } else {
      assert holders == {};
    }
  }

  lemma {:induction false} NoDrift(run: seq<Net>, drifts: seq<Counts>, i: nat)
    requires IsLooseRun(run, drifts) && i < |run|
    requires forall j, k :: 0 <= j < i && 0 <= k < |run[j].sources| && TakeOutAgain(run[j], k, run[j + 1]) ==>
      run[j].sources[k].mirror == {}
    ensures drifts[i] == map[]
  {
    if i > 0 {
      NoDrift(run, drifts, i - 1);
      var n, n', d, d' := run[i - 1], run[i], drifts[i - 1], drifts[i];
      assert LooseStep(n, d, n', d');
      if k: nat :| Again(n, k, d, n', d') {
        assert TakeOutAgain(run[i - 1], k, run[i - 1 + 1]);
        assert n.sources[k].mirror == {};
      }
    }
  }

  // ----- a drift always shows in the end ------------------------------------------------------------

  function Shift(counts: Counts, up: set<Element>, down: set<Element>): Counts
  {
    map e | e in counts.Keys + up + down :: CountOf(counts, e) + One(e in up) - One(e in down)
  }

  lemma InheritPossible(counts: Counts, derived: set<Element>, m: Mutations, sign: int)
    returns (counts': Counts, derived': set<Element>)
    ensures Inherited(counts, derived, m, sign, counts', derived')
  {
    counts' := if sign == 1 then Shift(counts, m.added, m.deleted) else Shift(counts, m.deleted, m.added);
    var net := Mutations(set e | e in counts'.Keys && CountOf(counts, e) < 1 <= CountOf(counts', e),
                         set e | e in counts'.Keys && CountOf(counts', e) < 1 <= CountOf(counts, e));
    assert Crossings(counts, counts', 1, net);
    derived' := After(derived, net);
  }

  /** States linked by steps. */
  ghost predicate Path(ns: seq<Net>)
  {
    ns != [] && forall i :: 0 <= i < |ns| - 1 ==> Step(ns[i], ns[i + 1])
  }

  lemma PathCons(n: Net, ns: seq<Net>)
    requires Path(ns) && Step(n, ns[0])
    ensures Path([n] + ns) && ([n] + ns)[|ns|] == ns[|ns| - 1]
  {
    var p := [n] + ns;
    forall i | 0 <= i < |p| - 1 ensures Step(p[i], p[i + 1]) {
      assert i > 0 ==> p[i] == ns[i - 1] && p[i + 1] == ns[i];
    }
  }

  /** Every source can be unsubscribed. */
  lemma {:induction false} UnsubscribeAll(n: Net, drift: Counts, j: nat) returns (ns: seq<Net>)
    requires Balanced(n, drift) && Unions(n) && j <= |n.sources|
    requires forall k :: 0 <= k < j ==> n.sources[k].link.Gone?
    ensures Path(ns) && ns[0] == n
    ensures var g := ns[|ns| - 1];
            Balanced(g, drift) && Unions(g) && forall k :: 0 <= k < |g.sources| ==> g.sources[k].link.Gone?
    decreases |n.sources| - j, 2
  {
    if j == |n.sources| {
      ns := [n];
    } else if n.sources[j].link.Gone? {
      ns := UnsubscribeAll(n, drift, j + 1);
    } else if n.sources[j].link.Stopped? {
      ns := TakeOutAll(n, drift, j);
    } else {
      var n1 := n.(sources := n.sources[j := n.sources[j].(link := Stopped, queue := [])]);
      assert Stop(n, j, n1);
      StepKeeps(n, n1, drift);
      ns := TakeOutAll(n1, drift, j);
      PathCons(n, ns);
      ns := [n] + ns;
    }
  }

  lemma {:induction false} TakeOutAll(n: Net, drift: Counts, j: nat) returns (ns: seq<Net>)
    requires Balanced(n, drift) && Unions(n) && j < |n.sources| && n.sources[j].link.Stopped?
    requires forall k :: 0 <= k < j ==> n.sources[k].link.Gone?
    ensures Path(ns) && ns[0] == n
    ensures var g := ns[|ns| - 1];
            Balanced(g, drift) && Unions(g) && forall k :: 0 <= k < |g.sources| ==> g.sources[k].link.Gone?
    decreases |n.sources| - j, 1
  {
    var s := n.sources[j];
    var counts', derived' := InheritPossible(n.counts, n.derived, Mutations({}, s.mirror), 1);
    var n1 := Net(n.sources[j := s.(link := Gone)], counts', derived');
    assert TakeOut(n, j, n1);
    StepKeeps(n, n1, drift);
    ns := UnsubscribeAll(n1, drift, j + 1);
    PathCons(n, ns);
    ns := [n] + ns;
  }

  lemma {:induction false} NoWeight(sources: seq<Source>, e: Element)
    requires forall k :: 0 <= k < |sources| ==> sources[k].link.Gone?
    ensures Weight(sources, e) == 0
  {
    if sources != [] {
      NoWeight(sources[..|sources| - 1], e);
    }
  }

  ghost predicate Lost(n: Net, e: Element)
  {
    Quiescent(n) && e !in n.derived && exists k :: 0 <= k < |n.sources| && Holds(n.sources[k], e)
  }

  lemma PathAppend(ns: seq<Net>, n: Net)
    requires Path(ns) && Step(ns[|ns| - 1], n)
    ensures Path(ns + [n])
  {
  }

  /** However far the net has come since, an element with a drift can get lost: all sources
      are unsubscribed and one that holds it is subscribed. */
  lemma DriftLoses(n: Net, drift: Counts, e: Element) returns (ns: seq<Net>)
    requires Balanced(n, drift) && Unions(n) && CountOf(drift, e) >= 1
    ensures Path(ns) && ns[0] == n && Lost(ns[|ns| - 1], e)
  {
    ns := UnsubscribeAll(n, drift, 0);
    var g := ns[|ns| - 1];
    NoWeight(g.sources, e);
    var s := Source({e}, {}, [Mutations({e}, {})], Subscribed, 1);
    var g1 := g.(sources := g.sources + [s]);
    assert Subscribe(g, {e}, 1, g1);
    StepKeeps(g, g1, drift);
    var counts', derived' := InheritPossible(g1.counts, g1.derived, Applied({}, s.queue[0]), 1);
    var k := |g.sources|;
    var s2 := s.(mirror := After({}, s.queue[0]), queue := s.queue[1..]);
    var g2 := Net(g1.sources[k := s2], counts', derived');
    assert Deliver(g1, k, g2);
    StepKeeps(g1, g2, drift);
    PathAppend(ns, g1);
    PathAppend(ns + [g1], g2);
    LastWeight(g, g2, k, e);
    ns := ns + [g1] + [g2];
    assert Holds(g2.sources[k], e);
  }

  lemma LastWeight(g: Net, g2: Net, k: nat, e: Element)
    requires k == |g.sources| && |g2.sources| == k + 1 && g2.sources[..k] == g.sources
    requires forall j :: 0 <= j < k ==> g.sources[j].link.Gone?
    requires Share(g2.sources[k], e) == 1
    ensures Weight(g2.sources, e) == 1
  {
    NoWeight(g.sources, e);
  }

  /** After a second call for a source that held something, there is always a way to lose an
      element: the condition of SecondUnsubscribe cannot be relaxed. */
  lemma SecondUnsubscribeLoses(n: Net, k: nat, n': Net, e: Element) returns (ns: seq<Net>)
    requires Inv(n) && Unions(n) && TakeOutAgain(n, k, n') && e in n.sources[k].mirror
    ensures Path(ns) && ns[0] == n' && Lost(ns[|ns| - 1], e)
  {
    AgainDrifts(n, k, n', map[]);
    ns := DriftLoses(n', Drifted(map[], n.sources[k].mirror), e);
  }

  /** A run that ends with a lost element, for any element: subscribe a source that holds it,
      deliver, unsubscribe, call unsubscribe again, and subscribe another source that holds it. */
  lemma LossIsReachable(e: Element) returns (before: seq<Net>, after: seq<Net>)
    ensures Path(before) && Initial(before[0]) && Path(after) && Lost(after[|after| - 1], e)
    ensures TakeOutAgain(before[|before| - 1], 0, after[0])
  {
    var n0 := Net([], map[], {});
    var s := Source({e}, {}, [Mutations({e}, {})], Subscribed, 1);
    var n1 := n0.(sources := [s]);
    assert n0.sources + [s] == [s];
    assert Subscribe(n0, {e}, 1, n1);
    var c2, d2 := InheritPossible(n1.counts, n1.derived, Applied({}, s.queue[0]), 1);
    var s2 := s.(mirror := After({}, s.queue[0]), queue := s.queue[1..]);
    var n2 := Net([s2], c2, d2);
    assert n1.sources[0 := s2] == [s2];
    assert Deliver(n1, 0, n2);
    var s3 := s2.(link := Stopped, queue := []);
    var n3 := n2.(sources := [s3]);
    assert n2.sources[0 := s3] == [s3];
    assert Stop(n2, 0, n3);
    var c4, d4 := InheritPossible(n3.counts, n3.derived, Mutations({}, s3.mirror), 1);
    var s4 := s3.(link := Gone);
    var n4 := Net([s4], c4, d4);
    assert n3.sources[0 := s4] == [s4];
    assert TakeOut(n3, 0, n4);
    before := [n0, n1, n2, n3, n4];
    var c5, d5 := InheritPossible(n4.counts, n4.derived, Mutations({}, s4.mirror), 1);
    var n5 := Net([s4], c5, d5);
    assert TakeOutAgain(n4, 0, n5);
    ReachedInv(before);
    after := SecondUnsubscribeLoses(n4, 0, n5, e);
  }

  lemma ReachedInv(ns: seq<Net>)
    requires Path(ns) && Initial(ns[0])
    ensures Inv(ns[|ns| - 1])
  {
    RunInv(ns, |ns| - 1);
  }

  // ----- what is written arrives -------------------------------------------------------------------

  /** Where mutations add and delete the same element the deletion wins, and both are reported. */
  lemma DeletionWins(value: set<Element>, m: Mutations, e: Element)
    ensures e in m.deleted ==> e !in After(value, m)
    ensures e !in m.deleted ==> (e in After(value, m) <==> e in value || e in m.added)
    ensures e in Applied(value, m).added <==> e in m.added && e !in value
    ensures e in Applied(value, m).deleted <==> e in m.deleted && (e in value || e in m.added)
  {
  }

  /** A write can happen at any time, and nothing but writes changes what a source holds. */
  lemma WriteAtAnyTime(n: Net, k: nat, m: Mutations)
    requires k < |n.sources|
    ensures exists n' :: Step(n, n') && Wrote(n, k, m, n')
  {
    var s := n.sources[k];
    var s' := s.(value := After(s.value, m), queue := if s.link.Subscribed? then s.queue + [Applied(s.value, m)] else s.queue);
    var n' := n.(sources := n.sources[k := s']);
    assert Write(n, k, m, n');
    assert Step(n, n') && Wrote(n, k, m, n');
  }

  ghost predicate Wrote(n: Net, k: nat, m: Mutations, n': Net)
  {
    && k < |n.sources| == |n'.sources|
    && (forall e :: e in n'.sources[k].value <==> (e in n.sources[k].value || e in m.added) && e !in m.deleted)
    && (forall j :: 0 <= j < |n.sources| && j != k ==> n'.sources[j] == n.sources[j])
  }

  /** So can a subscription: the new source has the value and the sign that were asked for. */
  lemma SubscribeAtAnyTime(n: Net, value: set<Element>, sign: int)
    requires sign == 1 || sign == -1
    ensures exists n' :: Step(n, n') && Linked(n, value, sign, n')
  {
    var n' := n.(sources := n.sources + [Source(value, {}, [Mutations(value, {})], Subscribed, sign)]);
    assert Subscribe(n, value, sign, n');
    assert Step(n, n') && Linked(n, value, sign, n');
  }

  lemma SubscribeSays(n: Net, value: set<Element>, sign: int, n': Net)
    requires Subscribe(n, value, sign, n')
    ensures Linked(n, value, sign, n')
  {
  }

  ghost predicate Linked(n: Net, value: set<Element>, sign: int, n': Net)
  {
    && |n'.sources| == |n.sources| + 1 && n'.sources[..|n.sources|] == n.sources
    && var s := n'.sources[|n.sources|]; s.value == value && s.sign == sign && s.link.Subscribed?
  }

  function InFlight(sources: seq<Source>): nat
  {
    if sources == [] then 0
    else InFlight(sources[..|sources| - 1]) + Flight(sources[|sources| - 1])
  }

  function Flight(s: Source): nat { |s.queue| + if s.link.Stopped? then 1 else 0 }

  lemma {:induction false} FlightUpdate(sources: seq<Source>, k: nat, s: Source)
    requires k < |sources|
    ensures InFlight(sources[k := s]) == InFlight(sources) - Flight(sources[k]) + Flight(s)
  {
    var n := |sources| - 1;
    if k == n {
      assert sources[k := s][..n] == sources[..n];
    } else {
      assert sources[k := s][..n] == sources[..n][k := s];
      FlightUpdate(sources[..n], k, s);
    }
  }

  /** The same sources with the same values, subscribed as before. */
  ghost predicate SameSources(n: Net, n': Net)
  {
    && |n'.sources| == |n.sources|
    && forall k :: 0 <= k < |n.sources| ==>
         && n'.sources[k].value == n.sources[k].value && n'.sources[k].sign == n.sources[k].sign
         && (n'.sources[k].link.Subscribed? <==> n.sources[k].link.Subscribed?)
  }

  lemma OneLess(n: Net) returns (n': Net)
    requires Inv(n) && !Quiescent(n)
    ensures Step(n, n') && SameSources(n, n') && InFlight(n'.sources) < InFlight(n.sources)
  {
    var k :| 0 <= k < |n.sources| && !(n.sources[k].queue == [] && !n.sources[k].link.Stopped?);
    var s := n.sources[k];
    assert SourceOk(s);
    if s.link.Stopped? {
      var counts', derived' := InheritPossible(n.counts, n.derived, Mutations({}, s.mirror), s.sign);
      n' := Net(n.sources[k := s.(link := Gone)], counts', derived');
      assert TakeOut(n, k, n');
    } else {
      var counts', derived' := InheritPossible(n.counts, n.derived, Applied(s.mirror, s.queue[0]), s.sign);
      n' := Net(n.sources[k := s.(mirror := After(s.mirror, s.queue[0]), queue := s.queue[1..])], counts', derived');
      assert Deliver(n, k, n');
    }
    FlightUpdate(n.sources, k, n'.sources[k]);
  }

  /** From every state of every run all notifications can be delivered, without any source having
      changed: the derived set comes to what its sources say. */
  lemma {:induction false} Settles(n: Net) returns (ns: seq<Net>)
    requires Inv(n)
    ensures Path(ns) && ns[0] == n && Quiescent(ns[|ns| - 1]) && SameSources(n, ns[|ns| - 1])
    decreases InFlight(n.sources)
  {
    hide Inv, Step;
    if Quiescent(n) {
      ns := [n];
    } else {
      var n1 := OneLess(n);
      StepInv(n, n1);
      ns := Settles(n1);
      PathCons(n, ns);
      ns := [n] + ns;
    }
  }

  lemma UnionComes(run: seq<Net>, i: nat, e: Element) returns (ns: seq<Net>)
    requires IsRun(run) && i < |run| && Unions(run[i])
    ensures Path(ns) && ns[0] == run[i]
    ensures e in ns[|ns| - 1].derived <==> exists k :: 0 <= k < |run[i].sources| && Holds(run[i].sources[k], e)
  {
    RunInv(run, i);
    ns := Settles(run[i]);
    var m := ns[|ns| - 1];
    PathInv(ns);
    WeightOfUnion(m.sources, e);
    assert e in m.derived <==> CountOf(m.counts, e) >= 1;
    forall k | 0 <= k < |m.sources| ensures Share(m.sources[k], e) == 1 <==> Holds(run[i].sources[k], e) {
      MirrorIsValue(m.sources[k], e);
    }
  }

  lemma DifferenceComes(run: seq<Net>, i: nat, e: Element) returns (ns: seq<Net>)
    requires IsRun(run) && i < |run| && run[i].sources != [] && run[i].sources[0].sign == 1
    requires forall k :: 0 < k < |run[i].sources| ==> run[i].sources[k].sign == -1
    ensures Path(ns) && ns[0] == run[i]
    ensures e in ns[|ns| - 1].derived <==>
      Holds(run[i].sources[0], e) && forall k :: 0 < k < |run[i].sources| ==> !Holds(run[i].sources[k], e)
  {
    RunInv(run, i);
    ns := Settles(run[i]);
    var m := ns[|ns| - 1];
    PathInv(ns);
    WeightOfDifference(m.sources, e);
    assert e in m.derived <==> CountOf(m.counts, e) >= 1;
    forall k | 0 <= k < |m.sources| ensures Share(m.sources[k], e) == 0 <==> !Holds(run[i].sources[k], e) {
      MirrorIsValue(m.sources[k], e);
    }
    MirrorIsValue(m.sources[0], e);
  }

  lemma {:induction false} PathInv(ns: seq<Net>)
    requires Path(ns) && Inv(ns[0])
    ensures Inv(ns[|ns| - 1])
  {
    hide Inv, Step;
    if |ns| > 1 {
      var k := |ns| - 1;
      assert Step(ns[k - 1], ns[k - 1 + 1]);
      PathInv(ns[..k]);
      StepInv(ns[k - 1], ns[k]);
    }
  }
}
