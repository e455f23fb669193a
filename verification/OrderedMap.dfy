/** A map that remembers the order of insertion: a doubly linked list with a dictionary. */
module OrderedMap {

  type Key = string
  type Value = int

  // ----- the simple form: a sequence of entries ------------------------------------------

  datatype Entry = Entry(key: Key, value: Value)

  /** The position of a key, or the length if it is not there. */
  function Find(es: seq<Entry>, key: Key): (i: nat)
    ensures i <= |es| && (i < |es| ==> es[i].key == key) && forall j :: 0 <= j < i ==> es[j].key != key
  {
    if es == [] || es[0].key == key then 0 else 1 + Find(es[1..], key)
  }

  function Put(es: seq<Entry>, key: Key, value: Value): seq<Entry>
  {
    var i := Find(es, key);
    if i < |es| then es[i := Entry(key, value)] else es + [Entry(key, value)]
  }

  function Drop(es: seq<Entry>, key: Key): seq<Entry>
  {
    var i := Find(es, key);
    if i < |es| then es[..i] + es[i + 1..] else es
  }

  /** Setting a key keeps all other entries and the order of all keys; a new key comes last. */
  lemma PutKeeps(es: seq<Entry>, key: Key, value: Value, i: nat)
    requires i < |es|
    ensures i < |Put(es, key, value)| && Put(es, key, value)[i].key == es[i].key
    ensures es[i].key != key ==> Put(es, key, value)[i] == es[i]
    ensures (forall j :: 0 <= j < |es| ==> es[j].key != key) ==>
      |Put(es, key, value)| == |es| + 1 && Put(es, key, value)[|es|] == Entry(key, value)
    ensures (exists j :: 0 <= j < |es| && es[j].key == key) ==> |Put(es, key, value)| == |es| && Entry(key, value) in Put(es, key, value)
  {
    var k := Find(es, key);
    if k < |es| {
      assert Put(es, key, value)[k] == Entry(key, value);
    }
  }

  // ----- the linked form ------------------------------------------------------------------

  /** A list element; the rank is its place in the order of creation. */
  class ListElement {
    const key: Key
    var value: Value
    var prev: ListElement?
    var next: ListElement?
    ghost const rank: nat

    constructor (key: Key, value: Value, ghost rank: nat)
      ensures this.key == key && this.value == value && this.rank == rank && prev == null && next == null
    {
      this.key, this.value, this.rank := key, value, rank;
      prev, next := null, null;
    }
  }

  ghost function Nth(s: seq<ListElement>, i: int): ListElement? { if 0 <= i < |s| then s[i] else null }

  ghost function Nodes(s: seq<ListElement>): set<ListElement> { set x | x in s }

  ghost function Without(s: seq<ListElement>, i: nat): seq<ListElement>
    requires i < |s|
  {
    s[..i] + s[i + 1..]
  }

  /** Read forwards and read backwards, the list is s. */
  ghost predicate Chain(s: seq<ListElement>)
    reads s`next, s`prev
  {
    && (forall i {:trigger s[i].next} :: 0 <= i < |s| ==> s[i].next == Nth(s, i + 1))
    && (forall i {:trigger s[i].prev} :: 0 <= i < |s| ==> s[i].prev == Nth(s, i - 1))
  }

  /** The dictionary leads to the elements of the list, each under its own key. */
  ghost predicate Indexed(s: seq<ListElement>, dictionary: map<Key, ListElement>)
  {
    && (forall i :: 0 <= i < |s| ==> s[i].key in dictionary && dictionary[s[i].key] == s[i])
    && (forall k :: k in dictionary ==> dictionary[k] in s && dictionary[k].key == k)
  }

  ghost predicate DistinctKeys(s: seq<ListElement>)
  {
    forall i, j :: 0 <= i < j < |s| ==> s[i].key != s[j].key
  }

  /** The list is in the order of creation and holds no deleted element. */
  ghost predicate Ranked(s: seq<ListElement>, created: nat, retired: map<ListElement, nat>)
  {
    && (forall i, j :: 0 <= i < j < |s| ==> s[i].rank < s[j].rank)
    && (forall i :: 0 <= i < |s| ==> s[i].rank < created && s[i] !in retired)
    && (forall d :: d in retired ==> d.rank < retired[d] <= created)
  }

  ghost predicate Apart(s: seq<ListElement>, retired: map<ListElement, nat>)
  {
    forall x, d :: x in s && d in retired ==> d.rank != x.rank
  }

  /** Where a traversal that stands on a deleted element goes on: past no element that was
      in the map when it was deleted and still is. */
  ghost predicate LeadsOn(s: seq<ListElement>, retired: map<ListElement, nat>, d: ListElement)
    requires d in retired
    reads d`next
  {
    && (d.next == null || (d.rank < d.next.rank && (d.next in s || (d.next in retired && retired[d] <= retired[d.next]))))
    && (forall i :: 0 <= i < |s| && d.rank < s[i].rank < retired[d] ==> d.next != null && d.next.rank <= s[i].rank)
  }

  ghost predicate AllLeadOn(s: seq<ListElement>, retired: map<ListElement, nat>)
    reads retired.Keys`next
  {
    forall d :: d in retired ==> LeadsOn(s, retired, d)
  }

  lemma Appended(s: seq<ListElement>, dictionary: map<Key, ListElement>, created: nat, retired: map<ListElement,
                 nat>, e: ListElement)
    requires Indexed(s, dictionary) && DistinctKeys(s) && e.key !in dictionary
    requires Ranked(s, created, retired) && Apart(s, retired) && AllLeadOn(s, retired) && e.rank == created && e !in retired
    ensures Indexed(s + [e], dictionary[e.key := e]) && DistinctKeys(s + [e])
    ensures Ranked(s + [e], created + 1, retired) && Apart(s + [e], retired) && AllLeadOn(s + [e], retired)
  {
    AppendedIndexed(s, dictionary, e);
    AppendedRanked(s, created, retired, e);
    hide LeadsOn, Indexed, Ranked, Apart, DistinctKeys;
    forall d | d in retired ensures LeadsOn(s + [e], retired, d) {
      AppendedLeadsOn(s, created, retired, e, d);
    }
  }

  lemma NotRetired(s: seq<ListElement>, created: nat, retired: map<ListElement, nat>)
    requires Ranked(s, created, retired)
    ensures forall x :: x in s ==> x !in retired
  {
  }

  lemma AppendedIndexed(s: seq<ListElement>, dictionary: map<Key, ListElement>, e: ListElement)
    requires Indexed(s, dictionary) && DistinctKeys(s) && e.key !in dictionary
    ensures Indexed(s + [e], dictionary[e.key := e]) && DistinctKeys(s + [e])
  {
  }

  lemma AppendedRanked(s: seq<ListElement>, created: nat, retired: map<ListElement, nat>, e: ListElement)
    requires Ranked(s, created, retired) && Apart(s, retired) && e.rank == created && e !in retired
    ensures Ranked(s + [e], created + 1, retired) && Apart(s + [e], retired)
  {
  }

  lemma AppendedLeadsOn(s: seq<ListElement>, created: nat, retired: map<ListElement, nat>, e: ListElement, d: ListElement)
    requires d in retired && LeadsOn(s, retired, d) && retired[d] <= created == e.rank
    ensures LeadsOn(s + [e], retired, d)
  {
  }

  lemma Deleted(s: seq<ListElement>, dictionary: map<Key, ListElement>, created: nat, retired: map<ListElement, nat>, k: nat)
    requires Indexed(s, dictionary) && DistinctKeys(s)
    requires Ranked(s, created, retired) && Apart(s, retired) && AllLeadOn(s, retired)
    requires k < |s| && s[k].next == Nth(s, k + 1)
    ensures var r, d := Without(s, k), retired[s[k] := created];
            && Indexed(r, dictionary - {s[k].key}) && DistinctKeys(r)
            && Ranked(r, created, d) && Apart(r, d) && AllLeadOn(r, d)
  {
    hide LeadsOn, Indexed, Ranked, Apart, DistinctKeys;
    DeletedIndexed(s, dictionary, k);
    DeletedRanked(s, created, retired, k);
    var r, ret := Without(s, k), retired[s[k] := created];
    forall d | d in ret ensures LeadsOn(r, ret, d) {
      DeletedLeadsOn(s, created, retired, k, d);
    }
  }

  lemma DeletedRanked(s: seq<ListElement>, created: nat, retired: map<ListElement, nat>, k: nat)
    requires Ranked(s, created, retired) && Apart(s, retired) && k < |s|
    ensures Ranked(Without(s, k), created, retired[s[k] := created]) && Apart(Without(s, k), retired[s[k] := created])
  {
    var r := Without(s, k);
    assert forall i :: 0 <= i < |r| ==> r[i] == s[if i < k then i else i + 1];
    assert forall i :: 0 <= i < |r| ==> r[i].rank != s[k].rank;
  }

  lemma DeletedIndexed(s: seq<ListElement>, dictionary: map<Key, ListElement>, k: nat)
    requires Indexed(s, dictionary) && DistinctKeys(s) && k < |s|
    ensures Indexed(Without(s, k), dictionary - {s[k].key}) && DistinctKeys(Without(s, k))
  {
    var r := Without(s, k);
    assert forall i :: 0 <= i < |r| ==> r[i] == s[if i < k then i else i + 1];
    forall key | key in dictionary && key != s[k].key ensures dictionary[key] in r {
      var j :| 0 <= j < |s| && s[j] == dictionary[key];
      assert r[if j < k then j else j - 1] == s[j];
    }
  }

  lemma DeletedLeadsOn(s: seq<ListElement>, created: nat, retired: map<ListElement, nat>, k: nat, d: ListElement)
    requires Ranked(s, created, retired) && AllLeadOn(s, retired) && k < |s| && s[k].next == Nth(s, k + 1)
    requires d in retired || d == s[k]
    ensures LeadsOn(Without(s, k), retired[s[k] := created], d)
  {
    var r := Without(s, k);
    assert forall i :: 0 <= i < |r| ==> r[i] == s[if i < k then i else i + 1];
    if d == s[k] {
      if k + 1 < |s| {
        assert r[k] == d.next;
      }
    } else {
      assert LeadsOn(s, retired, d);
      if d.next != null && d.next in s && d.next != s[k] {
        var j :| 0 <= j < |s| && s[j] == d.next;
        assert r[if j < k then j else j - 1] == d.next;
      }
    }
  }

  ghost function Entries(s: seq<ListElement>): (es: seq<Entry>)
    reads s
    ensures |es| == |s| && forall i :: 0 <= i < |s| ==> es[i] == Entry(s[i].key, s[i].value)
  {
    seq(|s|, i requires 0 <= i < |s| reads s => Entry(s[i].key, s[i].value))
  }

  class OrderedMap {
    var head: ListElement?
    var tail: ListElement?
    var dictionary: map<Key, ListElement>
    var size: int
    ghost var spine: seq<ListElement>            // the elements in the map, in order
    ghost var created: nat                   // how many elements there have been
    ghost var retired: map<ListElement, nat>     // the deleted ones, and created at that time

    /** One sequence of elements with distinct keys: read forwards, read backwards, looked up
        in the dictionary and counted by the size. */
    ghost predicate Valid()
      reads this, spine`next, spine`prev, retired.Keys`next
    {
      && Strung() && Indexed(spine, dictionary) && DistinctKeys(spine)
      && Ranked(spine, created, retired) && Apart(spine, retired) && AllLeadOn(spine, retired)
    }

    constructor ()
      ensures Valid() && spine == []
    {
      head, tail, dictionary, size := null, null, map[], 0;
      spine, created, retired := [], 0, map[];
    }

    /** Head, tail and size are those of the spine, which the list spells out. */
    ghost predicate Strung()
      reads this`head, this`tail, this`size, this`spine, spine`next, spine`prev
    {
      head == Nth(spine, 0) && tail == Nth(spine, |spine| - 1) && size == |spine| && Chain(spine)
    }

    /** The part of Set that changes the list. */
    method LinkLast(element: ListElement)
      requires Strung() && DistinctKeys(spine + [element]) && element.next == null && element.prev == null
      modifies this`head, this`tail, this`size, this`spine, spine`next, element`prev
      ensures Strung() && spine == old(spine) + [element]
    {
      hide Nth;
      ghost var s, r := spine, spine + [element];
      Distinct(r);
      NthIs(s, 0);
      NthIs(s, |s| - 1);
      assert r[|s|] == element && (s != [] ==> r[|s| - 1] == tail);
      if head == null {
        head := element;
      } else {
        tail.next := element;
        element.prev := tail;
      }
      tail := element;
      size := size + 1;
      spine := spine + [element];
      forall i | 0 <= i < |r| ensures r[i].next == Nth(r, i + 1) && r[i].prev == Nth(r, i - 1) {
        assert i < |s| ==> r[i] == s[i] && old(s[i].next) == Nth(s, i + 1) && old(s[i].prev) == Nth(s, i - 1);
        NthIs(s, i + 1);
        NthIs(s, i - 1);
        NthIs(r, i + 1);
        NthIs(r, i - 1);
      }
      NthIs(r, 0);
      NthIs(r, |s|);
    }

    method Append(key: Key, value: Value) returns (element: ListElement)
      requires Valid() && key !in dictionary
      modifies this, spine`next
      ensures Valid() && fresh(element) && element.key == key && element.value == value
      ensures spine == old(spine) + [element] && created == old(created) + 1 == element.rank + 1 && retired == old(retired)
    {
      hide Indexed, DistinctKeys, LeadsOn, AllLeadOn, Strung, Ranked, Apart;
      NotRetired(spine, created, retired);
      element := new ListElement(key, value, created);
      Appended(spine, dictionary, created, retired, element);
      LinkLast(element);
      dictionary := dictionary[key := element];
      created := created + 1;
    }

    /** The part of Delete that changes the list. */
    method Unlink(element: ListElement, ghost k: nat)
      requires Strung() && DistinctKeys(spine) && k < |spine| && spine[k] == element
      modifies this`head, this`tail, this`size, this`spine, spine`next, spine`prev
      ensures Strung() && spine == Without(old(spine), k) && element.next == old(element.next)
    {
      hide Nth, Without;
      ghost var s := spine;
      Distinct(s);
      NthIs(s, k - 1);
      NthIs(s, k + 1);
      size := size - 1;
      if element.prev != null {
        element.prev.next := element.next;
      } else {
        head := element.next;
      }
      if element.next != null {
        element.next.prev := element.prev;
      } else {
        tail := element.prev;
      }
      Bypassed(s, k);
      WithoutLength(s, k);
      spine := Without(spine, k);
    }

    /** Set */
    method Set(key: Key, value: Value) returns (previous: Value, existed: bool)
      requires Valid()
      modifies this, Nodes(spine)
      ensures Valid() && Entries(spine) == Put(old(Entries(spine)), key, value)
      ensures existed == (key in old(dictionary)) && (existed ==> previous == old(dictionary[key].value))
      ensures Kept(old(spine), old(created), old(retired), spine, created, retired)
      ensures fresh(Nodes(spine) - old(Nodes(spine)))
      ensures forall x :: x in old(spine) ==> x in spine && x.value == if x.key == key then value else old(x.value)
    {
      hide Strung, DistinctKeys, Ranked, LeadsOn, AllLeadOn;
      if key in dictionary {
        var element := dictionary[key];
        previous, existed := element.value, true;
        Overwrite(element, value);
      } else {
        previous, existed := 0, false;
        ghost var es := Entries(spine);
        var element := Append(key, value);
        assert Entries(spine) == es + [Entry(key, value)];
      }
    }

    method Overwrite(element: ListElement, value: Value)
      requires element in spine && DistinctKeys(spine)
      modifies element`value
      ensures Entries(spine) == Put(old(Entries(spine)), element.key, value)
    {
      ghost var es := Entries(spine);
      ghost var i :| 0 <= i < |spine| && spine[i] == element;
      Distinct(spine);
      element.value := value;
      assert Find(es, element.key) == i;
      assert Entries(spine) == es[i := Entry(element.key, value)];
    }

    /** Delete */
    method Delete(key: Key) returns (existed: bool)
      requires Valid()
      modifies this, Nodes(spine)`next, Nodes(spine)`prev
      ensures Valid() && Entries(spine) == Drop(old(Entries(spine)), key)
      ensures existed == (key in old(dictionary))
      ensures Kept(old(spine), old(created), old(retired), spine, created, retired)
      ensures Nodes(spine) <= old(Nodes(spine))
      ensures forall x :: x in old(spine) ==> (x in spine <==> x.key != key)
      ensures existed ==> old(dictionary)[key].next == old(dictionary[key].next)
      ensures existed ==> var k := Find(old(Entries(spine)), key); k < |old(spine)| && spine == Without(old(spine), k)
    {
      hide Strung, DistinctKeys, Ranked, AllLeadOn, Kept, Drop, Without, Entries;
      existed := key in dictionary;
      if existed {
        var element := dictionary[key];
        ghost var k :| 0 <= k < |spine| && spine[k] == element;
        DropAt(spine, k);
        KeptWithout(spine, k, created, retired);
        ghost var es := Entries(Without(spine, k));
        DeleteAt(element, k);
        assert Entries(spine) == es;
      } else {
        NotThere(spine, dictionary, key);
        KeptSame(spine, created, retired);
      }
    }

    method DeleteAt(element: ListElement, ghost k: nat)
      requires Valid() && k < |spine| && spine[k] == element
      modifies this, Nodes(spine)`next, Nodes(spine)`prev
      ensures Valid() && spine == Without(old(spine), k)
      ensures created == old(created) && retired == old(retired)[element := created]
      ensures element.next == old(element.next)
    {
      hide Strung, DistinctKeys, LeadsOn, Indexed, Without;
      NextIs(k);
      dictionary := dictionary - {element.key};
      Unlink(element, k);
      assert AllLeadOn(old(spine), retired);
      Deleted(old(spine), old(dictionary), created, retired, k);
      retired := retired[element := created];
    }

    /** What a consumer, or anyone else, does to the map before the traversal goes on. */
    method Act(ops: seq<Op>)
      requires Valid()
      modifies this, Nodes(spine)
      ensures Valid() && Kept(old(spine), old(created), old(retired), spine, created, retired)
      ensures fresh(Nodes(spine) - old(Nodes(spine)))
      ensures forall x :: x in old(spine) ==> Track(ops, x.key, old(x.value)) == (x.value, x in spine)
    {
      hide Valid, Kept, Entries, Put, Drop, Track, Trail;
      Start();
      KeptSame(spine, created, retired);
      TrackNothing();
      assert ops[..0] == [];
      for i := 0 to |ops|
        invariant Valid() && Kept(old(spine), old(created), old(retired), spine, created, retired)
        invariant fresh(Nodes(spine) - old(Nodes(spine)))
        invariant forall x :: x in old(spine) ==> Track(ops[..i], x.key, old(x.value)) == (x.value, x in spine)
        invariant forall x :: x in old(spine) ==> x.rank < created
      {
        ghost var s, c, r := spine, created, retired;
        TrackStep(ops, i);
        match ops[i] {
          case SetOp(key, value) =>
            var _, _ := Set(key, value);
          case DeleteOp(key) =>
            var _ := Delete(key);
        }
        OutStaysOut(s, c, r, spine, created, retired);
        KeptTransitive(old(spine), old(created), old(retired), s, c, r, spine, created, retired);
      }
      assert ops[..|ops|] == ops;
    }

    /** ForEach, with what happens during each call of the consumer and whether it goes on.
        Whatever that is: no element is visited twice, they come in the order of insertion,
        an entry that stays in the map throughout is visited, and an entry that was there at
        the start is handed over with the value last set before its visit. */
    method ForEach(script: seq<Turn>) returns (completed: bool, visited: seq<Entry>, ghost nodes: seq<ListElement>)
      requires Valid()
      modifies this, Nodes(spine)
      ensures Valid() && Visited(visited, nodes)
      ensures forall x :: x in nodes ==> OnTrail(spine, retired, old(created), x)
      ensures completed ==> forall x :: x in old(spine) && x in spine ==> x in nodes
      ensures forall i :: 0 <= i < |nodes| && nodes[i] in old(spine) ==>
        visited[i].value == Track(OpsBefore(script, i), nodes[i].key, old(nodes[i].value)).0
    {
      hide Valid, Kept, Trail, OnTrail, Track, OpsBefore, Visited;
      visited, nodes, completed := [], [], true;
      ghost var c0 := created;
      Start();
      NothingVisited();
      TrackNothing();
      NoOpsBefore(script);
      var current := head;
      var turn := 0;
      while current != null
        invariant Valid() && Visited(visited, nodes) && Trail(spine, created, retired, c0, nodes, current)
        invariant fresh(Nodes(spine) - old(Nodes(spine)))
        invariant completed && |visited| == |nodes| && turn == if |nodes| < |script| then |nodes| else |script|
        invariant c0 <= created && forall x :: x in old(spine) ==> x.rank < c0
        invariant forall x :: x in old(spine) ==>
          Track(OpsBefore(script, |nodes|), x.key, old(x.value)) == (x.value, x in spine)
        invariant forall i :: 0 <= i < |nodes| && nodes[i] in old(spine) ==>
          visited[i].value == Track(OpsBefore(script, i), nodes[i].key, old(nodes[i].value)).0
        decreases |script| - turn, if current == null then 0 else created - current.rank
      {
        Visit(spine, created, retired, c0, visited, nodes, current);
        visited := visited + [Entry(current.key, current.value)];
        MoreOpsBefore(script, |nodes|);
        if turn < |script| {
          ghost var s, c, r := spine, created, retired;
          Act(script[turn].ops);
          TrackAll(OpsBefore(script, |nodes|), script[turn].ops);
          OutStaysOut(s, c, r, spine, created, retired);
          StillOnTrail(s, c, r, spine, created, retired, c0, nodes, current);
          completed := script[turn].goOn;
          turn := turn + 1;
        }
        GoOn(c0, nodes, current);
        nodes := nodes + [current];
        if !completed {
          current := current.next;
          break;
        }
        current := current.next;
      }
      Reached(spine, created, retired, c0, nodes, current);
    }

    /** ForEach with a consumer that deletes the entry it is called with if the key has
        expired, as Trigger does with hooks: every entry is visited, in order. */
    method ForEachExpiring(expired: set<Key>) returns (visited: seq<Entry>)
      requires Valid()
      modifies this, Nodes(spine)`next, Nodes(spine)`prev
      ensures Valid() && visited == old(Entries(spine))
      ensures spine == Unexpired(old(spine), expired)
    {
      hide Valid, Nth, Entries, Underway;
      visited := [];
      ghost var s, es, i := spine, Entries(spine), 0;
      HeadIs();
      UnderwayStart(s, es, expired);
      var current := head;
      while current != null
        invariant Valid() && 0 <= i <= |s| && current == Nth(s, i)
        invariant Underway(s, es, expired, i, spine, visited) && Nodes(spine) <= Nodes(s)
        decreases |s| - i
      {
        NthIs(s, i);
        UnderwayStep(s, es, expired, i, spine, visited);
        visited := visited + [Entry(current.key, current.value)];
        DeleteIfExpired(current, expired, Unexpired(s[..i], expired), s, i);
        current := current.next;
        i := i + 1;
      }
      NthIs(s, i);
      UnderwayEnd(s, es, expired, spine, visited);
    }

    /** The consumer, called with an element that stands between what is kept and the rest. */
    method DeleteIfExpired(current: ListElement, expired: set<Key>, ghost kept: seq<ListElement>,
                           ghost s: seq<ListElement>, ghost i: nat)
      requires Valid() && i < |s| && s[i] == current && spine == kept + s[i..]
      modifies this, Nodes(spine)`next, Nodes(spine)`prev
      ensures Valid() && spine == kept + (if current.key in expired then [] else [current]) + s[i + 1..]
      ensures current.next == Nth(s, i + 1) && Nodes(spine) <= old(Nodes(spine))
    {
      hide Valid, Nth, Without;
      Rest(kept, s, i);
      ElementIs(|kept|);
      if current.key in expired {
        DeleteCurrent(current, |kept|);
        assert kept + [] == kept;
      }
    }

    method DeleteCurrent(element: ListElement, ghost k: nat)
      requires Valid() && k < |spine| && spine[k] == element
      modifies this, Nodes(spine)`next, Nodes(spine)`prev
      ensures Valid() && spine == Without(old(spine), k) && element.next == old(element.next)
      ensures Nodes(spine) <= old(Nodes(spine))
    {
      hide Strung, AllLeadOn, Ranked, Apart;
      ElementIs(k);
      assert Find(Entries(spine), element.key) == k;
      var existed := Delete(element.key);
    }

    /** ForEachReverse: the entries from the last one on, up to the one that is not accepted. */
    method ForEachReverse(accept: Entry -> bool) returns (completed: bool, visited: seq<Entry>)
      requires Valid()
      ensures |visited| <= |spine|
      ensures forall i :: 0 <= i < |visited| ==> visited[i] == Entries(spine)[|spine| - 1 - i]
      ensures forall i :: 0 <= i < |visited| ==> (accept(visited[i]) <==> completed || i < |visited| - 1)
      ensures if completed then |visited| == |spine| else visited != []
    {
      hide Valid, Entries, Nth;
      visited, completed := [], true;
      TailIs();
      var current := tail;
      while current != null
        invariant |visited| <= |spine| && current == Nth(spine, |spine| - 1 - |visited|)
        invariant forall i :: 0 <= i < |visited| ==> visited[i] == Entries(spine)[|spine| - 1 - i] && accept(visited[i])
        decreases |spine| - |visited|
      {
        NthIs(spine, |spine| - 1 - |visited|);
        var entry := Entry(current.key, current.value);
        PrevIs(|spine| - 1 - |visited|);
        visited := visited + [entry];
        if !accept(entry) {
          return false, visited;
        }
        current := current.prev;
      }
      NthIs(spine, |spine| - 1 - |visited|);
    }

    lemma TailIs()
      requires Valid()
      ensures tail == Nth(spine, |spine| - 1)
    {
    }

    lemma PrevIs(k: nat)
      requires Valid() && k < |spine|
      ensures spine[k].prev == Nth(spine, k - 1)
    {
    }

    /** Clone */
    method Clone() returns (cloned: OrderedMap)
      requires Valid()
      ensures cloned.Valid() && fresh(cloned) && fresh(Nodes(cloned.spine))
      ensures Entries(cloned.spine) == Entries(spine)
    {
      hide Valid, Entries, Nth, Put, Kept;
      cloned := new OrderedMap();
      HeadIs();
      var current := head;
      ghost var i := 0;
      while current != null
        invariant Valid() && cloned.Valid() && fresh(cloned) && fresh(Nodes(cloned.spine))
        invariant 0 <= i <= |spine| && current == Nth(spine, i)
        invariant Entries(cloned.spine) == Entries(spine)[..i]
        decreases |spine| - i
      {
        NthIs(spine, i);
        PutNext(i);
        var _, _ := cloned.Set(current.key, current.value);
        ElementIs(i);
        current := current.next;
        i := i + 1;
      }
      NthIs(spine, i);
      assert Entries(spine)[..i] == Entries(spine);
    }

    lemma PutNext(i: nat)
      requires Valid() && i < |spine|
      ensures Put(Entries(spine)[..i], spine[i].key, spine[i].value) == Entries(spine)[..i + 1]
    {
      hide Strung, Indexed, Ranked, Apart, AllLeadOn;
      var es := Entries(spine);
      assert forall j :: 0 <= j < i ==> es[j].key != spine[i].key;
      TakeMore(es, i);
    }

    lemma HeadIs()
      requires Valid()
      ensures head == Nth(spine, 0)
    {
    }

    lemma ElementIs(k: nat)
      requires Valid() && k < |spine|
      ensures spine[k].next == Nth(spine, k + 1)
      ensures spine[k].key in dictionary && dictionary[spine[k].key] == spine[k]
    {
      NextIs(k);
    }

    lemma Start()
      requires Valid()
      ensures Trail(spine, created, retired, created, [], head)
      ensures forall x :: x in spine ==> x.rank < created
    {
      NthIs(spine, 0);
    }

    /** From an element on the trail, the list leads on to one further ahead. */
    lemma GoOn(c0: nat, nodes: seq<ListElement>, current: ListElement)
      requires Valid() && Trail(spine, created, retired, c0, nodes, current)
      ensures Trail(spine, created, retired, c0, nodes + [current], current.next)
      ensures current.next != null ==> current.rank < current.next.rank
    {
      hide Indexed, DistinctKeys, Chain, Strung, Ranked, Apart, AllLeadOn, LeadsOn, Trail, OnTrail;
      if current in spine {
        var k :| 0 <= k < |spine| && spine[k] == current;
        NextIs(k);
        Successor(spine, created, retired, k, current.next);
      } else {
        assert current in retired && c0 <= retired[current] by {
          OffList(spine, created, retired, c0, nodes, current);
        }
        assert LeadsOn(spine, retired, current) by {
          AnyLeadsOn(spine, retired, current);
        }
        FromRetired(spine, created, retired, c0, current);
      }
      Further(spine, created, retired, c0, nodes, current, current.next);
    }

    lemma NextIs(k: nat)
      requires Strung() && k < |spine|
      ensures spine[k].next == Nth(spine, k + 1)
    {
    }
  }

  lemma DropAt(s: seq<ListElement>, k: nat)
    requires k < |s| && DistinctKeys(s)
    ensures Drop(Entries(s), s[k].key) == Entries(Without(s, k)) && Find(Entries(s), s[k].key) == k
  {
    assert Find(Entries(s), s[k].key) == k;
  }

  lemma NotThere(s: seq<ListElement>, dictionary: map<Key, ListElement>, key: Key)
    requires Indexed(s, dictionary) && key !in dictionary
    ensures Drop(Entries(s), key) == Entries(s)
  {
  }

  lemma KeptWithout(s: seq<ListElement>, k: nat, created: nat, retired: map<ListElement, nat>)
    requires k < |s| && Ranked(s, created, retired)
    ensures Kept(s, created, retired, Without(s, k), created, retired[s[k] := created])
    ensures Nodes(Without(s, k)) <= Nodes(s)
    ensures DistinctKeys(s) ==> forall x :: x in s ==> (x in Without(s, k) <==> x.key != s[k].key)
  {
    forall x | x in s && x != s[k] ensures x in Without(s, k) {
      var j :| 0 <= j < |s| && s[j] == x;
      assert Without(s, k)[if j < k then j else j - 1] == x;
    }
  }

  lemma KeptSame(s: seq<ListElement>, created: nat, retired: map<ListElement, nat>)
    ensures Kept(s, created, retired, s, created, retired)
  {
  }

  /** What happens to elements: they come in at the end, and once deleted stay out. */
  ghost predicate Kept(s: seq<ListElement>, created: nat, retired: map<ListElement, nat>,
                       s': seq<ListElement>, created': nat, retired': map<ListElement, nat>)
  {
    && created <= created'
    && (forall x :: x in s' ==> x in s || created <= x.rank)
    && (forall x :: x in s ==> x in s' || (x in retired' && created <= retired'[x]))
    && (forall x :: x in retired ==> x in retired' && retired'[x] == retired[x])
  }

  // ----- traversal while the map changes ------------------------------------------------------

  datatype Op = SetOp(key: Key, value: Value) | DeleteOp(key: Key)

  /** What happens during one call of the consumer, and whether it returns true. */
  datatype Turn = Turn(ops: seq<Op>, goOn: bool)

  /** What becomes of an entry with this key and value under the operations: its value, and
      whether it is still in the map. Once it is deleted a new one may take its key. */
  function Track(ops: seq<Op>, key: Key, value: Value): (Value, bool)
  {
    if ops == [] then (value, true) else
      var (x, there) := Track(ops[..|ops| - 1], key, value);
      match ops[|ops| - 1]
      case SetOp(k, y) => (if there && k == key then y else x, there)
      case DeleteOp(k) => (x, there && k != key)
  }

  lemma TrackNothing()
    ensures forall key, value :: Track([], key, value) == (value, true)
  {
  }

  lemma TrackStep(ops: seq<Op>, i: nat)
    requires i < |ops|
    ensures forall key, value ::
      var (x, there) := Track(ops[..i], key, value);
      Track(ops[..i + 1], key, value) ==
        match ops[i]
        case SetOp(k, y) => (if there && k == key then y else x, there)
        case DeleteOp(k) => (x, there && k != key)
  {
    assert ops[..i + 1][..i] == ops[..i];
  }

  lemma TrackAll(a: seq<Op>, b: seq<Op>)
    ensures forall key, value ::
      Track(a + b, key, value) == if Track(a, key, value).1 then Track(b, key, Track(a, key, value).0) else Track(a, key, value)
  {
    forall key, value
      ensures Track(a + b, key, value) ==
        if Track(a, key, value).1 then Track(b, key, Track(a, key, value).0) else Track(a, key, value)
    {
      TrackAppend(a, b, key, value);
    }
  }

  lemma {:induction false} TrackAppend(a: seq<Op>, b: seq<Op>, key: Key, value: Value)
    ensures Track(a + b, key, value) ==
      if Track(a, key, value).1 then Track(b, key, Track(a, key, value).0) else Track(a, key, value)
    decreases b
  {
    if b == [] {
      assert a + b == a;
    } else {
      var n := |b| - 1;
      assert (a + b)[..|a + b| - 1] == a + b[..n];
      TrackAppend(a, b[..n], key, value);
    }
  }

  /** All that happens before visit i. */
  function OpsBefore(script: seq<Turn>, i: nat): seq<Op>
  {
    if i == 0 then [] else
      OpsBefore(script, i - 1) + if i - 1 < |script| then script[i - 1].ops else []
  }

  lemma NoOpsBefore(script: seq<Turn>)
    ensures OpsBefore(script, 0) == []
  {
  }

  lemma MoreOpsBefore(script: seq<Turn>, i: nat)
    ensures OpsBefore(script, i + 1) == if i < |script| then OpsBefore(script, i) + script[i].ops else OpsBefore(script, i)
  {
  }

  lemma NothingVisited()
    ensures Visited([], [])
  {
  }

  /** An element that is not in the map does not come back. */
  lemma OutStaysOut(s: seq<ListElement>, c: nat, r: map<ListElement, nat>,
                    s': seq<ListElement>, c': nat, r': map<ListElement, nat>)
    requires Kept(s, c, r, s', c', r')
    ensures c <= c' && forall x :: x in s' && x.rank < c ==> x in s
  {
  }

  lemma KeptTransitive(s0: seq<ListElement>, c0: nat, r0: map<ListElement, nat>, s: seq<ListElement>, c: nat,
                       r: map<ListElement, nat>,
                       s': seq<ListElement>, c': nat, r': map<ListElement, nat>)
    requires Kept(s0, c0, r0, s, c, r) && Kept(s, c, r, s', c', r')
    ensures Kept(s0, c0, r0, s', c', r')
  {
  }

  /** The elements visited, each later than the one before in the order of insertion. */
  ghost predicate Visited(visited: seq<Entry>, nodes: seq<ListElement>)
  {
    && |visited| == |nodes| && (forall i :: 0 <= i < |nodes| ==> visited[i].key == nodes[i].key)
    && (forall i, j :: 0 <= i < j < |nodes| ==> nodes[i].rank < nodes[j].rank)
  }

  /** In the map, or deleted no earlier than when c0 elements had been created. */
  ghost predicate OnTrail(s: seq<ListElement>, retired: map<ListElement, nat>, c0: nat, x: ListElement)
  {
    x in s || (x in retired && c0 <= retired[x])
  }

  /** A traversal that has visited nodes and comes to current next, begun when c0 elements had
      been created: it has visited or has yet to come to whatever has been in the map since. */
  ghost predicate Trail(s: seq<ListElement>, created: nat, retired: map<ListElement, nat>, c0: nat,
                        nodes: seq<ListElement>, current: ListElement?)
  {
    && c0 <= created
    && (forall x :: x in nodes ==> OnTrail(s, retired, c0, x))
    && (current != null ==> OnTrail(s, retired, c0, current) && current.rank < created)
    && (forall x :: x in nodes && current != null ==> x.rank < current.rank)
    && (forall y :: y in s && y.rank < c0 ==> y in nodes || (current != null && current.rank <= y.rank))
  }

  lemma Visit(s: seq<ListElement>, created: nat, retired: map<ListElement, nat>, c0: nat, visited: seq<Entry>,
              nodes: seq<ListElement>, current: ListElement)
    requires Visited(visited, nodes) && Trail(s, created, retired, c0, nodes, current)
    ensures forall e: Entry :: e.key == current.key ==> Visited(visited + [e], nodes + [current])
    ensures current.rank < created
  {
    assert forall i :: 0 <= i < |nodes| ==> nodes[i].rank < current.rank;
  }

  lemma Reached(s: seq<ListElement>, created: nat, retired: map<ListElement, nat>, c0: nat, nodes: seq<ListElement>,
                current: ListElement?)
    requires Trail(s, created, retired, c0, nodes, current)
    ensures forall x :: x in nodes ==> OnTrail(s, retired, c0, x)
    ensures current == null ==> forall y :: y in s && y.rank < c0 ==> y in nodes
  {
  }

  /** What makes n a fit successor of x in a traversal begun at c0. */
  ghost predicate Follows(s: seq<ListElement>, created: nat, retired: map<ListElement, nat>, c0: nat, x: ListElement,
                          n: ListElement?)
  {
    && (n != null ==> x.rank < n.rank < created && OnTrail(s, retired, c0, n))
    && (forall y :: y in s && y.rank < c0 && x.rank <= y.rank ==> y == x || (n != null && n.rank <= y.rank))
  }

  lemma Successor(s: seq<ListElement>, created: nat, retired: map<ListElement, nat>, k: nat, n: ListElement?)
    requires k < |s| && n == Nth(s, k + 1) && Ranked(s, created, retired)
    ensures forall c0 :: Follows(s, created, retired, c0, s[k], n)
  {
    forall y | y in s && s[k].rank <= y.rank ensures y == s[k] || (n != null && n.rank <= y.rank) {
      var j :| 0 <= j < |s| && s[j] == y;
    }
  }

  lemma OffList(s: seq<ListElement>, created: nat, retired: map<ListElement, nat>, c0: nat, nodes: seq<ListElement>,
                current: ListElement)
    requires Trail(s, created, retired, c0, nodes, current) && current !in s
    ensures current in retired && c0 <= retired[current]
  {
  }

  lemma AnyLeadsOn(s: seq<ListElement>, retired: map<ListElement, nat>, d: ListElement)
    requires AllLeadOn(s, retired) && d in retired
    ensures LeadsOn(s, retired, d)
  {
  }

  lemma FromRetired(s: seq<ListElement>, created: nat, retired: map<ListElement, nat>, c0: nat, d: ListElement)
    requires d in retired && c0 <= retired[d] && LeadsOn(s, retired, d) && Ranked(s, created, retired) && Apart(s, retired)
    ensures Follows(s, created, retired, c0, d, d.next)
  {
    forall y | y in s && y.rank < c0 && d.rank <= y.rank ensures d.next != null && d.next.rank <= y.rank {
      var j :| 0 <= j < |s| && s[j] == y;
    }
  }

  lemma Further(s: seq<ListElement>, created: nat, retired: map<ListElement, nat>, c0: nat, nodes: seq<ListElement>,
                x: ListElement, n: ListElement?)
    requires Trail(s, created, retired, c0, nodes, x) && Follows(s, created, retired, c0, x, n)
    ensures Trail(s, created, retired, c0, nodes + [x], n)
    ensures n != null ==> x.rank < n.rank
  {
  }

  lemma StillOnTrail(s: seq<ListElement>, c: nat, r: map<ListElement, nat>, s': seq<ListElement>, c': nat,
                     r': map<ListElement, nat>,
                     c0: nat, nodes: seq<ListElement>, current: ListElement)
    requires Kept(s, c, r, s', c', r') && Trail(s, c, r, c0, nodes, current)
    ensures Trail(s', c', r', c0, nodes, current)
  {
  }

  lemma TakeMore(es: seq<Entry>, i: nat)
    requires i < |es|
    ensures es[..i + 1] == es[..i] + [es[i]]
  {
  }

  ghost function Unexpired(s: seq<ListElement>, expired: set<Key>): seq<ListElement>
  {
    if s == [] then [] else
      var rest := Unexpired(s[..|s| - 1], expired);
      if s[|s| - 1].key in expired then rest else rest + [s[|s| - 1]]
  }

  /** Of the elements s with the entries es, the first i have been visited. */
  ghost predicate Underway(s: seq<ListElement>, es: seq<Entry>, expired: set<Key>, i: nat, left: seq<ListElement>,
                           visited: seq<Entry>)
  {
    i <= |s| == |es| && left == Unexpired(s[..i], expired) + s[i..] && visited == es[..i]
  }

  lemma UnderwayStart(s: seq<ListElement>, es: seq<Entry>, expired: set<Key>)
    requires |s| == |es|
    ensures Underway(s, es, expired, 0, s, [])
  {
  }

  lemma UnderwayStep(s: seq<ListElement>, es: seq<Entry>, expired: set<Key>, i: nat, left: seq<ListElement>,
                     visited: seq<Entry>)
    requires Underway(s, es, expired, i, left, visited) && i < |s|
    ensures left == Unexpired(s[..i], expired) + s[i..]
    ensures var left' := Unexpired(s[..i], expired) + (if s[i].key in expired then [] else [s[i]]) + s[i + 1..];
            Underway(s, es, expired, i + 1, left', visited + [es[i]])
  {
    assert s[..i + 1][..i] == s[..i];
    TakeMore(es, i);
  }

  lemma UnderwayEnd(s: seq<ListElement>, es: seq<Entry>, expired: set<Key>, left: seq<ListElement>, visited: seq<Entry>)
    requires Underway(s, es, expired, |s|, left, visited)
    ensures left == Unexpired(s, expired) && visited == es
  {
    assert s[..|s|] == s && es[..|s|] == es;
  }

  lemma Rest(u: seq<ListElement>, s: seq<ListElement>, i: nat)
    requires i < |s|
    ensures var r := u + s[i..];
            && |u| < |r| && r[|u|] == s[i] && Nth(r, |u| + 1) == Nth(s, i + 1)
            && Without(r, |u|) == u + s[i + 1..] && r == u + [s[i]] + s[i + 1..]
  {
  }

  lemma NthIs(s: seq<ListElement>, i: int)
    ensures Nth(s, i) == null <==> !(0 <= i < |s|)
    ensures 0 <= i < |s| ==> Nth(s, i) == s[i]
  {
  }

  lemma Distinct(s: seq<ListElement>)
    requires DistinctKeys(s)
    ensures forall i, j :: 0 <= i < |s| && 0 <= j < |s| && i != j ==> s[i] != s[j]
  {
  }

  lemma NthWithout(s: seq<ListElement>, k: nat, i: int)
    requires k < |s|
    ensures Nth(Without(s, k), i) == Nth(s, if i < k then i else i + 1)
  {
  }

  /** A list that leads past one element is the list without it. */
  lemma Bypassed(s: seq<ListElement>, k: nat)
    requires k < |s|
    requires forall i {:trigger s[i].next} :: 0 <= i < |s| ==> s[i].next == Nth(s, if i == k - 1 then k + 1 else i + 1)
    requires forall i {:trigger s[i].prev} :: 0 <= i < |s| ==> s[i].prev == Nth(s, if i == k + 1 then k - 1 else i - 1)
    ensures Chain(Without(s, k))
    ensures Nth(Without(s, k), 0) == Nth(s, if k == 0 then 1 else 0)
    ensures Nth(Without(s, k), |s| - 2) == Nth(s, if k == |s| - 1 then |s| - 2 else |s| - 1)
  {
    hide Without, Nth;
    var r := Without(s, k);
    WithoutLength(s, k);
    forall i | 0 <= i < |r| ensures r[i].next == Nth(r, i + 1) && r[i].prev == Nth(r, i - 1) {
      WithoutAt(s, k, i);
      NthWithout(s, k, i + 1);
      NthWithout(s, k, i - 1);
    }
    NthWithout(s, k, 0);
    NthWithout(s, k, |s| - 2);
  }

  lemma WithoutLength(s: seq<ListElement>, k: nat)
    requires k < |s|
    ensures |Without(s, k)| == |s| - 1
  {
  }

  lemma WithoutAt(s: seq<ListElement>, k: nat, i: nat)
    requires k < |s| && i < |Without(s, k)|
    ensures |Without(s, k)| == |s| - 1 && Without(s, k)[i] == s[if i < k then i else i + 1]
  {
  }
}
