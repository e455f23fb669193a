/** A priority queue whose elements can be removed through a handle: container/heap over a
    slice of elements that know their position. */
module PriorityQueue {

  type Value = string

  /** HeapElement. Priorities are integers: all that is used of them is a total order. */
  class Handle {
    const key: int
    const value: Value
    var index: int

    constructor (key: int, value: Value)
      ensures this.key == key && this.value == value
    {
      this.key, this.value, index := key, value, 0;
    }
  }

  // ----- heap order ----------------------------------------------------------------------

  function Parent(c: int): (p: int)
    requires c >= 0
    ensures 0 <= p && (c > 0 ==> p < c)
  {
    if c == 0 then 0 else (c - 1) / 2
  }

  /** The first n elements are in heap order. */
  ghost predicate Ordered(h: seq<Handle>, n: int)
    requires n <= |h|
  {
    forall c :: 0 < c < n ==> h[Parent(c)].key <= h[c].key
  }

  /** In heap order if the element at k is left out and its children are attached to its parent. */
  ghost predicate OrderedBut(h: seq<Handle>, n: int, k: int)
    requires 0 <= k < n <= |h|
  {
    && (forall c :: 0 < c < n && c != k && Parent(c) != k ==> h[Parent(c)].key <= h[c].key)
    && (forall c :: 0 < c < n && 0 < k && Parent(c) == k ==> h[Parent(k)].key <= h[c].key)
  }

  ghost predicate UpOk(h: seq<Handle>, k: int)
    requires 0 <= k < |h|
  {
    k == 0 || h[Parent(k)].key <= h[k].key
  }

  ghost predicate DownOk(h: seq<Handle>, n: int, k: int)
    requires 0 <= k < n <= |h|
  {
    forall c :: 0 < c < n && Parent(c) == k ==> h[k].key <= h[c].key
  }

  function Swapped(h: seq<Handle>, i: int, j: int): (r: seq<Handle>)
    requires 0 <= i < |h| && 0 <= j < |h|
    ensures |r| == |h|
  {
    h[i := h[j]][j := h[i]]
  }

  lemma UpStep(h: seq<Handle>, n: int, j: int)
    requires 0 < j < n <= |h| && OrderedBut(h, n, j) && DownOk(h, n, j) && !UpOk(h, j)
    ensures var r := Swapped(h, Parent(j), j); OrderedBut(r, n, Parent(j)) && DownOk(r, n, Parent(j))
  {
  }

  /** i's smaller child moves up. */
  lemma DownStep(h: seq<Handle>, n: int, i: int, j: int)
    requires 0 <= i < j < n <= |h| && Parent(j) == i && OrderedBut(h, n, i) && h[j].key < h[i].key
    requires forall c :: 0 < c < n && Parent(c) == i ==> h[j].key <= h[c].key
    ensures var r := Swapped(h, i, j); OrderedBut(r, n, j) && UpOk(r, j)
  {
  }

  lemma AllOk(h: seq<Handle>, n: int, k: int)
    requires 0 <= k < n <= |h| && OrderedBut(h, n, k) && UpOk(h, k) && DownOk(h, n, k)
    ensures Ordered(h, n)
  {
  }

  /** Replacing one element of a heap leaves the rest in order. */
  lemma Replaced(h: seq<Handle>, r: seq<Handle>, n: int, k: int)
    requires 0 <= k < n <= |h| == |r| && Ordered(h, n)
    requires forall i :: 0 <= i < n && i != k ==> r[i] == h[i]
    ensures OrderedBut(r, n, k)
  {
    forall c | 0 < c < n && 0 < k && Parent(c) == k ensures r[Parent(k)].key <= r[c].key {
      assert h[Parent(k)].key <= h[k].key <= h[c].key;
    }
  }

  lemma {:induction false} RootIsLeast(h: seq<Handle>, n: int, i: int)
    requires 0 <= i < n <= |h| && Ordered(h, n)
    ensures h[0].key <= h[i].key
  {
    if i > 0 {
      RootIsLeast(h, n, Parent(i));
    }
  }

  ghost function Members(h: seq<Handle>): set<Handle> { set x | x in h }

  lemma SwappedMembers(h: seq<Handle>, i: int, j: int)
    requires 0 <= i < |h| && 0 <= j < |h|
    ensures Members(Swapped(h, i, j)) == Members(h)
  {
    var r := Swapped(h, i, j);
    forall x | x in h ensures x in r {
      var k :| 0 <= k < |h| && h[k] == x;
      assert r[if k == i then j else if k == j then i else k] == x;
    }
  }

  ghost predicate Linked(h: seq<Handle>)
    reads h
  {
    forall i :: 0 <= i < |h| ==> h[i].index == i
  }

  // ----- the queue --------------------------------------------------------------------------

  class PriorityQueue {
    var heap: seq<Handle>
    ghost var pushed: set<Handle>    // every handle that was ever pushed

    ghost predicate Valid()
      reads this, heap, pushed
    {
      && Linked(heap) && Ordered(heap, |heap|) && Members(heap) <= pushed
      && (forall x :: x in pushed && x !in heap ==> x.index == -1)
    }

    constructor ()
      ensures Valid() && heap == [] && pushed == {}
    {
      heap, pushed := [], {};
    }

    /** Heap.Swap */
    method Swap(i: int, j: int)
      requires 0 <= i < |heap| && 0 <= j < |heap| && Linked(heap)
      modifies this`heap, Members(heap)`index
      ensures heap == Swapped(old(heap), i, j) && Linked(heap) && Members(heap) == Members(old(heap))
    {
      SwappedMembers(heap, i, j);
      heap := heap[i := heap[j]][j := heap[i]];
      heap[i].index, heap[j].index := i, j;
    }

    /** heap.up, from a place among the first n elements. */
    method Up(start: int, ghost n: int)
      requires 0 <= start < n <= |heap| && Linked(heap) && OrderedBut(heap, n, start) && DownOk(heap, n, start)
      modifies this`heap, Members(heap)`index
      ensures Linked(heap) && |heap| == |old(heap)| && Members(heap) == Members(old(heap))
      ensures Ordered(heap, n) && heap[n..] == old(heap)[n..]
    {
      hide OrderedBut, DownOk, Linked;
      var j := start;
      while true
        invariant 0 <= j < n <= |heap| == |old(heap)| && Linked(heap) && OrderedBut(heap, n, j) && DownOk(heap, n, j)
        invariant Members(heap) == Members(old(heap)) && heap[n..] == old(heap)[n..]
        decreases j
      {
        var i := Parent(j);
        if i == j || !(heap[j].key < heap[i].key) {
          break;
        }
        UpStep(heap, n, j);
        Swap(i, j);
        j := i;
      }
      AllOk(heap, n, j);
    }

    /** heap.down on the first n elements. */
    method Down(start: int, n: int) returns (moved: bool)
      requires 0 <= start < n <= |heap| && Linked(heap) && OrderedBut(heap, n, start)
      modifies this`heap, Members(heap)`index
      ensures Linked(heap) && |heap| == |old(heap)| && Members(heap) == Members(old(heap))
      ensures heap[n..] == old(heap)[n..]
      ensures if moved then Ordered(heap, n)
              else heap == old(heap) && DownOk(heap, n, start)
    {
      hide OrderedBut, Linked, UpOk;
      var i := start;
      while true
        invariant start <= i < n <= |heap| == |old(heap)| && Linked(heap) && OrderedBut(heap, n, i)
        invariant Members(heap) == Members(old(heap)) && heap[n..] == old(heap)[n..]
        invariant if i == start then heap == old(heap) else UpOk(heap, i)
        decreases n - i
      {
        var j1 := 2 * i + 1;
        if j1 >= n {
          break;
        }
        var j := j1;
        var j2 := j1 + 1;
        if j2 < n && heap[j2].key < heap[j1].key {
          j := j2;
        }
        if !(heap[j].key < heap[i].key) {
          break;
        }
        DownStep(heap, n, i, j);
        Swap(i, j);
        i := j;
      }
      if i > start {
        AllOk(heap, n, i);
      }
      moved := i > start;
    }

    /** Heap.Pop: takes the last element off the slice. */
    method TakeLast() returns (x: Handle)
      requires heap != [] && Linked(heap)
      modifies this`heap, Members(heap)`index
      ensures heap == old(heap)[..|old(heap)| - 1] && x == old(heap)[|old(heap)| - 1] && x.index == -1 && Linked(heap)
      ensures x !in heap && Members(old(heap)) == Members(heap) + {x}
    {
      var n := |heap|;
      x := heap[n - 1];
      heap := heap[..n - 1];
      x.index := -1;
      assert old(heap) == heap + [x];
    }

    /** heap.Remove; heap.Pop is the case of index 0, where moving up never applies. */
    method RemoveAt(i: int) returns (x: Handle)
      requires 0 <= i < |heap| && Linked(heap) && Ordered(heap, |heap|)
      modifies this`heap, Members(heap)`index
      ensures x == old(heap)[i] && x.index == -1 && x !in heap && Members(old(heap)) == Members(heap) + {x}
      ensures Linked(heap) && Ordered(heap, |heap|)
    {
      hide OrderedBut, DownOk, Linked;
      var n := |heap| - 1;
      if n != i {
        Swap(i, n);
        Replaced(old(heap), heap, n, i);
        var moved := Down(i, n);
        if !moved {
          Up(i, n);
        }
        assert heap[n] == heap[n..][0] == old(heap)[i];
      }
      x := TakeLast();
    }

    /** Push. The handle stands for the remove function that is returned. */
    method Push(value: Value, priority: int) returns (handle: Handle)
      requires Valid()
      modifies this, Members(heap)`index
      ensures Valid() && fresh(handle) && handle.key == priority && handle.value == value
      ensures Members(heap) == Members(old(heap)) + {handle} && pushed == old(pushed) + {handle}
    {
      handle := new Handle(priority, value);
      heap := heap + [handle];
      handle.index := |heap| - 1;
      pushed := pushed + {handle};
      assert Members(heap) == Members(old(heap)) + {handle};
      Up(|heap| - 1, |heap|);
    }

    /** The function that Push returns: it takes out its own element, once. */
    method Remove(handle: Handle)
      requires Valid() && handle in pushed
      modifies this`heap, Members(heap)`index
      ensures Valid() && handle.index == -1 && Members(heap) == Members(old(heap)) - {handle}
      ensures handle !in old(heap) ==> heap == old(heap)
    {
      if handle.index != -1 {
        var x := RemoveAt(handle.index);
      }
    }

    /** Peek */
    method Peek() returns (value: Value, exists_: bool)
      requires Valid()
      ensures exists_ == (heap != [])
      ensures exists_ ==> exists x :: x in heap && x.value == value && forall y :: y in heap ==> x.key <= y.key
    {
      exists_ := |heap| != 0;
      value := "";
      if exists_ {
        value := heap[0].value;
        RootLeast(heap);
        assert heap[0] in heap;
      }
    }

    /** Pop; the handle that is taken out is returned beside its value. */
    method Pop() returns (value: Value, exists_: bool, ghost x: Handle?)
      requires Valid()
      modifies this`heap, Members(heap)`index
      ensures Valid() && exists_ == (old(heap) != []) == (x != null)
      ensures if x == null then heap == old(heap) else
                x in old(heap) && value == x.value && x.index == -1 && Members(heap) == Members(old(heap)) - {x}
      ensures x != null ==> forall y :: y in old(heap) ==> x.key <= y.key
    {
      value, exists_, x := "", false, null;
      if |heap| != 0 {
        RootLeast(heap);
        var h := RemoveAt(0);
        value, exists_, x := h.value, true, h;
      }
    }

    /** PopUntil: exactly the elements of at most the given priority, in order. */
    method PopUntil(priority: int) returns (values: seq<Value>, ghost out: seq<Handle>)
      requires Valid()
      modifies this`heap, Members(heap)`index
      ensures Valid() && values == Values(out) && Drained(old(heap), out, heap)
      ensures forall x :: x in old(heap) ==> (x in out <==> x.key <= priority)
    {
      values, out := [], [];
      while |heap| != 0 && heap[0].key <= priority
        invariant Valid() && values == Values(out) && Drained(old(heap), out, heap)
        invariant forall x :: x in out ==> x.key <= priority
        decreases Members(heap)
      {
        RootLeast(heap);
        ghost var before := heap;
        var x := RemoveAt(0);
        DrainOne(old(heap), out, before, x, heap);
        values, out := values + [x.value], out + [x];
      }
      if heap != [] {
        RootLeast(heap);
      }
    }

    /** PopAll: all elements, in order. */
    method PopAll() returns (values: seq<Value>, ghost out: seq<Handle>)
      requires Valid()
      modifies this`heap, Members(heap)`index
      ensures Valid() && heap == [] && values == Values(out) && Drained(old(heap), out, [])
    {
      values, out := [], [];
      while |heap| != 0
        invariant Valid() && values == Values(out) && Drained(old(heap), out, heap)
        decreases Members(heap)
      {
        RootLeast(heap);
        ghost var before := heap;
        var x := RemoveAt(0);
        DrainOne(old(heap), out, before, x, heap);
        values, out := values + [x.value], out + [x];
      }
    }
  }

  ghost function Values(out: seq<Handle>): (r: seq<Value>)
    ensures |r| == |out| && forall i :: 0 <= i < |out| ==> r[i] == out[i].value
  {
    seq(|out|, i requires 0 <= i < |out| => out[i].value)
  }

  /** The elements of before are parted into the ones taken out, each once and in
      non-decreasing order, and the ones left, none of which comes before one taken out. */
  ghost predicate Drained(before: seq<Handle>, out: seq<Handle>, left: seq<Handle>)
  {
    && Members(before) == Members(out) + Members(left) && Members(out) !! Members(left)
    && (forall i, j :: 0 <= i < j < |out| ==> out[i] != out[j])
    && (forall i, j :: 0 <= i < j < |out| ==> out[i].key <= out[j].key)
    && (forall x, y :: x in out && y in left ==> x.key <= y.key)
  }

  lemma DrainOne(before: seq<Handle>, out: seq<Handle>, left: seq<Handle>, x: Handle, left': seq<Handle>)
    requires Drained(before, out, left) && x in left && x !in left' && Members(left) == Members(left') + {x}
    requires forall y :: y in left ==> x.key <= y.key
    ensures Drained(before, out + [x], left')
  {
    assert Members(out + [x]) == Members(out) + {x};
    assert x in Members(left);
    forall y | y in left' ensures y in left {
      assert y in Members(left');
      assert y in Members(left);
    }
  }

  lemma RootLeast(h: seq<Handle>)
    requires h != [] && Ordered(h, |h|)
    ensures forall y :: y in h ==> h[0].key <= y.key
  {
    forall i | 0 <= i < |h| ensures h[0].key <= h[i].key {
      RootIsLeast(h, |h|, i);
    }
  }
}