/** A set that keeps its elements sorted by weights that change over time. */
module SortedSet {

  type Element = string    // only equality and the tie-breaking order matter

  /** What an element's variable holds before it is set. */
  const Zero: Element := ""

  // ----- the order ----------------------------------------------------------------------

  datatype Item = Item(element: Element, weight: int)

  /** The Less method of the elements; constantly false if they have none. */
  type Tie = (Element, Element) -> bool

  ghost predicate StrictWeak(tie: Tie)
  {
    && (forall a, b :: tie(a, b) ==> !tie(b, a))
    && (forall a, b, c :: tie(a, c) ==> tie(a, b) || tie(b, c))
  }

  /** What makes swap exchange a left and a right neighbour. */
  predicate Below(tie: Tie, a: Item, b: Item)
  {
    a.weight < b.weight || (a.weight == b.weight && tie(a.element, b.element))
  }

  lemma BelowOrder(tie: Tie, a: Item, b: Item, c: Item)
    requires StrictWeak(tie)
    ensures Below(tie, a, b) ==> !Below(tie, b, a)
    ensures !Below(tie, a, b) && !Below(tie, b, c) ==> !Below(tie, a, c)
  {
  }

  ghost predicate Descending(tie: Tie, s: seq<Item>)
  {
    forall i, j :: 0 <= i < j < |s| ==> !Below(tie, s[i], s[j])
  }

  /** Descending, if the item at k is left out. */
  ghost predicate DescendingBut(tie: Tie, s: seq<Item>, k: int)
  {
    forall i, j :: 0 <= i < j < |s| && i != k && j != k ==> !Below(tie, s[i], s[j])
  }

  function SwapAt(s: seq<Item>, i: nat): (r: seq<Item>)
    requires i + 1 < |s|
    ensures |r| == |s|
  {
    s[i := s[i + 1]][i + 1 := s[i]]
  }

  function Removed<T>(s: seq<T>, k: nat): seq<T>
    requires k < |s|
  {
    s[..k] + s[k + 1..]
  }

  /** The item at k came from a place further right, past lighter ones only; nothing else
      has moved since s0. */
  ghost predicate MovedLeft(tie: Tie, s0: seq<Item>, s: seq<Item>, k: int, from: int)
  {
    && 0 <= k <= from < |s| == |s0| && s[k] == s0[from]
    && (forall j :: k < j <= from ==> Below(tie, s[j], s[k]))
    && (forall i :: 0 <= i < k || from < i < |s| ==> s[i] == s0[i])
  }

  ghost predicate MovedRight(tie: Tie, s0: seq<Item>, s: seq<Item>, k: int, from: int)
  {
    && 0 <= from <= k < |s| == |s0| && s[k] == s0[from]
    && (forall j :: from <= j < k ==> Below(tie, s[k], s[j]))
    && (forall i :: 0 <= i < from || k < i < |s| ==> s[i] == s0[i])
  }

  lemma LeftStep(tie: Tie, s0: seq<Item>, s: seq<Item>, k: nat, from: int)
    requires DescendingBut(tie, s, k) && MovedLeft(tie, s0, s, k, from) && k > 0 && Below(tie, s[k - 1], s[k])
    ensures DescendingBut(tie, SwapAt(s, k - 1), k - 1) && MovedLeft(tie, s0, SwapAt(s, k - 1), k - 1, from)
  {
  }

  lemma RightStep(tie: Tie, s0: seq<Item>, s: seq<Item>, k: nat, from: int)
    requires DescendingBut(tie, s, k) && MovedRight(tie, s0, s, k, from) && k + 1 < |s| && Below(tie, s[k], s[k + 1])
    ensures DescendingBut(tie, SwapAt(s, k), k + 1) && MovedRight(tie, s0, SwapAt(s, k), k + 1, from)
  {
  }

  /** In order with everything to its left. */
  ghost predicate LeftOk(tie: Tie, s: seq<Item>, k: int)
    requires k < |s|
  {
    forall i :: 0 <= i < k ==> !Below(tie, s[i], s[k])
  }

  lemma LeftDone(tie: Tie, s0: seq<Item>, s: seq<Item>, k: int, from: int)
    requires StrictWeak(tie) && DescendingBut(tie, s, k) && MovedLeft(tie, s0, s, k, from)
    requires k == 0 || !Below(tie, s[k - 1], s[k])
    ensures LeftOk(tie, s, k)
    ensures k < from ==> Descending(tie, s)
  {
    forall i | 0 <= i < k ensures !Below(tie, s[i], s[k]) {
      BelowOrder(tie, s[i], s[k - 1], s[k]);
    }
    if k < from {
      forall j | k < j < |s| ensures !Below(tie, s[k], s[j]) {
        if j <= from {
          BelowOrder(tie, s[j], s[k], s[k]);
        } else {
          BelowOrder(tie, s[from], s[k], s[k]);
          BelowOrder(tie, s[k], s[from], s[j]);
        }
      }
    }
  }

  lemma RightDone(tie: Tie, s0: seq<Item>, s: seq<Item>, k: int, from: int)
    requires StrictWeak(tie) && DescendingBut(tie, s, k) && MovedRight(tie, s0, s, k, from)
    requires k == |s| - 1 || !Below(tie, s[k], s[k + 1])
    requires LeftOk(tie, s0, from)
    ensures Descending(tie, s)
  {
    forall i | 0 <= i < k ensures !Below(tie, s[i], s[k]) {
      if i >= from {
        BelowOrder(tie, s[k], s[i], s[i]);
      }
    }
    forall j | k < j < |s| ensures !Below(tie, s[k], s[j]) {
      BelowOrder(tie, s[k], s[k + 1], s[j]);
    }
  }

  /** The first and the last element, or the zero value if there is none. */
  predicate Extremes(s: seq<Item>, heaviest: Element, lightest: Element)
  {
    if s == [] then heaviest == Zero && lightest == Zero
    else heaviest == s[0].element && lightest == s[|s| - 1].element
  }

  /** One item may have gone from one place to another; outside of that stretch nothing moved. */
  ghost predicate Settled(s0: seq<Item>, s: seq<Item>, from: int, to: int)
  {
    && 0 <= from < |s| == |s0| && 0 <= to < |s| && s[to] == s0[from]
    && (forall i :: (0 <= i < from && i < to) || (from < i && to < i < |s|) ==> s[i] == s0[i])
  }

  /** Enough of the extremes is known while one item is out of place. */
  ghost predicate ExtremesBut(s: seq<Item>, k: int, heaviest: Element, lightest: Element)
  {
    s != [] && (k == 0 || heaviest == s[0].element) && (k == |s| - 1 || lightest == s[|s| - 1].element)
  }

  lemma Refreshed(s0: seq<Item>, s: seq<Item>, from: int, to: int, h0: Element, l0: Element, h: Element, l: Element)
    requires Settled(s0, s, from, to) && ExtremesBut(s0, from, h0, l0)
    requires h == if (from != to && from == 0) || to == 0 then s[0].element else h0
    requires l == if (from != to && from == |s| - 1) || to == |s| - 1 then s[|s| - 1].element else l0
    ensures Extremes(s, h, l)
  {
  }

  lemma OneChanged(tie: Tie, s: seq<Item>, k: int, x: Item, heaviest: Element, lightest: Element)
    requires 0 <= k < |s| && DescendingBut(tie, s, k) && ExtremesBut(s, k, heaviest, lightest)
    ensures DescendingBut(tie, s[k := x], k) && ExtremesBut(s[k := x], k, heaviest, lightest)
  {
  }

  lemma OneAppended(tie: Tie, s: seq<Item>, x: Item, heaviest: Element, lightest: Element)
    requires Descending(tie, s) && Extremes(s, heaviest, lightest)
    ensures DescendingBut(tie, s + [x], |s|) && ExtremesBut(s + [x], |s|, heaviest, lightest)
  {
  }

  lemma OneRemoved(tie: Tie, s: seq<Item>, k: nat, h0: Element, l0: Element, h: Element, l: Element)
    requires k < |s| && Descending(tie, s) && Extremes(s, h0, l0)
    requires var r := Removed(s, k);
             && h == (if k == 0 then if r == [] then Zero else r[0].element else h0)
             && l == (if k == |r| then if r == [] then Zero else r[|r| - 1].element else l0)
    ensures Descending(tie, Removed(s, k)) && Extremes(Removed(s, k), h, l)
  {
  }

  /** Everything between k and i has moved one place to the left. */
  function Shifted<T>(s: seq<T>, k: nat, i: nat): seq<T>
    requires k <= i < |s|
  {
    s[..k] + s[k + 1..i + 1] + s[i..]
  }

  lemma ShiftStart<T>(s: seq<T>, k: nat)
    requires k < |s|
    ensures Shifted(s, k, k) == s
  {
  }

  lemma ShiftStep<T>(s: seq<T>, k: nat, i: nat)
    requires k <= i < |s| - 1
    ensures |Shifted(s, k, i)| == |s| && Shifted(s, k, i)[i + 1] == s[i + 1]
    ensures Shifted(s, k, i)[i := s[i + 1]] == Shifted(s, k, i + 1)
  {
  }

  lemma ShiftEnd<T>(s: seq<T>, k: nat)
    requires k < |s|
    ensures |Shifted(s, k, |s| - 1)| == |s| && Shifted(s, k, |s| - 1)[..|s| - 1] == Removed(s, k)
    ensures |Removed(s, k)| == |s| - 1
    ensures forall i :: 0 <= i < |s| - 1 ==> Removed(s, k)[i] == s[if i < k then i else i + 1]
  {
  }

  /** A listing of a weighted set: every element once, no lighter one before a heavier one. */
  ghost predicate Lists(tie: Tie, s: seq<Element>, weights: map<Element, int>)
  {
    && (forall e :: e in s <==> e in weights)
    && (forall i, j :: 0 <= i < j < |s| ==> s[i] != s[j])
    && (forall i, j :: 0 <= i < j < |s| ==> !Below(tie, Item(s[i], weights[s[i]]), Item(s[j], weights[s[j]])))
  }

  /** In a listing the weights go down; of two equal weights the left element is not the lesser one. */
  lemma HeavierFirst(tie: Tie, s: seq<Element>, weights: map<Element, int>, i: nat, j: nat)
    requires Lists(tie, s, weights) && i < j < |s|
    ensures s[i] in weights && s[j] in weights && weights[s[i]] >= weights[s[j]]
    ensures weights[s[i]] == weights[s[j]] ==> !tie(s[i], s[j])
  {
    assert s[i] in s && s[j] in s;
    assert !Below(tie, Item(s[i], weights[s[i]]), Item(s[j], weights[s[j]]));
  }

  // ----- the structure --------------------------------------------------------------------

  class Node {
    const element: Element
    var weight: int
    var index: int

    constructor (element: Element, index: int)
      ensures this.element == element && this.index == index && weight == 0
    {
      this.element := element;
      this.index := index;
      weight := 0;
    }
  }

  ghost function Items(nodes: seq<Node>): (v: seq<Item>)
    reads nodes
    ensures |v| == |nodes|
    ensures forall i :: 0 <= i < |nodes| ==> v[i] == Item(nodes[i].element, nodes[i].weight)
  {
    seq(|nodes|, i requires 0 <= i < |nodes| reads nodes => Item(nodes[i].element, nodes[i].weight))
  }

  class SortedSet {
    const tie: Tie
    var elements: map<Element, Node>
    var sorted: seq<Node>
    var heaviest: Element
    var lightest: Element

    /** The array's contents as values. */
    ghost function View(): (v: seq<Item>)
      reads this`sorted, sorted
      ensures |v| == |sorted|
    {
      Items(sorted)
    }

    /** The set with its weights, as a map. */
    ghost function Weights(): map<Element, int>
      reads this`elements, elements.Values`weight
    {
      map e | e in elements :: elements[e].weight
    }

    /** Every stored index is the node's position, and the dictionary leads to the same nodes. */
    ghost predicate Linked()
      reads this`sorted, this`elements, sorted, elements.Values
    {
      && (forall i :: 0 <= i < |sorted| ==> sorted[i].index == i)
      && (forall i :: 0 <= i < |sorted| ==> sorted[i].element in elements && elements[sorted[i].element] == sorted[i])
      && (forall e :: e in elements ==> elements[e].element == e && 0 <= elements[e].index < |sorted|)
      && (forall e :: e in elements ==> sorted[elements[e].index] == elements[e])
    }


    ghost predicate Valid()
      reads this, sorted, elements.Values
    {
      StrictWeak(tie) && Linked() && Descending(tie, View()) && Extremes(View(), heaviest, lightest)
    }

    constructor (tie: Tie)
      requires StrictWeak(tie)
      ensures Valid() && Weights() == map[] && this.tie == tie
    {
      this.tie := tie;
      elements, sorted, heaviest, lightest := map[], [], Zero, Zero;
    }

    /** swap: exchanges two neighbours if they are out of order. */
    method Swap(left: Node, right: Node) returns (swapped: bool)
      requires Linked() && left in sorted && right in sorted && right.index == left.index + 1
      modifies this`sorted, left`index, right`index
      ensures Linked()
      ensures swapped == old(Below(tie, View()[left.index], View()[right.index]))
      ensures View() == if swapped then old(SwapAt(View(), left.index)) else old(View())
      ensures swapped ==> left.index == old(right.index) && right.index == old(left.index)
      ensures !swapped ==> sorted == old(sorted) && left.index == old(left.index) && right.index == old(right.index)
    {
      swapped := left.weight < right.weight;
      if !swapped && left.weight == right.weight {
        swapped := tie(left.element, right.element);
      }
      if swapped {
        Exchange(left, right);
      }
    }

    method Exchange(left: Node, right: Node)
      requires Linked() && left in sorted && right in sorted && right.index == left.index + 1
      modifies this`sorted, left`index, right`index
      ensures Linked()
      ensures View() == old(SwapAt(View(), left.index))
      ensures left.index == old(right.index) && right.index == old(left.index)
    {
      hide Items;
      ghost var before, v := sorted, View();
      var i := left.index;
      sorted := sorted[left.index := right][right.index := left];
      left.index, right.index := right.index, left.index;
      assert forall j :: 0 <= j < |sorted| && j != i && j != i + 1 ==> sorted[j] == before[j] && before[j].index == j;
      assert View() == SwapAt(v, i);
    }

    /** Everything but the node is in order. */
    ghost predicate Unplaced(node: Node)
      reads this, sorted, elements.Values, node
    {
      StrictWeak(tie) && Linked() && node in sorted && DescendingBut(tie, View(), node.index)
    }

    /** The first loop of updatePosition: move left past everything that is lighter. */
    method MoveLeft(node: Node) returns (moved: bool)
      requires Unplaced(node)
      modifies this`sorted, elements.Values`index
      ensures Unplaced(node)
      ensures MovedLeft(tie, old(View()), View(), node.index, old(node.index)) && LeftOk(tie, View(), node.index)
      ensures moved == (node.index < old(node.index))
      ensures if moved then Descending(tie, View()) else View() == old(View())
    {
      hide DescendingBut, Below, StrictWeak, SwapAt, View, Descending;
      moved := false;
      ghost var s0, from := View(), node.index;
      while node.index != 0
        invariant Unplaced(node)
        invariant MovedLeft(tie, s0, View(), node.index, from)
        invariant moved == (node.index < from)
        invariant !moved ==> View() == s0
        decreases node.index
      {
        ghost var v, k := View(), node.index;
        var swapped := Swap(sorted[node.index - 1], node);
        if !swapped {
          break;
        }
        LeftStep(tie, s0, v, k, from);
        moved := true;
      }
      LeftDone(tie, s0, View(), node.index, from);
    }

    /** The second loop: move right past everything that is heavier. */
    method MoveRight(node: Node) returns (moved: bool)
      requires Unplaced(node) && LeftOk(tie, View(), node.index)
      modifies this`sorted, elements.Values`index
      ensures Unplaced(node)
      ensures MovedRight(tie, old(View()), View(), node.index, old(node.index))
      ensures moved == (old(node.index) < node.index)
      ensures Descending(tie, View())
    {
      hide DescendingBut, Below, StrictWeak, SwapAt, View, Descending, LeftOk;
      moved := false;
      ghost var s0, from := View(), node.index;
      while node.index != |sorted| - 1
        invariant Unplaced(node)
        invariant MovedRight(tie, s0, View(), node.index, from)
        invariant moved == (from < node.index)
        decreases |sorted| - node.index
      {
        ghost var v, k := View(), node.index;
        var swapped := Swap(node, sorted[node.index + 1]);
        if !swapped {
          break;
        }
        RightStep(tie, s0, v, k, from);
        moved := true;
      }
      RightDone(tie, s0, View(), node.index, from);
    }

    /** The two loops together. */
    method Place(node: Node) returns (moved: bool)
      requires Unplaced(node)
      modifies this`sorted, elements.Values`index
      ensures Linked() && Descending(tie, View())
      ensures 0 <= node.index < |sorted| && sorted[node.index] == node
      ensures Settled(old(View()), View(), old(node.index), node.index)
      ensures moved == (node.index != old(node.index))
    {
      hide DescendingBut, Below, StrictWeak, View, Descending, LeftOk;
      moved := MoveLeft(node);
      if !moved {
        moved := MoveRight(node);
      }
    }

    /** The deferred part of updatePosition. */
    method Refresh(node: Node, moved: bool, fromIndex: int)
      requires 0 <= node.index < |sorted| && sorted[node.index] == node
      modifies this`heaviest, this`lightest
      ensures heaviest == if (moved && fromIndex == 0) || node.index == 0 then View()[0].element else old(heaviest)
      ensures lightest == if (moved && fromIndex == |sorted| - 1) || node.index == |sorted| - 1
                          then View()[|sorted| - 1].element else old(lightest)
    {
      if moved && fromIndex == 0 {
        heaviest := sorted[0].element;
      } else if node.index == 0 {
        heaviest := node.element;
      }
      if moved && fromIndex == |sorted| - 1 {
        lightest := sorted[|sorted| - 1].element;
      } else if node.index == |sorted| - 1 {
        lightest := node.element;
      }
    }

    /** updatePosition: brings a node whose weight has changed to its place and refreshes the
        two extremes. */
    method UpdatePosition(node: Node)
      requires Unplaced(node) && ExtremesBut(View(), node.index, heaviest, lightest)
      modifies this`sorted, this`heaviest, this`lightest, elements.Values`index
      ensures Valid()
    {
      hide DescendingBut, Below, StrictWeak, Descending, Linked, Settled, Extremes, ExtremesBut, Items;
      var fromIndex := node.index;
      var moved := Place(node);
      Refresh(node, moved, fromIndex);
      Refreshed(old(View()), View(), fromIndex, node.index, old(heaviest), old(lightest), heaviest, lightest);
    }

    /** addSorted, with the weight the element's variable holds. */
    method Add(element: Element, weight: int)
      requires Valid()
      modifies this, elements.Values`index
      ensures Valid() && fresh(elements.Values - old(elements.Values))
      ensures Weights() == if element in old(elements) then old(Weights()) else old(Weights())[element := weight]
    {
      hide DescendingBut, Below, StrictWeak, Descending, Linked, Extremes, ExtremesBut, Items;
      if element !in elements {
        var node := Append(element);
        SetNodeWeight(node, weight);
      }
    }

    /** newSortedSetElement: a node at the end, with the zero weight, not in its place yet. */
    method Append(element: Element) returns (node: Node)
      requires Valid() && element !in elements
      modifies this`sorted, this`elements
      ensures fresh(node) && Unplaced(node) && ExtremesBut(View(), node.index, heaviest, lightest)
      ensures node.element == element && elements == old(elements)[element := node] && Weights() == old(Weights())[element := 0]
    {
      hide DescendingBut, Below, StrictWeak, Descending, Extremes, ExtremesBut, Items, Weights;
      ghost var v := View();
      node := new Node(element, |sorted|);
      sorted := sorted + [node];
      MapTo(node);
      assert View() == v + [Item(element, 0)];
      OneAppended(tie, v, Item(element, 0), heaviest, lightest);
    }

    method MapTo(node: Node)
      modifies this`elements
      ensures elements == old(elements)[node.element := node] && Weights() == old(Weights())[node.element := node.weight]
    {
      elements := elements[node.element := node];
    }

    /** The callback of the element's weight variable. */
    method SetNodeWeight(node: Node, weight: int)
      requires Unplaced(node) && ExtremesBut(View(), node.index, heaviest, lightest)
      modifies this`sorted, this`heaviest, this`lightest, elements.Values`index, node`weight
      ensures Valid() && Weights() == old(Weights())[node.element := weight]
    {
      hide *;
      Reweigh(node, weight);
      UpdatePosition(node);
    }

    method Reweigh(node: Node, weight: int)
      requires Unplaced(node) && ExtremesBut(View(), node.index, heaviest, lightest)
      modifies node`weight
      ensures Unplaced(node) && ExtremesBut(View(), node.index, heaviest, lightest)
      ensures Weights() == old(Weights())[node.element := weight]
    {
      hide DescendingBut, Below, StrictWeak, Descending, Extremes, ExtremesBut, Items;
      ghost var v := View();
      node.weight := weight;
      assert View() == v[node.index := Item(node.element, weight)];
      OneChanged(tie, v, node.index, Item(node.element, weight), heaviest, lightest);
    }

    method SetWeight(element: Element, weight: int)
      requires Valid() && element in elements
      modifies this`sorted, this`heaviest, this`lightest, elements.Values
      ensures Valid() && Weights() == old(Weights())[element := weight]
    {
      SetNodeWeight(elements[element], weight);
    }

    /** deleteSorted */
    method Delete(element: Element)
      requires Valid()
      modifies this, elements.Values`index
      ensures Valid() && Weights() == old(Weights()) - {element}
    {
      hide Below, StrictWeak, Descending, Extremes, Items, Linked, Removed;
      if element in elements {
        var index := Unlink(element);
        DropExtremes(index);
        OneRemoved(tie, old(View()), index, old(heaviest), old(lightest), heaviest, lightest);
      }
    }

    /** Takes the element out of the dictionary and the array. */
    method Unlink(element: Element) returns (index: int)
      requires Linked() && element in elements
      modifies this`sorted, this`elements, elements.Values`index
      ensures Linked() && Weights() == old(Weights()) - {element}
      ensures 0 <= index < |old(sorted)| && View() == Removed(old(View()), index)
    {
      hide Items, Weights;
      ghost var before, v := sorted, View();
      var node := elements[element];
      index := node.index;
      Unmap(element);
      ShiftLeft(index);
      assert View() == Removed(v, index);
      assert forall i :: 0 <= i < |sorted| ==> sorted[i] == before[if i < index then i else i + 1];
      forall e | e in elements
        ensures elements[e].element == e && 0 <= elements[e].index < |sorted| && sorted[elements[e].index] == elements[e]
      {
        var j := old(elements[e].index);
        assert sorted[if j < index then j else j - 1] == before[j];
      }
    }

    method Unmap(element: Element)
      modifies this`elements
      ensures elements == old(elements) - {element} && Weights() == old(Weights()) - {element}
    {
      elements := elements - {element};
    }

    /** The shift loop of deleteSorted, and the slice cut by one. */
    method ShiftLeft(k: nat)
      requires k < |sorted| && forall i :: 0 <= i < |sorted| ==> sorted[i].index == i
      modifies this`sorted, sorted`index
      ensures sorted == Removed(old(sorted), k)
      ensures forall i :: 0 <= i < |sorted| ==> sorted[i].index == i
      ensures old(sorted)[k].index == k
    {
      hide Shifted, Removed;
      ghost var before := sorted;
      ShiftStart(before, k);
      var i := k;
      while i < |sorted| - 1
        invariant k <= i < |sorted| == |before| && sorted == Shifted(before, k, i)
        invariant forall j :: 0 <= j < |before| ==> before[j].index == if k < j <= i then j - 1 else j
      {
        ShiftStep(before, k, i);
        sorted := sorted[i := sorted[i + 1]];
        sorted[i].index := sorted[i].index - 1;
        i := i + 1;
      }
      ShiftEnd(before, k);
      sorted := sorted[..|sorted| - 1];
    }

    /** The last part of deleteSorted. */
    method DropExtremes(index: int)
      modifies this`heaviest, this`lightest
      ensures heaviest == if index == 0 then if sorted == [] then Zero else View()[0].element else old(heaviest)
      ensures lightest == if index == |sorted|
                          then if sorted == [] then Zero else View()[|sorted| - 1].element
                          else old(lightest)
    {
      if index == 0 {
        heaviest := if |sorted| > 0 then sorted[0].element else Zero;
      }
      if index == |sorted| {
        lightest := if |sorted| > 0 then sorted[|sorted| - 1].element else Zero;
      }
    }

    /** Descending */
    method ToDescending() returns (r: seq<Element>)
      requires Valid()
      ensures Lists(tie, r, Weights())
      ensures heaviest == if r == [] then Zero else r[0]
      ensures lightest == if r == [] then Zero else r[|r| - 1]
    {
      hide Below, StrictWeak, Descending, Extremes, Lists, Linked, View, Weights;
      var n := |sorted|;
      var a := new Element[n];
      for i := 0 to n
        invariant forall j :: 0 <= j < i ==> a[j] == sorted[j].element
      {
        a[i] := sorted[i].element;
      }
      r := a[..];
      Listing(r);
    }

    /** Ascending: the same, filled from the end. */
    method ToAscending() returns (r: seq<Element>)
      requires Valid()
      ensures Lists(tie, seq(|r|, i requires 0 <= i < |r| => r[|r| - 1 - i]), Weights())
    {
      hide Below, StrictWeak, Descending, Extremes, Lists, Linked, View, Weights;
      var n := |sorted|;
      var a := new Element[n];
      for i := 0 to n
        invariant forall j :: 0 <= j < i ==> a[n - j - 1] == sorted[j].element
      {
        a[n - i - 1] := sorted[i].element;
      }
      r := a[..];
      Listing(seq(|r|, i requires 0 <= i < |r| => r[|r| - 1 - i]));
    }

    lemma Listing(r: seq<Element>)
      requires Valid() && |r| == |sorted| && forall i :: 0 <= i < |sorted| ==> r[i] == sorted[i].element
      ensures Lists(tie, r, Weights())
      ensures heaviest == if r == [] then Zero else r[0]
      ensures lightest == if r == [] then Zero else r[|r| - 1]
    {
      hide Below, StrictWeak;
      var v := View();
      forall i | 0 <= i < |r| ensures r[i] in Weights() && Item(r[i], Weights()[r[i]]) == v[i] {
      }
      forall e | e in Weights() ensures e in r {
        assert r[elements[e].index] == e;
      }
    }
  }
}
