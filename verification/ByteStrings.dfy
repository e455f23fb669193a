/** Byte strings: fixed-width little-endian numbers, lexicographic comparison as
    performed by Go's bytes.Compare, concatenation, and sorting by key. */
module ByteStrings {

  type Byte = x: int | 0 <= x < 256
  type Bytes = seq<Byte>

  /** A call either yields a value or fails (returns an error, or panics). */
  datatype Outcome<+T> = Ok(value: T) | Fail {
    predicate IsFailure() { Fail? }
    function PropagateFailure<U>(): Outcome<U>
      requires Fail?
    {
      Fail
    }
    function Extract(): T
      requires Ok?
    {
      value
    }
  }

  datatype Option<+T> = None | Some(value: T)

  // ----- little-endian numbers ---------------------------------------------

  function Pow256(w: nat): (p: nat)
    ensures p > 0
  {
    if w == 0 then 1 else 256 * Pow256(w - 1)
  }

  lemma Pow256Values()
    ensures Pow256(1) == 256 && Pow256(4) == 0x1_0000_0000
  {
    assert Pow256(2) == 256 * Pow256(1) == 256 * 256;
    assert Pow256(4) == 256 * Pow256(3) == 256 * 256 * Pow256(2);
  }

  function LittleEndian(n: nat, w: nat): (b: Bytes)
    ensures |b| == w
  {
    if w == 0 then [] else [n % 256] + LittleEndian(n / 256, w - 1)
  }

  /** Byte i is the i-th digit to the base 256, the least significant one first. */
  lemma {:induction false} LittleEndianByte(n: nat, w: nat, i: nat)
    requires i < w
    ensures |LittleEndian(n, w)| == w && LittleEndian(n, w)[i] == n / Pow256(i) % 256
    decreases w
  {
    if i > 0 {
      LittleEndianByte(n / 256, w - 1, i - 1);
      DivDiv(n, Pow256(i - 1));
    }
  }

  lemma DivDiv(n: nat, d: nat)
    requires d > 0
    ensures n / 256 / d == n / (256 * d)
  {
    var q := n / (256 * d);
    var r := n - 256 * d * q;
    assert n == 256 * (d * q) + r && 0 <= r < 256 * d;
    assert n / 256 == d * q + r / 256 && r / 256 < d;
    DivUnique(d * q + r / 256, d, q, r / 256);
  }

  lemma DivUnique(n: nat, d: nat, q: nat, r: nat)
    requires d > 0 && r < d && n == d * q + r
    ensures n / d == q
  {
    var p, k := n / d, n % d;
    assert n == d * p + k;
    assert d * (p - q) == r - k;
    MulGrows(d, p - q);
  }

  lemma MulGrows(d: nat, x: int)
    ensures x >= 1 ==> d * x >= d
    ensures x <= -1 ==> d * x + d <= 0
  {
  }

  function FromLittleEndian(b: Bytes): (n: nat)
    ensures n < Pow256(|b|)
  {
    if b == [] then 0 else
      var rest := FromLittleEndian(b[1..]);
      assert rest + 1 <= Pow256(|b| - 1);
      b[0] + 256 * rest
  }

  lemma {:induction false} LittleEndianRoundTrip(n: nat, w: nat)
    requires n < Pow256(w)
    ensures FromLittleEndian(LittleEndian(n, w)) == n
  {
    if w > 0 {
      assert n / 256 < Pow256(w - 1);
      LittleEndianRoundTrip(n / 256, w - 1);
      var b := LittleEndian(n, w);
      assert b[1..] == LittleEndian(n / 256, w - 1);
    }
  }

  lemma {:induction false} FromLittleEndianRoundTrip(b: Bytes)
    ensures LittleEndian(FromLittleEndian(b), |b|) == b
  {
    if b != [] {
      FromLittleEndianRoundTrip(b[1..]);
      var n := FromLittleEndian(b);
      assert n % 256 == b[0] && n / 256 == FromLittleEndian(b[1..]);
      assert b == [b[0]] + b[1..];
    }
  }

  // ----- lexicographic comparison --------------------------------------------

  /** bytes.Compare: negative, zero or positive. */
  function Compare(a: Bytes, b: Bytes): (c: int)
    ensures -1 <= c <= 1
    ensures c == 0 <==> a == b
  {
    if a == [] then (if b == [] then 0 else -1)
    else if b == [] then 1
    else if a[0] < b[0] then -1
    else if a[0] > b[0] then 1
    else
      assert a == [a[0]] + a[1..] && b == [b[0]] + b[1..];
      Compare(a[1..], b[1..])
  }

  predicate Le(a: Bytes, b: Bytes) { Compare(a, b) <= 0 }

  /** The order of a dictionary: a proper prefix comes first, else the first difference decides. */
  lemma {:induction false} CompareIs(a: Bytes, b: Bytes)
    ensures Compare(a, b) < 0 <==> a < b || exists k :: 0 <= k < |a| && k < |b| && a[..k] == b[..k] && a[k] < b[k]
  {
    if a != [] && b != [] && a[0] == b[0] {
      CompareIs(a[1..], b[1..]);
      assert a == [a[0]] + a[1..] && b == [b[0]] + b[1..];
      if k :| 0 <= k < |a| && k < |b| && a[..k] == b[..k] && a[k] < b[k] {
        assert k > 0 && a[1..][..k - 1] == a[..k][1..] && b[1..][..k - 1] == b[..k][1..];
      }
      if k :| 0 <= k < |a[1..]| && k < |b[1..]| && a[1..][..k] == b[1..][..k] && a[1..][k] < b[1..][k] {
        assert a[..k + 1] == [a[0]] + a[1..][..k] && b[..k + 1] == [b[0]] + b[1..][..k] && a[k + 1] < b[k + 1];
      }
    } else if a != [] && b != [] && a[0] < b[0] {
      assert a[..0] == b[..0];
    }
  }

  lemma {:induction false} CompareFlip(a: Bytes, b: Bytes)
    ensures Compare(b, a) == -Compare(a, b)
  {
    if a != [] && b != [] && a[0] == b[0] {
      CompareFlip(a[1..], b[1..]);
    }
  }

  lemma {:induction false} LeTransitive(a: Bytes, b: Bytes, c: Bytes)
    requires Le(a, b) && Le(b, c)
    ensures Le(a, c)
    ensures Compare(a, b) < 0 || Compare(b, c) < 0 ==> Compare(a, c) < 0
  {
    if a != [] && b != [] && c != [] && a[0] == b[0] == c[0] {
      LeTransitive(a[1..], b[1..], c[1..]);
    }
  }

  // ----- concatenation ---------------------------------------------------------

  function Concat(data: seq<Bytes>): (b: Bytes)
  {
    if data == [] then [] else data[0] + Concat(data[1..])
  }

  lemma {:induction false} ConcatAppend(data: seq<Bytes>, x: Bytes)
    ensures Concat(data + [x]) == Concat(data) + x
  {
    if data == [] {
      assert [] + [x] == [x];
      assert [x][1..] == [];
    } else {
      assert (data + [x])[1..] == data[1..] + [x];
      ConcatAppend(data[1..], x);
    }
  }

  // ----- sorting items by their encoded form -----------------------------------

  /** An encoded item together with what it encodes. */
  datatype Item<T> = Item(key: Bytes, val: T)

  function Keys<T>(items: seq<Item<T>>): (ks: seq<Bytes>)
    ensures |ks| == |items|
    ensures forall i :: 0 <= i < |items| ==> ks[i] == items[i].key
  {
    seq(|items|, i requires 0 <= i < |items| => items[i].key)
  }

  function Vals<T>(items: seq<Item<T>>): (vs: seq<T>)
    ensures |vs| == |items|
    ensures forall i :: 0 <= i < |items| ==> vs[i] == items[i].val
  {
    seq(|items|, i requires 0 <= i < |items| => items[i].val)
  }

  function Zip<T>(ks: seq<Bytes>, vs: seq<T>): (items: seq<Item<T>>)
    requires |ks| == |vs|
    ensures |items| == |ks| && Keys(items) == ks && Vals(items) == vs
  {
    seq(|ks|, i requires 0 <= i < |ks| => Item(ks[i], vs[i]))
  }

  lemma KeysCons<T>(x: Item<T>, items: seq<Item<T>>)
    ensures Keys([x] + items) == [x.key] + Keys(items)
    ensures Vals([x] + items) == [x.val] + Vals(items)
  {
  }

  predicate Ascending(data: seq<Bytes>)
  {
    forall i, j {:trigger Le(data[i], data[j])} :: 0 <= i < j < |data| ==> Le(data[i], data[j])
  }

  function Insert<T>(x: Item<T>, items: seq<Item<T>>): (r: seq<Item<T>>)
    ensures |r| == |items| + 1
    ensures multiset(r) == multiset([x] + items)
    ensures multiset(Keys(r)) == multiset([x.key] + Keys(items))
    ensures Ascending(Keys(items)) ==> Ascending(Keys(r))
  {
    if items == [] then [x]
    else if Le(x.key, items[0].key) then
      InsertFront(x, items);
      [x] + items
    else
      var r := [items[0]] + Insert(x, items[1..]);
      InsertDeeper(x, items, Insert(x, items[1..]));
      r
  }

  /** sort.Slice over encoded items: some ascending arrangement of the same items. */
  function Sort<T>(items: seq<Item<T>>): (r: seq<Item<T>>)
    ensures |r| == |items|
    ensures multiset(r) == multiset(items) && multiset(Keys(r)) == multiset(Keys(items))
    ensures Ascending(Keys(r))
  {
    if items == [] then [] else
      assert items == [items[0]] + items[1..];
      KeysCons(items[0], items[1..]);
      Insert(items[0], Sort(items[1..]))
  }

  lemma InsertFront<T>(x: Item<T>, items: seq<Item<T>>)
    requires items != [] && Le(x.key, items[0].key)
    ensures Keys([x] + items) == [x.key] + Keys(items)
    ensures Ascending(Keys(items)) ==> Ascending(Keys([x] + items))
  {
    if Ascending(Keys(items)) {
      var ks, rs := Keys(items), Keys([x] + items);
      forall i, j | 0 <= i < j < |rs| ensures Le(rs[i], rs[j]) {
        if i == 0 {
          if j > 1 {
            assert Le(ks[0], ks[j - 1]);
            LeTransitive(x.key, ks[0], ks[j - 1]);
          }
        } else {
          assert Le(ks[i - 1], ks[j - 1]);
        }
      }
    }
  }

  lemma InsertDeeper<T>(x: Item<T>, items: seq<Item<T>>, deep: seq<Item<T>>)
    requires items != [] && !Le(x.key, items[0].key)
    requires multiset(deep) == multiset([x] + items[1..])
    requires multiset(Keys(deep)) == multiset([x.key] + Keys(items[1..]))
    requires Ascending(Keys(items[1..])) ==> Ascending(Keys(deep))
    ensures multiset([items[0]] + deep) == multiset([x] + items)
    ensures multiset(Keys([items[0]] + deep)) == multiset([x.key] + Keys(items))
    ensures Ascending(Keys(items)) ==> Ascending(Keys([items[0]] + deep))
  {
    var ks := Keys(items);
    assert items == [items[0]] + items[1..];
    KeysCons(items[0], items[1..]);
    KeysCons(items[0], deep);
    SwapFront(items[0], x, items[1..], deep);
    SwapFront(items[0].key, x.key, Keys(items[1..]), Keys(deep));
    if Ascending(ks) {
      CompareFlip(x.key, items[0].key);
      assert ks[1..] == Keys(items[1..]);
      PrependAscending(ks[0], Keys(deep), x.key, ks);
    }
  }

  lemma SwapFront<T>(h: T, x: T, rest: seq<T>, deep: seq<T>)
    requires multiset(deep) == multiset([x] + rest)
    ensures multiset([h] + deep) == multiset([x] + ([h] + rest))
  {
  }

  lemma PrependAscending(k: Bytes, deep: seq<Bytes>, x: Bytes, ks: seq<Bytes>)
    requires ks != [] && k == ks[0] && Ascending(ks) && Ascending(deep) && Le(k, x)
    requires multiset(deep) == multiset([x] + ks[1..])
    ensures Ascending([k] + deep)
  {
    forall j | 0 <= j < |deep| ensures Le(k, deep[j]) {
      assert deep[j] in multiset(deep);
      assert deep[j] in [x] + ks[1..];
      if deep[j] != x {
        var i :| 0 <= i < |ks[1..]| && ks[1..][i] == deep[j];
        assert Le(ks[0], ks[i + 1]);
      }
    }
  }

  function Without<T>(a: seq<T>, k: nat): (r: seq<T>)
    requires k < |a|
    ensures |r| == |a| - 1
    ensures forall i :: 0 <= i < |r| ==> r[i] == a[if i < k then i else i + 1]
    ensures multiset(r) == multiset(a) - multiset{a[k]}
    ensures k == 0 ==> r == a[1..]
  {
    assert a == a[..k] + [a[k]] + a[k + 1..];
    a[..k] + a[k + 1..]
  }

  lemma PositionOf<T>(a: seq<T>, b: seq<T>, k: nat) returns (i: nat)
    requires multiset(a) == multiset(b) && k < |b|
    ensures i < |a| && a[i] == b[k]
  {
    assert b[k] in multiset(b);
    i :| i < |a| && a[i] == b[k];
  }

  /** Equal elements of the first two sequences have equal images in the other two. */
  ghost predicate SameImages<T(!new), U>(p: seq<T>, q: seq<T>, a: seq<U>, b: seq<U>)
  {
    && |a| == |p| && |b| == |q|
    && forall i, j :: 0 <= i < |p| && 0 <= j < |q| && p[i] == q[j] ==> a[i] == b[j]
  }

  /** Mapping a function over a permutation gives a permutation. */
  lemma {:induction false} ImagesPermuted<T(!new), U>(p: seq<T>, q: seq<T>, a: seq<U>, b: seq<U>)
    requires multiset(p) == multiset(q) && SameImages(p, q, a, b)
    ensures multiset(a) == multiset(b)
  {
    assert |multiset(p)| == |multiset(q)|;
    if p != [] {
      hide Without;
      var k := PositionOf(q, p, 0);
      assert SameImages(Without(p, 0), Without(q, k), Without(a, 0), Without(b, k));
      ImagesPermuted(Without(p, 0), Without(q, k), Without(a, 0), Without(b, k));
      AddBack(a, b, a[0], Without(a, 0), Without(b, k));
    }
  }

  lemma AddBack<T>(a: seq<T>, b: seq<T>, x: T, a': seq<T>, b': seq<T>)
    requires x in a && x in b
    requires multiset(a') == multiset(a) - multiset{x} && multiset(b') == multiset(b) - multiset{x}
    requires multiset(a') == multiset(b')
    ensures multiset(a) == multiset(b)
  {
    assert multiset(a) == multiset(a') + multiset{x};
    assert multiset(b) == multiset(b') + multiset{x};
  }

  // ----- an ascending arrangement is determined by the multiset of keys ---------

  lemma {:induction false} AscendingUnique(a: seq<Bytes>, b: seq<Bytes>)
    requires Ascending(a) && Ascending(b) && multiset(a) == multiset(b)
    ensures a == b
  {
    if a == [] {
      assert |multiset(b)| == 0;
    } else {
      assert |multiset(a)| == |multiset(b)|;
      HeadIsLeast(a, b);
      HeadIsLeast(b, a);
      CompareFlip(a[0], b[0]);
      assert a == [a[0]] + a[1..] && b == [b[0]] + b[1..];
      assert multiset(a[1..]) == multiset(a) - multiset{a[0]};
      assert multiset(b[1..]) == multiset(b) - multiset{b[0]};
      AscendingUnique(a[1..], b[1..]);
    }
  }

  lemma HeadIsLeast(a: seq<Bytes>, b: seq<Bytes>)
    requires a != [] && b != [] && Ascending(a) && multiset(a) == multiset(b)
    ensures Le(a[0], b[0])
  {
    assert b[0] in multiset(b);
    var k :| 0 <= k < |a| && a[k] == b[0];
  }

  /** Sorting yields the same keys whatever the items carry and however they were arranged. */
  lemma SortedKeysUnique<T, U>(xs: seq<Item<T>>, ys: seq<Item<U>>)
    requires multiset(Keys(xs)) == multiset(Keys(ys))
    ensures Keys(Sort(xs)) == Keys(Sort(ys))
  {
    AscendingUnique(Keys(Sort(xs)), Keys(Sort(ys)));
  }

  function SortBytes(data: seq<Bytes>): (r: seq<Bytes>)
    ensures |r| == |data| && Ascending(r) && multiset(r) == multiset(data)
  {
    Keys(Sort(Zip(data, data)))
  }

  lemma SortBytesPermutation(a: seq<Bytes>, b: seq<Bytes>)
    requires multiset(a) == multiset(b)
    ensures SortBytes(a) == SortBytes(b)
  {
    SortedKeysUnique(Zip(a, a), Zip(b, b));
  }

  lemma SortBytesAscending(a: seq<Bytes>)
    requires Ascending(a)
    ensures SortBytes(a) == a
  {
    AscendingUnique(SortBytes(a), a);
  }

  /** The items in sorted order have the sorted keys as their keys. */
  lemma SortZip<T>(data: seq<Bytes>, vs: seq<T>)
    requires |data| == |vs|
    ensures Keys(Sort(Zip(data, vs))) == SortBytes(data)
  {
    SortedKeysUnique(Zip(data, vs), Zip(data, data));
  }
}
