/** The exclusive upper bound of a scan over all keys with a prefix. */
module PrefixBound {
  import opened ByteStrings

  ghost predicate AllMax(b: Bytes) { forall i :: 0 <= i < |b| ==> b[i] == 255 }

  /** The least byte string above everything with the prefix, if there is one. */
  function UpperBound(start: Bytes): (r: Option<Bytes>)
    ensures r.None? <==> AllMax(start)
  {
    if start == [] then None
    else
      assert AllMax(start) <==> start[0] == 255 && AllMax(start[1..]);
      match UpperBound(start[1..])
      case Some(b) => Some([start[0]] + b)
      case None => if start[0] == 255 then None else Some([start[0] + 1])
  }

  /** The last byte that is not 255 goes up by one and what follows it is dropped. */
  lemma {:induction false} UpperBoundAt(start: Bytes, i: nat)
    requires i < |start| && start[i] != 255 && AllMax(start[i + 1..])
    ensures UpperBound(start) == Some(start[..i] + [start[i] + 1])
  {
    if i == 0 {
      assert start[1..] == start[i + 1..] && UpperBound(start[1..]).None?;
      assert start[..i] + [start[i] + 1] == [start[0] + 1];
    } else {
      assert start[1..][i - 1] == start[i] && start[1..][i..] == start[i + 1..];
      UpperBoundAt(start[1..], i - 1);
      assert start[..i] + [start[i] + 1] == [start[0]] + (start[1..][..i - 1] + [start[i] + 1]);
    }
  }

  /** Among the keys from a run of 255s on, those with it as a prefix are all. */
  lemma {:induction false} AboveMax(start: Bytes, k: Bytes)
    requires AllMax(start)
    ensures start <= k <==> Le(start, k)
  {
    if start != [] && k != [] {
      PrefixCons(start, k);
      AboveMax(start[1..], k[1..]);
    }
  }

  lemma PrefixCons(start: Bytes, k: Bytes)
    requires start != [] && k != []
    ensures start <= k <==> start[0] == k[0] && start[1..] <= k[1..]
  {
    if start[0] == k[0] && start[1..] <= k[1..] {
      assert start == [start[0]] + start[1..] && k == [k[0]] + k[1..];
    }
  }

  /** The scan from start up to the bound meets exactly the keys with the prefix. */
  lemma {:induction false} BoundExact(start: Bytes, k: Bytes)
    requires !AllMax(start)
    ensures start <= k <==> Le(start, k) && Compare(k, UpperBound(start).value) < 0
  {
    if k != [] {
      PrefixCons(start, k);
      if AllMax(start[1..]) {
        AboveMax(start[1..], k[1..]);
      } else {
        BoundExact(start[1..], k[1..]);
        var b := UpperBound(start[1..]).value;
        assert ([start[0]] + b)[1..] == b;
      }
    }
  }

  /** KeyPrefixUpperBound: a copy is incremented in place, from the last byte on. */
  method KeyPrefixUpperBound(start: array<Byte>) returns (r: Option<Bytes>)
    ensures r.None? <==> AllMax(start[..])
    ensures r.Some? ==> forall k: Bytes :: start[..] <= k <==> Le(start[..], k) && Compare(k, r.value) < 0
    ensures r == UpperBound(start[..])
  {
    ghost var s := start[..];
    var end := new Byte[start.Length](i requires 0 <= i < start.Length reads start => start[i]);
    var i := end.Length - 1;
    while i >= 0
      invariant -1 <= i < end.Length && end[..i + 1] == s[..i + 1] && AllMax(s[i + 1..])
    {
      assert end[i] == end[..i + 1][i] == s[i];
      end[i] := if end[i] == 255 then 0 else end[i] + 1;    // a byte wraps around
      if end[i] != 0 {
        UpperBoundAt(s, i);
        assert end[..i + 1] == s[..i] + [s[i] + 1];
        forall k: Bytes ensures s <= k <==> Le(s, k) && Compare(k, UpperBound(s).value) < 0 {
          BoundExact(s, k);
        }
        return Some(end[..i + 1]);
      }
      assert s[i..] == [s[i]] + s[i + 1..];
      i := i - 1;
    }
    assert s[0..] == s;
    return None;
  }
}
