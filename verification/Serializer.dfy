/** The Serializer and Deserializer objects that the codec writes to and reads from,
    and the loops that drive them, proved against the codec's functions. */
module SerializerObjects {
  import opened ByteStrings
  import opened Codec
  import V = Validators

  // ----- numbers as big.Int stores them ------------------------------------------------

  /** big.Int.Bytes: most significant byte first, no leading zero. */
  function BigEndian(n: nat): (b: Bytes)
    ensures n > 0 ==> |b| > 0
  {
    if n == 0 then [] else BigEndian(n / 256) + [n % 256]
  }

  /** big.Int.SetBytes. */
  function FromBigEndian(b: Bytes): nat
  {
    if b == [] then 0 else 256 * FromBigEndian(b[..|b| - 1]) + b[|b| - 1]
  }

  function Reversed(b: Bytes): (r: Bytes)
    ensures |r| == |b| && forall i :: 0 <= i < |b| ==> r[i] == b[|b| - 1 - i]
  {
    if b == [] then [] else [b[|b| - 1]] + Reversed(b[..|b| - 1])
  }

  function Zeros(k: nat): (z: Bytes)
    ensures |z| == k && forall i :: 0 <= i < k ==> z[i] == 0
  {
    seq(k, _ => 0)
  }

  /** The number of bytes tells whether a number fits. */
  lemma {:induction false} BigEndianFits(n: nat, w: nat)
    ensures |BigEndian(n)| <= w <==> n < Pow256(w)
  {
    if n > 0 && w > 0 {
      BigEndianFits(n / 256, w - 1);
      assert n / 256 < Pow256(w - 1) <==> n < Pow256(w);
    }
  }

  /** Reversing the big-endian bytes and padding gives the little-endian form. */
  lemma {:induction false} PaddedIsLittleEndian(n: nat, w: nat)
    requires |BigEndian(n)| <= w
    ensures Reversed(BigEndian(n)) + Zeros(w - |BigEndian(n)|) == LittleEndian(n, w)
  {
    if n == 0 {
      ZeroLittleEndian(w);
      assert Reversed(BigEndian(0)) == [];
    } else {
      var b := BigEndian(n);
      assert b[..|b| - 1] == BigEndian(n / 256);
      assert Reversed(b) == [n % 256] + Reversed(BigEndian(n / 256));
      PaddedIsLittleEndian(n / 256, w - 1);
      assert Reversed(b) + Zeros(w - |b|) == [n % 256] + (Reversed(BigEndian(n / 256)) + Zeros(w - |b|));
    }
  }

  lemma {:induction false} ZeroLittleEndian(w: nat)
    ensures LittleEndian(0, w) == Zeros(w)
  {
    if w > 0 {
      ZeroLittleEndian(w - 1);
    }
  }

  lemma {:induction false} ReversedIsBigEndian(b: Bytes)
    ensures FromBigEndian(Reversed(b)) == FromLittleEndian(b)
  {
    if b != [] {
      ReversedIsBigEndian(b[1..]);
      var r := Reversed(b);
      assert r[..|r| - 1] == Reversed(b[1..]);
    }
  }

  /** The in-place swap loop that both directions share. */
  method ReverseInPlace(a: array<Byte>)
    modifies a
    ensures a[..] == Reversed(old(a[..]))
  {
    var i, j := 0, a.Length - 1;
    while i < j
      invariant 0 <= i <= a.Length && i + j == a.Length - 1 && i <= j + 1
      invariant forall k :: 0 <= k < i || j < k < a.Length ==> a[k] == old(a[a.Length - 1 - k])
      invariant forall k :: i <= k <= j ==> a[k] == old(a[k])
    {
      a[i], a[j] := a[j], a[i];
      i, j := i + 1, j - 1;
    }
  }

  // ----- Serializer ---------------------------------------------------------------------

  class Serializer {
    var buf: Bytes
    var err: bool

    constructor ()
      ensures buf == [] && !err
    {
      buf, err := [], false;
    }

    /** A step appends its bytes, or records an error; after an error nothing happens. */
    twostate predicate Appended(new step: Outcome<Bytes>)
      reads this
    {
      if old(err) then err && buf == old(buf)
      else if step.Ok? then !err && buf == old(buf) + step.value
      else err
    }

    method Serialize() returns (r: Outcome<Bytes>)
      ensures r == if err then Fail else Ok(buf)
    {
      r := if err then Fail else Ok(buf);
    }

    method WriteBytes(data: Bytes)
      modifies this
      ensures Appended(Ok(data))
    {
      if err { return; }
      buf := buf + data;
    }

    /** A uint64 prefix panics; a panic counts as an error here. */
    method WriteSliceLength(l: nat, ts: TypeSettings)
      modifies this
      ensures Appended(LengthBytes(ts, l))
    {
      if err { return; }
      match LengthBytes(ts, l)
      case Ok(b) => buf := buf + b;
      case Fail => err := true;
    }

    method WriteVariableByteSlice(data: Bytes, ts: TypeSettings)
      modifies this
      ensures Appended(EncodeByteSlice(data, ts))
    {
      if err { return; }
      var rules := Rules(ts);
      if rules.max > 0 && |data| > rules.max { err := true; return; }
      if rules.min > 0 && |data| < rules.min { err := true; return; }
      WriteSliceLength(|data|, ts);
      if err { return; }
      buf := buf + data;
    }

    method WriteUint256(n: int)
      modifies this
      ensures Appended(if 0 <= n < Pow256(32) then Ok(LittleEndian(n, 32)) else Fail)
    {
      if err { return; }
      if n < 0 { err := true; return; }
      var b := BigEndian(n);
      BigEndianFits(n, 32);
      if |b| > 32 { err := true; return; }
      var a := new Byte[|b|](i requires 0 <= i < |b| => b[i]);
      assert a[..] == b;
      ReverseInPlace(a);
      var padded := a[..] + Zeros(32 - |b|);
      PaddedIsLittleEndian(n, 32);
      buf := buf + padded;
    }

    /** Bounds, length, sorting, then element by element through the validators. */
    method WriteSliceOfByteSlices(data: seq<Bytes>, ts: TypeSettings, vld: bool)
      modifies this
      ensures Appended(EncodeSequence(data, ts, vld))
    {
      hide Concat, V.Accepts, SortBytes;
      if err { return; }
      if vld && !InBounds(ts, |data|) { err := true; return; }
      WriteSliceLength(|data|, ts);
      if err { return; }
      WriteElements(if Sorts(ts) then SortBytes(data) else data, Rules(ts).mode, vld);
    }

    method WriteElements(ordered: seq<Bytes>, mode: V.Mode, vld: bool)
      requires !err
      modifies this
      ensures Appended(if vld && !V.Accepts(mode, V.Writer, ordered) then Fail else Ok(Concat(ordered)))
    {
      var st := V.Start;
      for i := 0 to |ordered|
        invariant !err && buf == old(buf) + Concat(ordered[..i])
        invariant vld ==> V.Run(mode, V.Writer, ordered[..i]) == Ok(st)
      {
        assert ordered[..i + 1] == ordered[..i] + [ordered[i]];
        assert ordered[..i + 1][..i] == ordered[..i];
        if vld {
          match V.Step(mode, V.Writer, st, ordered[i])
          case Ok(next) => st := next;
          case Fail =>
            V.RejectsExtension(mode, V.Writer, ordered, i + 1);
            err := true;
            return;
        }
        ConcatAppend(ordered[..i], ordered[i]);
        buf := buf + ordered[i];
      }
      assert ordered[..|ordered|] == ordered;
    }

    /** encodeStructFields: the embedded fields are written into the same object. */
    method WriteStructFields(R: Registry, fields: seq<Field>, vs: seq<Value>, vld: bool)
      requires |fields| == |vs| && !err
      modifies this
      ensures Appended(EncodeFields(R, fields, vs, vld))
      decreases vs, 0
    {
      hide EncodeField, EncodeFields;
      assert vs[0..] == vs && fields[0..] == fields;
      ghost var done: Bytes := [];
      AfterNothing(EncodeFields(R, fields, vs, vld));
      NoFields(R, vld);
      for i := 0 to |fields|
        invariant !err && buf == old(buf) + done
        invariant EncodeFields(R, fields, vs, vld) == After(done, EncodeFields(R, fields[i..], vs[i..], vld))
      {
        WriteStructField(R, fields[i], vs[i], vld);
        NextField(R, fields, vs, i, vld, done);
        if err { return; }
        done := done + EncodeField(R, fields[i], vs[i], vld).value;
      }
      assert fields[|fields|..] == [] && vs[|vs|..] == [];
      assert done + [] == done;
    }

    method WriteStructField(R: Registry, f: Field, v: Value, vld: bool)
      requires !err
      modifies this
      ensures Appended(EncodeField(R, f, v, vld))
      decreases v, 1
    {
      match f {
        case Embedded(inner, pointer, _) =>
          if v.VStruct? && |inner| == |v.vals| {
            WriteStructFields(R, inner, v.vals, vld);
          } else if v.VNil? && pointer {
            assert buf == old(buf) + [];
          } else {
            assert v.VStruct? ==> EncodeFields(R, inner, v.vals, vld).Fail?;
            err := true;
          }
        case Optional(s, tag) =>
          if !Nilable(s) { err := true; return; }
          if v.VNil? {
            WriteBytes(LittleEndian(0, 4));
          } else {
            var body := Encode(R, s, v, TagSettings(tag), vld);
            if body.Fail? { err := true; return; }
            WriteBytes(LittleEndian(|body.value| % 0x1_0000_0000, 4));
            WriteBytes(body.value);
          }
        case Plain(s, tag) =>
          var body := Encode(R, s, v, TagSettings(tag), vld);
          if body.Fail? { err := true; return; }
          WriteBytes(body.value);
      }
    }
  }

  lemma NoFields(R: Registry, vld: bool)
    ensures EncodeFields(R, [], [], vld) == Ok([])
  {
  }

  function After(done: Bytes, rest: Outcome<Bytes>): Outcome<Bytes>
  {
    if rest.Ok? then Ok(done + rest.value) else Fail
  }

  lemma AfterNothing(rest: Outcome<Bytes>)
    ensures After([], rest) == rest
  {
    if rest.Ok? {
      assert [] + rest.value == rest.value;
    }
  }

  lemma NextField(R: Registry, fields: seq<Field>, vs: seq<Value>, i: nat, vld: bool, done: Bytes)
    requires |fields| == |vs| && i < |fields|
    ensures var head := EncodeField(R, fields[i], vs[i], vld);
            After(done, EncodeFields(R, fields[i..], vs[i..], vld))
            == if head.Ok? then After(done + head.value, EncodeFields(R, fields[i + 1..], vs[i + 1..], vld)) else Fail
  {
    assert fields[i..][1..] == fields[i + 1..] && vs[i..][1..] == vs[i + 1..];
    var head, tail := EncodeField(R, fields[i], vs[i], vld), EncodeFields(R, fields[i + 1..], vs[i + 1..], vld);
    if head.Ok? && tail.Ok? {
      assert done + (head.value + tail.value) == done + head.value + tail.value;
    }
  }

  /** encodeSlice fills a data slice with the encoded elements; encodeMap does the same
      with the entries in iteration order. */
  method EncodeElements(R: Registry, elem: Schema, vs: seq<Value>, vld: bool) returns (r: Outcome<seq<Bytes>>)
    ensures r == EncodeItems(R, elem, vs, vld)
  {
    var data := new Bytes[|vs|](_ => []);
    for i := 0 to |vs|
      invariant forall k :: 0 <= k < i ==> Encode(R, elem, vs[k], NoSettings, vld) == Ok(data[k])
    {
      match Encode(R, elem, vs[i], NoSettings, vld)
      case Ok(b) => data[i] := b;
      case Fail =>
        ItemsFail(R, elem, vs, i, vld);
        return Fail;
    }
    r := Ok(data[..]);
    ItemsAre(R, elem, vs, data[..], vld);
  }

  lemma {:induction false} ItemsFail(R: Registry, elem: Schema, vs: seq<Value>, i: nat, vld: bool)
    requires i < |vs| && Encode(R, elem, vs[i], NoSettings, vld).Fail?
    ensures EncodeItems(R, elem, vs, vld).Fail?
  {
    if i > 0 {
      ItemsFail(R, elem, vs[1..], i - 1, vld);
    }
  }

  lemma {:induction false} ItemsAre(R: Registry, elem: Schema, vs: seq<Value>, data: seq<Bytes>, vld: bool)
    requires |data| == |vs| && forall k :: 0 <= k < |vs| ==> Encode(R, elem, vs[k], NoSettings, vld) == Ok(data[k])
    ensures EncodeItems(R, elem, vs, vld) == Ok(data)
  {
    if vs != [] {
      ItemsAre(R, elem, vs[1..], data[1..], vld);
      assert data == [data[0]] + data[1..];
    }
  }

  // ----- Deserializer --------------------------------------------------------------------

  class Deserializer {
    const src: Bytes
    var offset: nat
    var err: bool

    constructor (src: Bytes)
      ensures this.src == src && offset == 0 && !err
    {
      this.src, offset, err := src, 0, false;
    }

    ghost predicate Valid()
      reads this
    {
      offset <= |src|
    }

    function RemainingBytes(): Bytes
      requires Valid()
      reads this
    {
      src[offset..]
    }

    /** A step moves the offset by what it read, or records an error. */
    twostate predicate Advanced(new step: Outcome<nat>)
      reads this
    {
      if old(err) then err && offset == old(offset)
      else if step.Ok? then !err && offset == old(offset) + step.value
      else err
    }

    method Done() returns (r: Outcome<nat>)
      ensures r == if err then Fail else Ok(offset)
    {
      r := if err then Fail else Ok(offset);
    }

    method ReadSliceLength(ts: TypeSettings) returns (len: nat)
      requires Valid() && !err
      modifies this
      ensures Valid()
      ensures var r := ReadLength(ts, old(RemainingBytes()));
              Advanced(if r.Ok? then Ok(r.value.1) else Fail) && (r.Ok? ==> len == r.value.0)
    {
      len := 0;
      match ReadLength(ts, RemainingBytes())
      case Ok((l, w)) => len, offset := l, offset + w;
      case Fail => err := true;
    }

    /** Exceeding the bounds is recorded, but the bytes are read all the same. */
    method ReadVariableByteSlice(ts: TypeSettings) returns (x: Bytes)
      requires Valid() && !err
      modifies this
      ensures Valid()
      ensures var r := DecodeByteSlice(old(RemainingBytes()), ts);
              Advanced(if r.Ok? then Ok(r.value.1) else Fail) && (r.Ok? ==> r.value.0 == VBytes(x))
    {
      x := [];
      ghost var b, start := RemainingBytes(), offset;
      var len := ReadSliceLength(ts);
      if err { return; }
      ghost var w := offset - start;
      assert RemainingBytes() == b[w..];
      assert |b| - w >= len ==> src[offset..offset + len] == b[w..w + len];
      var rules := Rules(ts);
      if rules.max > 0 && len > rules.max {
        err := true;
      } else if rules.min > 0 && len < rules.min {
        err := true;
      }
      if len == 0 { return; }
      if |RemainingBytes()| < len { err := true; return; }
      x := src[offset..offset + len];
      offset := offset + len;
    }

    method ReadUint256() returns (n: nat)
      requires Valid() && !err
      modifies this
      ensures Valid()
      ensures var b := old(RemainingBytes());
              Advanced(if |b| >= 32 then Ok(32) else Fail) && (|b| >= 32 ==> n == FromLittleEndian(b[..32]))
    {
      n := 0;
      if |RemainingBytes()| < 32 { err := true; return; }
      var source := src[offset..offset + 32];
      var a := new Byte[32](i requires 0 <= i < 32 => source[i]);
      assert a[..] == source && source == RemainingBytes()[..32];
      offset := offset + 32;
      ReverseInPlace(a);
      n := FromBigEndian(a[..]);
      ReversedIsBigEndian(source);
    }

    /** ReadSequenceOfObjects with the closure of decodeSlice, or with the closure of
        decodeMap, which also refuses a key that is already in the map. */
    method ReadSequenceOfObjects(R: Registry, elem: Schema, ts: TypeSettings, vld: bool,
                                 intoMap: bool) returns (vs: seq<Value>)
      requires Registered(R) && Valid() && !err
      requires intoMap ==> elem.kind.Entry?
      modifies this
      ensures Valid()
      ensures var r := DecodeSequence(R, elem, old(RemainingBytes()), ts, vld);
              var ok := r.Ok? && (intoMap ==> DistinctKeys(r.value.0));
              Advanced(if ok then Ok(r.value.1) else Fail) && (ok ==> vs == r.value.0)
    {
      vs := [];
      var count := ReadSliceLength(ts);
      if err { return; }
      if vld && !InBounds(ts, count) { err := true; return; }
      vs := ReadItems(R, elem, count, Rules(ts).mode, vld, intoMap);
    }

    method ReadItems(R: Registry, elem: Schema, count: nat, mode: V.Mode, vld: bool, intoMap: bool) returns (vs: seq<Value>)
      requires Registered(R) && Valid() && !err
      requires intoMap ==> elem.kind.Entry?
      modifies this
      ensures Valid()
      ensures var r := DecodeItems(R, elem, old(RemainingBytes()), count, vld);
              var ok := && r.Ok? && (vld ==> V.Accepts(mode, V.Reader, r.value.1))
                        && (intoMap ==> DistinctKeys(r.value.0));
              Advanced(if ok then Ok(|Concat(r.value.1)|) else Fail) && (ok ==> vs == r.value.0)
    {
      hide DecodeItems, Decode, Concat, V.Run, V.Step, DistinctKeys;
      vs := [];
      ghost var data: seq<Bytes> := [];
      var st := V.Start;
      ghost var all := DecodeItems(R, elem, RemainingBytes(), count, vld);
      NothingRead(mode, all);
      for i := 0 to count
        invariant Valid() && !err && offset == old(offset) + |Concat(data)|
        invariant all == Join(vs, data, DecodeItems(R, elem, RemainingBytes(), count - i, vld))
        invariant vld ==> V.Run(mode, V.Reader, data) == Ok(st)
        invariant intoMap ==> DistinctKeys(vs)
      {
        NextItem(R, elem, RemainingBytes(), count - i, vld, vs, data);
        var r := Decode(R, elem, RemainingBytes(), NoSettings, vld);
        if r.Fail? { err := true; return; }
        var (v, n) := r.value;
        var x := RemainingBytes()[..n];
        assert src[offset + n..] == RemainingBytes()[n..];
        offset := offset + n;
        if intoMap {
          DecodesEntry(R, elem, src[offset - n..], vld);
          KeyAppend(vs, v, all);
          if HasKey(vs, v) { err := true; return; }
        }
        if vld {
          V.RunAppend(mode, V.Reader, data, x);
          match V.Step(mode, V.Reader, st, x)
          case Ok(next) => st := next;
          case Fail =>
            RejectedItem(mode, data + [x], all);
            err := true;
            return;
        }
        ConcatAppend(data, x);
        vs, data := vs + [v], data + [x];
      }
      NoItemsLeft(R, elem, RemainingBytes(), vs, data, vld);
    }

    /** decodeStructFields: embedded fields are read from the same object. */
    method ReadStructFields(R: Registry, fields: seq<Field>, vld: bool) returns (vs: seq<Value>)
      requires Registered(R) && Valid() && !err
      modifies this
      ensures Valid()
      ensures var r := DecodeFields(R, fields, old(RemainingBytes()), vld);
              Advanced(if r.Ok? then Ok(r.value.1) else Fail) && (r.Ok? ==> vs == r.value.0)
      decreases fields, 0
    {
      hide DecodeFields, DecodeField;
      vs := [];
      ghost var all := DecodeFields(R, fields, RemainingBytes(), vld);
      FieldsReadEnds(R, RemainingBytes(), [], 0, vld, all);
      assert fields[0..] == fields;
      for i := 0 to |fields|
        invariant Valid() && !err && offset >= old(offset)
        invariant all == Then(vs, offset - old(offset), DecodeFields(R, fields[i..], RemainingBytes(), vld))
      {
        ghost var before := RemainingBytes();
        NextFieldRead(R, fields, i, before, vld, vs, offset - old(offset));
        var v := ReadStructField(R, fields[i], vld);
        if err { return; }
        assert RemainingBytes() == before[DecodeField(R, fields[i], before, vld).value.1..];
        vs := vs + [v];
      }
      assert fields[|fields|..] == [];
      FieldsReadEnds(R, RemainingBytes(), vs, offset - old(offset), vld, all);
    }

    method ReadStructField(R: Registry, f: Field, vld: bool) returns (v: Value)
      requires Registered(R) && Valid() && !err
      modifies this
      ensures Valid()
      ensures var r := DecodeField(R, f, old(RemainingBytes()), vld);
              Advanced(if r.Ok? then Ok(r.value.1) else Fail) && (r.Ok? ==> v == r.value.0)
      decreases f, 1
    {
      v := VNil;
      match f {
        case Embedded(inner, pointer, exported) =>
          if pointer && !exported { err := true; return; }
          var vs := ReadStructFields(R, inner, vld);
          v := VStruct(vs);
        case Optional(s, tag) =>
          if !Nilable(s) || |RemainingBytes()| < 4 { err := true; return; }
          var length := FromLittleEndian(RemainingBytes()[..4]);
          assert src[offset + 4..] == RemainingBytes()[4..];
          offset := offset + 4;
          if length == 0 { return; }
          var r := Decode(R, s, RemainingBytes(), TagSettings(tag), vld);
          if r.Fail? || r.value.1 != length { err := true; return; }
          v, offset := r.value.0, offset + length;
        case Plain(s, tag) =>
          var r := Decode(R, s, RemainingBytes(), TagSettings(tag), vld);
          if r.Fail? { err := true; return; }
          v, offset := r.value.0, offset + r.value.1;
      }
    }
  }

  /** Fields read so far, followed by the rest. */
  function Then(vs: seq<Value>, n: nat, rest: Outcome<(seq<Value>, nat)>): Outcome<(seq<Value>, nat)>
  {
    if rest.Ok? then Ok((vs + rest.value.0, n + rest.value.1)) else Fail
  }

  lemma NextFieldRead(R: Registry, fields: seq<Field>, i: nat, b: Bytes, vld: bool, vs: seq<Value>, n: nat)
    requires Registered(R) && i < |fields|
    ensures var r := DecodeField(R, fields[i], b, vld);
            Then(vs, n, DecodeFields(R, fields[i..], b, vld))
            == if r.Ok? then Then(vs + [r.value.0], n + r.value.1, DecodeFields(R, fields[i + 1..], b[r.value.1..], vld))
               else Fail
  {
    assert fields[i..][1..] == fields[i + 1..];
    var r := DecodeField(R, fields[i], b, vld);
    if r.Ok? {
      var rest := DecodeFields(R, fields[i + 1..], b[r.value.1..], vld);
      if rest.Ok? {
        assert vs + ([r.value.0] + rest.value.0) == vs + [r.value.0] + rest.value.0;
      }
    }
  }

  lemma FieldsReadEnds(R: Registry, b: Bytes, vs: seq<Value>, n: nat, vld: bool, all: Outcome<(seq<Value>, nat)>)
    requires Registered(R)
    ensures Then([], 0, all) == all
    ensures Then(vs, n, DecodeFields(R, [], b, vld)) == Ok((vs, n))
  {
    assert vs + [] == vs;
    if all.Ok? {
      assert [] + all.value.0 == all.value.0;
    }
  }

  predicate HasKey(vs: seq<Value>, v: Value)
    requires v.VEntry?
  {
    exists k :: 0 <= k < |vs| && vs[k].VEntry? && vs[k].key == v.key
  }

  lemma DecodesEntry(R: Registry, elem: Schema, b: Bytes, vld: bool)
    requires Registered(R) && elem.kind.Entry? && Decode(R, elem, b, NoSettings, vld).Ok?
    ensures Decode(R, elem, b, NoSettings, vld).value.0.VEntry?
  {
    assert Decode(R, elem, b, NoSettings, vld) == DecodeEntry(R, elem.kind.key, elem.kind.val, b, vld);
  }

  lemma KeyAppend(vs: seq<Value>, v: Value, all: Outcome<(seq<Value>, seq<Bytes>)>)
    requires v.VEntry? && DistinctKeys(vs) && (all.Ok? ==> vs + [v] <= all.value.0)
    ensures HasKey(vs, v) && all.Ok? ==> !DistinctKeys(all.value.0)
    ensures !HasKey(vs, v) ==> DistinctKeys(vs + [v])
  {
    if all.Ok? && HasKey(vs, v) {
      var k :| 0 <= k < |vs| && vs[k].VEntry? && vs[k].key == v.key;
      assert all.value.0[k] == vs[k] && all.value.0[|vs|] == v;
    }
  }

  lemma NoItemsLeft(R: Registry, elem: Schema, b: Bytes, vs: seq<Value>, data: seq<Bytes>, vld: bool)
    requires Registered(R)
    ensures Join(vs, data, DecodeItems(R, elem, b, 0, vld)) == Ok((vs, data))
  {
    assert vs + [] == vs && data + [] == data;
  }

  /** Items read so far, followed by the rest. */
  function Join(vs: seq<Value>, data: seq<Bytes>, rest: Outcome<(seq<Value>, seq<Bytes>)>): Outcome<(seq<Value>, seq<Bytes>)>
  {
    if rest.Ok? then Ok((vs + rest.value.0, data + rest.value.1)) else Fail
  }

  lemma NothingRead(mode: V.Mode, rest: Outcome<(seq<Value>, seq<Bytes>)>)
    ensures Join([], [], rest) == rest && Concat([]) == [] && V.Run(mode, V.Reader, []) == Ok(V.Start)
    ensures DistinctKeys([])
  {
    if rest.Ok? {
      assert [] + rest.value.0 == rest.value.0 && [] + rest.value.1 == rest.value.1;
    }
  }

  lemma NextItem(R: Registry, elem: Schema, b: Bytes, count: nat, vld: bool, vs: seq<Value>, data: seq<Bytes>)
    requires Registered(R) && count > 0
    ensures var r := Decode(R, elem, b, NoSettings, vld);
            Join(vs, data, DecodeItems(R, elem, b, count, vld))
            == if r.Ok? then Join(vs + [r.value.0], data + [b[..r.value.1]], DecodeItems(R, elem, b[r.value.1..], count - 1, vld))
               else Fail
  {
    var r := Decode(R, elem, b, NoSettings, vld);
    if r.Ok? {
      var rest := DecodeItems(R, elem, b[r.value.1..], count - 1, vld);
      if rest.Ok? {
        var (v, n) := r.value;
        assert vs + ([v] + rest.value.0) == vs + [v] + rest.value.0;
        assert data + ([b[..n]] + rest.value.1) == data + [b[..n]] + rest.value.1;
      }
    }
  }

  lemma RejectedItem(mode: V.Mode, data: seq<Bytes>, all: Outcome<(seq<Value>, seq<Bytes>)>)
    requires !V.Accepts(mode, V.Reader, data)
    requires all.Ok? ==> data <= all.value.1
    ensures all.Ok? ==> !V.Accepts(mode, V.Reader, all.value.1)
  {
    if all.Ok? {
      assert all.value.1[..|data|] == data;
      V.RejectsExtension(mode, V.Reader, all.value.1, |data|);
    }
  }
}
