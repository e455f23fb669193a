/** Decoding what was encoded gives the value back, with auto-sorted collections
    in sorted order. */
module CodecRoundTrip {
  import opened ByteStrings
  import opened Codec
  import V = Validators

  /** The code at the head of some bytes leads an interface to a type. */
  predicate Leads(R: Registry, name: string, typ: string, b: Bytes)
  {
    && name in R.interfaces
    && var objs := R.interfaces[name];
       var w := CodeWidth(objs.wide);
       |b| >= w && FromLittleEndian(b[..w]) in objs.byCode && objs.byCode[FromLittleEndian(b[..w])] == typ
  }

  /** The value with every auto-sorted collection sorted by encoded element. */
  function Canon(R: Registry, s: Schema, v: Value, given: TypeSettings, vld: bool): Value
    decreases v, 1
  {
    match s.kind
    case Struct(fields) => CanonStruct(R, fields, v, vld)
    case Ptr(elem) => if elem.kind.Struct? then CanonStruct(R, elem.kind.fields, v, vld) else v
    case Slice(elem) =>
      if v.VSlice? then VSlice(CanonItems(R, elem, v.elems, Sorts(Settings(given, s)), vld)) else v
    case Map(key, val) =>
      if v.VMap? then VMap(CanonItems(R, EntrySchema(key, val), v.entries, true, vld)) else v
    case Entry(key, val) =>
      if v.VEntry? then VEntry(Canon(R, key, v.key, NoSettings, vld), Canon(R, val, v.val, NoSettings, vld)) else v
    case Interface(_) =>
      if v.VIface? && v.typ in R.objects then VIface(v.typ, Canon(R, R.objects[v.typ], v.obj, Settings(given, s), vld))
      else v
    case _ => v
  }

  function CanonStruct(R: Registry, fields: seq<Field>, v: Value, vld: bool): Value
    decreases v, 0
  {
    if v.VStruct? && |fields| == |v.vals| then VStruct(CanonFields(R, fields, v.vals, vld)) else v
  }

  /** The canonical forms of values, in the order of their encodings if they are sorted. */
  function CanonItems(R: Registry, s: Schema, vs: seq<Value>, sorts: bool, vld: bool): (cs: seq<Value>)
    ensures |cs| == |vs|
    decreases vs
  {
    var o := Arranged(R, s, vs, sorts, vld);
    seq(|o|, k requires 0 <= k < |o| => assert o[k] in vs; Canon(R, s, o[k], NoSettings, vld))
  }

  function CanonFields(R: Registry, fields: seq<Field>, vs: seq<Value>, vld: bool): (cs: seq<Value>)
    requires |fields| == |vs|
    ensures |cs| == |vs|
    decreases vs
  {
    if vs == [] then [] else [CanonField(R, fields[0], vs[0], vld)] + CanonFields(R, fields[1..], vs[1..], vld)
  }

  function CanonField(R: Registry, f: Field, v: Value, vld: bool): Value
    decreases v, 2
  {
    match f
    case Plain(s, tag) => Canon(R, s, v, TagSettings(tag), vld)
    case Optional(s, tag) => if v.VNil? then v else Canon(R, s, v, TagSettings(tag), vld)
    case Embedded(inner, _, _) => CanonStruct(R, inner, v, vld)
  }

  /** Values put in the order in which they are written. */
  function Arranged(R: Registry, s: Schema, vs: seq<Value>, sorts: bool, vld: bool): (r: seq<Value>)
    ensures |r| == |vs| && multiset(r) == multiset(vs)
    ensures forall k :: 0 <= k < |r| ==> r[k] in vs
  {
    var data := EncodeItems(R, s, vs, vld);
    if sorts && data.Ok? then ValuesPermuted(data.value, vs); Vals(Sort(Zip(data.value, vs))) else vs
  }

  lemma ValuesPermuted(data: seq<Bytes>, vs: seq<Value>)
    requires |data| == |vs|
    ensures var r := Vals(Sort(Zip(data, vs))); multiset(r) == multiset(vs) && forall k :: 0 <= k < |r| ==> r[k] in vs
  {
    var items := Sort(Zip(data, vs));
    ImagesPermuted(Zip(data, vs), items, vs, Vals(items));
    forall k | 0 <= k < |items| ensures Vals(items)[k] in vs {
      var i := PositionOf(vs, Vals(items), k);
    }
  }

  function InOrder(data: seq<Bytes>, sorts: bool): (r: seq<Bytes>)
    ensures |r| == |data| && multiset(r) == multiset(data)
  {
    if sorts then SortBytes(data) else data
  }

  /** What a value needs to survive in front of other bytes: embedded pointers are set (and can
      be set by the decoder), a present optional field has between 1 and 2^32-1 bytes, map entries
      can be looked up, the bytes at the head of an object, or from there on if it is shorter than
      a code, lead its interface back to its type, and at most one element of a sequence that is
      validated for order and duplicates is empty. */
  predicate Faithful(R: Registry, s: Schema, v: Value, given: TypeSettings, vld: bool, rest: Bytes)
    decreases v, 1
  {
    match s.kind
    case Struct(fields) => FaithfulStruct(R, fields, v, vld, rest)
    case Ptr(elem) => elem.kind.Struct? ==> FaithfulStruct(R, elem.kind.fields, v, vld, rest)
    case Slice(elem) =>
      && v.VSlice? && FaithfulItems(R, elem, v.elems, Sorts(Settings(given, s)), vld, rest)
      && EmptiesOk(R, elem, v.elems, Rules(Settings(given, s)).mode, vld)
    case Map(key, val) =>
      && v.VMap? && FaithfulItems(R, EntrySchema(key, val), v.entries, true, vld, rest)
      && EmptiesOk(R, EntrySchema(key, val), v.entries, Rules(EnsureOrdering(Settings(given, s))).mode, vld)
    case Entry(key, val) =>
      && v.VEntry? && DirectLookup(key) && DirectLookup(val)
      && (var x := Encode(R, val, v.val, NoSettings, vld); x.Ok? && Faithful(R, key, v.key, NoSettings, vld, x.value + rest))
      && Faithful(R, val, v.val, NoSettings, vld, rest)
    case Interface(name) =>
      && v.VIface? && v.typ in R.objects
      && (var e := Encode(R, R.objects[v.typ], v.obj, Settings(given, s), vld); e.Ok? && Leads(R, name, v.typ, e.value + rest))
      && Faithful(R, R.objects[v.typ], v.obj, Settings(given, s), vld, rest)
    case _ => true
  }

  predicate FaithfulStruct(R: Registry, fields: seq<Field>, v: Value, vld: bool, rest: Bytes)
    decreases v, 0
  {
    v.VStruct? && FaithfulFields(R, fields, v.vals, vld, rest)
  }

  predicate EmptiesOk(R: Registry, s: Schema, vs: seq<Value>, mode: V.Mode, vld: bool)
  {
    var data := EncodeItems(R, s, vs, vld);
    vld && mode.noDups && mode.lexical && data.Ok? ==> multiset(data.value)[[]] <= 1
  }

  /** Every value in front of those that are written after it. */
  predicate FaithfulItems(R: Registry, s: Schema, vs: seq<Value>, sorts: bool, vld: bool, rest: Bytes)
    decreases vs
  {
    var data := EncodeItems(R, s, vs, vld);
    data.Ok? &&
    var o, d := Arranged(R, s, vs, sorts, vld), InOrder(data.value, sorts);
    forall k :: 0 <= k < |o| ==> o[k] in vs && Faithful(R, s, o[k], NoSettings, vld, Concat(d[k + 1..]) + rest)
  }

  predicate FaithfulFields(R: Registry, fields: seq<Field>, vs: seq<Value>, vld: bool, rest: Bytes)
    decreases vs
  {
    |fields| == |vs| &&
    (vs == [] ||
     (var tail := EncodeFields(R, fields[1..], vs[1..], vld);
      && tail.Ok? && FaithfulField(R, fields[0], vs[0], vld, tail.value + rest)
      && FaithfulFields(R, fields[1..], vs[1..], vld, rest)))
  }

  predicate FaithfulField(R: Registry, f: Field, v: Value, vld: bool, rest: Bytes)
    decreases v, 2
  {
    match f
    case Plain(s, tag) => Faithful(R, s, v, TagSettings(tag), vld, rest)
    case Optional(s, tag) =>
      v.VNil? ||
      (Faithful(R, s, v, TagSettings(tag), vld, rest) &&
       (var body := Encode(R, s, v, TagSettings(tag), vld); body.Ok? && 0 < |body.value| < 0x1_0000_0000))
    case Embedded(inner, pointer, exported) =>
      (pointer ==> exported) && FaithfulStruct(R, inner, v, vld, rest)
  }

  // ----- leaves ---------------------------------------------------------------------------

  lemma PrefixOfSum(a: Bytes, b: Bytes)
    ensures (a + b)[..|a|] == a && (a + b)[|a|..] == b
  {
  }

  /** A part, the next part, and what follows. */
  lemma Parts(a: Bytes, b: Bytes, t: Bytes)
    ensures (a + b) + t == a + (b + t)
    ensures (a + (b + t))[..|a|] == a && (a + (b + t))[|a|..] == b + t
    ensures (a + (b + t))[|a|..|a| + |b|] == b
  {
  }

  lemma LengthRoundTrip(ts: TypeSettings, len: nat, t: Bytes)
    requires LengthBytes(ts, len).Ok?
    ensures ReadLength(ts, LengthBytes(ts, len).value + t) == Ok((len, |LengthBytes(ts, len).value|))
  {
    var b := LengthBytes(ts, len).value;
    LittleEndianRoundTrip(len, |b|);
    PrefixOfSum(b, t);
  }

  lemma NumRoundTrip(n: int, w: nat, signed: bool, t: Bytes)
    requires InRange(n, w, signed)
    ensures 0 <= Unsigned(n, w) < Pow256(w)
    ensures var b := LittleEndian(Unsigned(n, w), w);
            Signed(FromLittleEndian((b + t)[..w]), w, signed) == n
  {
    assert signed ==> Pow256(w) == 256 * Pow256(w - 1);
    var u := Unsigned(n, w);
    LittleEndianRoundTrip(u, w);
    PrefixOfSum(LittleEndian(u, w), t);
  }

  lemma CodeRoundTrip(o: Option<ObjectType>, t: Bytes)
    ensures ReadCode(o, CodeBytes(o) + t) == Ok(|CodeBytes(o)|)
    ensures o.Some? ==> |CodeBytes(o)| == CodeWidth(o.value.Uint32Code?)
    ensures o.Some? ==> FromLittleEndian(CodeBytes(o)) == Code(o.value)
  {
    PrefixOfSum(CodeBytes(o), t);
    if o.Some? {
      Pow256Values();
      LittleEndianRoundTrip(Code(o.value), CodeWidth(o.value.Uint32Code?));
    }
  }

  lemma StrRoundTrip(x: Bytes, ts: TypeSettings, vld: bool, t: Bytes)
    requires EncodeStr(x, ts, vld).Ok?
    ensures var b := EncodeStr(x, ts, vld).value;
            DecodeStr(b + t, ts, vld) == Ok((VBytes(x), |b|))
  {
    var len := LengthBytes(ts, |x|).value;
    LengthRoundTrip(ts, |x|, x + t);
    Parts(len, x, t);
  }

  lemma ByteSliceRoundTrip(x: Bytes, ts: TypeSettings, t: Bytes)
    requires EncodeByteSlice(x, ts).Ok?
    ensures var b := EncodeByteSlice(x, ts).value;
            DecodeByteSlice(b + t, ts) == Ok((VBytes(x), |b|))
  {
    var len := LengthBytes(ts, |x|).value;
    LengthRoundTrip(ts, |x|, x + t);
    Parts(len, x, t);
  }

  // ----- sequences --------------------------------------------------------------------------

  lemma RepeatedElement<T>(a: seq<T>, i: nat, j: nat)
    requires i < j < |a| && a[i] == a[j]
    ensures multiset(a)[a[i]] >= 2
  {
    assert a == a[..j] + [a[j]] + a[j + 1..];
    assert a[i] in a[..j];
    assert multiset(a[..j])[a[i]] >= 1;
  }

  lemma {:induction false} TwoPositions<T>(a: seq<T>, x: T) returns (i: nat, j: nat)
    requires multiset(a)[x] >= 2
    ensures i < j < |a| && a[i] == x && a[j] == x
  {
    assert a == [a[0]] + a[1..];
    if a[0] == x {
      assert multiset(a[1..])[x] >= 1;
      assert x in a[1..];
      var k :| 0 <= k < |a[1..]| && a[1..][k] == x;
      i, j := 0, k + 1;
    } else {
      i, j := TwoPositions(a[1..], x);
      i, j := i + 1, j + 1;
    }
  }

  /** The reader's validators accept what the writer's accepted if they agree on empty elements. */
  lemma ReaderAccepts(mode: V.Mode, data: seq<Bytes>)
    requires V.Accepts(mode, V.Writer, data)
    requires mode.noDups && mode.lexical ==> multiset(data)[[]] <= 1
    ensures V.Accepts(mode, V.Reader, data)
  {
    V.AcceptsIff(mode, V.Writer, data);
    V.AcceptsIff(mode, V.Reader, data);
    if mode.noDups && mode.lexical {
      forall i, j | 0 <= i < j < |data| ensures data[i] != data[j] {
        if data[i] == data[j] {
          RepeatedElement(data, i, j);
        }
      }
    }
  }

  // ----- the order in which items are written ---------------------------------------------------

  predicate AllOk(R: Registry, s: Schema, vs: seq<Value>, vld: bool)
  {
    forall i :: 0 <= i < |vs| ==> Encode(R, s, vs[i], NoSettings, vld).Ok?
  }

  lemma {:induction false} ItemsOk(R: Registry, s: Schema, vs: seq<Value>, vld: bool)
    ensures EncodeItems(R, s, vs, vld).Ok? <==> AllOk(R, s, vs, vld)
  {
    if vs != [] {
      ItemsOk(R, s, vs[1..], vld);
      assert forall i :: 0 < i < |vs| ==> vs[i] == vs[1..][i - 1];
      assert forall i :: 0 <= i < |vs| - 1 ==> vs[1..][i] == vs[i + 1];
    }
  }

  /** The values of a sequence in the order they are written, and their encodings. */
  ghost predicate Written(R: Registry, s: Schema, vs: seq<Value>, o: seq<Value>, d: seq<Bytes>, vld: bool)
  {
    && |o| == |d| && multiset(o) == multiset(vs)
    && forall k :: 0 <= k < |o| ==> o[k] in vs && Encode(R, s, o[k], NoSettings, vld) == Ok(d[k])
  }

  lemma WrittenInOrder(R: Registry, s: Schema, vs: seq<Value>, sorts: bool, vld: bool)
    requires EncodeItems(R, s, vs, vld).Ok?
    ensures Written(R, s, vs, Arranged(R, s, vs, sorts, vld), InOrder(EncodeItems(R, s, vs, vld).value, sorts), vld)
  {
    hide Encode, EncodeItems, Sort, SortBytes, Zip;
    var data := EncodeItems(R, s, vs, vld).value;
    var o, d := Arranged(R, s, vs, sorts, vld), InOrder(data, sorts);
    if sorts {
      SortedEncodings(R, s, vs, data, vld);
      assert o == Vals(Sort(Zip(data, vs))) && d == SortBytes(data);
    }
    hide Arranged, InOrder;
    assert forall k :: 0 <= k < |o| ==> Encode(R, s, o[k], NoSettings, vld) == Ok(d[k]);
  }

  lemma SortedEncodings(R: Registry, s: Schema, vs: seq<Value>, data: seq<Bytes>, vld: bool)
    requires |data| == |vs| && forall i :: 0 <= i < |vs| ==> Encode(R, s, vs[i], NoSettings, vld) == Ok(data[i])
    ensures var o, d := Vals(Sort(Zip(data, vs))), SortBytes(data);
            forall k :: 0 <= k < |o| ==> Encode(R, s, o[k], NoSettings, vld) == Ok(d[k])
  {
    hide Encode, Sort, SortBytes, Zip;
    var items := Sort(Zip(data, vs));
    SortZip(data, vs);
    forall k | 0 <= k < |items| ensures Encode(R, s, items[k].val, NoSettings, vld) == Ok(items[k].key) {
      var i := PositionOf(Zip(data, vs), items, k);
      assert Keys(Zip(data, vs))[i] == data[i] && Vals(Zip(data, vs))[i] == vs[i];
    }
  }

  function Canons(R: Registry, s: Schema, vs: seq<Value>, vld: bool): (cs: seq<Value>)
    ensures |cs| == |vs|
    ensures forall i :: 0 <= i < |vs| ==> cs[i] == Canon(R, s, vs[i], NoSettings, vld)
  {
    seq(|vs|, i requires 0 <= i < |vs| => Canon(R, s, vs[i], NoSettings, vld))
  }

  lemma CanonsInOrder(R: Registry, s: Schema, vs: seq<Value>, sorts: bool, vld: bool)
    ensures CanonItems(R, s, vs, sorts, vld) == Canons(R, s, Arranged(R, s, vs, sorts, vld), vld)
  {
  }

  // ----- MustOccur and map keys under canonical form ------------------------------------------

  lemma MustOccurArranged(R: Registry, elem: Schema, vs: seq<Value>, o: seq<Value>, ts: TypeSettings, vld: bool)
    requires multiset(o) == multiset(vs) && MustOccur(R, elem, vs, ts)
    ensures MustOccur(R, elem, Canons(R, elem, o, vld), ts)
  {
    var required, cs := Rules(ts).mustOccur, Canons(R, elem, o, vld);
    if required != {} {
      forall k | 0 <= k < |cs| ensures ElementCode(R, elem, cs[k]).Ok? {
        var i := PositionOf(vs, o, k);
        CanonElementCode(R, elem, o[k], vld);
      }
      forall c | c in required ensures exists k :: 0 <= k < |cs| && ElementCode(R, elem, cs[k]) == Ok(c) {
        var i :| 0 <= i < |vs| && ElementCode(R, elem, vs[i]) == Ok(c);
        var k := PositionOf(o, vs, i);
        CanonElementCode(R, elem, o[k], vld);
        assert ElementCode(R, elem, cs[k]) == Ok(c);
      }
    }
  }

  lemma CanonElementCode(R: Registry, elem: Schema, v: Value, vld: bool)
    ensures ElementCode(R, elem, Canon(R, elem, v, NoSettings, vld)) == ElementCode(R, elem, v)
  {
  }

  /** Nothing inside a map key is reordered. */
  lemma {:induction false} CanonByContent(R: Registry, s: Schema, v: Value, given: TypeSettings, vld: bool)
    requires ByContent(s)
    ensures Canon(R, s, v, given, vld) == v
    decreases v, 0
  {
    if s.kind.Struct? && v.VStruct? && |s.kind.fields| == |v.vals| {
      CanonByContentFields(R, s.kind.fields, v.vals, vld);
    }
  }

  lemma {:induction false} CanonByContentFields(R: Registry, fields: seq<Field>, vs: seq<Value>, vld: bool)
    requires |fields| == |vs| && forall f :: f in fields ==> ByContentField(f)
    ensures CanonFields(R, fields, vs, vld) == vs
    decreases vs
  {
    if vs != [] {
      var f, v := fields[0], vs[0];
      assert ByContentField(f);
      match f {
        case Plain(s, tag) => CanonByContent(R, s, v, TagSettings(tag), vld);
        case Optional(s, tag) => CanonByContent(R, s, v, TagSettings(tag), vld);
        case Embedded(inner, _, _) =>
          if v.VStruct? && |inner| == |v.vals| {
            CanonByContentFields(R, inner, v.vals, vld);
          }
          assert CanonStruct(R, inner, v, vld) == v;
      }
      CanonByContentFields(R, fields[1..], vs[1..], vld);
    }
  }

  lemma CanonEntriesDistinct(R: Registry, key: Schema, val: Schema, vs: seq<Value>, vld: bool)
    requires ByContent(key) && DistinctKeys(vs)
    ensures DistinctKeys(Canons(R, EntrySchema(key, val), vs, vld))
  {
    var cs := Canons(R, EntrySchema(key, val), vs, vld);
    forall i | 0 <= i < |vs| ensures cs[i].VEntry? && cs[i].key == vs[i].key {
      CanonByContent(R, key, vs[i].key, NoSettings, vld);
    }
  }

  lemma DistinctKeysPermuted(a: seq<Value>, b: seq<Value>)
    requires multiset(a) == multiset(b) && DistinctKeys(a)
    ensures DistinctKeys(b)
  {
    forall k | 0 <= k < |b| ensures b[k].VEntry? {
      var i := PositionOf(a, b, k);
      assert a[i].VEntry?;
    }
    forall k, l | 0 <= k < l < |b| ensures b[k].key != b[l].key {
      var i := PositionOf(a, b, k);
      var j := PositionOf(a, b, l);
      if i == j {
        RepeatedElement(b, k, l);
        i, j := TwoPositions(a, b[k]);
      }
      assert a[i].key != a[j].key;
    }
  }

  // ----- the induction ------------------------------------------------------------------------

  /** Decoding an encoding in front of other bytes yields the value in canonical form and
      consumes exactly the encoding. */
  lemma {:induction false} RoundTrip(R: Registry, s: Schema, v: Value, given: TypeSettings, vld: bool, t: Bytes)
    requires Registered(R)
    requires Encode(R, s, v, given, vld).Ok? && Faithful(R, s, v, given, vld, t)
    ensures var b := Encode(R, s, v, given, vld).value;
            Decode(R, s, b + t, given, vld) == Ok((Canon(R, s, v, given, vld), |b|))
    decreases v, 2
  {
    match s.kind
    case Struct(fields) => StructRoundTrip(R, fields, v, Settings(given, s), vld, t);
    case Ptr(_) => PointerRoundTrip(R, s, v, given, vld, t);
    case Slice(_) => SliceRoundTrip(R, s, v, given, vld, t);
    case Map(_, _) => MapRoundTrip(R, s, v, given, vld, t);
    case Entry(_, _) => EntryRoundTrip(R, s, v, given, vld, t);
    case Interface(_) => InterfaceRoundTrip(R, s, v, given, vld, t);
    case _ => LeafRoundTrip(R, s, v, given, vld, t);
  }

  predicate Leaf(k: Kind)
  {
    k.Bool? || k.Num? || k.Uint256? || k.Str? || k.ByteSlice? || k.ByteArray?
  }

  lemma LeafRoundTrip(R: Registry, s: Schema, v: Value, given: TypeSettings, vld: bool, t: Bytes)
    requires Leaf(s.kind)
    requires Registered(R) && Encode(R, s, v, given, vld).Ok?
    ensures var b := Encode(R, s, v, given, vld).value;
            Decode(R, s, b + t, given, vld) == Ok((Canon(R, s, v, given, vld), |b|))
  {
    var ts := Settings(given, s);
    match s.kind
    case Bool =>
    case Num(w, signed) => NumRoundTrip(v.n, w, signed, t);
    case Uint256 =>
      LittleEndianRoundTrip(v.n, 32);
      PrefixOfSum(LittleEndian(v.n, 32), t);
    case Str => StrRoundTrip(v.bytes, ts, vld, t);
    case ByteSlice => ByteSliceRoundTrip(v.bytes, ts, t);
    case ByteArray(n) => ArrayRoundTrip(n, v, ts, t);
  }

  lemma ArrayRoundTrip(n: nat, v: Value, ts: TypeSettings, t: Bytes)
    requires EncodeArray(n, v, ts).Ok?
    ensures var b := EncodeArray(n, v, ts).value; DecodeArray(n, b + t, ts) == Ok((v, |b|))
  {
    CodeRoundTrip(ts.objectType, v.bytes + t);
    Parts(CodeBytes(ts.objectType), v.bytes, t);
  }

  lemma {:induction false} StructRoundTrip(R: Registry, fields: seq<Field>, v: Value, ts: TypeSettings, vld: bool, t: Bytes)
    requires Registered(R)
    requires EncodeStruct(R, fields, v, ts, vld).Ok? && FaithfulStruct(R, fields, v, vld, t)
    ensures var b := EncodeStruct(R, fields, v, ts, vld).value;
            DecodeStruct(R, fields, b + t, ts, vld) == Ok((CanonStruct(R, fields, v, vld), |b|))
    decreases v, 0
  {
    var o := ts.objectType;
    var body := EncodeFields(R, fields, v.vals, vld).value;
    CodeRoundTrip(o, body + t);
    Parts(CodeBytes(o), body, t);
    FieldsRoundTrip(R, fields, v.vals, vld, t);
  }

  lemma {:induction false} PointerRoundTrip(R: Registry, s: Schema, v: Value, given: TypeSettings, vld: bool, t: Bytes)
    requires s.kind.Ptr?
    requires Registered(R)
    requires Encode(R, s, v, given, vld).Ok? && Faithful(R, s, v, given, vld, t)
    ensures var b := Encode(R, s, v, given, vld).value;
            Decode(R, s, b + t, given, vld) == Ok((Canon(R, s, v, given, vld), |b|))
    decreases v, 1
  {
    hide EncodeStruct, DecodeStruct, CanonStruct, FaithfulStruct, EncodeArray, DecodeArray;
    var ts, elem := Settings(given, s), s.kind.elem;
    match elem.kind
    case Struct(fields) =>
      StructRoundTrip(R, fields, v, ts, vld, t);
      assert DecodeKind(R, elem.kind, EncodeStruct(R, fields, v, ts, vld).value + t, ts, vld).Ok?;
    case ByteArray(n) =>
      ArrayRoundTrip(n, v, ts, t);
      assert DecodeKind(R, elem.kind, EncodeArray(n, v, ts).value + t, ts, vld).Ok?;
  }

  lemma {:induction false} SliceRoundTrip(R: Registry, s: Schema, v: Value, given: TypeSettings, vld: bool, t: Bytes)
    requires s.kind.Slice?
    requires Registered(R)
    requires Encode(R, s, v, given, vld).Ok? && Faithful(R, s, v, given, vld, t)
    ensures var b := Encode(R, s, v, given, vld).value;
            Decode(R, s, b + t, given, vld) == Ok((Canon(R, s, v, given, vld), |b|))
    decreases v, 0
  {
    hide EncodeItems, EncodeSequence, DecodeSequence, CanonItems, Arranged, FaithfulItems, EmptiesOk, MustOccur;
    var ts, elem := Settings(given, s), s.kind.elem;
    SequenceRoundTrip(R, elem, v.elems, ts, vld, t);
    var b := Encode(R, s, v, given, vld).value;
    assert Decode(R, s, b + t, given, vld) == DecodeSlice(R, elem, b + t, ts, vld);
    if vld {
      CanonsInOrder(R, elem, v.elems, Sorts(ts), vld);
      MustOccurArranged(R, elem, v.elems, Arranged(R, elem, v.elems, Sorts(ts), vld), ts, vld);
    }
  }

  lemma {:induction false} MapRoundTrip(R: Registry, s: Schema, v: Value, given: TypeSettings, vld: bool, t: Bytes)
    requires s.kind.Map?
    requires Registered(R)
    requires Encode(R, s, v, given, vld).Ok? && Faithful(R, s, v, given, vld, t)
    ensures var b := Encode(R, s, v, given, vld).value;
            Decode(R, s, b + t, given, vld) == Ok((Canon(R, s, v, given, vld), |b|))
    decreases v, 0
  {
    hide EncodeItems, EncodeSequence, DecodeSequence, CanonItems, Arranged, FaithfulItems, EmptiesOk;
    hide DistinctKeys, ByContent, Comparable;
    var ts, entry := Settings(given, s), EntrySchema(s.kind.key, s.kind.val);
    SequenceRoundTrip(R, entry, v.entries, EnsureOrdering(ts), vld, t);
    var b := Encode(R, s, v, given, vld).value;
    assert Decode(R, s, b + t, given, vld) == DecodeMap(R, s.kind.key, s.kind.val, b + t, ts, vld);
    if ByContent(s.kind.key) {
      CanonsInOrder(R, entry, v.entries, true, vld);
      var o := Arranged(R, entry, v.entries, true, vld);
      DistinctKeysPermuted(v.entries, o);
      CanonEntriesDistinct(R, s.kind.key, s.kind.val, o, vld);
    }
  }

  lemma {:induction false} EntryRoundTrip(R: Registry, s: Schema, v: Value, given: TypeSettings, vld: bool, t: Bytes)
    requires s.kind.Entry?
    requires Registered(R)
    requires Encode(R, s, v, given, vld).Ok? && Faithful(R, s, v, given, vld, t)
    ensures var b := Encode(R, s, v, given, vld).value;
            Decode(R, s, b + t, given, vld) == Ok((Canon(R, s, v, given, vld), |b|))
    decreases v, 0
  {
    var k := Encode(R, s.kind.key, v.key, NoSettings, vld).value;
    var x := Encode(R, s.kind.val, v.val, NoSettings, vld).value;
    Parts(k, x, t);
    assert Decode(R, s, k + x + t, given, vld) == DecodeEntry(R, s.kind.key, s.kind.val, k + x + t, vld);
    RoundTrip(R, s.kind.key, v.key, NoSettings, vld, x + t);
    RoundTrip(R, s.kind.val, v.val, NoSettings, vld, t);
  }

  lemma {:induction false} InterfaceRoundTrip(R: Registry, s: Schema, v: Value, given: TypeSettings, vld: bool, t: Bytes)
    requires s.kind.Interface?
    requires Registered(R)
    requires Encode(R, s, v, given, vld).Ok? && Faithful(R, s, v, given, vld, t)
    ensures var b := Encode(R, s, v, given, vld).value;
            Decode(R, s, b + t, given, vld) == Ok((Canon(R, s, v, given, vld), |b|))
    decreases v, 0
  {
    var ts, obj := Settings(given, s), R.objects[v.typ];
    var e := Encode(R, obj, v.obj, ts, vld).value;
    assert Decode(R, s, e + t, given, vld) == DecodeInterface(R, s.kind.name, e + t, ts, vld);
    assert Leads(R, s.kind.name, v.typ, e + t);
    RoundTrip(R, obj, v.obj, ts, vld, t);
    hide Decode, Encode, Faithful;
  }

  lemma {:induction false} FieldsRoundTrip(R: Registry, fields: seq<Field>, vs: seq<Value>, vld: bool, t: Bytes)
    requires Registered(R)
    requires EncodeFields(R, fields, vs, vld).Ok? && FaithfulFields(R, fields, vs, vld, t)
    ensures var b := EncodeFields(R, fields, vs, vld).value;
            DecodeFields(R, fields, b + t, vld) == Ok((CanonFields(R, fields, vs, vld), |b|))
    decreases vs, 0
  {
    if vs != [] {
      var head := EncodeField(R, fields[0], vs[0], vld).value;
      var tail := EncodeFields(R, fields[1..], vs[1..], vld).value;
      Parts(head, tail, t);
      FieldRoundTrip(R, fields[0], vs[0], vld, tail + t);
      FieldsRoundTrip(R, fields[1..], vs[1..], vld, t);
    }
  }

  /** The payload length in front of an optional field. */
  lemma OptionalBytes(body: Bytes, t: Bytes)
    ensures |body| < 0x1_0000_0000 ==>
              var b := LittleEndian(|body|, 4) + body + t;
              FromLittleEndian(b[..4]) == |body| && b[4..] == body + t
  {
    Pow256Values();
    var len := LittleEndian(|body|, 4);
    Parts(len, body, t);
    if |body| < 0x1_0000_0000 {
      LittleEndianRoundTrip(|body|, 4);
    }
  }

  lemma Untruncated(n: nat)
    requires n < 0x1_0000_0000
    ensures n % 0x1_0000_0000 == n
  {
  }

  lemma {:induction false} FieldRoundTrip(R: Registry, f: Field, v: Value, vld: bool, t: Bytes)
    requires Registered(R)
    requires EncodeField(R, f, v, vld).Ok? && FaithfulField(R, f, v, vld, t)
    ensures var b := EncodeField(R, f, v, vld).value;
            DecodeField(R, f, b + t, vld) == Ok((CanonField(R, f, v, vld), |b|))
    decreases v, 4
  {
    match f
    case Plain(s, tag) => RoundTrip(R, s, v, TagSettings(tag), vld, t);
    case Optional(_, _) => OptionalRoundTrip(R, f, v, vld, t);
    case Embedded(inner, _, _) => FieldsRoundTrip(R, inner, v.vals, vld, t);
  }

  lemma {:induction false} OptionalRoundTrip(R: Registry, f: Field, v: Value, vld: bool, t: Bytes)
    requires f.Optional?
    requires Registered(R)
    requires EncodeField(R, f, v, vld).Ok? && FaithfulField(R, f, v, vld, t)
    ensures var b := EncodeField(R, f, v, vld).value;
            DecodeField(R, f, b + t, vld) == Ok((CanonField(R, f, v, vld), |b|))
    decreases v, 3
  {
    if v.VNil? {
      LittleEndianRoundTrip(0, 4);
      PrefixOfSum(LittleEndian(0, 4), t);
    } else {
      var body := Encode(R, f.schema, v, TagSettings(f.tag), vld).value;
      Untruncated(|body|);
      assert EncodeField(R, f, v, vld) == Ok(LittleEndian(|body|, 4) + body);
      OptionalBytes(body, t);
      RoundTrip(R, f.schema, v, TagSettings(f.tag), vld, t);
      OptionalStep(R, f, LittleEndian(|body|, 4) + body + t, vld, CanonField(R, f, v, vld), |body|);
    }
  }

  lemma OptionalStep(R: Registry, f: Field, b: Bytes, vld: bool, v: Value, n: nat)
    requires Registered(R) && f.Optional? && Nilable(f.schema) && |b| >= 4 && FromLittleEndian(b[..4]) == n > 0
    requires Decode(R, f.schema, b[4..], TagSettings(f.tag), vld) == Ok((v, n))
    ensures DecodeField(R, f, b, vld) == Ok((v, 4 + n))
  {
  }

  lemma {:induction false} SequenceRoundTrip(R: Registry, elem: Schema, vs: seq<Value>, ts: TypeSettings, vld: bool,
                                             t: Bytes)
    requires Registered(R)
    requires FaithfulItems(R, elem, vs, Sorts(ts), vld, t) && EmptiesOk(R, elem, vs, Rules(ts).mode, vld)
    requires EncodeItems(R, elem, vs, vld).Ok? && EncodeSequence(EncodeItems(R, elem, vs, vld).value, ts, vld).Ok?
    ensures var b := EncodeSequence(EncodeItems(R, elem, vs, vld).value, ts, vld).value;
            DecodeSequence(R, elem, b + t, ts, vld)
            == Ok((CanonItems(R, elem, vs, Sorts(ts), vld), |b|))
    decreases vs, 2
  {
    hide Encode, Decode, Faithful, DecodeItems, DecodeSequence, EncodeItems, EncodeSequence, CanonItems, Canons;
    hide Arranged, InOrder, Concat, Written, Sorts, Rules;
    CanonsInOrder(R, elem, vs, Sorts(ts), vld);
    var o := Arranged(R, elem, vs, Sorts(ts), vld);
    var data := EncodeItems(R, elem, vs, vld).value;
    var d := InOrder(data, Sorts(ts));
    WrittenInOrder(R, elem, vs, Sorts(ts), vld);
    ItemsRoundTrip(R, elem, vs, o, d, 0, vld, t);
    assert d[0..] == d && o[0..] == o;
    FrameRoundTrip(R, elem, data, d, Canons(R, elem, o, vld), Concat(d), ts, vld, t);
  }

  /** The frame around the items: length prefix, bounds, validators. */
  lemma FrameRoundTrip(R: Registry, elem: Schema, data: seq<Bytes>, ordered: seq<Bytes>, vs: seq<Value>, body: Bytes,
                       ts: TypeSettings, vld: bool, t: Bytes)
    requires Registered(R)
    requires EncodeSequence(data, ts, vld).Ok?
    requires ordered == InOrder(data, Sorts(ts)) && body == Concat(ordered)
    requires vld && Rules(ts).mode.noDups && Rules(ts).mode.lexical ==> multiset(data)[[]] <= 1
    requires DecodeItems(R, elem, body + t, |ordered|, vld) == Ok((vs, ordered))
    ensures var b := EncodeSequence(data, ts, vld).value;
            DecodeSequence(R, elem, b + t, ts, vld) == Ok((vs, |b|))
  {
    hide DecodeItems, Concat, V.Accepts, SortBytes;
    var len := LengthBytes(ts, |data|).value;
    Parts(len, body, t);
    LengthRoundTrip(ts, |data|, body + t);
    if vld {
      assert multiset(ordered) == multiset(data);
      ReaderAccepts(Rules(ts).mode, ordered);
    }
    var b := EncodeSequence(data, ts, vld).value;
    assert b == len + body;
    assert b + t == len + (body + t);
    SequenceStep(R, elem, b + t, ts, vld, vs, ordered, |len|);
  }

  lemma SequenceStep(R: Registry, elem: Schema, b: Bytes, ts: TypeSettings, vld: bool, vs: seq<Value>,
                     data: seq<Bytes>, w: nat)
    requires Registered(R)
    requires ReadLength(ts, b) == Ok((|data|, w)) && (vld ==> InBounds(ts, |data|))
    requires DecodeItems(R, elem, b[w..], |data|, vld) == Ok((vs, data))
    requires vld ==> V.Accepts(Rules(ts).mode, V.Reader, data)
    ensures DecodeSequence(R, elem, b, ts, vld) == Ok((vs, w + |Concat(data)|))
  {
  }

  lemma {:induction false} ItemsRoundTrip(R: Registry, elem: Schema, vs: seq<Value>, o: seq<Value>, d: seq<Bytes>,
                                          k: nat, vld: bool, t: Bytes)
    requires Registered(R) && Written(R, elem, vs, o, d, vld) && k <= |o|
    requires forall i :: k <= i < |o| ==> Faithful(R, elem, o[i], NoSettings, vld, Concat(d[i + 1..]) + t)
    ensures DecodeItems(R, elem, Concat(d[k..]) + t, |d[k..]|, vld) == Ok((Canons(R, elem, o[k..], vld), d[k..]))
    decreases vs, 1, |o| - k
  {
    hide Decode, Encode, Canon, Faithful, DecodeItems, Canons, Concat;
    if k == |o| {
      NoItems(R, elem, o[k..], d[k..], vld, t);
    } else {
      RoundTrip(R, elem, o[k], NoSettings, vld, Concat(d[k + 1..]) + t);
      ItemsRoundTrip(R, elem, vs, o, d, k + 1, vld, t);
      assert o[k..] == [o[k]] + o[k + 1..] && d[k..] == [d[k]] + d[k + 1..];
      ItemsCons(R, elem, o[k], o[k + 1..], d[k], d[k + 1..], vld, t);
    }
  }

  lemma NoItems(R: Registry, elem: Schema, o: seq<Value>, d: seq<Bytes>, vld: bool, t: Bytes)
    requires Registered(R) && o == [] && d == []
    ensures DecodeItems(R, elem, Concat(d) + t, |d|, vld) == Ok((Canons(R, elem, o, vld), d))
  {
  }

  lemma ItemsCons(R: Registry, elem: Schema, v: Value, o: seq<Value>, e: Bytes, d: seq<Bytes>, vld: bool, t: Bytes)
    requires Registered(R)
    requires Decode(R, elem, e + (Concat(d) + t), NoSettings, vld) == Ok((Canon(R, elem, v, NoSettings, vld), |e|))
    requires DecodeItems(R, elem, Concat(d) + t, |d|, vld) == Ok((Canons(R, elem, o, vld), d))
    ensures DecodeItems(R, elem, Concat([e] + d) + t, |[e] + d|, vld) == Ok((Canons(R, elem, [v] + o, vld), [e] + d))
  {
    hide Decode, Canon, Canons;
    CanonsCons(R, elem, v, o, vld);
    ItemStep(R, elem, Canon(R, elem, v, NoSettings, vld), Canons(R, elem, o, vld), e, d, vld, t);
  }

  lemma ItemStep(R: Registry, elem: Schema, c: Value, cs: seq<Value>, e: Bytes, d: seq<Bytes>, vld: bool, t: Bytes)
    requires Registered(R) && Decode(R, elem, e + (Concat(d) + t), NoSettings, vld) == Ok((c, |e|))
    requires DecodeItems(R, elem, Concat(d) + t, |d|, vld) == Ok((cs, d))
    ensures DecodeItems(R, elem, Concat([e] + d) + t, |[e] + d|, vld) == Ok(([c] + cs, [e] + d))
  {
    hide Decode;
    assert ([e] + d)[1..] == d;
    Parts(e, Concat(d), t);
  }

  lemma CanonsCons(R: Registry, s: Schema, v: Value, vs: seq<Value>, vld: bool)
    ensures Canons(R, s, [v] + vs, vld) == [Canon(R, s, v, NoSettings, vld)] + Canons(R, s, vs, vld)
  {
  }
}
