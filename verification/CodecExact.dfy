/** Exactly which encoded values decode to themselves. */
module CodecExact {
  import opened ByteStrings
  import opened Codec
  import opened CodecRoundTrip
  import CodecCanonical
  import V = Validators

  // ----- the size of a decoded value ---------------------------------------------------------

  function PrefixSize(ts: TypeSettings): nat
  {
    match ts.prefix
    case Some(AsByte) => 1
    case Some(AsUint16) => 2
    case Some(AsUint32) => 4
    case _ => 0
  }

  /** How many bytes a value stands for. */
  function Size(R: Registry, s: Schema, v: Value, given: TypeSettings): nat
    decreases v, 3
  {
    KindSize(R, s.kind, v, Settings(given, s))
  }

  function KindSize(R: Registry, k: Kind, v: Value, ts: TypeSettings): nat
    decreases v, 2, k
  {
    match k
    case Bool => 1
    case Num(w, _) => w
    case Uint256 => 32
    case Str => if v.VBytes? then PrefixSize(ts) + |v.bytes| else 0
    case ByteSlice => if v.VBytes? then PrefixSize(ts) + |v.bytes| else 0
    case ByteArray(n) => |CodeBytes(ts.objectType)| + n
    case Struct(fields) => StructSize(R, fields, v, ts)
    case Slice(elem) => if v.VSlice? then PrefixSize(ts) + ItemsSize(R, elem, v.elems) else 0
    case Map(key, val) => if v.VMap? then PrefixSize(ts) + ItemsSize(R, EntrySchema(key, val), v.entries) else 0
    case Entry(key, val) =>
      if v.VEntry? then Size(R, key, v.key, NoSettings) + Size(R, val, v.val, NoSettings) else 0
    case Ptr(elem) => KindSize(R, elem.kind, v, Pointed(ts, elem))
    case Interface(_) => if v.VIface? && v.typ in R.objects then Size(R, R.objects[v.typ], v.obj, ts) else 0
  }

  function StructSize(R: Registry, fields: seq<Field>, v: Value, ts: TypeSettings): nat
    decreases v, 1
  {
    |CodeBytes(ts.objectType)| + if v.VStruct? && |v.vals| == |fields| then FieldsSize(R, fields, v.vals) else 0
  }

  function ItemsSize(R: Registry, s: Schema, vs: seq<Value>): nat
    decreases vs
  {
    if vs == [] then 0 else Size(R, s, vs[0], NoSettings) + ItemsSize(R, s, vs[1..])
  }

  function FieldsSize(R: Registry, fields: seq<Field>, vs: seq<Value>): nat
    requires |fields| == |vs|
    decreases vs
  {
    if vs == [] then 0 else FieldSize(R, fields[0], vs[0]) + FieldsSize(R, fields[1..], vs[1..])
  }

  function FieldSize(R: Registry, f: Field, v: Value): nat
    decreases v, 4
  {
    match f
    case Plain(s, tag) => Size(R, s, v, TagSettings(tag))
    case Optional(s, tag) => 4 + if v.VNil? then 0 else Size(R, s, v, TagSettings(tag))
    case Embedded(inner, _, _) => if v.VStruct? && |v.vals| == |inner| then FieldsSize(R, inner, v.vals) else 0
  }

  // ----- decoding reads as many bytes ----------------------------------------------------------

  lemma CodeSize(o: Option<ObjectType>, b: Bytes)
    requires ReadCode(o, b).Ok?
    ensures ReadCode(o, b).value == |CodeBytes(o)|
  {
  }

  lemma {:induction false} DecodedSize(R: Registry, s: Schema, b: Bytes, given: TypeSettings, vld: bool)
    requires Registered(R) && Decode(R, s, b, given, vld).Ok?
    ensures Size(R, s, Decode(R, s, b, given, vld).value.0, given) == Decode(R, s, b, given, vld).value.1
    decreases |b|, Tier(s.kind, Settings(given, s)), s.kind, 2
  {
    DecodedKindSize(R, s.kind, b, Settings(given, s), vld);
  }

  lemma {:induction false} DecodedKindSize(R: Registry, k: Kind, b: Bytes, ts: TypeSettings, vld: bool)
    requires Registered(R) && DecodeKind(R, k, b, ts, vld).Ok?
    ensures KindSize(R, k, DecodeKind(R, k, b, ts, vld).value.0, ts) == DecodeKind(R, k, b, ts, vld).value.1
    decreases |b|, Tier(k, ts), k, 1
  {
    if Leaf(k) {
      DecodedLeafSize(R, k, b, ts, vld);
    } else {
      DecodedCompoundSize(R, k, b, ts, vld);
    }
  }

  lemma DecodedLeafSize(R: Registry, k: Kind, b: Bytes, ts: TypeSettings, vld: bool)
    requires Leaf(k) && Registered(R) && DecodeKind(R, k, b, ts, vld).Ok?
    ensures KindSize(R, k, DecodeKind(R, k, b, ts, vld).value.0, ts) == DecodeKind(R, k, b, ts, vld).value.1
  {
    hide InBounds, ValidUtf8;
    if k.ByteArray? {
      CodeSize(ts.objectType, b);
    }
  }

  lemma {:induction false} DecodedCompoundSize(R: Registry, k: Kind, b: Bytes, ts: TypeSettings, vld: bool)
    requires !Leaf(k) && Registered(R) && DecodeKind(R, k, b, ts, vld).Ok?
    ensures KindSize(R, k, DecodeKind(R, k, b, ts, vld).value.0, ts) == DecodeKind(R, k, b, ts, vld).value.1
    decreases |b|, Tier(k, ts), k, 0
  {
    hide MustOccur, DistinctKeys, Comparable, InBounds, DecodeSequence, ItemsSize, DecodeFields, FieldsSize;
    match k
    case Struct(fields) =>
      CodeSize(ts.objectType, b);
      DecodedFieldsSize(R, fields, b[ReadCode(ts.objectType, b).value..], vld);
    case Slice(elem) => DecodedSequenceSize(R, elem, b, ts, vld);
    case Map(key, val) => DecodedSequenceSize(R, EntrySchema(key, val), b, EnsureOrdering(ts), vld);
    case Entry(key, val) =>
      var n := Decode(R, key, b, NoSettings, vld).value.1;
      DecodedSize(R, key, b, NoSettings, vld);
      DecodedSize(R, val, b[n..], NoSettings, vld);
    case Ptr(elem) => DecodedKindSize(R, elem.kind, b, Pointed(ts, elem), vld);
    case Interface(name) =>
      var objs := R.interfaces[name];
      var t := objs.byCode[FromLittleEndian(b[..CodeWidth(objs.wide)])];
      DecodedSize(R, R.objects[t], b, ts, vld);
  }

  lemma {:induction false} DecodedSequenceSize(R: Registry, elem: Schema, b: Bytes, ts: TypeSettings, vld: bool)
    requires Registered(R) && DecodeSequence(R, elem, b, ts, vld).Ok?
    ensures var (vs, n) := DecodeSequence(R, elem, b, ts, vld).value;
            PrefixSize(ts) + ItemsSize(R, elem, vs) == n
    decreases |b|, 0
  {
    var (count, w) := ReadLength(ts, b).value;
    DecodedItemsSize(R, elem, b[w..], count, vld);
  }

  lemma {:induction false} DecodedItemsSize(R: Registry, elem: Schema, b: Bytes, count: nat, vld: bool)
    requires Registered(R) && DecodeItems(R, elem, b, count, vld).Ok?
    ensures var (vs, data) := DecodeItems(R, elem, b, count, vld).value;
            && ItemsSize(R, elem, vs) == |Concat(data)|
            && (forall k :: 0 <= k < count ==> |data[k]| == Size(R, elem, vs[k], NoSettings))
    decreases |b|, 3, elem.kind, count
  {
    if count > 0 {
      var (v, n) := Decode(R, elem, b, NoSettings, vld).value;
      var (vs, data) := DecodeItems(R, elem, b[n..], count - 1, vld).value;
      DecodedSize(R, elem, b, NoSettings, vld);
      DecodedItemsSize(R, elem, b[n..], count - 1, vld);
      assert ([v] + vs)[1..] == vs && ([b[..n]] + data)[1..] == data;
    }
  }

  lemma {:induction false} DecodedFieldsSize(R: Registry, fields: seq<Field>, b: Bytes, vld: bool)
    requires Registered(R) && DecodeFields(R, fields, b, vld).Ok?
    ensures var (vs, n) := DecodeFields(R, fields, b, vld).value;
            FieldsSize(R, fields, vs) == n
    decreases |b|, 2, fields, 0
  {
    if fields != [] {
      var (v, n) := DecodeField(R, fields[0], b, vld).value;
      var (vs, m) := DecodeFields(R, fields[1..], b[n..], vld).value;
      DecodedFieldSize(R, fields[0], b, vld);
      DecodedFieldsSize(R, fields[1..], b[n..], vld);
      assert ([v] + vs)[1..] == vs;
    }
  }

  lemma {:induction false} DecodedFieldSize(R: Registry, f: Field, b: Bytes, vld: bool)
    requires Registered(R) && DecodeField(R, f, b, vld).Ok?
    ensures FieldSize(R, f, DecodeField(R, f, b, vld).value.0) == DecodeField(R, f, b, vld).value.1
    decreases |b|, 2, f, 0
  {
    match f
    case Plain(s, tag) => DecodedSize(R, s, b, TagSettings(tag), vld);
    case Optional(s, tag) =>
      if FromLittleEndian(b[..4]) != 0 {
        CodecCanonical.DecodedNotNil(R, s, b[4..], TagSettings(tag), vld);
        DecodedSize(R, s, b[4..], TagSettings(tag), vld);
      }
    case Embedded(inner, _, _) => DecodedFieldsSize(R, inner, b, vld);
  }

  // ----- encoding writes as many bytes ------------------------------------------------------------

  lemma LengthSize(ts: TypeSettings, len: nat)
    requires LengthBytes(ts, len).Ok?
    ensures |LengthBytes(ts, len).value| == PrefixSize(ts)
  {
  }

  lemma {:induction false} EncodedSize(R: Registry, s: Schema, v: Value, given: TypeSettings, vld: bool)
    requires Encode(R, s, v, given, vld).Ok?
    ensures |Encode(R, s, v, given, vld).value| == Size(R, s, Canon(R, s, v, given, vld), given)
    decreases v, 2
  {
    match s.kind
    case Struct(fields) => EncodedStructSize(R, fields, v, Settings(given, s), vld);
    case Ptr(_) => EncodedPointerSize(R, s, v, given, vld);
    case Slice(_) => EncodedSliceSize(R, s, v, given, vld);
    case Map(_, _) => EncodedMapSize(R, s, v, given, vld);
    case Entry(_, _) => EncodedEntrySize(R, s, v, given, vld);
    case Interface(_) => EncodedInterfaceSize(R, s, v, given, vld);
    case _ => EncodedLeafSize(R, s, v, given, vld);
  }

  lemma EncodedLeafSize(R: Registry, s: Schema, v: Value, given: TypeSettings, vld: bool)
    requires Leaf(s.kind) && Encode(R, s, v, given, vld).Ok?
    ensures |Encode(R, s, v, given, vld).value| == Size(R, s, Canon(R, s, v, given, vld), given)
  {
    var ts := Settings(given, s);
    if s.kind.Str? || s.kind.ByteSlice? {
      LengthSize(ts, |v.bytes|);
    }
  }

  lemma {:induction false} EncodedStructSize(R: Registry, fields: seq<Field>, v: Value, ts: TypeSettings, vld: bool)
    requires EncodeStruct(R, fields, v, ts, vld).Ok?
    ensures |EncodeStruct(R, fields, v, ts, vld).value| == StructSize(R, fields, CanonStruct(R, fields, v, vld), ts)
    decreases v, 0
  {
    EncodedFieldsSize(R, fields, v.vals, vld);
  }

  lemma {:induction false} EncodedPointerSize(R: Registry, s: Schema, v: Value, given: TypeSettings, vld: bool)
    requires s.kind.Ptr? && Encode(R, s, v, given, vld).Ok?
    ensures |Encode(R, s, v, given, vld).value| == Size(R, s, Canon(R, s, v, given, vld), given)
    decreases v, 1
  {
    hide EncodeStruct, CanonStruct, StructSize;
    var ts, k := Settings(given, s), s.kind.elem.kind;
    assert Size(R, s, Canon(R, s, v, given, vld), given)
        == KindSize(R, k, Canon(R, s, v, given, vld), Pointed(ts, s.kind.elem));
    if k.Struct? {
      EncodedStructSize(R, k.fields, v, ts, vld);
    }
  }

  lemma {:induction false} EncodedSliceSize(R: Registry, s: Schema, v: Value, given: TypeSettings, vld: bool)
    requires s.kind.Slice? && Encode(R, s, v, given, vld).Ok?
    ensures |Encode(R, s, v, given, vld).value| == Size(R, s, Canon(R, s, v, given, vld), given)
    decreases v, 1
  {
    hide EncodeSequence, EncodeItems, CanonItems, ItemsSize, MustOccur, InBounds;
    EncodedSequenceSize(R, s.kind.elem, v.elems, Settings(given, s), vld);
  }

  lemma {:induction false} EncodedMapSize(R: Registry, s: Schema, v: Value, given: TypeSettings, vld: bool)
    requires s.kind.Map? && Encode(R, s, v, given, vld).Ok?
    ensures |Encode(R, s, v, given, vld).value| == Size(R, s, Canon(R, s, v, given, vld), given)
    decreases v, 1
  {
    hide EncodeSequence, EncodeItems, CanonItems, ItemsSize, DistinctKeys, Comparable, InBounds;
    EncodedSequenceSize(R, EntrySchema(s.kind.key, s.kind.val), v.entries, EnsureOrdering(Settings(given, s)), vld);
  }

  lemma {:induction false} EncodedEntrySize(R: Registry, s: Schema, v: Value, given: TypeSettings, vld: bool)
    requires s.kind.Entry? && Encode(R, s, v, given, vld).Ok?
    ensures |Encode(R, s, v, given, vld).value| == Size(R, s, Canon(R, s, v, given, vld), given)
    decreases v, 1
  {
    EncodedSize(R, s.kind.key, v.key, NoSettings, vld);
    EncodedSize(R, s.kind.val, v.val, NoSettings, vld);
  }

  lemma {:induction false} EncodedInterfaceSize(R: Registry, s: Schema, v: Value, given: TypeSettings, vld: bool)
    requires s.kind.Interface? && Encode(R, s, v, given, vld).Ok?
    ensures |Encode(R, s, v, given, vld).value| == Size(R, s, Canon(R, s, v, given, vld), given)
    decreases v, 1
  {
    EncodedSize(R, R.objects[v.typ], v.obj, Settings(given, s), vld);
  }

  lemma {:induction false} EncodedSequenceSize(R: Registry, elem: Schema, vs: seq<Value>, ts: TypeSettings, vld: bool)
    requires EncodeItems(R, elem, vs, vld).Ok? && EncodeSequence(EncodeItems(R, elem, vs, vld).value, ts, vld).Ok?
    ensures |EncodeSequence(EncodeItems(R, elem, vs, vld).value, ts, vld).value|
         == PrefixSize(ts) + ItemsSize(R, elem, CanonItems(R, elem, vs, Sorts(ts), vld))
    decreases vs, 1
  {
    hide EncodeItems, CanonItems, Arranged, Concat, ItemsSize, V.Accepts;
    var o, d := Arranged(R, elem, vs, Sorts(ts), vld), InOrder(EncodeItems(R, elem, vs, vld).value, Sorts(ts));
    LengthSize(ts, |vs|);
    WrittenInOrder(R, elem, vs, Sorts(ts), vld);
    CanonsInOrder(R, elem, vs, Sorts(ts), vld);
    WrittenSizes(R, elem, vs, o, d, vld);
    ConcatSize(R, elem, Canons(R, elem, o, vld), d);
  }

  /** Every written item has the size of the value it stands for. */
  lemma {:induction false} WrittenSizes(R: Registry, elem: Schema, vs: seq<Value>, o: seq<Value>, d: seq<Bytes>, vld: bool)
    requires Written(R, elem, vs, o, d, vld)
    ensures forall k :: 0 <= k < |o| ==> |d[k]| == Size(R, elem, Canons(R, elem, o, vld)[k], NoSettings)
    decreases vs, 0
  {
    hide Encode, Canon, Size;
    forall k | 0 <= k < |o| ensures |d[k]| == Size(R, elem, Canons(R, elem, o, vld)[k], NoSettings) {
      EncodedSize(R, elem, o[k], NoSettings, vld);
    }
  }

  lemma {:induction false} ConcatSize(R: Registry, elem: Schema, cs: seq<Value>, d: seq<Bytes>)
    requires |cs| == |d| && forall k :: 0 <= k < |d| ==> |d[k]| == Size(R, elem, cs[k], NoSettings)
    ensures |Concat(d)| == ItemsSize(R, elem, cs)
  {
    hide Size;
    if d != [] {
      assert forall i :: 0 <= i < |d| - 1 ==> d[1..][i] == d[i + 1] && cs[1..][i] == cs[i + 1];
      ConcatSize(R, elem, cs[1..], d[1..]);
    }
  }

  lemma {:induction false} EncodedFieldsSize(R: Registry, fields: seq<Field>, vs: seq<Value>, vld: bool)
    requires EncodeFields(R, fields, vs, vld).Ok?
    ensures |EncodeFields(R, fields, vs, vld).value| == FieldsSize(R, fields, CanonFields(R, fields, vs, vld))
    decreases vs, 0
  {
    if vs != [] {
      EncodedFieldSize(R, fields[0], vs[0], vld);
      EncodedFieldsSize(R, fields[1..], vs[1..], vld);
      assert CanonFields(R, fields, vs, vld)[1..] == CanonFields(R, fields[1..], vs[1..], vld);
    }
  }

  lemma {:induction false} EncodedFieldSize(R: Registry, f: Field, v: Value, vld: bool)
    requires EncodeField(R, f, v, vld).Ok?
    ensures |EncodeField(R, f, v, vld).value| == FieldSize(R, f, CanonField(R, f, v, vld))
    decreases v, 3
  {
    match f
    case Plain(s, tag) => EncodedSize(R, s, v, TagSettings(tag), vld);
    case Optional(s, tag) =>
      if !v.VNil? {
        EncodedSize(R, s, v, TagSettings(tag), vld);
        CanonNotNil(R, s, v, TagSettings(tag), vld);
      }
    case Embedded(inner, _, _) =>
      if v.VStruct? {
        EncodedFieldsSize(R, inner, v.vals, vld);
      }
  }

  lemma CanonNotNil(R: Registry, s: Schema, v: Value, given: TypeSettings, vld: bool)
    requires !v.VNil?
    ensures !Canon(R, s, v, given, vld).VNil?
  {
  }

  // ----- what decodes to itself is faithful ----------------------------------------------------------

  /** Whatever decodes to the canonical form of a value is as long as the value's encoding. */
  lemma SameSize(R: Registry, s: Schema, v: Value, given: TypeSettings, vld: bool, b: Bytes)
    requires Registered(R) && Encode(R, s, v, given, vld).Ok? && Decode(R, s, b, given, vld).Ok?
    requires Decode(R, s, b, given, vld).value.0 == Canon(R, s, v, given, vld)
    ensures Decode(R, s, b, given, vld).value.1 == |Encode(R, s, v, given, vld).value|
  {
    hide Decode, Encode, Canon, Size;
    EncodedSize(R, s, v, given, vld);
    DecodedSize(R, s, b, given, vld);
  }

  lemma SameFieldSize(R: Registry, f: Field, v: Value, vld: bool, b: Bytes)
    requires Registered(R) && EncodeField(R, f, v, vld).Ok? && DecodeField(R, f, b, vld).Ok?
    requires DecodeField(R, f, b, vld).value.0 == CanonField(R, f, v, vld)
    ensures DecodeField(R, f, b, vld).value.1 == |EncodeField(R, f, v, vld).value|
  {
    hide DecodeField, EncodeField, CanonField, FieldSize;
    EncodedFieldSize(R, f, v, vld);
    DecodedFieldSize(R, f, b, vld);
  }

  /** If the encoding of a value in front of other bytes decodes to the value's canonical form,
      the value is faithful there. */
  lemma {:induction false} FaithfulNeeded(R: Registry, s: Schema, v: Value, given: TypeSettings, vld: bool, t: Bytes)
    requires Registered(R) && Encode(R, s, v, given, vld).Ok?
    requires Gives(Decode(R, s, Encode(R, s, v, given, vld).value + t, given, vld), Canon(R, s, v, given, vld))
    ensures Faithful(R, s, v, given, vld, t)
    decreases v, 2
  {
    match s.kind
    case Struct(fields) =>
      var ts, b := Settings(given, s), Encode(R, s, v, given, vld).value + t;
      assert Decode(R, s, b, given, vld) == DecodeStruct(R, fields, b, ts, vld);
      StructNeeded(R, fields, v, ts, vld, t);
    case Ptr(_) => PointerNeeded(R, s, v, given, vld, t);
    case Slice(_) => SliceNeeded(R, s, v, given, vld, t);
    case Map(_, _) => MapNeeded(R, s, v, given, vld, t);
    case Entry(_, _) => EntryNeeded(R, s, v, given, vld, t);
    case Interface(_) => InterfaceNeeded(R, s, v, given, vld, t);
    case _ =>
  }

  predicate Gives(r: Outcome<(Value, nat)>, v: Value) { r.Ok? && r.value.0 == v }

  lemma {:induction false} StructNeeded(R: Registry, fields: seq<Field>, v: Value, ts: TypeSettings, vld: bool, t: Bytes)
    requires Registered(R) && EncodeStruct(R, fields, v, ts, vld).Ok?
    requires Gives(DecodeStruct(R, fields, EncodeStruct(R, fields, v, ts, vld).value + t, ts, vld), CanonStruct(R, fields, v, vld))
    ensures FaithfulStruct(R, fields, v, vld, t)
    decreases v, 0
  {
    hide EncodeFields, DecodeFields, CanonFields, FaithfulFields, ReadCode, CodeBytes;
    var o, body := ts.objectType, EncodeFields(R, fields, v.vals, vld).value;
    CodeRoundTrip(o, body + t);
    Parts(CodeBytes(o), body, t);
    FieldCount(R, fields, v.vals, vld);
    FieldsNeeded(R, fields, v.vals, vld, t);
  }

  lemma {:induction false} PointerNeeded(R: Registry, s: Schema, v: Value, given: TypeSettings, vld: bool, t: Bytes)
    requires s.kind.Ptr?
    requires Registered(R) && Encode(R, s, v, given, vld).Ok?
    requires Gives(Decode(R, s, Encode(R, s, v, given, vld).value + t, given, vld), Canon(R, s, v, given, vld))
    ensures Faithful(R, s, v, given, vld, t)
    decreases v, 1
  {
    hide EncodeStruct, DecodeStruct, CanonStruct, FaithfulStruct;
    var ts, elem := Settings(given, s), s.kind.elem;
    if elem.kind.Struct? {
      var fields := elem.kind.fields;
      var b := EncodeStruct(R, fields, v, ts, vld).value + t;
      assert Decode(R, s, b, given, vld) == DecodeKind(R, elem.kind, b, ts, vld) == DecodeStruct(R, fields, b, ts, vld);
      StructNeeded(R, fields, v, ts, vld, t);
    }
  }

  lemma FieldCount(R: Registry, fields: seq<Field>, vs: seq<Value>, vld: bool)
    requires EncodeFields(R, fields, vs, vld).Ok?
    ensures |fields| == |vs|
  {
  }

  lemma {:induction false} EntryNeeded(R: Registry, s: Schema, v: Value, given: TypeSettings, vld: bool, t: Bytes)
    requires s.kind.Entry?
    requires Registered(R) && Encode(R, s, v, given, vld).Ok?
    requires Gives(Decode(R, s, Encode(R, s, v, given, vld).value + t, given, vld), Canon(R, s, v, given, vld))
    ensures Faithful(R, s, v, given, vld, t)
    decreases v, 1
  {
    var key, val := s.kind.key, s.kind.val;
    var k, x := Encode(R, key, v.key, NoSettings, vld).value, Encode(R, val, v.val, NoSettings, vld).value;
    Parts(k, x, t);
    assert Decode(R, s, k + x + t, given, vld) == DecodeEntry(R, key, val, k + (x + t), vld);
    SameSize(R, key, v.key, NoSettings, vld, k + (x + t));
    FaithfulNeeded(R, key, v.key, NoSettings, vld, x + t);
    FaithfulNeeded(R, val, v.val, NoSettings, vld, t);
  }

  lemma {:induction false} InterfaceNeeded(R: Registry, s: Schema, v: Value, given: TypeSettings, vld: bool, t: Bytes)
    requires s.kind.Interface?
    requires Registered(R) && Encode(R, s, v, given, vld).Ok?
    requires Gives(Decode(R, s, Encode(R, s, v, given, vld).value + t, given, vld), Canon(R, s, v, given, vld))
    ensures Faithful(R, s, v, given, vld, t)
    decreases v, 1
  {
    var ts, e := Settings(given, s), Encode(R, s, v, given, vld).value;
    assert Decode(R, s, e + t, given, vld) == DecodeInterface(R, s.kind.name, e + t, ts, vld);
    FaithfulNeeded(R, R.objects[v.typ], v.obj, ts, vld, t);
  }

  lemma {:induction false} SliceNeeded(R: Registry, s: Schema, v: Value, given: TypeSettings, vld: bool, t: Bytes)
    requires s.kind.Slice?
    requires Registered(R) && Encode(R, s, v, given, vld).Ok?
    requires Gives(Decode(R, s, Encode(R, s, v, given, vld).value + t, given, vld), Canon(R, s, v, given, vld))
    ensures Faithful(R, s, v, given, vld, t)
    decreases v, 1
  {
    hide EncodeSequence, DecodeSequence, EncodeItems, CanonItems, MustOccur, InBounds, FaithfulItems, EmptiesOk;
    var ts, b := Settings(given, s), Encode(R, s, v, given, vld).value + t;
    assert Decode(R, s, b, given, vld) == DecodeSlice(R, s.kind.elem, b, ts, vld);
    SequenceNeeded(R, s.kind.elem, v.elems, ts, vld, t);
  }

  lemma {:induction false} MapNeeded(R: Registry, s: Schema, v: Value, given: TypeSettings, vld: bool, t: Bytes)
    requires s.kind.Map?
    requires Registered(R) && Encode(R, s, v, given, vld).Ok?
    requires Gives(Decode(R, s, Encode(R, s, v, given, vld).value + t, given, vld), Canon(R, s, v, given, vld))
    ensures Faithful(R, s, v, given, vld, t)
    decreases v, 1
  {
    hide EncodeSequence, DecodeSequence, EncodeItems, CanonItems, InBounds, FaithfulItems, EmptiesOk;
    hide DistinctKeys, ByContent, Comparable;
    var ts, b := Settings(given, s), Encode(R, s, v, given, vld).value + t;
    assert Decode(R, s, b, given, vld) == DecodeMap(R, s.kind.key, s.kind.val, b, ts, vld);
    SequenceNeeded(R, EntrySchema(s.kind.key, s.kind.val), v.entries, EnsureOrdering(ts), vld, t);
  }

  lemma {:induction false} SequenceNeeded(R: Registry, elem: Schema, vs: seq<Value>, ts: TypeSettings, vld: bool, t: Bytes)
    requires Registered(R)
    requires EncodeItems(R, elem, vs, vld).Ok? && EncodeSequence(EncodeItems(R, elem, vs, vld).value, ts, vld).Ok?
    requires var r := DecodeSequence(R, elem, EncodeSequence(EncodeItems(R, elem, vs, vld).value, ts, vld).value + t, ts, vld);
             r.Ok? && r.value.0 == CanonItems(R, elem, vs, Sorts(ts), vld)
    ensures FaithfulItems(R, elem, vs, Sorts(ts), vld, t) && EmptiesOk(R, elem, vs, Rules(ts).mode, vld)
    decreases vs, 2
  {
    hide Encode, Decode, Faithful, FaithfulItems, EmptiesOk, EncodeSequence, DecodeSequence, DecodeItems, EncodeItems;
    hide CanonItems, Canons, Arranged, Concat, V.Accepts, Written, Rules, InOrder, Sorts;
    var data := EncodeItems(R, elem, vs, vld).value;
    var o, d := Arranged(R, elem, vs, Sorts(ts), vld), InOrder(data, Sorts(ts));
    WrittenInOrder(R, elem, vs, Sorts(ts), vld);
    CanonsInOrder(R, elem, vs, Sorts(ts), vld);
    FrameNeeded(R, elem, data, d, Canons(R, elem, o, vld), ts, vld, t);
    assert d[0..] == d && o[0..] == o;
    ItemsNeeded(R, elem, vs, o, d, 0, vld, t);
    FaithfulInOrder(R, elem, vs, Sorts(ts), vld, t);
    if vld && Rules(ts).mode.noDups {
      FewEmpties(Rules(ts).mode, d);
    }
    EmptiesInOrder(R, elem, vs, Sorts(ts), Rules(ts).mode, vld);
  }

  lemma FaithfulInOrder(R: Registry, s: Schema, vs: seq<Value>, sorts: bool, vld: bool, t: Bytes)
    requires EncodeItems(R, s, vs, vld).Ok?
    requires var o, d := Arranged(R, s, vs, sorts, vld), InOrder(EncodeItems(R, s, vs, vld).value, sorts);
             forall i :: 0 <= i < |o| ==> Faithful(R, s, o[i], NoSettings, vld, Concat(d[i + 1..]) + t)
    ensures FaithfulItems(R, s, vs, sorts, vld, t)
  {
    hide Faithful, EncodeItems, Arranged, InOrder, Concat;
  }

  lemma EmptiesInOrder(R: Registry, s: Schema, vs: seq<Value>, sorts: bool, mode: V.Mode, vld: bool)
    requires EncodeItems(R, s, vs, vld).Ok?
    requires vld && mode.noDups ==> multiset(InOrder(EncodeItems(R, s, vs, vld).value, sorts))[[]] <= 1
    ensures EmptiesOk(R, s, vs, mode, vld)
  {
    hide EncodeItems;
  }

  /** Behind the length prefix the items are read, and the validators accept them. */
  lemma FrameNeeded(R: Registry, elem: Schema, data: seq<Bytes>, d: seq<Bytes>, cs: seq<Value>, ts: TypeSettings, vld: bool,
                    t: Bytes)
    requires Registered(R) && EncodeSequence(data, ts, vld).Ok? && d == InOrder(data, Sorts(ts))
    requires var r := DecodeSequence(R, elem, EncodeSequence(data, ts, vld).value + t, ts, vld); r.Ok? && r.value.0 == cs
    ensures var r := DecodeItems(R, elem, Concat(d) + t, |d|, vld);
            r.Ok? && r.value.0 == cs && (vld ==> V.Accepts(Rules(ts).mode, V.Reader, r.value.1))
  {
    hide DecodeItems, Concat, V.Accepts, SortBytes;
    var len := LengthBytes(ts, |data|).value;
    Parts(len, Concat(d), t);
    LengthRoundTrip(ts, |data|, Concat(d) + t);
  }

  lemma {:induction false} ItemsNeeded(R: Registry, elem: Schema, vs: seq<Value>, o: seq<Value>, d: seq<Bytes>, k: nat,
                                       vld: bool, t: Bytes)
    requires Registered(R) && Written(R, elem, vs, o, d, vld) && k <= |o|
    requires var r := DecodeItems(R, elem, Concat(d[k..]) + t, |d[k..]|, vld); r.Ok? && r.value.0 == Canons(R, elem, o[k..], vld)
    ensures forall i :: k <= i < |o| ==> Faithful(R, elem, o[i], NoSettings, vld, Concat(d[i + 1..]) + t)
    ensures DecodeItems(R, elem, Concat(d[k..]) + t, |d[k..]|, vld).value.1 == d[k..]
    decreases vs, 1, |o| - k
  {
    hide Decode, Encode, Canon, Canons, Faithful, DecodeItems, Concat;
    if k == |o| {
      NothingDecoded(R, elem, Concat(d[k..]) + t, vld);
      assert d[k..] == [];
    } else {
      assert o[k..] == [o[k]] + o[k + 1..] && d[k..] == [d[k]] + d[k + 1..];
      FirstItem(R, elem, o[k], o[k + 1..], d[k], d[k + 1..], vld, t);
      FaithfulNeeded(R, elem, o[k], NoSettings, vld, Concat(d[k + 1..]) + t);
      ItemsNeeded(R, elem, vs, o, d, k + 1, vld, t);
    }
  }

  lemma NothingDecoded(R: Registry, elem: Schema, b: Bytes, vld: bool)
    requires Registered(R)
    ensures DecodeItems(R, elem, b, 0, vld) == Ok(([], []))
  {
  }

  /** The first of several items is decoded from its own encoding, and the others from theirs. */
  lemma FirstItem(R: Registry, elem: Schema, v: Value, o: seq<Value>, e: Bytes, d: seq<Bytes>, vld: bool, t: Bytes)
    requires Registered(R) && Encode(R, elem, v, NoSettings, vld) == Ok(e)
    requires var r := DecodeItems(R, elem, Concat([e] + d) + t, |[e] + d|, vld); r.Ok? && r.value.0 == Canons(R, elem, [v] + o, vld)
    ensures Gives(Decode(R, elem, e + (Concat(d) + t), NoSettings, vld), Canon(R, elem, v, NoSettings, vld))
    ensures var r := DecodeItems(R, elem, Concat(d) + t, |d|, vld);
            && r.Ok? && r.value.0 == Canons(R, elem, o, vld)
            && DecodeItems(R, elem, Concat([e] + d) + t, |[e] + d|, vld).value.1 == [e] + r.value.1
  {
    hide Decode, Encode, Canon, Canons;
    CanonsCons(R, elem, v, o, vld);
    assert ([e] + d)[1..] == d;
    Parts(e, Concat(d), t);
    var b := e + (Concat(d) + t);
    assert Concat([e] + d) + t == b;
    var (c, n) := Decode(R, elem, b, NoSettings, vld).value;
    var rest := DecodeItems(R, elem, b[n..], |d|, vld).value;
    assert [c] + rest.0 == [Canon(R, elem, v, NoSettings, vld)] + Canons(R, elem, o, vld);
    SameHeads(c, rest.0, Canon(R, elem, v, NoSettings, vld), Canons(R, elem, o, vld));
    SameSize(R, elem, v, NoSettings, vld, b);
  }

  lemma SameHeads<T>(x: T, xs: seq<T>, y: T, ys: seq<T>)
    requires [x] + xs == [y] + ys
    ensures x == y && xs == ys
  {
    assert ([x] + xs)[0] == x && ([y] + ys)[0] == y;
    assert ([x] + xs)[1..] == xs && ([y] + ys)[1..] == ys;
  }

  lemma FewEmpties(mode: V.Mode, d: seq<Bytes>)
    requires V.Accepts(mode, V.Reader, d) && mode.noDups
    ensures multiset(d)[[]] <= 1
  {
    V.AcceptsIff(mode, V.Reader, d);
    if multiset(d)[[]] >= 2 {
      var i, j := TwoPositions(d, []);
    }
  }

  lemma {:induction false} FieldsNeeded(R: Registry, fields: seq<Field>, vs: seq<Value>, vld: bool, t: Bytes)
    requires Registered(R) && EncodeFields(R, fields, vs, vld).Ok? && |fields| == |vs|
    requires var r := DecodeFields(R, fields, EncodeFields(R, fields, vs, vld).value + t, vld);
             r.Ok? && r.value.0 == CanonFields(R, fields, vs, vld)
    ensures FaithfulFields(R, fields, vs, vld, t)
    decreases vs, 0
  {
    hide EncodeField, DecodeField, CanonField, FaithfulField;
    if vs != [] {
      var f, v, fs, ws := fields[0], vs[0], fields[1..], vs[1..];
      var head, tail := EncodeField(R, f, v, vld).value, EncodeFields(R, fs, ws, vld).value;
      Parts(head, tail, t);
      var b := head + (tail + t);
      var (c, n) := DecodeField(R, f, b, vld).value;
      SameHeads(c, DecodeFields(R, fs, b[n..], vld).value.0, CanonField(R, f, v, vld), CanonFields(R, fs, ws, vld));
      SameFieldSize(R, f, v, vld, b);
      FieldNeeded(R, f, v, vld, tail + t);
      FieldsNeeded(R, fs, ws, vld, t);
    }
  }

  lemma {:induction false} FieldNeeded(R: Registry, f: Field, v: Value, vld: bool, t: Bytes)
    requires Registered(R) && EncodeField(R, f, v, vld).Ok?
    requires Gives(DecodeField(R, f, EncodeField(R, f, v, vld).value + t, vld), CanonField(R, f, v, vld))
    ensures FaithfulField(R, f, v, vld, t)
    decreases v, 4
  {
    match f
    case Plain(s, tag) => FaithfulNeeded(R, s, v, TagSettings(tag), vld, t);
    case Optional(_, _) => OptionalNeeded(R, f, v, vld, t);
    case Embedded(inner, _, _) =>
      if v.VStruct? {
        FieldCount(R, inner, v.vals, vld);
        assert CanonField(R, f, v, vld) == CanonStruct(R, inner, v, vld);
        FieldsNeeded(R, inner, v.vals, vld, t);
      }
  }

  lemma {:induction false} OptionalNeeded(R: Registry, f: Field, v: Value, vld: bool, t: Bytes)
    requires f.Optional?
    requires Registered(R) && EncodeField(R, f, v, vld).Ok?
    requires Gives(DecodeField(R, f, EncodeField(R, f, v, vld).value + t, vld), CanonField(R, f, v, vld))
    ensures FaithfulField(R, f, v, vld, t)
    decreases v, 3
  {
    hide Encode, Decode, Canon, Faithful, LittleEndian, FromLittleEndian;
    if !v.VNil? {
      var ts := TagSettings(f.tag);
      var body := Encode(R, f.schema, v, ts, vld).value;
      var len := |body| % 0x1_0000_0000;
      CanonNotNil(R, f.schema, v, ts, vld);
      Pow256Values();
      LittleEndianRoundTrip(len, 4);
      Parts(LittleEndian(len, 4), body, t);
      SameSize(R, f.schema, v, ts, vld, body + t);
      FaithfulNeeded(R, f.schema, v, ts, vld, t);
    }
  }

  /** A value that can be encoded decodes to itself in front of other bytes exactly when it is
      faithful there. */
  lemma RoundTripExact(R: Registry, s: Schema, v: Value, given: TypeSettings, vld: bool, t: Bytes)
    requires Registered(R)
    ensures Encode(R, s, v, given, vld).Ok? ==>
      var b := Encode(R, s, v, given, vld).value;
      Decode(R, s, b + t, given, vld) == Ok((Canon(R, s, v, given, vld), |b|)) <==> Faithful(R, s, v, given, vld, t)
  {
    hide Decode, Encode, Canon, Faithful;
    var e := Encode(R, s, v, given, vld);
    if e.Ok? {
      if Faithful(R, s, v, given, vld, t) {
        RoundTrip(R, s, v, given, vld, t);
      } else if Decode(R, s, e.value + t, given, vld) == Ok((Canon(R, s, v, given, vld), |e.value|)) {
        FaithfulNeeded(R, s, v, given, vld, t);
      }
    }
  }

  // ----- the exceptions at work ------------------------------------------------------------------------

  const NoTag := Tag(None, None, None)

  function Untyped(fields: seq<Field>): Schema { Schema(Struct(fields), None) }

  function PtrTo(s: Schema): Schema { Schema(Ptr(s), None) }

  lemma UntypedCoded(R: Registry, fields: seq<Field>, vs: seq<Value>, b: Bytes, given: TypeSettings, vld: bool)
    requires Registered(R) && given.objectType.None?
    ensures Encode(R, Untyped(fields), VStruct(vs), given, vld) == EncodeFields(R, fields, vs, vld)
    ensures Decode(R, Untyped(fields), b, given, vld) ==
      match DecodeFields(R, fields, b, vld) case Ok(r) => Ok((VStruct(r.0), r.1)) case Fail => Fail
  {
    hide EncodeFields, DecodeFields;
    var e, s := EncodeFields(R, fields, vs, vld), Untyped(fields);
    assert Decode(R, s, b, given, vld) == DecodeStruct(R, fields, b, given, vld);
    assert e.Ok? ==> [] + e.value == e.value;
    assert b[0..] == b;
  }

  lemma OneField(R: Registry, f: Field, v: Value, b: Bytes, vld: bool)
    requires Registered(R)
    ensures EncodeFields(R, [f], [v], vld) == EncodeField(R, f, v, vld)
    ensures DecodeFields(R, [f], b, vld) ==
      match DecodeField(R, f, b, vld) case Ok(r) => Ok(([r.0], r.1)) case Fail => Fail
  {
    hide EncodeField, DecodeField;
    assert [f][1..] == [] && [v][1..] == [];
    assert EncodeFields(R, [], [], vld) == Ok([]);
    var e, d := EncodeField(R, f, v, vld), DecodeField(R, f, b, vld);
    assert e.Ok? ==> e.value + [] == e.value;
    assert d.Ok? ==> DecodeFields(R, [], b[d.value.1..], vld) == Ok(([], 0)) && [d.value.0] + [] == [d.value.0];
  }

  /** A present optional field that encodes to no bytes comes back absent. */
  lemma EmptyOptionalLost(R: Registry, vld: bool)
    requires Registered(R)
    ensures var s, v, b := Untyped([Optional(PtrTo(Untyped([])), NoTag)]), VStruct([VStruct([])]), LittleEndian(0, 4);
            Encode(R, s, v, NoSettings, vld) == Ok(b) && Decode(R, s, b, NoSettings, vld) == Ok((VStruct([VNil]), 4))
  {
    hide Encode, Decode, EncodeField, DecodeField, EncodeFields, DecodeFields, LittleEndian;
    var f, b := Optional(PtrTo(Untyped([])), NoTag), LittleEndian(0, 4);
    UntypedCoded(R, [f], [VStruct([])], b, NoSettings, vld);
    OneField(R, f, VStruct([]), b, vld);
    EmptyOptionalField(R, b, vld);
  }

  lemma EmptyOptionalField(R: Registry, b: Bytes, vld: bool)
    requires Registered(R) && b == LittleEndian(0, 4)
    ensures var f := Optional(PtrTo(Untyped([])), NoTag);
            EncodeField(R, f, VStruct([]), vld) == Ok(b) && DecodeField(R, f, b, vld) == Ok((VNil, 4))
  {
    var none: Bytes := [];
    assert EncodeFields(R, [], [], vld) == Ok(none) && none + none == none;
    assert EncodeStruct(R, [], VStruct([]), TagSettings(NoTag), vld) == Ok([]);
    assert Encode(R, PtrTo(Untyped([])), VStruct([]), TagSettings(NoTag), vld) == Ok([]);
    hide Encode, Decode;
    assert EncodeField(R, Optional(PtrTo(Untyped([])), NoTag), VStruct([]), vld) == Ok(b + []) && b + [] == b;
    LittleEndianRoundTrip(0, 4);
    assert b[..4] == b;
  }

  /** A nil embedded pointer writes nothing, but its fields are read. */
  lemma NilEmbeddedLost(R: Registry, vld: bool)
    requires Registered(R)
    ensures var s, v := Untyped([Embedded([Plain(Schema(Bool, None), NoTag)], true, true)]), VStruct([VNil]);
            Encode(R, s, v, NoSettings, vld) == Ok([]) && Decode(R, s, [], NoSettings, vld) == Fail
  {
    var p := Plain(Schema(Bool, None), NoTag);
    var f := Embedded([p], true, true);
    UntypedCoded(R, [f], [VNil], [], NoSettings, vld);
    OneField(R, f, VNil, [], vld);
    OneField(R, p, VNil, [], vld);
  }

  /** Two elements without bytes pass the writer's check for order and duplicates, but not the
      reader's. */
  lemma TwoEmptiesLost()
    ensures var mode, data := V.Mode(true, true, false, false), [[], []];
            V.Accepts(mode, V.Writer, data) && !V.Accepts(mode, V.Reader, data)
  {
    V.AcceptsIff(V.Mode(true, true, false, false), V.Writer, [[], []]);
    V.AcceptsIff(V.Mode(true, true, false, false), V.Reader, [[], []]);
  }

  /** The length of an optional field is cut to 32 bits: a field of 2^32 bytes comes back absent,
      with its bytes left over. */
  lemma HugeOptionalLost(R: Registry, x: Bytes, vld: bool)
    requires Registered(R) && |x| == 0x1_0000_0000
    ensures var f := Optional(PtrTo(Schema(ByteArray(|x|), None)), NoTag);
            var b := LittleEndian(0, 4) + x;
            EncodeField(R, f, VBytes(x), vld) == Ok(b) && DecodeField(R, f, b, vld) == Ok((VNil, 4))
  {
    var s := PtrTo(Schema(ByteArray(|x|), None));
    assert [] + x == x;
    assert Encode(R, s, VBytes(x), TagSettings(NoTag), vld) == Ok(x);
    assert |x| % 0x1_0000_0000 == 0;
    LittleEndianRoundTrip(0, 4);
    PrefixOfSum(LittleEndian(0, 4), x);
  }

  /** An embedded pointer to an unexported struct type is written, but cannot be read. */
  lemma UnexportedEmbeddedLost(R: Registry, inner: seq<Field>, vs: seq<Value>, b: Bytes, vld: bool)
    requires Registered(R)
    ensures var f := Embedded(inner, true, false);
            EncodeField(R, f, VStruct(vs), vld) == EncodeFields(R, inner, vs, vld) && DecodeField(R, f, b, vld) == Fail
  {
  }

  /** A map with an interface or an unregistered pointer for its keys or values is written, but
      never read unless it is empty. */
  lemma EntriesLost(R: Registry, s: Schema, v: Value, given: TypeSettings, vld: bool, t: Bytes)
    requires Registered(R) && s.kind.Map? && !(DirectLookup(s.kind.key) && DirectLookup(s.kind.val))
    requires Encode(R, s, v, given, vld).Ok? && v.entries != []
    ensures Decode(R, s, Encode(R, s, v, given, vld).value + t, given, vld) == Fail
  {
    hide Encode, Canon, Comparable, DecodeSequence;
    var key, val, b, ts := s.kind.key, s.kind.val, Encode(R, s, v, given, vld).value + t, Settings(given, s);
    assert Decode(R, s, b, given, vld) == if Comparable(key) then DecodeMap(R, key, val, b, ts, vld) else Fail;
    EntriesCounted(R, s, v, given, vld, t);
    SequenceUnread(R, key, val, b, EnsureOrdering(ts), vld);
  }

  lemma SequenceUnread(R: Registry, key: Schema, val: Schema, b: Bytes, ts: TypeSettings, vld: bool)
    requires Registered(R) && !(DirectLookup(key) && DirectLookup(val)) && ReadLength(ts, b).Ok? && ReadLength(ts, b).value.0 > 0
    ensures DecodeSequence(R, EntrySchema(key, val), b, ts, vld) == Fail
  {
    hide DecodeItems, V.Accepts, ReadLength, DirectLookup, InBounds;
    var (count, w) := ReadLength(ts, b).value;
    EntryUnread(R, key, val, b[w..], count, vld);
  }

  lemma EntriesCounted(R: Registry, s: Schema, v: Value, given: TypeSettings, vld: bool, t: Bytes)
    requires s.kind.Map? && Encode(R, s, v, given, vld).Ok?
    ensures var r := ReadLength(EnsureOrdering(Settings(given, s)), Encode(R, s, v, given, vld).value + t);
            r.Ok? && r.value.0 == |v.entries|
  {
    hide EncodeItems, DistinctKeys, ByContent, Comparable, Concat, V.Accepts, SortBytes, ReadLength, LengthBytes;
    var ts := EnsureOrdering(Settings(given, s));
    var data := EncodeItems(R, EntrySchema(s.kind.key, s.kind.val), v.entries, vld).value;
    assert EncodeSequence(data, ts, vld) == Encode(R, s, v, given, vld);
    var len, body := LengthBytes(ts, |data|).value, Concat(SortBytes(data));
    LengthRoundTrip(ts, |data|, body + t);
    assert (len + body) + t == len + (body + t);
  }

  lemma EntryUnread(R: Registry, key: Schema, val: Schema, b: Bytes, count: nat, vld: bool)
    requires Registered(R) && !(DirectLookup(key) && DirectLookup(val)) && count > 0
    ensures DecodeItems(R, EntrySchema(key, val), b, count, vld) == Fail
  {
    assert Decode(R, EntrySchema(key, val), b, NoSettings, vld) == DecodeEntry(R, key, val, b, vld);
  }

  /** For instance a map from numbers to pointers to a struct that is not registered as a pointer. */
  lemma PointersLost(R: Registry, vld: bool)
    requires Registered(R)
    ensures var s := Schema(Map(Schema(Num(1, false), None), PtrTo(Untyped([]))), Some(NoSettings.(prefix := Some(AsByte))));
            var v := VMap([VEntry(VNum(1), VStruct([]))]);
            Encode(R, s, v, NoSettings, vld).Ok? && Decode(R, s, Encode(R, s, v, NoSettings, vld).value, NoSettings, vld) == Fail
  {
    var key, val := Schema(Num(1, false), None), PtrTo(Untyped([]));
    var s := Schema(Map(key, val), Some(NoSettings.(prefix := Some(AsByte))));
    var e := VEntry(VNum(1), VStruct([]));
    PointerEntry(R, e, vld);
    OneEntry(R, s, e, vld);
    EntriesLost(R, s, VMap([e]), NoSettings, vld, []);
    var b := Encode(R, s, VMap([e]), NoSettings, vld).value;
    assert b + [] == b;
  }

  lemma PointerEntry(R: Registry, e: Value, vld: bool)
    requires e == VEntry(VNum(1), VStruct([]))
    ensures Encode(R, EntrySchema(Schema(Num(1, false), None), PtrTo(Untyped([]))), e, NoSettings, vld).Ok?
  {
    var key, val := Schema(Num(1, false), None), PtrTo(Untyped([]));
    Pow256Values();
    assert EncodeFields(R, [], [], vld) == Ok([]);
    assert EncodeStruct(R, [], VStruct([]), NoSettings, vld).Ok?;
    assert Encode(R, val, e.val, NoSettings, vld).Ok? && Encode(R, key, e.key, NoSettings, vld).Ok?;
    assert EncodeEntry(R, key, val, e, vld).Ok?;
  }

  lemma OneEntry(R: Registry, s: Schema, e: Value, vld: bool)
    requires s.kind.Map? && Comparable(s.kind.key) && s.reg == Some(NoSettings.(prefix := Some(AsByte))) && e.VEntry?
    requires Encode(R, EntrySchema(s.kind.key, s.kind.val), e, NoSettings, vld).Ok?
    ensures Encode(R, s, VMap([e]), NoSettings, vld).Ok?
  {
    hide Comparable, ByContent, EncodeSequence;
    var entry := EntrySchema(s.kind.key, s.kind.val);
    var x := Encode(R, entry, e, NoSettings, vld).value;
    assert [e][1..] == [];
    assert EncodeItems(R, entry, [], vld) == Ok([]);
    assert EncodeItems(R, entry, [e], vld) == Ok([x] + []) && [x] + [] == [x];
    assert DistinctKeys([e]);
    OneItem(x, s.reg.value, vld);
    assert EncodeMap(R, s.kind.key, s.kind.val, [e], s.reg.value, vld).Ok?;
  }

  lemma OneItem(x: Bytes, ts: TypeSettings, vld: bool)
    requires ts == NoSettings.(prefix := Some(AsByte))
    ensures EncodeSequence([x], EnsureOrdering(ts), vld).Ok?
  {
    Pow256Values();
    assert |SortBytes([x])| == 1;
    V.AcceptsIff(Rules(EnsureOrdering(ts)).mode, V.Writer, SortBytes([x]));
  }

  /** The same map with the pointer type registered comes back. */
  lemma PointersKept(R: Registry, vld: bool)
    requires Registered(R)
    ensures var ptr := Schema(Ptr(Untyped([])), Some(NoSettings));
            var s := Schema(Map(Schema(Num(1, false), None), ptr), Some(NoSettings.(prefix := Some(AsByte))));
            var v := VMap([VEntry(VNum(1), VStruct([]))]);
            var e := Encode(R, s, v, NoSettings, vld);
            e.Ok? && Decode(R, s, e.value, NoSettings, vld) == Ok((v, |e.value|))
  {
    hide Encode, Decode, Faithful, Canon;
    var key, val := Schema(Num(1, false), None), Schema(Ptr(Untyped([])), Some(NoSettings));
    var s := Schema(Map(key, val), Some(NoSettings.(prefix := Some(AsByte))));
    var e := VEntry(VNum(1), VStruct([]));
    var x := KeptEntry(R, e, val, vld);
    OneEntry(R, s, e, vld);
    OneFaithful(R, EntrySchema(key, val), e, x, vld);
    MapFaithful(R, s, e, vld);
    var b := Encode(R, s, VMap([e]), NoSettings, vld).value;
    RoundTrip(R, s, VMap([e]), NoSettings, vld, []);
    assert b + [] == b;
    OneCanon(R, s, e, vld);
  }

  lemma MapFaithful(R: Registry, s: Schema, e: Value, vld: bool)
    requires s.kind.Map? && s.reg == Some(NoSettings.(prefix := Some(AsByte)))
    requires FaithfulItems(R, EntrySchema(s.kind.key, s.kind.val), [e], true, vld, [])
    ensures Faithful(R, s, VMap([e]), NoSettings, vld, [])
  {
    hide FaithfulItems, EncodeItems;
  }

  lemma OneCanon(R: Registry, s: Schema, e: Value, vld: bool)
    requires s.kind.Map? && e == VEntry(VNum(1), VStruct([])) && s.kind.key.kind.Num?
    requires s.kind.val.kind.Ptr? && s.kind.val.kind.elem.kind == Struct([])
    ensures Canon(R, s, VMap([e]), NoSettings, vld) == VMap([e])
  {
    hide Arranged;
    var entry := EntrySchema(s.kind.key, s.kind.val);
    CanonsInOrder(R, entry, [e], true, vld);
    var o := Arranged(R, entry, [e], true, vld);
    assert o[0] in [e];
    assert CanonStruct(R, [], e.val, vld) == e.val;
    assert Canon(R, entry, e, NoSettings, vld) == e;
    assert Canons(R, entry, o, vld) == [e];
  }

  lemma KeptEntry(R: Registry, e: Value, val: Schema, vld: bool) returns (x: Bytes)
    requires e == VEntry(VNum(1), VStruct([])) && val == Schema(Ptr(Untyped([])), Some(NoSettings))
    ensures var entry := EntrySchema(Schema(Num(1, false), None), val);
            Encode(R, entry, e, NoSettings, vld) == Ok(x) && Faithful(R, entry, e, NoSettings, vld, [])
  {
    var key := Schema(Num(1, false), None);
    Pow256Values();
    assert EncodeFields(R, [], [], vld) == Ok([]);
    assert EncodeStruct(R, [], VStruct([]), NoSettings, vld).Ok?;
    assert Encode(R, val, e.val, NoSettings, vld).Ok? && Encode(R, key, e.key, NoSettings, vld).Ok?;
    assert FaithfulStruct(R, [], e.val, vld, []);
    assert Faithful(R, val, e.val, NoSettings, vld, []);
    x := EncodeEntry(R, key, val, e, vld).value;
    assert Encode(R, EntrySchema(key, val), e, NoSettings, vld) == EncodeEntry(R, key, val, e, vld);
  }

  lemma OneFaithful(R: Registry, entry: Schema, e: Value, x: Bytes, vld: bool)
    requires Encode(R, entry, e, NoSettings, vld) == Ok(x) && Faithful(R, entry, e, NoSettings, vld, [])
    ensures FaithfulItems(R, entry, [e], true, vld, [])
  {
    hide Encode, Faithful, Arranged, SortBytes;
    assert [e][1..] == [] && EncodeItems(R, entry, [], vld) == Ok([]);
    assert EncodeItems(R, entry, [e], vld) == Ok([x] + []);
    var o, d := Arranged(R, entry, [e], true, vld), InOrder([x], true);
    assert o[0] in [e];
    assert d[0 + 1..] == [] && Concat([]) + [] == [];
  }

  /** Through a pointer everything is read, but only structs and arrays are written. */
  lemma PointerNotWritten(R: Registry, elem: Schema, v: Value, b: Bytes, given: TypeSettings, vld: bool)
    requires Registered(R) && !elem.kind.Struct? && !elem.kind.ByteArray?
    ensures Encode(R, PtrTo(elem), v, given, vld) == Fail
    ensures Decode(R, PtrTo(elem), b, given, vld) == Decode(R, elem, b, given, vld)
  {
    var ts := Settings(given, PtrTo(elem));
    assert Pointed(ts, elem) == Settings(given, elem);
    assert Decode(R, PtrTo(elem), b, given, vld) == DecodeKind(R, elem.kind, b, Pointed(ts, elem), vld);
  }

  // ----- interfaces over objects with codes -------------------------------------------------------------

  /** The objects that write their code: structs and byte arrays, also behind a pointer. */
  predicate WritesCode(s: Schema)
  {
    var k := Indirect(s).kind;
    k.Struct? || k.ByteArray?
  }

  lemma StartsWithCode(R: Registry, s: Schema, v: Value, given: TypeSettings, vld: bool)
    requires WritesCode(s) && Encode(R, s, v, given, vld).Ok?
    ensures CodeBytes(Settings(given, s).objectType) <= Encode(R, s, v, given, vld).value
  {
    hide EncodeFields, InBounds, CodeBytes;
    var ts := Settings(given, s);
    match Indirect(s).kind
    case Struct(fields) => assert Encode(R, s, v, given, vld) == EncodeStruct(R, fields, v, ts, vld);
    case ByteArray(n) => assert Encode(R, s, v, given, vld) == EncodeArray(n, v, ts);
  }

  /** An object whose code is as wide as its interface's codes comes back exactly if that code
      still belongs to its type. */
  lemma LeadsByCode(R: Registry, name: string, typ: string, s: Schema, v: Value, given: TypeSettings, vld: bool, t: Bytes)
    requires WritesCode(s) && Encode(R, s, v, given, vld).Ok? && name in R.interfaces
    requires var o := Settings(given, s).objectType; o.Some? && o.value.Uint32Code? == R.interfaces[name].wide
    ensures var c, byCode := Code(Settings(given, s).objectType.value), R.interfaces[name].byCode;
            Leads(R, name, typ, Encode(R, s, v, given, vld).value + t) <==> c in byCode && byCode[c] == typ
  {
    hide Encode, Settings;
    var o, e := Settings(given, s).objectType, Encode(R, s, v, given, vld).value;
    StartsWithCode(R, s, v, given, vld);
    CodeRoundTrip(o, t);
    assert (e + t)[..|CodeBytes(o)|] == CodeBytes(o);
  }

  /** Two types under the same code: the second registration takes the code from the first. */
  function TakenOver(ts: TypeSettings): Registry
  {
    Registry(map["I" := InterfaceObjects(false, map[7 := "B"], map["A" := 7, "B" := 7])],
             map["A" := Schema(Struct([]), Some(ts)), "B" := Schema(Struct([]), Some(ts))])
  }

  lemma CodeTakenOver(vld: bool)
    ensures var R, s := TakenOver(NoSettings.(objectType := Some(ByteCode(7)))), Schema(Interface("I"), None);
            && Registered(R) && Encode(R, s, VIface("A", VStruct([])), NoSettings, vld) == Ok([7])
            && Decode(R, s, [7], NoSettings, vld) == Ok((VIface("B", VStruct([])), 1))
  {
    hide LittleEndian, FromLittleEndian;
    var ts := NoSettings.(objectType := Some(ByteCode(7)));
    var R, code: Bytes := TakenOver(ts), [7];
    SevenCoded(R, ts, code, vld);
    hide EncodeStruct, DecodeStruct;
    StructCoded(R, R.objects["A"], code, vld);
    StructCoded(R, R.objects["B"], code, vld);
    hide Encode, Decode;
    assert EncodeInterface(R, "I", VIface("A", VStruct([])), NoSettings, vld) == Ok(code);
    assert DecodeInterface(R, "I", code, NoSettings, vld) == Ok((VIface("B", VStruct([])), 1));
    ThroughInterface(R, "I", VIface("A", VStruct([])), code, vld);
  }

  lemma StructCoded(R: Registry, s: Schema, b: Bytes, vld: bool)
    requires Registered(R) && s.kind.Struct? && s.reg.Some?
    ensures Encode(R, s, VStruct([]), NoSettings, vld) == EncodeStruct(R, s.kind.fields, VStruct([]), s.reg.value, vld)
    ensures Decode(R, s, b, NoSettings, vld) == DecodeStruct(R, s.kind.fields, b, s.reg.value, vld)
  {
  }

  lemma ThroughInterface(R: Registry, name: string, v: Value, b: Bytes, vld: bool)
    requires Registered(R)
    ensures var s := Schema(Interface(name), None);
            && Encode(R, s, v, NoSettings, vld) == EncodeInterface(R, name, v, NoSettings, vld)
            && Decode(R, s, b, NoSettings, vld) == DecodeInterface(R, name, b, NoSettings, vld)
  {
  }

  lemma SevenCoded(R: Registry, ts: TypeSettings, code: Bytes, vld: bool)
    requires Registered(R) && ts == NoSettings.(objectType := Some(ByteCode(7))) && code == [7]
    ensures EncodeStruct(R, [], VStruct([]), ts, vld) == Ok(code) && DecodeStruct(R, [], code, ts, vld) == Ok((VStruct([]), 1))
    ensures code[..1] == code && FromLittleEndian(code) == 7
  {
    var none: Bytes := [];
    assert LittleEndian(7, 1) == code && code + none == code && code[1..] == none;
    assert EncodeFields(R, [], [], vld) == Ok(none) && DecodeFields(R, [], none, vld) == Ok(([], 0));
  }

  /** Every object of an interface writes a code that is as wide as the interface's codes. */
  ghost predicate CodedObjects(R: Registry)
  {
    forall name, t :: name in R.interfaces && t in R.interfaces[name].codeOf && t in R.objects ==>
      && WritesCode(R.objects[t])
      && Known(R.objects[t]).Some? && Known(R.objects[t]).value.objectType.Some?
      && Known(R.objects[t]).value.objectType.value.Uint32Code? == R.interfaces[name].wide
  }

  /** Then a value that survives in front of some bytes survives in front of all. */
  lemma {:induction false} RestIrrelevant(R: Registry, s: Schema, v: Value, given: TypeSettings, vld: bool, t: Bytes, u: Bytes)
    requires CodedObjects(R) && given.objectType.None?
    requires Encode(R, s, v, given, vld).Ok? && Faithful(R, s, v, given, vld, t)
    ensures Faithful(R, s, v, given, vld, u)
    decreases v, 1
  {
    hide CodedObjects;
    match s.kind
    case Struct(fields) => FieldsRest(R, fields, v.vals, vld, t, u);
    case Ptr(elem) =>
      if elem.kind.Struct? {
        assert EncodeStruct(R, elem.kind.fields, v, Settings(given, s), vld).Ok?;
        FieldsRest(R, elem.kind.fields, v.vals, vld, t, u);
      }
    case Slice(elem) => ItemsRest(R, elem, v.elems, Sorts(Settings(given, s)), vld, t, u);
    case Map(key, val) => ItemsRest(R, EntrySchema(key, val), v.entries, true, vld, t, u);
    case Entry(key, val) =>
      var x := Encode(R, val, v.val, NoSettings, vld).value;
      RestIrrelevant(R, key, v.key, NoSettings, vld, x + t, x + u);
      RestIrrelevant(R, val, v.val, NoSettings, vld, t, u);
    case Interface(name) =>
      RestIrrelevant(R, R.objects[v.typ], v.obj, given, vld, t, u);
      HeadStays(R, name, v, given, vld, t, u);
    case _ =>
  }

  lemma HeadStays(R: Registry, name: string, v: Value, given: TypeSettings, vld: bool, t: Bytes, u: Bytes)
    requires CodedObjects(R) && given.objectType.None? && EncodeInterface(R, name, v, given, vld).Ok?
    requires Leads(R, name, v.typ, EncodeInterface(R, name, v, given, vld).value + t)
    ensures Leads(R, name, v.typ, EncodeInterface(R, name, v, given, vld).value + u)
  {
    hide Encode, Leads;
    var obj := R.objects[v.typ];
    LeadsByCode(R, name, v.typ, obj, v.obj, given, vld, t);
    LeadsByCode(R, name, v.typ, obj, v.obj, given, vld, u);
  }

  lemma {:induction false} ItemsRest(R: Registry, s: Schema, vs: seq<Value>, sorts: bool, vld: bool, t: Bytes, u: Bytes)
    requires CodedObjects(R) && FaithfulItems(R, s, vs, sorts, vld, t)
    ensures FaithfulItems(R, s, vs, sorts, vld, u)
    decreases vs, 0
  {
    hide Encode, Faithful, Concat, Arranged, InOrder, EncodeItems, CodedObjects;
    var o, d := Arranged(R, s, vs, sorts, vld), InOrder(EncodeItems(R, s, vs, vld).value, sorts);
    WrittenInOrder(R, s, vs, sorts, vld);
    forall k | 0 <= k < |o| ensures Faithful(R, s, o[k], NoSettings, vld, Concat(d[k + 1..]) + u) {
      RestIrrelevant(R, s, o[k], NoSettings, vld, Concat(d[k + 1..]) + t, Concat(d[k + 1..]) + u);
    }
  }

  lemma {:induction false} FieldsRest(R: Registry, fields: seq<Field>, vs: seq<Value>, vld: bool, t: Bytes, u: Bytes)
    requires CodedObjects(R) && EncodeFields(R, fields, vs, vld).Ok? && FaithfulFields(R, fields, vs, vld, t)
    ensures FaithfulFields(R, fields, vs, vld, u)
    decreases vs, 0
  {
    hide CodedObjects;
    if vs != [] {
      var tail := EncodeFields(R, fields[1..], vs[1..], vld).value;
      FieldRest(R, fields[0], vs[0], vld, tail + t, tail + u);
      FieldsRest(R, fields[1..], vs[1..], vld, t, u);
    }
  }

  lemma {:induction false} FieldRest(R: Registry, f: Field, v: Value, vld: bool, t: Bytes, u: Bytes)
    requires CodedObjects(R) && EncodeField(R, f, v, vld).Ok? && FaithfulField(R, f, v, vld, t)
    ensures FaithfulField(R, f, v, vld, u)
    decreases v, 2
  {
    hide CodedObjects;
    match f
    case Plain(s, tag) => RestIrrelevant(R, s, v, TagSettings(tag), vld, t, u);
    case Optional(s, tag) =>
      if !v.VNil? {
        RestIrrelevant(R, s, v, TagSettings(tag), vld, t, u);
      }
    case Embedded(inner, _, _) =>
      FieldsRest(R, inner, v.vals, vld, t, u);
      assert FaithfulStruct(R, inner, v, vld, u);
  }

  /** A bool registered under a four-byte code, which its one-byte encoding does not hold. */
  function ShortHeads(): Registry
  {
    Registry(map["I" := InterfaceObjects(true, map[0x01010101 := "Flag"], map["Flag" := 0x01010101])],
             map["Flag" := Schema(Bool, Some(NoSettings.(objectType := Some(Uint32Code(0x01010101)))))])
  }

  /** For an object shorter than the codes of its interface it depends on the bytes that follow
      whether it comes back: no condition on the value alone can be exact. */
  lemma ShortHeadDepends(vld: bool)
    ensures var R, s, v := ShortHeads(), Schema(Interface("I"), None), VIface("Flag", VBool(true));
            && Registered(R) && Encode(R, s, v, NoSettings, vld) == Ok([1])
            && Decode(R, s, [1] + [1, 1, 1], NoSettings, vld) == Ok((v, 1))
            && Decode(R, s, [1] + [], NoSettings, vld) == Fail
  {
    var R, v := ShortHeads(), VIface("Flag", VBool(true));
    var flag, b: Bytes := R.objects["Flag"], [1] + [1, 1, 1];
    assert b == [1, 1, 1, 1] && b[..4] == b;
    OnesAre(b);
    assert Encode(R, flag, VBool(true), NoSettings, vld) == Ok([1]);
    assert Decode(R, flag, b, NoSettings, vld) == Ok((VBool(true), 1));
    hide Encode, Decode;
    assert EncodeInterface(R, "I", v, NoSettings, vld) == Ok([1]);
    assert DecodeInterface(R, "I", b, NoSettings, vld) == Ok((v, 1));
    assert DecodeInterface(R, "I", [1] + [], NoSettings, vld) == Fail;
    ThroughInterface(R, "I", v, b, vld);
    ThroughInterface(R, "I", v, [1] + [], vld);
  }

  lemma OnesAre(b: Bytes)
    requires b == [1, 1, 1, 1]
    ensures FromLittleEndian(b) == 0x01010101
  {
    assert b[1..] == [1, 1, 1] && b[1..][1..] == [1, 1] && b[1..][1..][1..] == [1] && b[1..][1..][1..][1..] == [];
    assert FromLittleEndian(b[1..][1..][1..]) == 1;
    assert FromLittleEndian(b[1..][1..]) == 0x0101;
    assert FromLittleEndian(b[1..]) == 0x010101;
  }
}
