/** With validation on, the bytes a decoder accepts are the encoding of what it returns. */
module CodecCanonical {
  import opened ByteStrings
  import opened Codec
  import opened CodecRoundTrip
  import V = Validators

  // ----- what re-encoding needs -----------------------------------------------------------

  /** Numbers have a width. */
  ghost predicate Sized(s: Schema)
  {
    match s.kind
    case Num(w, _) => w > 0
    case Struct(fields) => forall f :: f in fields ==> SizedField(f)
    case Slice(elem) => Sized(elem)
    case Map(key, val) => Sized(key) && Sized(val)
    case Entry(key, val) => Sized(key) && Sized(val)
    case Ptr(elem) => Sized(elem)
    case _ => true
  }

  ghost predicate SizedField(f: Field)
  {
    match f
    case Plain(s, _) => Sized(s)
    case Optional(s, _) => Sized(s)
    case Embedded(inner, _, _) => forall g :: g in inner ==> SizedField(g)
  }

  /** Every code leads to a type that is registered for the interface. */
  ghost predicate WellFormedRegistry(R: Registry)
  {
    && Registered(R)
    && (forall name, c :: name in R.interfaces && c in R.interfaces[name].byCode ==>
          R.interfaces[name].byCode[c] in R.interfaces[name].codeOf)
    && (forall t :: t in R.objects ==> Sized(R.objects[t]))
  }

  /** What only the encoder checks: byte arrays that are not behind a pointer lie within the
      length bounds of their settings, and pointers point to what can be encoded through them. */
  predicate Fits(R: Registry, s: Schema, v: Value, given: TypeSettings)
    decreases v, 1
  {
    match s.kind
    case ByteArray(n) => InBounds(Settings(given, s), n)
    case Struct(fields) => FitsStruct(R, fields, v)
    case Ptr(elem) => elem.kind.ByteArray? || (elem.kind.Struct? && FitsStruct(R, elem.kind.fields, v))
    case Slice(elem) => v.VSlice? && FitsItems(R, elem, v.elems)
    case Map(key, val) => v.VMap? && FitsItems(R, EntrySchema(key, val), v.entries)
    case Entry(key, val) => v.VEntry? && Fits(R, key, v.key, NoSettings) && Fits(R, val, v.val, NoSettings)
    case Interface(_) => v.VIface? && v.typ in R.objects && Fits(R, R.objects[v.typ], v.obj, Settings(given, s))
    case _ => true
  }

  predicate FitsStruct(R: Registry, fields: seq<Field>, v: Value)
    decreases v, 0
  {
    v.VStruct? && |fields| == |v.vals| && FitsFields(R, fields, v.vals)
  }

  predicate FitsItems(R: Registry, s: Schema, vs: seq<Value>)
    decreases vs
  {
    vs == [] || (Fits(R, s, vs[0], NoSettings) && FitsItems(R, s, vs[1..]))
  }

  predicate FitsFields(R: Registry, fields: seq<Field>, vs: seq<Value>)
    requires |fields| == |vs|
    decreases vs
  {
    vs == [] || (FitsField(R, fields[0], vs[0]) && FitsFields(R, fields[1..], vs[1..]))
  }

  predicate FitsField(R: Registry, f: Field, v: Value)
    decreases v, 2
  {
    match f
    case Plain(s, tag) => Fits(R, s, v, TagSettings(tag))
    case Optional(s, tag) => v.VNil? || Fits(R, s, v, TagSettings(tag))
    case Embedded(inner, _, _) => v.VNil? || FitsStruct(R, inner, v)
  }

  /** Whatever can be encoded with validation fits. */
  lemma {:induction false} EncodedFits(R: Registry, s: Schema, v: Value, given: TypeSettings)
    requires Encode(R, s, v, given, true).Ok?
    ensures Fits(R, s, v, given)
    decreases v, 2
  {
    match s.kind
    case Struct(fields) => EncodedFieldsFit(R, fields, v.vals);
    case Ptr(elem) =>
      if elem.kind.Struct? {
        assert EncodeStruct(R, elem.kind.fields, v, Settings(given, s), true).Ok?;
        EncodedFieldsFit(R, elem.kind.fields, v.vals);
      }
    case Slice(elem) => EncodedItemsFit(R, elem, v.elems);
    case Map(key, val) => EncodedItemsFit(R, EntrySchema(key, val), v.entries);
    case Entry(key, val) =>
      EncodedFits(R, key, v.key, NoSettings);
      EncodedFits(R, val, v.val, NoSettings);
    case Interface(_) => EncodedFits(R, R.objects[v.typ], v.obj, Settings(given, s));
    case _ =>
  }

  lemma {:induction false} EncodedItemsFit(R: Registry, s: Schema, vs: seq<Value>)
    requires EncodeItems(R, s, vs, true).Ok?
    ensures FitsItems(R, s, vs)
    decreases vs, 0
  {
    if vs != [] {
      EncodedFits(R, s, vs[0], NoSettings);
      EncodedItemsFit(R, s, vs[1..]);
    }
  }

  lemma {:induction false} EncodedFieldsFit(R: Registry, fields: seq<Field>, vs: seq<Value>)
    requires EncodeFields(R, fields, vs, true).Ok?
    ensures |fields| == |vs| && FitsFields(R, fields, vs)
    decreases vs, 0
  {
    if vs != [] {
      EncodedFieldFits(R, fields[0], vs[0]);
      EncodedFieldsFit(R, fields[1..], vs[1..]);
    }
  }

  lemma {:induction false} EncodedFieldFits(R: Registry, f: Field, v: Value)
    requires EncodeField(R, f, v, true).Ok?
    ensures FitsField(R, f, v)
    decreases v, 3
  {
    match f
    case Plain(s, tag) => EncodedFits(R, s, v, TagSettings(tag));
    case Optional(s, tag) =>
      if !v.VNil? {
        EncodedFits(R, s, v, TagSettings(tag));
      }
    case Embedded(inner, _, _) =>
      if v.VStruct? {
        EncodedFieldsFit(R, inner, v.vals);
      }
  }

  // ----- leaves -------------------------------------------------------------------------

  lemma LengthCanonical(ts: TypeSettings, b: Bytes)
    requires ReadLength(ts, b).Ok?
    ensures var (len, w) := ReadLength(ts, b).value;
            LengthBytes(ts, len) == Ok(b[..w])
  {
    var w := ReadLength(ts, b).value.1;
    FromLittleEndianRoundTrip(b[..w]);
  }

  lemma CodeCanonical(o: Option<ObjectType>, b: Bytes)
    requires ReadCode(o, b).Ok?
    ensures CodeBytes(o) == b[..ReadCode(o, b).value]
  {
    if o.Some? {
      var w := ReadCode(o, b).value;
      FromLittleEndianRoundTrip(b[..w]);
      if o.value.ByteCode? {
        assert b[..1] == [b[0]];
        assert FromLittleEndian([b[0]]) == b[0];
      }
    }
  }

  lemma SignedRange(u: nat, w: nat, signed: bool, q: nat)
    requires w > 0 && Pow256(w) == 256 * q && u < 256 * q
    ensures var n := Signed(u, w, signed); InRange(n, w, signed) && Unsigned(n, w) == u
  {
    hide Pow256;
    assert Pow256(w) / 2 == 128 * q;
  }

  lemma NumCanonical(w: nat, signed: bool, b: Bytes)
    requires w > 0 && |b| == w
    ensures var n := Signed(FromLittleEndian(b), w, signed);
            InRange(n, w, signed) && LittleEndian(Unsigned(n, w), w) == b
  {
    FromLittleEndianRoundTrip(b);
    SignedRange(FromLittleEndian(b), w, signed, Pow256(w - 1));
  }

  lemma SliceParts(b: Bytes, w: nat, n: nat)
    requires w + n <= |b|
    ensures b[..w] + b[w..w + n] == b[..w + n]
    ensures b[..w] + b[w..][..n] == b[..w + n]
  {
  }

  lemma StrCanonical(b: Bytes, ts: TypeSettings)
    requires DecodeStr(b, ts, true).Ok?
    ensures var (v, n) := DecodeStr(b, ts, true).value;
            v.VBytes? && EncodeStr(v.bytes, ts, true) == Ok(b[..n])
  {
    LengthCanonical(ts, b);
    var (len, w) := ReadLength(ts, b).value;
    SliceParts(b, w, len);
  }

  lemma ByteSliceCanonical(b: Bytes, ts: TypeSettings)
    requires DecodeByteSlice(b, ts).Ok?
    ensures var (v, n) := DecodeByteSlice(b, ts).value;
            v.VBytes? && EncodeByteSlice(v.bytes, ts) == Ok(b[..n])
  {
    LengthCanonical(ts, b);
    var (len, w) := ReadLength(ts, b).value;
    SliceParts(b, w, len);
  }

  // ----- sequences ----------------------------------------------------------------------

  lemma WriterAccepts(mode: V.Mode, data: seq<Bytes>)
    requires V.Accepts(mode, V.Reader, data)
    ensures V.Accepts(mode, V.Writer, data)
    ensures mode.lexical ==> Ascending(data)
  {
    V.AcceptsIff(mode, V.Reader, data);
    V.AcceptsIff(mode, V.Writer, data);
  }

  lemma {:induction false} ItemsCanonical(R: Registry, elem: Schema, b: Bytes, count: nat)
    requires WellFormedRegistry(R) && Sized(elem) && DecodeItems(R, elem, b, count, true).Ok?
    requires FitsItems(R, elem, DecodeItems(R, elem, b, count, true).value.0)
    ensures var (vs, data) := DecodeItems(R, elem, b, count, true).value;
            EncodeItems(R, elem, vs, true) == Ok(data)
    decreases |b|, 3, elem, count
  {
    if count > 0 {
      var (v, n) := Decode(R, elem, b, NoSettings, true).value;
      var (vs, data) := DecodeItems(R, elem, b[n..], count - 1, true).value;
      assert ([v] + vs)[1..] == vs;
      FittingCanonical(R, elem, b, NoSettings);
      ItemsCanonical(R, elem, b[n..], count - 1);
    }
  }

  lemma {:induction false} SequenceCanonical(R: Registry, elem: Schema, b: Bytes, ts: TypeSettings)
    requires WellFormedRegistry(R) && Sized(elem) && DecodeSequence(R, elem, b, ts, true).Ok?
    requires FitsItems(R, elem, DecodeSequence(R, elem, b, ts, true).value.0)
    ensures var (vs, n) := DecodeSequence(R, elem, b, ts, true).value;
            && InBounds(ts, |vs|)
            && EncodeItems(R, elem, vs, true).Ok?
            && EncodeSequence(EncodeItems(R, elem, vs, true).value, ts, true) == Ok(b[..n])
    decreases |b|, 0
  {
    hide DecodeItems, EncodeItems, Concat, V.Accepts, SortBytes, FitsItems;
    var (count, w) := ReadLength(ts, b).value;
    var (vs, data) := DecodeItems(R, elem, b[w..], count, true).value;
    ItemsCanonical(R, elem, b[w..], count);
    LengthCanonical(ts, b);
    WriterAccepts(Rules(ts).mode, data);
    if Sorts(ts) {
      SortBytesAscending(data);
    }
    SliceParts(b, w, |Concat(data)|);
  }

  // ----- the induction ------------------------------------------------------------------

  lemma DecodedNotNil(R: Registry, s: Schema, b: Bytes, given: TypeSettings, vld: bool)
    requires Registered(R) && Decode(R, s, b, given, vld).Ok?
    ensures !Decode(R, s, b, given, vld).value.0.VNil?
  {
    DecodedKindNotNil(R, s.kind, b, Settings(given, s), vld);
  }

  lemma {:induction false} DecodedKindNotNil(R: Registry, k: Kind, b: Bytes, ts: TypeSettings, vld: bool)
    requires Registered(R) && DecodeKind(R, k, b, ts, vld).Ok?
    ensures !DecodeKind(R, k, b, ts, vld).value.0.VNil?
    decreases k
  {
    if k.Ptr? {
      DecodedKindNotNil(R, k.elem.kind, b, Pointed(ts, k.elem), vld);
    }
  }

  lemma {:induction false} FittingCanonical(R: Registry, s: Schema, b: Bytes, given: TypeSettings)
    requires WellFormedRegistry(R) && Sized(s) && Decode(R, s, b, given, true).Ok?
    requires Fits(R, s, Decode(R, s, b, given, true).value.0, given)
    ensures var (v, n) := Decode(R, s, b, given, true).value;
            Encode(R, s, v, given, true) == Ok(b[..n])
    decreases |b|, Tier(s.kind, Settings(given, s)), s.kind, 2
  {
    var ts := Settings(given, s);
    match s.kind
    case Bool => assert b[..1] == [b[0]];
    case Num(w, signed) => NumCanonical(w, signed, b[..w]);
    case Uint256 => FromLittleEndianRoundTrip(b[..32]);
    case Str => StrCanonical(b, ts);
    case ByteSlice => ByteSliceCanonical(b, ts);
    case ByteArray(n) => ArrayCanonical(n, b, ts);
    case Struct(fields) => StructCanonical(R, fields, b, ts);
    case Ptr(_) => PointerCanonical(R, s, b, given);
    case Slice(elem) =>
      assert Decode(R, s, b, given, true) == DecodeSlice(R, elem, b, ts, true);
      SequenceCanonical(R, elem, b, ts);
    case Map(key, val) =>
      assert Decode(R, s, b, given, true) == DecodeMap(R, key, val, b, ts, true);
      SequenceCanonical(R, EntrySchema(key, val), b, EnsureOrdering(ts));
    case Entry(_, _) => EntryCanonical(R, s, b, given);
    case Interface(_) => InterfaceCanonical(R, s, b, given);
  }

  lemma ArrayCanonical(n: nat, b: Bytes, ts: TypeSettings)
    requires DecodeArray(n, b, ts).Ok?
    ensures var (v, m) := DecodeArray(n, b, ts).value; EncodeArray(n, v, ts) == Ok(b[..m])
  {
    CodeCanonical(ts.objectType, b);
    SliceParts(b, ReadCode(ts.objectType, b).value, n);
  }

  lemma {:induction false} StructCanonical(R: Registry, fields: seq<Field>, b: Bytes, ts: TypeSettings)
    requires WellFormedRegistry(R) && (forall f :: f in fields ==> SizedField(f)) && DecodeStruct(R, fields, b, ts, true).Ok?
    requires FitsStruct(R, fields, DecodeStruct(R, fields, b, ts, true).value.0)
    ensures var (v, n) := DecodeStruct(R, fields, b, ts, true).value;
            EncodeStruct(R, fields, v, ts, true) == Ok(b[..n])
    decreases |b|, if ts.objectType.None? then 2 else 1, fields, 1
  {
    var o := ts.objectType;
    CodeCanonical(o, b);
    var w := ReadCode(o, b).value;
    FieldsCanonical(R, fields, b[w..]);
    var n := DecodeFields(R, fields, b[w..], true).value.1;
    SliceParts(b, w, n);
  }

  lemma {:induction false} PointerCanonical(R: Registry, s: Schema, b: Bytes, given: TypeSettings)
    requires s.kind.Ptr?
    requires WellFormedRegistry(R) && Sized(s) && Decode(R, s, b, given, true).Ok?
    requires Fits(R, s, Decode(R, s, b, given, true).value.0, given)
    ensures var (v, n) := Decode(R, s, b, given, true).value;
            Encode(R, s, v, given, true) == Ok(b[..n])
    decreases |b|, Tier(s.kind, Settings(given, s)), s.kind, 1
  {
    hide EncodeStruct, DecodeStruct, FitsStruct, EncodeArray, DecodeArray;
    var ts, elem := Settings(given, s), s.kind.elem;
    assert Decode(R, s, b, given, true) == DecodeKind(R, elem.kind, b, Pointed(ts, elem), true);
    assert Behind(s.kind) == Behind(elem.kind);
    match elem.kind
    case Struct(fields) => StructCanonical(R, fields, b, ts);
    case ByteArray(n) => ArrayCanonical(n, b, ts);
  }

  lemma {:induction false} EntryCanonical(R: Registry, s: Schema, b: Bytes, given: TypeSettings)
    requires s.kind.Entry?
    requires WellFormedRegistry(R) && Sized(s) && Decode(R, s, b, given, true).Ok?
    requires Fits(R, s, Decode(R, s, b, given, true).value.0, given)
    ensures var (v, n) := Decode(R, s, b, given, true).value;
            Encode(R, s, v, given, true) == Ok(b[..n])
    decreases |b|, 2, s.kind, 1
  {
    assert Decode(R, s, b, given, true) == DecodeEntry(R, s.kind.key, s.kind.val, b, true);
    var (k, n) := Decode(R, s.kind.key, b, NoSettings, true).value;
    var (x, m) := Decode(R, s.kind.val, b[n..], NoSettings, true).value;
    assert Decode(R, s, b, given, true) == Ok((VEntry(k, x), n + m));
    hide Decode, Encode;
    FittingCanonical(R, s.kind.key, b, NoSettings);
    FittingCanonical(R, s.kind.val, b[n..], NoSettings);
    EntryEncoded(R, s, k, x, given, b, n, m);
  }

  lemma EntryEncoded(R: Registry, s: Schema, k: Value, x: Value, given: TypeSettings, b: Bytes, n: nat, m: nat)
    requires s.kind.Entry? && n + m <= |b|
    requires Encode(R, s.kind.key, k, NoSettings, true) == Ok(b[..n])
    requires Encode(R, s.kind.val, x, NoSettings, true) == Ok(b[n..][..m])
    ensures Encode(R, s, VEntry(k, x), given, true) == Ok(b[..n + m])
  {
    hide Settings;
    SliceParts(b, n, m);
  }

  lemma {:induction false} InterfaceCanonical(R: Registry, s: Schema, b: Bytes, given: TypeSettings)
    requires s.kind.Interface?
    requires WellFormedRegistry(R) && Sized(s) && Decode(R, s, b, given, true).Ok?
    requires Fits(R, s, Decode(R, s, b, given, true).value.0, given)
    ensures var (v, n) := Decode(R, s, b, given, true).value;
            Encode(R, s, v, given, true) == Ok(b[..n])
    decreases |b|, 2, s.kind, 1
  {
    assert Decode(R, s, b, given, true) == DecodeInterface(R, s.kind.name, b, Settings(given, s), true);
    var objs := R.interfaces[s.kind.name];
    var c := FromLittleEndian(b[..CodeWidth(objs.wide)]);
    var t := objs.byCode[c];
    FittingCanonical(R, R.objects[t], b, given);
  }

  lemma {:induction false} FieldsCanonical(R: Registry, fields: seq<Field>, b: Bytes)
    requires WellFormedRegistry(R) && (forall f :: f in fields ==> SizedField(f)) && DecodeFields(R, fields, b, true).Ok?
    requires FitsFields(R, fields, DecodeFields(R, fields, b, true).value.0)
    ensures var (vs, n) := DecodeFields(R, fields, b, true).value;
            EncodeFields(R, fields, vs, true) == Ok(b[..n])
    decreases |b|, 2, fields, 0
  {
    if fields != [] {
      var (v, n) := DecodeField(R, fields[0], b, true).value;
      var (vs, m) := DecodeFields(R, fields[1..], b[n..], true).value;
      assert ([v] + vs)[1..] == vs;
      FieldCanonical(R, fields[0], b);
      FieldsCanonical(R, fields[1..], b[n..]);
      SliceParts(b, n, m);
    }
  }

  lemma {:induction false} FieldCanonical(R: Registry, f: Field, b: Bytes)
    requires WellFormedRegistry(R) && SizedField(f) && DecodeField(R, f, b, true).Ok?
    requires FitsField(R, f, DecodeField(R, f, b, true).value.0)
    ensures var (v, n) := DecodeField(R, f, b, true).value;
            EncodeField(R, f, v, true) == Ok(b[..n])
    decreases |b|, 2, f, 0
  {
    match f
    case Plain(s, tag) => FittingCanonical(R, s, b, TagSettings(tag));
    case Optional(s, tag) =>
      var len := FromLittleEndian(b[..4]);
      FromLittleEndianRoundTrip(b[..4]);
      Pow256Values();
      if len != 0 {
        DecodedNotNil(R, s, b[4..], TagSettings(tag), true);
        FittingCanonical(R, s, b[4..], TagSettings(tag));
        Untruncated(len);
        SliceParts(b, 4, len);
      }
    case Embedded(inner, _, _) => FieldsCanonical(R, inner, b);
  }

  /** With validation on, a decoded value is encoded as exactly the bytes it was decoded from if
      it fits, and not at all if it does not. */
  lemma Canonical(R: Registry, s: Schema, b: Bytes, given: TypeSettings)
    requires WellFormedRegistry(R) && Sized(s)
    ensures Decode(R, s, b, given, true).Ok? ==>
      var (v, n) := Decode(R, s, b, given, true).value;
      Encode(R, s, v, given, true) == if Fits(R, s, v, given) then Ok(b[..n]) else Fail
  {
    hide Decode, Encode, Fits;
    var d := Decode(R, s, b, given, true);
    if d.Ok? {
      if Fits(R, s, d.value.0, given) {
        FittingCanonical(R, s, b, given);
      } else if Encode(R, s, d.value.0, given, true).Ok? {
        EncodedFits(R, s, d.value.0, given);
      }
    }
  }

  /** A byte array shorter than its minimum is decoded, but cannot be encoded. */
  lemma ArrayOutOfBounds(R: Registry, x: Byte)
    requires Registered(R)
    ensures var rules := ArrayRules(2, 0, {}, V.Mode(false, false, false, false));
            var s := Schema(ByteArray(1), Some(TypeSettings(None, None, None, Some(rules))));
            Decode(R, s, [x], NoSettings, true) == Ok((VBytes([x]), 1)) && Encode(R, s, VBytes([x]), NoSettings, true) == Fail
  {
    assert [x][0..1] == [x];
  }

  // ----- consequences -------------------------------------------------------------------

  /** A slice that is decoded with validation keeps its array rules: its length is within the
      bounds, every required type occurs, and the encodings of its elements are ordered and
      distinct as declared. */
  lemma DecodedObeysRules(R: Registry, s: Schema, b: Bytes, given: TypeSettings)
    requires WellFormedRegistry(R) && Sized(s) && s.kind.Slice? && Decode(R, s, b, given, true).Ok?
    requires Fits(R, s, Decode(R, s, b, given, true).value.0, given)
    ensures var vs := Decode(R, s, b, given, true).value.0.elems;
            var rules := Rules(Settings(given, s));
            && (rules.min > 0 ==> |vs| >= rules.min) && (rules.max > 0 ==> |vs| <= rules.max)
            && (forall c :: c in rules.mustOccur ==> exists i :: 0 <= i < |vs| && ElementCode(R, s.kind.elem, vs[i]) == Ok(c))
            && EncodeItems(R, s.kind.elem, vs, true).Ok?
            && V.Meaning(rules.mode, V.Reader, EncodeItems(R, s.kind.elem, vs, true).value)
  {
    hide EncodeItems, V.Meaning, FitsItems, DecodeSequence;
    var ts, elem := Settings(given, s), s.kind.elem;
    assert Decode(R, s, b, given, true) == DecodeSlice(R, elem, b, ts, true);
    SequenceObeysRules(R, elem, b, ts);
  }

  lemma SequenceObeysRules(R: Registry, elem: Schema, b: Bytes, ts: TypeSettings)
    requires WellFormedRegistry(R) && Sized(elem) && DecodeSequence(R, elem, b, ts, true).Ok?
    requires FitsItems(R, elem, DecodeSequence(R, elem, b, ts, true).value.0)
    ensures var vs := DecodeSequence(R, elem, b, ts, true).value.0;
            && InBounds(ts, |vs|) && EncodeItems(R, elem, vs, true).Ok?
            && V.Meaning(Rules(ts).mode, V.Reader, EncodeItems(R, elem, vs, true).value)
  {
    hide V.Meaning, V.Accepts, DecodeItems, EncodeItems, FitsItems;
    var (count, w) := ReadLength(ts, b).value;
    ItemsCanonical(R, elem, b[w..], count);
    V.AcceptsIff(Rules(ts).mode, V.Reader, DecodeItems(R, elem, b[w..], count, true).value.1);
  }

  /** A map is encoded the same whatever order its entries are iterated in. */
  lemma MapOrderIrrelevant(R: Registry, s: Schema, xs: seq<Value>, ys: seq<Value>, given: TypeSettings, vld: bool)
    requires s.kind.Map? && multiset(xs) == multiset(ys)
    ensures Encode(R, s, VMap(xs), given, vld) == Encode(R, s, VMap(ys), given, vld)
  {
    hide EncodeMap, Comparable;
    EntriesReordered(R, s.kind.key, s.kind.val, xs, ys, Settings(given, s), vld);
  }

  lemma EntriesReordered(R: Registry, key: Schema, val: Schema, xs: seq<Value>, ys: seq<Value>, ts: TypeSettings, vld: bool)
    requires multiset(xs) == multiset(ys)
    ensures EncodeMap(R, key, val, xs, ts, vld) == EncodeMap(R, key, val, ys, ts, vld)
  {
    hide EncodeItems, EncodeSequence, DistinctKeys, ByContent;
    if DistinctKeys(xs) {
      DistinctKeysPermuted(xs, ys);
    }
    if DistinctKeys(ys) {
      DistinctKeysPermuted(ys, xs);
    }
    assert |multiset(xs)| == |multiset(ys)|;
    ItemsReordered(R, EntrySchema(key, val), xs, ys, vld);
    var dx, dy := EncodeItems(R, EntrySchema(key, val), xs, vld), EncodeItems(R, EntrySchema(key, val), ys, vld);
    if dx.Ok? {
      SequenceReordered(dx.value, dy.value, EnsureOrdering(ts), vld);
    }
  }

  lemma SequenceReordered(a: seq<Bytes>, b: seq<Bytes>, ts: TypeSettings, vld: bool)
    requires Sorts(ts) && multiset(a) == multiset(b)
    ensures EncodeSequence(a, ts, vld) == EncodeSequence(b, ts, vld)
  {
    assert |multiset(a)| == |multiset(b)|;
    SortBytesPermutation(a, b);
  }

  lemma ItemsReordered(R: Registry, s: Schema, xs: seq<Value>, ys: seq<Value>, vld: bool)
    requires multiset(xs) == multiset(ys)
    ensures EncodeItems(R, s, xs, vld).Ok? <==> EncodeItems(R, s, ys, vld).Ok?
    ensures EncodeItems(R, s, xs, vld).Ok? ==>
              multiset(EncodeItems(R, s, ys, vld).value) == multiset(EncodeItems(R, s, xs, vld).value)
  {
    ItemsOk(R, s, xs, vld);
    ItemsOk(R, s, ys, vld);
    AllOkReordered(R, s, xs, ys, vld);
    AllOkReordered(R, s, ys, xs, vld);
    if AllOk(R, s, xs, vld) {
      ImagesPermuted(xs, ys, EncodeItems(R, s, xs, vld).value, EncodeItems(R, s, ys, vld).value);
    }
  }

  lemma AllOkReordered(R: Registry, s: Schema, xs: seq<Value>, ys: seq<Value>, vld: bool)
    requires multiset(xs) == multiset(ys)
    ensures AllOk(R, s, xs, vld) ==> AllOk(R, s, ys, vld)
  {
    forall k | AllOk(R, s, xs, vld) && 0 <= k < |ys| ensures Encode(R, s, ys[k], NoSettings, vld).Ok? {
      var i := PositionOf(xs, ys, k);
      assert xs[i] == ys[k];
    }
  }

  /** No encoding is a proper prefix of another one: values that encode to a prefix of
      each other's bytes, and survive there, are the same up to the order of auto-sorted
      collections. */
  lemma PrefixFree(R: Registry, s: Schema, v: Value, w: Value, given: TypeSettings, vld: bool)
    requires Registered(R)
    requires Encode(R, s, v, given, vld).Ok? && Encode(R, s, w, given, vld).Ok?
    requires Encode(R, s, v, given, vld).value <= Encode(R, s, w, given, vld).value
    requires Faithful(R, s, v, given, vld, Encode(R, s, w, given, vld).value[|Encode(R, s, v, given, vld).value|..])
    requires Faithful(R, s, w, given, vld, [])
    ensures Encode(R, s, v, given, vld) == Encode(R, s, w, given, vld)
    ensures Canon(R, s, v, given, vld) == Canon(R, s, w, given, vld)
  {
    hide Encode, Decode, Canon, Faithful;
    var a, b := Encode(R, s, v, given, vld).value, Encode(R, s, w, given, vld).value;
    RoundTrip(R, s, v, given, vld, b[|a|..]);
    RoundTrip(R, s, w, given, vld, []);
    assert a + b[|a|..] == b && b + [] == b;
  }

  /** The canonical form of a value has the same encoding. */
  lemma CanonSameEncoding(R: Registry, s: Schema, v: Value, given: TypeSettings)
    requires WellFormedRegistry(R) && Sized(s)
    requires Encode(R, s, v, given, true).Ok? && Faithful(R, s, v, given, true, [])
    ensures Encode(R, s, Canon(R, s, v, given, true), given, true) == Encode(R, s, v, given, true)
  {
    hide Encode, Decode, Canon, Faithful, Fits;
    var b := Encode(R, s, v, given, true).value;
    RoundTrip(R, s, v, given, true, []);
    assert b + [] == b;
    CanonFits(R, s, v, given);
    Canonical(R, s, b, given);
  }

  lemma {:induction false} CanonFits(R: Registry, s: Schema, v: Value, given: TypeSettings)
    requires Encode(R, s, v, given, true).Ok?
    ensures Fits(R, s, Canon(R, s, v, given, true), given)
    decreases v, 2
  {
    match s.kind
    case Struct(fields) => CanonFieldsFit(R, fields, v.vals);
    case Ptr(elem) =>
      if elem.kind.Struct? {
        assert EncodeStruct(R, elem.kind.fields, v, Settings(given, s), true).Ok?;
        CanonFieldsFit(R, elem.kind.fields, v.vals);
      }
    case Slice(elem) => CanonItemsFit(R, elem, v.elems, Sorts(Settings(given, s)));
    case Map(key, val) => CanonItemsFit(R, EntrySchema(key, val), v.entries, true);
    case Entry(key, val) =>
      CanonFits(R, key, v.key, NoSettings);
      CanonFits(R, val, v.val, NoSettings);
    case Interface(_) => CanonFits(R, R.objects[v.typ], v.obj, Settings(given, s));
    case _ =>
  }

  lemma {:induction false} CanonItemsFit(R: Registry, s: Schema, vs: seq<Value>, sorts: bool)
    requires EncodeItems(R, s, vs, true).Ok?
    ensures FitsItems(R, s, CanonItems(R, s, vs, sorts, true))
    decreases vs, 0
  {
    hide FitsItems, Fits, Encode, Canon;
    var o := Arranged(R, s, vs, sorts, true);
    WrittenInOrder(R, s, vs, sorts, true);
    CanonsInOrder(R, s, vs, sorts, true);
    forall k | 0 <= k < |o| ensures Fits(R, s, Canons(R, s, o, true)[k], NoSettings) {
      CanonFits(R, s, o[k], NoSettings);
    }
    AllFit(R, s, Canons(R, s, o, true));
  }

  lemma {:induction false} AllFit(R: Registry, s: Schema, vs: seq<Value>)
    requires forall k :: 0 <= k < |vs| ==> Fits(R, s, vs[k], NoSettings)
    ensures FitsItems(R, s, vs)
  {
    if vs != [] {
      assert forall i :: 0 <= i < |vs| - 1 ==> vs[1..][i] == vs[i + 1];
      AllFit(R, s, vs[1..]);
    }
  }

  lemma {:induction false} CanonFieldsFit(R: Registry, fields: seq<Field>, vs: seq<Value>)
    requires EncodeFields(R, fields, vs, true).Ok?
    ensures |fields| == |vs| && FitsFields(R, fields, CanonFields(R, fields, vs, true))
    decreases vs, 0
  {
    if vs != [] {
      CanonFieldFits(R, fields[0], vs[0]);
      CanonFieldsFit(R, fields[1..], vs[1..]);
      assert CanonFields(R, fields, vs, true)[1..] == CanonFields(R, fields[1..], vs[1..], true);
    }
  }

  lemma {:induction false} CanonFieldFits(R: Registry, f: Field, v: Value)
    requires EncodeField(R, f, v, true).Ok?
    ensures FitsField(R, f, CanonField(R, f, v, true))
    decreases v, 3
  {
    match f
    case Plain(s, tag) => CanonFits(R, s, v, TagSettings(tag));
    case Optional(s, tag) =>
      if !v.VNil? {
        CanonFits(R, s, v, TagSettings(tag));
      }
    case Embedded(inner, _, _) =>
      if v.VStruct? {
        CanonFieldsFit(R, inner, v.vals);
        assert FitsStruct(R, inner, CanonStruct(R, inner, v, true));
      }
  }
}
