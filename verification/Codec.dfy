/** The type-directed binary codec of serix. Reflection is replaced by schemas and
    values; settings, merging, byte layout and checks are those of the code. */
module Codec {
  import opened ByteStrings
  import V = Validators

  // ----- settings ------------------------------------------------------------------

  datatype LengthPrefix = AsByte | AsUint16 | AsUint32 | AsUint64

  /** The object code written before structs and byte arrays: a byte or a uint32. */
  datatype ObjectType = ByteCode(b: Byte) | Uint32Code(n: Uint32)
  type Uint32 = n: nat | n < 0x1_0000_0000

  datatype ArrayRules = ArrayRules(min: nat, max: nat, mustOccur: set<nat>, mode: V.Mode)

  datatype TypeSettings = TypeSettings(
    objectType: Option<ObjectType>,
    prefix: Option<LengthPrefix>,
    lexicalOrdering: Option<bool>,
    rules: Option<ArrayRules>)

  const NoSettings := TypeSettings(None, None, None, None)

  function Or<T>(a: Option<T>, b: Option<T>): Option<T> { if a.Some? then a else b }

  function Merge(ts: TypeSettings, other: TypeSettings): TypeSettings
  {
    TypeSettings(Or(ts.objectType, other.objectType), Or(ts.prefix, other.prefix),
                 Or(ts.lexicalOrdering, other.lexicalOrdering), Or(ts.rules, other.rules))
  }

  function Rules(ts: TypeSettings): ArrayRules
  {
    if ts.rules.Some? then ts.rules.value else ArrayRules(0, 0, {}, V.Mode(false, false, false, false))
  }

  function EnsureOrdering(ts: TypeSettings): TypeSettings
  {
    var r := Rules(ts);
    ts.(lexicalOrdering := Some(true), rules := Some(r.(mode := r.mode.(lexical := true))))
  }

  /** Elements are sorted when the settings ask for it and the rules validate it. */
  predicate Sorts(ts: TypeSettings)
  {
    ts.lexicalOrdering == Some(true) && Rules(ts).mode.lexical
  }

  /** Zero means unbounded, in CheckBounds, checkMinMaxBounds and the byte slice checks. */
  predicate InBounds(ts: TypeSettings, len: nat)
  {
    var r := Rules(ts);
    (r.min == 0 || len >= r.min) && (r.max == 0 || len <= r.max)
  }

  // ----- types and values -------------------------------------------------------------

  /** A Go type with the settings registered for exactly this type, if any. A map entry is a
      pair; *big.Int, the one pointer that is encoded as a number, is Uint256. */
  datatype Schema = Schema(kind: Kind, reg: Option<TypeSettings>)

  datatype Kind =
    | Bool
    | Num(width: nat, signed: bool)
    | Uint256
    | Str
    | ByteSlice
    | ByteArray(len: nat)
    | Struct(fields: seq<Field>)
    | Slice(elem: Schema)
    | Map(key: Schema, val: Schema)
    | Entry(key: Schema, val: Schema)
    | Ptr(elem: Schema)
    | Interface(name: string)

  /** What a struct tag can set. */
  datatype Tag = Tag(prefix: Option<LengthPrefix>, min: Option<nat>, max: Option<nat>)

  datatype Field =
    | Plain(schema: Schema, tag: Tag)
    | Optional(schema: Schema, tag: Tag)
    | Embedded(inner: seq<Field>, pointer: bool, exported: bool)

  datatype Value =
    | VNil                                  // a nil pointer or interface; other pointers are what they point to
    | VBool(b: bool)
    | VNum(n: int)
    | VBytes(bytes: Bytes)
    | VStruct(vals: seq<Value>)
    | VSlice(elems: seq<Value>)
    | VMap(entries: seq<Value>)             // in some iteration order
    | VEntry(key: Value, val: Value)
    | VIface(typ: string, obj: Value)

  /** The objects registered for one interface. */
  datatype InterfaceObjects = InterfaceObjects(wide: bool, byCode: map<nat, string>, codeOf: map<string, nat>)

  datatype Registry = Registry(interfaces: map<string, InterfaceObjects>, objects: map<string, Schema>)

  /** An interface type cannot be registered. */
  function Registration(s: Schema): Option<TypeSettings>
  {
    if s.kind.Interface? then None else s.reg
  }

  /** GetByType: a pointer type that is not registered takes the settings of its element. */
  function Known(s: Schema): Option<TypeSettings>
  {
    if Registration(s).None? && s.kind.Ptr? then Registration(s.kind.elem) else Registration(s)
  }

  /** The given settings completed by the registered ones. */
  function Settings(ts: TypeSettings, s: Schema): TypeSettings
  {
    if Known(s).Some? then Merge(ts, Known(s).value) else ts
  }

  /** The settings for what a pointer points to. decodeBasedOnType looks them up again for
      numbers, bools, strings and pointers only. */
  function Pointed(ts: TypeSettings, elem: Schema): TypeSettings
  {
    match elem.kind
    case Bool | Num(_, _) | Uint256 | Str | Ptr(_) => Settings(ts, elem)
    case _ => ts
  }

  /** The kind behind any number of pointers. */
  function Behind(k: Kind): Kind { if k.Ptr? then Behind(k.elem.kind) else k }

  function TagSettings(tag: Tag): TypeSettings
  {
    TypeSettings(None, tag.prefix, None,
                 if tag.min.None? && tag.max.None? then None
                 else Some(ArrayRules(if tag.min.Some? then tag.min.value else 0,
                                      if tag.max.Some? then tag.max.value else 0,
                                      {}, V.Mode(false, false, false, false))))
  }

  function CodeWidth(wide: bool): nat { if wide then 4 else 1 }

  function Code(o: ObjectType): nat { match o case ByteCode(b) => b case Uint32Code(n) => n }

  function CodeBytes(o: Option<ObjectType>): Bytes
  {
    match o
    case None => []
    case Some(ByteCode(b)) => LittleEndian(b, 1)
    case Some(Uint32Code(n)) => LittleEndian(n, 4)
  }

  /** writeSliceLength and readSliceLength know no uint64 prefix. */
  function PrefixWidth(p: LengthPrefix): Outcome<nat>
  {
    match p
    case AsByte => Ok(1)
    case AsUint16 => Ok(2)
    case AsUint32 => Ok(4)
    case AsUint64 => Fail
  }

  function LengthBytes(ts: TypeSettings, len: nat): Outcome<Bytes>
  {
    if ts.prefix.None? then Fail else
      var w :- PrefixWidth(ts.prefix.value);
      if len < Pow256(w) then Ok(LittleEndian(len, w)) else Fail
  }

  function ReadLength(ts: TypeSettings, b: Bytes): (r: Outcome<(nat, nat)>)
    ensures r.Ok? ==> 1 <= r.value.1 <= |b|
  {
    if ts.prefix.None? then Fail else
      var w :- PrefixWidth(ts.prefix.value);
      if |b| < w then Fail else Ok((FromLittleEndian(b[..w]), w))
  }

  /** Go types that can be map keys. */
  predicate Comparable(s: Schema)
  {
    match s.kind
    case ByteSlice | Slice(_) | Map(_, _) | Entry(_, _) => false
    case Struct(fields) => forall f :: f in fields ==> ComparableField(f)
    case _ => true
  }

  predicate ComparableField(f: Field)
  {
    match f
    case Plain(s, _) => Comparable(s)
    case Optional(s, _) => Comparable(s)
    case Embedded(inner, pointer, _) => pointer || forall g :: g in inner ==> ComparableField(g)
  }

  /** Map keys that are equal if they look the same, because there are no pointers inside.
      Others may occur twice with the same content. */
  predicate ByContent(s: Schema)
  {
    match s.kind
    case Bool | Num(_, _) | Str | ByteArray(_) => true
    case Struct(fields) => forall f :: f in fields ==> ByContentField(f)
    case _ => false
  }

  predicate ByContentField(f: Field)
  {
    match f
    case Plain(s, _) => ByContent(s)
    case Optional(s, _) => ByContent(s)
    case Embedded(inner, pointer, _) => !pointer && forall g :: g in inner ==> ByContentField(g)
  }

  /** Pointers and interfaces; other fields cannot be optional. */
  predicate Nilable(s: Schema) { s.kind.Ptr? || s.kind.Uint256? || s.kind.Interface? }

  /** GetByValue looks through nil pointers and interfaces of unregistered types when
      a map entry is decoded, and finds no type behind them. */
  predicate DirectLookup(s: Schema) { Nilable(s) ==> Registration(s).Some? }

  predicate DistinctKeys(entries: seq<Value>)
  {
    && (forall i :: 0 <= i < |entries| ==> entries[i].VEntry?)
    && (forall i, j :: 0 <= i < j < |entries| ==> entries[i].key != entries[j].key)
  }

  function Unsigned(n: int, w: nat): int { if n < 0 then n + Pow256(w) else n }

  predicate InRange(n: int, w: nat, signed: bool)
  {
    if signed then w > 0 && -(Pow256(w) / 2) <= n < Pow256(w) / 2 else 0 <= n < Pow256(w)
  }

  function Signed(u: nat, w: nat, signed: bool): int
  {
    if signed && u >= Pow256(w) / 2 then u - Pow256(w) else u
  }

  function Indirect(s: Schema): Schema { if s.kind.Ptr? then s.kind.elem else s }

  /** checkArrayMustOccur: the code registered for the type of each element behind its pointer or
      interface, and every required one. */
  function ElementCode(R: Registry, elem: Schema, v: Value): Outcome<nat>
  {
    var s := if elem.kind.Interface? && v.VIface? && v.typ in R.objects then Indirect(R.objects[v.typ])
             else if elem.kind.Ptr? then Indirect(elem.kind.elem) else elem;
    if !s.kind.Uint256? && Known(s).Some? && Known(s).value.objectType.Some? then Ok(Code(Known(s).value.objectType.value))
    else Fail
  }

  predicate MustOccur(R: Registry, elem: Schema, vs: seq<Value>, ts: TypeSettings)
  {
    var required := Rules(ts).mustOccur;
    required == {} ||
    ((forall i :: 0 <= i < |vs| ==> ElementCode(R, elem, vs[i]).Ok?) &&
     (forall c :: c in required ==> exists i :: 0 <= i < |vs| && ElementCode(R, elem, vs[i]) == Ok(c)))
  }

  // ----- UTF-8 --------------------------------------------------------------------------

  predicate Tail(b: Byte) { 0x80 <= b <= 0xBF }

  /** utf8.ValidString. */
  predicate ValidUtf8(b: Bytes)
  {
    if b == [] then true
    else if b[0] < 0x80 then ValidUtf8(b[1..])
    else if 0xC2 <= b[0] <= 0xDF then |b| >= 2 && Tail(b[1]) && ValidUtf8(b[2..])
    else if 0xE0 <= b[0] <= 0xEF then
      |b| >= 3 && Tail(b[1]) && Tail(b[2]) &&
      (b[0] == 0xE0 ==> b[1] >= 0xA0) && (b[0] == 0xED ==> b[1] <= 0x9F) && ValidUtf8(b[3..])
    else if 0xF0 <= b[0] <= 0xF4 then
      |b| >= 4 && Tail(b[1]) && Tail(b[2]) && Tail(b[3]) &&
      (b[0] == 0xF0 ==> b[1] >= 0x90) && (b[0] == 0xF4 ==> b[1] <= 0x8F) && ValidUtf8(b[4..])
    else false
  }

  // ----- encoding -------------------------------------------------------------------------

  /** encodeSliceOfBytes with WriteSliceOfByteSlices. */
  function EncodeSequence(data: seq<Bytes>, ts: TypeSettings, vld: bool): Outcome<Bytes>
  {
    if vld && !InBounds(ts, |data|) then Fail else
      var len :- LengthBytes(ts, |data|);
      var ordered := if Sorts(ts) then SortBytes(data) else data;
      if vld && !V.Accepts(Rules(ts).mode, V.Writer, ordered) then Fail
      else Ok(len + Concat(ordered))
  }

  function EncodeStr(x: Bytes, ts: TypeSettings, vld: bool): Outcome<Bytes>
  {
    if vld && (!InBounds(ts, |x|) || !ValidUtf8(x)) then Fail else
      var len :- LengthBytes(ts, |x|);
      Ok(len + x)
  }

  function EncodeByteSlice(x: Bytes, ts: TypeSettings): Outcome<Bytes>
  {
    if !InBounds(ts, |x|) then Fail else
      var len :- LengthBytes(ts, |x|);
      Ok(len + x)
  }

  /** encode; a value that is not of the type fails. */
  function Encode(R: Registry, s: Schema, v: Value, given: TypeSettings, vld: bool): Outcome<Bytes>
    decreases v, 2
  {
    var ts := Settings(given, s);
    match s.kind
    case Bool => if v.VBool? then Ok([if v.b then 1 else 0]) else Fail
    case Num(w, signed) =>
      if v.VNum? && InRange(v.n, w, signed) then Ok(LittleEndian(Unsigned(v.n, w), w)) else Fail
    case Uint256 => if v.VNum? && 0 <= v.n < Pow256(32) then Ok(LittleEndian(v.n, 32)) else Fail
    case Str => if v.VBytes? then EncodeStr(v.bytes, ts, vld) else Fail
    case ByteSlice => if v.VBytes? then EncodeByteSlice(v.bytes, ts) else Fail
    case ByteArray(n) => if vld && !InBounds(ts, n) then Fail else EncodeArray(n, v, ts)
    case Struct(fields) => EncodeStruct(R, fields, v, ts, vld)
    case Slice(elem) => if v.VSlice? then EncodeSlice(R, elem, v.elems, ts, vld) else Fail
    case Map(key, val) => if v.VMap? && Comparable(key) then EncodeMap(R, key, val, v.entries, ts, vld) else Fail
    case Entry(key, val) => EncodeEntry(R, key, val, v, vld)
    case Ptr(elem) => EncodePointer(R, elem, v, ts, vld)
    case Interface(name) => EncodeInterface(R, name, v, ts, vld)
  }

  /** Only structs and arrays are encoded through a pointer. A pointer has no length to check. */
  function EncodePointer(R: Registry, elem: Schema, v: Value, ts: TypeSettings, vld: bool): Outcome<Bytes>
    decreases v, 1
  {
    match elem.kind
    case Struct(fields) => EncodeStruct(R, fields, v, ts, vld)
    case ByteArray(n) => EncodeArray(n, v, ts)
    case _ => Fail
  }

  function EncodeArray(n: nat, v: Value, ts: TypeSettings): Outcome<Bytes>
  {
    if v.VBytes? && |v.bytes| == n then Ok(CodeBytes(ts.objectType) + v.bytes) else Fail
  }

  function EncodeStruct(R: Registry, fields: seq<Field>, v: Value, ts: TypeSettings, vld: bool): Outcome<Bytes>
    decreases v, 0
  {
    if !v.VStruct? then Fail else
      var body :- EncodeFields(R, fields, v.vals, vld);
      Ok(CodeBytes(ts.objectType) + body)
  }

  function EncodeSlice(R: Registry, elem: Schema, elems: seq<Value>, ts: TypeSettings, vld: bool): Outcome<Bytes>
    decreases elems, 1
  {
    if vld && !(InBounds(ts, |elems|) && MustOccur(R, elem, elems, ts)) then Fail else
      var data :- EncodeItems(R, elem, elems, vld);
      EncodeSequence(data, ts, vld)
  }

  function EncodeMap(R: Registry, key: Schema, val: Schema, entries: seq<Value>, ts: TypeSettings, vld: bool): Outcome<Bytes>
    decreases entries, 1
  {
    if (ByContent(key) && !DistinctKeys(entries)) || (vld && !InBounds(ts, |entries|)) then Fail else
      var data :- EncodeItems(R, EntrySchema(key, val), entries, vld);
      EncodeSequence(data, EnsureOrdering(ts), vld)
  }

  /** encodeMapKVPair */
  function EncodeEntry(R: Registry, key: Schema, val: Schema, v: Value, vld: bool): Outcome<Bytes>
    decreases v, 1
  {
    if !v.VEntry? then Fail else
      var k :- Encode(R, key, v.key, NoSettings, vld);
      var x :- Encode(R, val, v.val, NoSettings, vld);
      Ok(k + x)
  }

  function EncodeInterface(R: Registry, name: string, v: Value, ts: TypeSettings, vld: bool): Outcome<Bytes>
    decreases v, 1
  {
    if v.VIface? && name in R.interfaces && v.typ in R.interfaces[name].codeOf && v.typ in R.objects
    then Encode(R, R.objects[v.typ], v.obj, ts, vld)
    else Fail
  }

  function EntrySchema(key: Schema, val: Schema): Schema { Schema(Entry(key, val), None) }

  function EncodeItems(R: Registry, s: Schema, vs: seq<Value>, vld: bool): (r: Outcome<seq<Bytes>>)
    ensures r.Ok? ==> |r.value| == |vs|
    ensures r.Ok? ==> forall i :: 0 <= i < |vs| ==> Encode(R, s, vs[i], NoSettings, vld) == Ok(r.value[i])
    decreases vs, 0
  {
    if vs == [] then Ok([]) else
      var head :- Encode(R, s, vs[0], NoSettings, vld);
      var tail :- EncodeItems(R, s, vs[1..], vld);
      Ok([head] + tail)
  }

  function EncodeFields(R: Registry, fields: seq<Field>, vs: seq<Value>, vld: bool): Outcome<Bytes>
    decreases vs, 0
  {
    if |fields| != |vs| then Fail
    else if fields == [] then Ok([]) else
      var head :- EncodeField(R, fields[0], vs[0], vld);
      var tail :- EncodeFields(R, fields[1..], vs[1..], vld);
      Ok(head + tail)
  }

  function EncodeField(R: Registry, f: Field, v: Value, vld: bool): Outcome<Bytes>
    decreases v, 3
  {
    match f
    case Plain(s, tag) => Encode(R, s, v, TagSettings(tag), vld)
    case Optional(s, tag) =>
      if !Nilable(s) then Fail
      else if v.VNil? then Ok(LittleEndian(0, 4))
      else
        var body :- Encode(R, s, v, TagSettings(tag), vld);
        Ok(LittleEndian(|body| % 0x1_0000_0000, 4) + body)
    case Embedded(inner, pointer, _) =>
      if v.VNil? then (if pointer then Ok([]) else Fail)
      else if v.VStruct? then EncodeFields(R, inner, v.vals, vld)
      else Fail
  }

  // ----- decoding ----------------------------------------------------------------------------

  /** Registration demands an object code, and no registered object is itself an interface. */
  ghost predicate Registered(R: Registry)
  {
    forall name, c :: name in R.interfaces && c in R.interfaces[name].byCode ==>
      && R.interfaces[name].byCode[c] in R.objects
      && Concrete(R.objects[R.interfaces[name].byCode[c]])
  }

  predicate Concrete(s: Schema)
  {
    && !Behind(s.kind).Interface? && !Behind(s.kind).Entry?
    && Known(s).Some? && Known(s).value.objectType.Some?
  }

  /** One when decoding consumes a byte before it decodes anything nested. */
  function Tier(k: Kind, ts: TypeSettings): nat
  {
    if Behind(k).Interface? || Behind(k).Entry? || (Behind(k).Struct? && ts.objectType.None?) then 2 else 1
  }

  /** CheckTypePrefix: the code is there; the result is its width. */
  function ReadCode(o: Option<ObjectType>, b: Bytes): (r: Outcome<nat>)
    ensures r.Ok? ==> r.value <= |b| && (o.Some? ==> r.value > 0)
  {
    match o
    case None => Ok(0)
    case Some(ByteCode(c)) => if |b| >= 1 && b[0] == c then Ok(1) else Fail
    case Some(Uint32Code(c)) => if |b| >= 4 && FromLittleEndian(b[..4]) == c then Ok(4) else Fail
  }

  function DecodeStr(b: Bytes, ts: TypeSettings, vld: bool): (r: Outcome<(Value, nat)>)
    ensures r.Ok? ==> r.value.1 <= |b|
  {
    var (len, w) :- ReadLength(ts, b);
    if (vld && !InBounds(ts, len)) || |b| - w < len || (vld && !ValidUtf8(b[w..w + len])) then Fail
    else Ok((VBytes(b[w..w + len]), w + len))
  }

  function DecodeByteSlice(b: Bytes, ts: TypeSettings): (r: Outcome<(Value, nat)>)
    ensures r.Ok? ==> r.value.1 <= |b|
  {
    var (len, w) :- ReadLength(ts, b);
    if !InBounds(ts, len) || |b| - w < len then Fail
    else Ok((VBytes(b[w..w + len]), w + len))
  }

  function DecodeArray(n: nat, b: Bytes, ts: TypeSettings): (r: Outcome<(Value, nat)>)
    ensures r.Ok? ==> r.value.1 <= |b|
  {
    var w :- ReadCode(ts.objectType, b);
    if |b| - w >= n then Ok((VBytes(b[w..w + n]), w + n)) else Fail
  }

  /** decode: the value and the number of bytes read. */
  function Decode(R: Registry, s: Schema, b: Bytes, given: TypeSettings, vld: bool): (r: Outcome<(Value, nat)>)
    requires Registered(R)
    ensures r.Ok? ==> r.value.1 <= |b|
    decreases |b|, Tier(s.kind, Settings(given, s)), s.kind, 2
  {
    DecodeKind(R, s.kind, b, Settings(given, s), vld)
  }

  function DecodeKind(R: Registry, k: Kind, b: Bytes, ts: TypeSettings, vld: bool): (r: Outcome<(Value, nat)>)
    requires Registered(R)
    ensures r.Ok? ==> r.value.1 <= |b|
    decreases |b|, Tier(k, ts), k, 1
  {
    match k
    case Bool =>
      if |b| >= 1 && b[0] <= 1 then Ok((VBool(b[0] == 1), 1)) else Fail
    case Num(w, signed) =>
      if |b| >= w then Ok((VNum(Signed(FromLittleEndian(b[..w]), w, signed)), w)) else Fail
    case Uint256 =>
      if |b| >= 32 then Ok((VNum(FromLittleEndian(b[..32])), 32)) else Fail
    case Str => DecodeStr(b, ts, vld)
    case ByteSlice => DecodeByteSlice(b, ts)
    case ByteArray(n) => DecodeArray(n, b, ts)
    case Struct(fields) => DecodeStruct(R, fields, b, ts, vld)
    case Slice(elem) => DecodeSlice(R, elem, b, ts, vld)
    case Map(key, val) => if Comparable(key) then DecodeMap(R, key, val, b, ts, vld) else Fail
    case Entry(key, val) => DecodeEntry(R, key, val, b, vld)
    case Ptr(elem) => DecodeKind(R, elem.kind, b, Pointed(ts, elem), vld)
    case Interface(name) => DecodeInterface(R, name, b, ts, vld)
  }

  function DecodeStruct(R: Registry, fields: seq<Field>, b: Bytes, ts: TypeSettings, vld: bool): (r: Outcome<(Value, nat)>)
    requires Registered(R)
    ensures r.Ok? ==> r.value.1 <= |b|
    decreases |b|, if ts.objectType.None? then 2 else 1, fields, 1
  {
    var w :- ReadCode(ts.objectType, b);
    var (vs, n) :- DecodeFields(R, fields, b[w..], vld);
    Ok((VStruct(vs), w + n))
  }

  function DecodeSlice(R: Registry, elem: Schema, b: Bytes, ts: TypeSettings, vld: bool): (r: Outcome<(Value, nat)>)
    requires Registered(R)
    ensures r.Ok? ==> r.value.1 <= |b|
    decreases |b|, 1, elem, 1
  {
    var (vs, n) :- DecodeSequence(R, elem, b, ts, vld);
    if vld && !MustOccur(R, elem, vs, ts) then Fail else Ok((VSlice(vs), n))
  }

  function DecodeMap(R: Registry, key: Schema, val: Schema, b: Bytes, ts: TypeSettings,
                     vld: bool): (r: Outcome<(Value, nat)>)
    requires Registered(R)
    ensures r.Ok? ==> r.value.1 <= |b|
    decreases |b|, 1, key, 1
  {
    var (vs, n) :- DecodeSequence(R, EntrySchema(key, val), b, EnsureOrdering(ts), vld);
    if (ByContent(key) ==> DistinctKeys(vs)) && (vld ==> InBounds(ts, |vs|)) then Ok((VMap(vs), n)) else Fail
  }

  /** decodeMapKVPair */
  function DecodeEntry(R: Registry, key: Schema, val: Schema, b: Bytes, vld: bool): (r: Outcome<(Value, nat)>)
    requires Registered(R)
    ensures r.Ok? ==> r.value.1 <= |b|
    decreases |b|, 2, Entry(key, val), 0
  {
    if !DirectLookup(key) || !DirectLookup(val) then Fail else
      var (k, n) :- Decode(R, key, b, NoSettings, vld);
      var (x, m) :- Decode(R, val, b[n..], NoSettings, vld);
      Ok((VEntry(k, x), n + m))
  }

  function DecodeInterface(R: Registry, name: string, b: Bytes, ts: TypeSettings, vld: bool): (r: Outcome<(Value, nat)>)
    requires Registered(R)
    ensures r.Ok? ==> r.value.1 <= |b|
    decreases |b|, 2, Interface(name), 0
  {
    if name !in R.interfaces then Fail else
      var objs := R.interfaces[name];
      var w := CodeWidth(objs.wide);
      if |b| < w || FromLittleEndian(b[..w]) !in objs.byCode then Fail else
        var t := objs.byCode[FromLittleEndian(b[..w])];
        var (x, n) :- Decode(R, R.objects[t], b, ts, vld);
        Ok((VIface(t, x), n))
  }

  /** decodeSequence with ReadSequenceOfObjects. */
  function DecodeSequence(R: Registry, elem: Schema, b: Bytes, ts: TypeSettings, vld: bool): (r: Outcome<(seq<Value>, nat)>)
    requires Registered(R)
    ensures r.Ok? ==> r.value.1 <= |b|
    decreases |b|, 0
  {
    var (count, w) :- ReadLength(ts, b);
    if vld && !InBounds(ts, count) then Fail else
      var (vs, data) :- DecodeItems(R, elem, b[w..], count, vld);
      if vld && !V.Accepts(Rules(ts).mode, V.Reader, data) then Fail
      else Ok((vs, w + |Concat(data)|))
  }

  lemma ConsecutiveItems(b: Bytes, n: nat, data: seq<Bytes>)
    requires n <= |b| && |Concat(data)| <= |b| - n && Concat(data) == b[n..][..|Concat(data)|]
    ensures var c := Concat([b[..n]] + data); |c| <= |b| && c == b[..|c|]
  {
    assert ([b[..n]] + data)[1..] == data;
    assert b[..n] + b[n..][..|Concat(data)|] == b[..n + |Concat(data)|];
  }

  /** The decoded items and the bytes each was read from. */
  function DecodeItems(R: Registry, elem: Schema, b: Bytes, count: nat, vld: bool): (r: Outcome<(seq<Value>, seq<Bytes>)>)
    requires Registered(R)
    ensures r.Ok? ==> |r.value.0| == |r.value.1| == count
    ensures r.Ok? ==> |Concat(r.value.1)| <= |b| && Concat(r.value.1) == b[..|Concat(r.value.1)|]
    decreases |b|, 3, elem, count
  {
    if count == 0 then Ok(([], [])) else
      var (v, n) :- Decode(R, elem, b, NoSettings, vld);
      var (vs, data) :- DecodeItems(R, elem, b[n..], count - 1, vld);
      ConsecutiveItems(b, n, data);
      Ok(([v] + vs, [b[..n]] + data))
  }

  function DecodeFields(R: Registry, fields: seq<Field>, b: Bytes, vld: bool): (r: Outcome<(seq<Value>, nat)>)
    requires Registered(R)
    ensures r.Ok? ==> r.value.1 <= |b| && |r.value.0| == |fields|
    decreases |b|, 2, fields, 0
  {
    if fields == [] then Ok(([], 0)) else
      var (v, n) :- DecodeField(R, fields[0], b, vld);
      var (vs, m) :- DecodeFields(R, fields[1..], b[n..], vld);
      Ok(([v] + vs, n + m))
  }

  function DecodeField(R: Registry, f: Field, b: Bytes, vld: bool): (r: Outcome<(Value, nat)>)
    requires Registered(R)
    ensures r.Ok? ==> r.value.1 <= |b|
    decreases |b|, 2, f, 0
  {
    match f
    case Plain(s, tag) => Decode(R, s, b, TagSettings(tag), vld)
    case Optional(s, tag) =>
      if !Nilable(s) || |b| < 4 then Fail
      else if FromLittleEndian(b[..4]) == 0 then Ok((VNil, 4))
      else
        var (v, n) :- Decode(R, s, b[4..], TagSettings(tag), vld);
        if n == FromLittleEndian(b[..4]) then Ok((v, 4 + n)) else Fail
    case Embedded(inner, pointer, exported) =>
      if pointer && !exported then Fail else
        var (vs, n) :- DecodeFields(R, inner, b, vld);
        Ok((VStruct(vs), n))
  }
}
