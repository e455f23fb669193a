/** What the codec writes, byte by byte, and when it refuses to write. */
module CodecFormat {
  import opened ByteStrings
  import opened Codec
  import V = Validators

  // ----- which settings count ------------------------------------------------------------------

  /** Settings that are passed in, from a struct tag or an option, override registered ones, each
      for itself; registered ones fill the gaps. */
  lemma GivenFirst(given: TypeSettings, s: Schema)
    requires !s.kind.Ptr? && !s.kind.Interface?
    ensures var ts, reg := Settings(given, s), if s.reg.Some? then s.reg.value else NoSettings;
            && (given.objectType.Some? ==> ts.objectType == given.objectType)
            && (given.objectType.None? ==> ts.objectType == reg.objectType)
            && (given.prefix.Some? ==> ts.prefix == given.prefix) && (given.prefix.None? ==> ts.prefix == reg.prefix)
            && (given.lexicalOrdering.Some? ==> ts.lexicalOrdering == given.lexicalOrdering)
            && (given.lexicalOrdering.None? ==> ts.lexicalOrdering == reg.lexicalOrdering)
            && (given.rules.Some? ==> ts.rules == given.rules) && (given.rules.None? ==> ts.rules == reg.rules)
  {
  }

  /** For a pointer the registration of the pointer type counts, and only without one that of its
      element; the element's own settings are looked up again for numbers, bools, strings and
      pointers. */
  lemma PointerSettings(given: TypeSettings, own: Option<TypeSettings>, elem: Schema)
    requires !elem.kind.Interface?
    ensures var p := Schema(Ptr(elem), own);
            Settings(given, p) == Settings(given, Schema(Bool, if own.Some? then own else elem.reg))
    ensures elem.kind.Struct? || elem.kind.ByteArray? || elem.kind.Slice? || elem.kind.Map? || elem.kind.ByteSlice? ==>
      Pointed(given, elem) == given
    ensures elem.kind.Bool? || elem.kind.Num? || elem.kind.Str? ==>
      Pointed(given, elem) == Settings(given, Schema(Bool, elem.reg))
  {
  }

  predicate Within(len: nat, min: nat, max: nat) { (min > 0 ==> min <= len) && (max > 0 ==> len <= max) }

  /** The length bounds in force for a field: those of its tag if it has any, else registered ones;
      zero is no bound. */
  predicate BoundsAre(tag: Tag, reg: TypeSettings, min: nat, max: nat)
  {
    if tag.min.Some? || tag.max.Some? then
      min == (if tag.min.Some? then tag.min.value else 0) && max == (if tag.max.Some? then tag.max.value else 0)
    else if reg.rules.Some? then min == reg.rules.value.min && max == reg.rules.value.max
    else min == 0 && max == 0
  }

  predicate PrefixIs(tag: Tag, reg: TypeSettings, p: LengthPrefix)
  {
    tag.prefix == Some(p) || (tag.prefix.None? && reg.prefix == Some(p))
  }

  // ----- lengths and codes ------------------------------------------------------------------------

  /** A length in front of what it counts. There is no eight-byte form. */
  function LengthField(p: LengthPrefix, n: nat): Outcome<Bytes>
  {
    match p
    case AsByte => if n < 0x100 then Ok([n]) else Fail
    case AsUint16 => if n < 0x1_0000 then Ok([n % 0x100, n / 0x100]) else Fail
    case AsUint32 =>
      if n < 0x1_0000_0000 then Ok([n % 0x100, n / 0x100 % 0x100, n / 0x1_0000 % 0x100, n / 0x100_0000]) else Fail
    case AsUint64 => Fail
  }

  lemma OneByte(n: nat)
    requires n < 0x100
    ensures LittleEndian(n, 1) == [n]
  {
    assert n / 0x100 == 0 && LittleEndian(0, 0) == [];
  }

  lemma TwoBytes(n: nat)
    requires n < 0x1_0000
    ensures LittleEndian(n, 2) == [n % 0x100, n / 0x100]
  {
    assert LittleEndian(n / 0x100, 1) == [n / 0x100 % 0x100] + LittleEndian(n / 0x100 / 0x100, 0);
  }

  lemma FourBytes(n: nat)
    requires n < 0x1_0000_0000
    ensures LittleEndian(n, 4) == [n % 0x100, n / 0x100 % 0x100, n / 0x1_0000 % 0x100, n / 0x100_0000]
  {
    var a, b, c := n / 0x100, n / 0x100 / 0x100, n / 0x100 / 0x100 / 0x100;
    assert LittleEndian(c, 1) == [c % 0x100] + LittleEndian(c / 0x100, 0);
    assert LittleEndian(b, 2) == [b % 0x100] + LittleEndian(c, 1);
    assert LittleEndian(a, 3) == [a % 0x100] + LittleEndian(b, 2);
    assert b == n / 0x1_0000 && c == n / 0x100_0000;
  }

  lemma LengthFormat(ts: TypeSettings, n: nat)
    ensures ts.prefix.Some? ==> LengthBytes(ts, n) == LengthField(ts.prefix.value, n)
    ensures ts.prefix.None? ==> LengthBytes(ts, n) == Fail
  {
    Pow256Values();
    assert Pow256(2) == 256 * Pow256(1);
    if n < 0x100 {
      OneByte(n);
    }
    if n < 0x1_0000 {
      TwoBytes(n);
    }
    if n < 0x1_0000_0000 {
      FourBytes(n);
    }
  }

  /** The code in front of structs and byte arrays. */
  lemma CodeFormat(o: Option<ObjectType>)
    ensures o.None? ==> CodeBytes(o) == []
    ensures o.Some? && o.value.ByteCode? ==> CodeBytes(o) == [o.value.b]
    ensures o.Some? && o.value.Uint32Code? ==>
      CodeBytes(o) == [o.value.n % 0x100, o.value.n / 0x100 % 0x100, o.value.n / 0x1_0000 % 0x100, o.value.n / 0x100_0000]
  {
    if o.Some? && o.value.Uint32Code? {
      FourBytes(o.value.n);
    }
  }

  // ----- values without parts -----------------------------------------------------------------------

  lemma BoolFormat(R: Registry, reg: Option<TypeSettings>, b: bool, given: TypeSettings, vld: bool)
    ensures Encode(R, Schema(Bool, reg), VBool(b), given, vld) == Ok(if b then [1] else [0])
  {
  }

  /** Numbers are written if they are in range, in two's complement, the least significant byte
      first. */
  lemma NumFormat(R: Registry, w: nat, signed: bool, reg: Option<TypeSettings>, n: int, given: TypeSettings, vld: bool)
    requires w > 0
    ensures var e, half := Encode(R, Schema(Num(w, signed), reg), VNum(n), given, vld), Pow256(w) / 2;
            && (e.Ok? <==> if signed then -half <= n < half else 0 <= n < Pow256(w))
            && (e.Ok? ==> |e.value| == w && forall i :: 0 <= i < w ==> e.value[i] == n % Pow256(w) / Pow256(i) % 256)
  {
    var e := Encode(R, Schema(Num(w, signed), reg), VNum(n), given, vld);
    if e.Ok? {
      Complement(n, w);
      forall i | 0 <= i < w ensures e.value[i] == n % Pow256(w) / Pow256(i) % 256 {
        LittleEndianByte(Unsigned(n, w), w, i);
      }
    }
  }

  lemma Complement(n: int, w: nat)
    requires n < Pow256(w) && 0 < n + Pow256(w)
    ensures 0 <= Unsigned(n, w) == n % Pow256(w)
  {
    hide Pow256;
    RemainderIs(n, Pow256(w));
  }

  lemma RemainderIs(n: int, d: int)
    requires d > 0 && -d < n < d
    ensures n % d == if n < 0 then n + d else n
  {
  }

  lemma Uint256Format(R: Registry, reg: Option<TypeSettings>, n: int, given: TypeSettings, vld: bool)
    ensures var e := Encode(R, Schema(Uint256, reg), VNum(n), given, vld);
            && (e.Ok? <==> 0 <= n < Pow256(32))
            && (e.Ok? ==> |e.value| == 32 && forall i :: 0 <= i < 32 ==> e.value[i] == n / Pow256(i) % 256)
  {
    hide Pow256, LittleEndian;
    if 0 <= n < Pow256(32) {
      forall i | 0 <= i < 32 ensures LittleEndian(n, 32)[i] == n / Pow256(i) % 256 {
        LittleEndianByte(n, 32, i);
      }
    }
  }

  lemma TagBounds(tag: Tag, reg: TypeSettings, s: Schema, min: nat, max: nat, len: nat)
    requires s.reg == Some(reg) && !s.kind.Interface? && !s.kind.Ptr? && BoundsAre(tag, reg, min, max)
    ensures InBounds(Settings(TagSettings(tag), s), len) <==> Within(len, min, max)
  {
  }

  lemma TagPrefix(tag: Tag, reg: TypeSettings, s: Schema, p: LengthPrefix)
    requires s.reg == Some(reg) && !s.kind.Interface? && !s.kind.Ptr? && PrefixIs(tag, reg, p)
    ensures Settings(TagSettings(tag), s).prefix == Some(p)
  {
  }

  /** A string is its length and its bytes. With validation it must be UTF-8 and within its bounds. */
  lemma StrFormat(R: Registry, reg: TypeSettings, tag: Tag, x: Bytes, vld: bool, p: LengthPrefix, min: nat, max: nat)
    requires PrefixIs(tag, reg, p) && BoundsAre(tag, reg, min, max)
    ensures var e, len := Encode(R, Schema(Str, Some(reg)), VBytes(x), TagSettings(tag), vld), LengthField(p, |x|);
            e == if len.Ok? && (vld ==> Within(|x|, min, max) && ValidUtf8(x)) then Ok(len.value + x) else Fail
  {
    hide ValidUtf8, LengthField, LengthBytes;
    var s := Schema(Str, Some(reg));
    var ts := Settings(TagSettings(tag), s);
    TagBounds(tag, reg, s, min, max, |x|);
    TagPrefix(tag, reg, s, p);
    LengthFormat(ts, |x|);
    hide InBounds, Within, BoundsAre;
    assert Encode(R, s, VBytes(x), TagSettings(tag), vld) == EncodeStr(x, ts, vld);
  }

  /** A short string in a field tagged with a one-byte length, whatever its type is registered with. */
  lemma TagWins(R: Registry, reg: TypeSettings, x: Bytes, vld: bool)
    requires reg.rules.None? && |x| < 256 && ValidUtf8(x)
    ensures Encode(R, Schema(Str, Some(reg)), VBytes(x), TagSettings(Tag(Some(AsByte), None, None)), vld) == Ok([|x|] + x)
  {
    StrFormat(R, reg, Tag(Some(AsByte), None, None), x, vld, AsByte, 0, 0);
  }

  /** A byte slice must be within its bounds with or without validation. */
  lemma ByteSliceFormat(R: Registry, reg: TypeSettings, tag: Tag, x: Bytes, vld: bool, p: LengthPrefix, min: nat, max: nat)
    requires PrefixIs(tag, reg, p) && BoundsAre(tag, reg, min, max)
    ensures var e, len := Encode(R, Schema(ByteSlice, Some(reg)), VBytes(x), TagSettings(tag), vld), LengthField(p, |x|);
            e == if len.Ok? && Within(|x|, min, max) then Ok(len.value + x) else Fail
  {
    hide LengthField, LengthBytes;
    var s := Schema(ByteSlice, Some(reg));
    var ts := Settings(TagSettings(tag), s);
    TagBounds(tag, reg, s, min, max, |x|);
    TagPrefix(tag, reg, s, p);
    LengthFormat(ts, |x|);
    hide InBounds, Within, BoundsAre;
    assert Encode(R, s, VBytes(x), TagSettings(tag), vld) == EncodeByteSlice(x, ts);
  }

  /** A byte array is its code and its bytes; with validation, and not behind a pointer, it must be
      within its bounds. */
  lemma ArrayFormat(R: Registry, n: nat, reg: TypeSettings, tag: Tag, x: Bytes, vld: bool, min: nat, max: nat)
    requires BoundsAre(tag, reg, min, max) && |x| == n
    ensures Encode(R, Schema(ByteArray(n), Some(reg)), VBytes(x), TagSettings(tag), vld)
         == if vld ==> Within(n, min, max) then Ok(CodeBytes(reg.objectType) + x) else Fail
    ensures Encode(R, Schema(Ptr(Schema(ByteArray(n), Some(reg))), None), VBytes(x), TagSettings(tag), vld)
         == Ok(CodeBytes(reg.objectType) + x)
  {
    hide CodeBytes;
    var s := Schema(ByteArray(n), Some(reg));
    TagBounds(tag, reg, s, min, max, n);
    hide InBounds, Within, BoundsAre;
    assert EncodeArray(n, VBytes(x), Settings(TagSettings(tag), s)) == Ok(CodeBytes(reg.objectType) + x);
    var p := Schema(Ptr(s), None);
    assert Encode(R, p, VBytes(x), TagSettings(tag), vld) == EncodePointer(R, s, VBytes(x), Settings(TagSettings(tag), p), vld);
  }

  // ----- UTF-8 -----------------------------------------------------------------------------------------

  /** The Unicode scalar values: all code points but the surrogates. */
  predicate Scalar(c: nat) { c < 0x11_0000 && !(0xD800 <= c < 0xE000) }

  /** The encoding of a scalar value, as in section 3 of RFC 3629. */
  function Utf8(c: nat): (b: Bytes)
    requires Scalar(c)
  {
    if c < 0x80 then [c]
    else if c < 0x800 then [0xC0 + c / 0x40, 0x80 + c % 0x40]
    else if c < 0x1_0000 then [0xE0 + c / 0x1000, 0x80 + c / 0x40 % 0x40, 0x80 + c % 0x40]
    else [0xF0 + c / 0x4_0000, 0x80 + c / 0x1000 % 0x40, 0x80 + c / 0x40 % 0x40, 0x80 + c % 0x40]
  }

  ghost predicate Scalars(cs: seq<nat>) { forall i :: 0 <= i < |cs| ==> Scalar(cs[i]) }

  function Utf8All(cs: seq<nat>): Bytes
    requires Scalars(cs)
  {
    if cs == [] then [] else Utf8(cs[0]) + Utf8All(cs[1..])
  }

  lemma Utf8First(c: nat, rest: Bytes)
    requires Scalar(c)
    ensures ValidUtf8(Utf8(c) + rest) <==> ValidUtf8(rest)
  {
    if c < 0x80 {
      var b := Utf8(c) + rest;
      assert b[0] == c && b[1..] == rest;
    } else if c < 0x800 {
      FirstOfTwo(c, rest);
    } else if c < 0x1_0000 {
      FirstOfThree(c, rest);
    } else {
      FirstOfFour(c, rest);
    }
  }

  lemma FirstOfTwo(c: nat, rest: Bytes)
    requires 0x80 <= c < 0x800
    ensures ValidUtf8(Utf8(c) + rest) <==> ValidUtf8(rest)
  {
    var b := Utf8(c) + rest;
    assert b[0] == 0xC0 + c / 0x40 && b[1] == 0x80 + c % 0x40 && b[2..] == rest;
    assert 0xC2 <= b[0] <= 0xDF && Tail(b[1]);
  }

  lemma FirstOfThree(c: nat, rest: Bytes)
    requires 0x800 <= c < 0x1_0000 && Scalar(c)
    ensures ValidUtf8(Utf8(c) + rest) <==> ValidUtf8(rest)
  {
    var b := Utf8(c) + rest;
    assert b[0] == 0xE0 + c / 0x1000 && b[1] == 0x80 + c / 0x40 % 0x40 && b[2] == 0x80 + c % 0x40 && b[3..] == rest;
    assert 0xE0 <= b[0] <= 0xEF && Tail(b[1]) && Tail(b[2]);
    assert (b[0] == 0xE0 ==> b[1] >= 0xA0) && (b[0] == 0xED ==> b[1] <= 0x9F);
  }

  lemma FourParts(c: nat, x: nat)
    requires 0x1_0000 <= c < 0x11_0000 && x == c / 0x1000
    ensures c / 0x4_0000 == x / 0x40 <= 4 && (x / 0x40 == 0 ==> x % 0x40 >= 0x10) && (x / 0x40 == 4 ==> x % 0x40 <= 0xF)
  {
    assert 0x10 <= x < 0x110;
  }

  lemma FirstOfFour(c: nat, rest: Bytes)
    requires 0x1_0000 <= c < 0x11_0000
    ensures ValidUtf8(Utf8(c) + rest) <==> ValidUtf8(rest)
  {
    FourParts(c, c / 0x1000);
    var b := Utf8(c) + rest;
    assert b[0] == 0xF0 + c / 0x4_0000 && b[1] == 0x80 + c / 0x1000 % 0x40 && b[2] == 0x80 + c / 0x40 % 0x40;
    assert b[3] == 0x80 + c % 0x40 && b[4..] == rest;
    assert 0xF0 <= b[0] <= 0xF4 && Tail(b[1]) && Tail(b[2]) && Tail(b[3]);
    assert (b[0] == 0xF0 ==> b[1] >= 0x90) && (b[0] == 0xF4 ==> b[1] <= 0x8F);
  }

  lemma {:induction false} Utf8Valid(cs: seq<nat>)
    requires Scalars(cs)
    ensures ValidUtf8(Utf8All(cs))
  {
    if cs != [] {
      Utf8Valid(cs[1..]);
      Utf8First(cs[0], Utf8All(cs[1..]));
    }
  }

  /** The scalar value at the head of valid bytes. */
  lemma Utf8Head(b: Bytes) returns (c: nat)
    requires b != [] && ValidUtf8(b)
    ensures Scalar(c) && |Utf8(c)| <= |b| && Utf8(c) == b[..|Utf8(c)|] && ValidUtf8(b[|Utf8(c)|..])
  {
    if b[0] < 0x80 {
      c := b[0];
    } else if b[0] <= 0xDF {
      c := TwoByteHead(b);
    } else if b[0] <= 0xEF {
      c := ThreeByteHead(b);
    } else {
      c := FourByteHead(b);
    }
  }

  lemma TwoByteHead(b: Bytes) returns (c: nat)
    requires |b| >= 2 && 0xC2 <= b[0] <= 0xDF && Tail(b[1])
    ensures Scalar(c) && Utf8(c) == b[..2]
  {
    var p: int, q: int := b[0], b[1];
    c := (p - 0xC0) * 0x40 + (q - 0x80);
    assert c / 0x40 == b[0] - 0xC0 && c % 0x40 == b[1] - 0x80;
    assert b[..2] == [b[0], b[1]];
  }

  lemma ThreeByteHead(b: Bytes) returns (c: nat)
    requires |b| >= 3 && 0xE0 <= b[0] <= 0xEF && Tail(b[1]) && Tail(b[2])
    requires (b[0] == 0xE0 ==> b[1] >= 0xA0) && (b[0] == 0xED ==> b[1] <= 0x9F)
    ensures Scalar(c) && Utf8(c) == b[..3]
  {
    var p: int, q: int, r: int := b[0], b[1], b[2];
    var d := (p - 0xE0) * 0x40 + (q - 0x80);
    c := d * 0x40 + (r - 0x80);
    assert c / 0x40 == d && c % 0x40 == b[2] - 0x80 && d / 0x40 == b[0] - 0xE0 && d % 0x40 == b[1] - 0x80;
    assert c / 0x1000 == d / 0x40;
    assert b[..3] == [b[0], b[1], b[2]];
  }

  lemma FourByteHead(b: Bytes) returns (c: nat)
    requires |b| >= 4 && 0xF0 <= b[0] <= 0xF4 && Tail(b[1]) && Tail(b[2]) && Tail(b[3])
    requires (b[0] == 0xF0 ==> b[1] >= 0x90) && (b[0] == 0xF4 ==> b[1] <= 0x8F)
    ensures Scalar(c) && Utf8(c) == b[..4]
  {
    var p: int, q: int, r: int, t: int := b[0], b[1], b[2], b[3];
    var x := (p - 0xF0) * 0x40 + (q - 0x80);
    var y := x * 0x40 + (r - 0x80);
    c := y * 0x40 + (t - 0x80);
    assert c / 0x40 == y && c % 0x40 == b[3] - 0x80 && y / 0x40 == x && y % 0x40 == b[2] - 0x80;
    assert x / 0x40 == b[0] - 0xF0 && x % 0x40 == b[1] - 0x80;
    assert c / 0x1000 == x && c / 0x4_0000 == x / 0x40;
    assert b[..4] == [b[0], b[1], b[2], b[3]];
  }

  /** A string is accepted as UTF-8 if and only if it is the encoding of some scalar values. */
  lemma Utf8Exact(b: Bytes)
    ensures ValidUtf8(b) <==> exists cs :: Scalars(cs) && Utf8All(cs) == b
  {
    hide ValidUtf8, Utf8All;
    if ValidUtf8(b) {
      var cs := Utf8Read(b);
    } else if cs :| Scalars(cs) && Utf8All(cs) == b {
      Utf8Valid(cs);
    }
  }

  lemma {:induction false} Utf8Read(b: Bytes) returns (cs: seq<nat>)
    requires ValidUtf8(b)
    ensures Scalars(cs) && Utf8All(cs) == b
    decreases |b|
  {
    hide ValidUtf8, Utf8, Scalar;
    if b == [] {
      cs := [];
    } else {
      var c := Utf8Head(b);
      var n := |Utf8(c)|;
      SomeBytes(c);
      var rest := Utf8Read(b[n..]);
      cs := [c] + rest;
      assert cs[1..] == rest;
      assert b[..n] + b[n..] == b;
    }
  }

  lemma SomeBytes(c: nat)
    requires Scalar(c)
    ensures |Utf8(c)| > 0
  {
  }

  // ----- structs -----------------------------------------------------------------------------------------

  /** The encodings of the fields of a struct. */
  ghost predicate FieldBytes(R: Registry, fields: seq<Field>, vs: seq<Value>, vld: bool, parts: seq<Bytes>)
  {
    && |fields| == |vs| == |parts|
    && forall i :: 0 <= i < |fields| ==> EncodeField(R, fields[i], vs[i], vld) == Ok(parts[i])
  }

  /** The fields are written one after the other, in their order, or not at all. */
  lemma {:induction false} FieldsFormat(R: Registry, fields: seq<Field>, vs: seq<Value>, vld: bool) returns (parts: seq<Bytes>)
    ensures var e := EncodeFields(R, fields, vs, vld);
            && (e.Ok? <==> |fields| == |vs| && forall i :: 0 <= i < |fields| ==> EncodeField(R, fields[i], vs[i], vld).Ok?)
            && (e.Ok? ==> FieldBytes(R, fields, vs, vld, parts) && e.value == Concat(parts))
    decreases |fields|
  {
    hide EncodeField;
    if |fields| != |vs| || fields == [] {
      parts := [];
    } else {
      var rest := FieldsFormat(R, fields[1..], vs[1..], vld);
      assert forall i :: 0 < i < |fields| ==> fields[i] == fields[1..][i - 1] && vs[i] == vs[1..][i - 1];
      assert forall i :: 0 <= i < |fields| - 1 ==> fields[1..][i] == fields[i + 1] && vs[1..][i] == vs[i + 1];
      var head := EncodeField(R, fields[0], vs[0], vld);
      parts := [if head.Ok? then head.value else []] + rest;
      assert parts[1..] == rest;
    }
  }

  /** A struct is its code, if it has one, and its fields. */
  lemma StructFormat(R: Registry, fields: seq<Field>, reg: Option<TypeSettings>, vs: seq<Value>, tag: Tag, vld: bool)
    ensures var e, body := Encode(R, Schema(Struct(fields), reg), VStruct(vs), TagSettings(tag), vld), EncodeFields(R, fields, vs, vld);
            e == if body.Ok? then Ok(CodeBytes(if reg.Some? then reg.value.objectType else None) + body.value) else Fail
  {
    hide EncodeFields, CodeBytes;
    var s := Schema(Struct(fields), reg);
    var ts := Settings(TagSettings(tag), s);
    assert Encode(R, s, VStruct(vs), TagSettings(tag), vld) == EncodeStruct(R, fields, VStruct(vs), ts, vld);
  }

  /** A plain field is its value; an optional one has the length of its value in front, in four
      bytes, or four zeros; an embedded one is its fields, or nothing for a nil pointer. */
  lemma FieldFormat(R: Registry, s: Schema, tag: Tag, inner: seq<Field>, pointer: bool, exported: bool, v: Value, vld: bool)
    ensures EncodeField(R, Plain(s, tag), v, vld) == Encode(R, s, v, TagSettings(tag), vld)
    ensures var e, body := EncodeField(R, Optional(s, tag), v, vld), Encode(R, s, v, TagSettings(tag), vld);
            && (!(s.kind.Ptr? || s.kind.Uint256? || s.kind.Interface?) ==> e == Fail)
            && (s.kind.Ptr? || s.kind.Uint256? || s.kind.Interface? ==>
                  && (v.VNil? ==> e == Ok([0, 0, 0, 0]))
                  && (!v.VNil? && body.Fail? ==> e == Fail)
                  && (!v.VNil? && body.Ok? ==>
                        var n := |body.value| % 0x1_0000_0000;
                        e == Ok([n % 0x100, n / 0x100 % 0x100, n / 0x1_0000 % 0x100, n / 0x100_0000] + body.value)))
    ensures var e := EncodeField(R, Embedded(inner, pointer, exported), v, vld);
            && (v.VNil? ==> e == if pointer then Ok([]) else Fail)
            && (v.VStruct? ==> e == EncodeFields(R, inner, v.vals, vld))
            && (!v.VNil? && !v.VStruct? ==> e == Fail)
  {
    hide Encode, LittleEndian;
    FourBytes(0);
    var body := Encode(R, s, v, TagSettings(tag), vld);
    if body.Ok? {
      FourBytes(|body.value| % 0x1_0000_0000);
    }
  }

  // ----- sequences -----------------------------------------------------------------------------------------

  /** The elements of a sequence are encoded without any settings from outside. */
  ghost predicate ItemBytes(R: Registry, elem: Schema, vs: seq<Value>, vld: bool, parts: seq<Bytes>)
  {
    |parts| == |vs| && forall i :: 0 <= i < |vs| ==> Encode(R, elem, vs[i], NoSettings, vld) == Ok(parts[i])
  }

  /** The number of elements, then the elements: in their order, or in lexical order if the settings
      ask for it and the rules validate it. With validation the number must be within the bounds
      and the elements as written must have the declared properties. */
  lemma SequenceFormat(parts: seq<Bytes>, ts: TypeSettings, vld: bool)
    ensures var e, rules := EncodeSequence(parts, ts, vld), Rules(ts);
            var sorted := ts.lexicalOrdering == Some(true) && rules.mode.lexical;
            var written := if sorted then SortBytes(parts) else parts;
            var len := if ts.prefix.Some? then LengthField(ts.prefix.value, |parts|) else Fail;
            e == if len.Ok? && (vld ==> Within(|parts|, rules.min, rules.max) && V.Meaning(rules.mode, V.Writer, written))
                 then Ok(len.value + Concat(written)) else Fail
  {
    hide LengthField, LengthBytes, Concat, V.Meaning, V.Accepts, SortBytes;
    LengthFormat(ts, |parts|);
    V.AcceptsIff(Rules(ts).mode, V.Writer, if Sorts(ts) then SortBytes(parts) else parts);
  }

  lemma SliceFormat(R: Registry, elem: Schema, reg: Option<TypeSettings>, vs: seq<Value>, parts: seq<Bytes>, given: TypeSettings, vld: bool)
    requires ItemBytes(R, elem, vs, vld, parts)
    ensures var s := Schema(Slice(elem), reg);
            var e, ts := Encode(R, s, VSlice(vs), given, vld), Settings(given, s);
            e == if vld && !RequiredOccur(R, elem, vs, Rules(ts).mustOccur) then Fail else EncodeSequence(parts, ts, vld)
  {
    var s := Schema(Slice(elem), reg);
    ItemsAre(R, elem, vs, vld, parts);
    hide EncodeItems, MustOccur;
    MustOccurIs(R, elem, vs, Settings(given, s));
    hide RequiredOccur;
    assert Encode(R, s, VSlice(vs), given, vld) == EncodeSlice(R, elem, vs, Settings(given, s), vld);
  }

  /** Every required code is the registered code of some element, and every element has one. */
  ghost predicate RequiredOccur(R: Registry, elem: Schema, vs: seq<Value>, required: set<nat>)
  {
    required != {} ==>
      && (forall i :: 0 <= i < |vs| ==> ElementCode(R, elem, vs[i]).Ok?)
      && (forall c :: c in required ==> exists i :: 0 <= i < |vs| && ElementCode(R, elem, vs[i]) == Ok(c))
  }

  lemma MustOccurIs(R: Registry, elem: Schema, vs: seq<Value>, ts: TypeSettings)
    ensures MustOccur(R, elem, vs, ts) <==> RequiredOccur(R, elem, vs, Rules(ts).mustOccur)
  {
  }

  lemma {:induction false} ItemsAre(R: Registry, elem: Schema, vs: seq<Value>, vld: bool, parts: seq<Bytes>)
    requires ItemBytes(R, elem, vs, vld, parts)
    ensures EncodeItems(R, elem, vs, vld) == Ok(parts)
  {
    if vs != [] {
      assert forall i :: 0 <= i < |vs| - 1 ==> vs[1..][i] == vs[i + 1] && parts[1..][i] == parts[i + 1];
      ItemsAre(R, elem, vs[1..], vld, parts[1..]);
      assert [parts[0]] + parts[1..] == parts;
    }
  }

  /** A map is its number of entries and the entries, each the key and then the value, always in
      lexical order and validated to be so. Keys that are equal cannot both be in a map. */
  lemma MapFormat(R: Registry, key: Schema, val: Schema, reg: Option<TypeSettings>, vs: seq<Value>, parts: seq<Bytes>,
                  given: TypeSettings, vld: bool)
    requires Comparable(key) && (ByContent(key) ==> DistinctKeys(vs)) && |parts| == |vs|
    requires forall i :: 0 <= i < |vs| ==>
      && vs[i].VEntry? && Encode(R, key, vs[i].key, NoSettings, vld).Ok? && Encode(R, val, vs[i].val, NoSettings, vld).Ok?
      && parts[i] == Encode(R, key, vs[i].key, NoSettings, vld).value + Encode(R, val, vs[i].val, NoSettings, vld).value
    ensures var s := Schema(Map(key, val), reg);
            var e, ts := Encode(R, s, VMap(vs), given, vld), Settings(given, s);
            var rules, sorted := Rules(ts), SortBytes(parts);
            var len := if ts.prefix.Some? then LengthField(ts.prefix.value, |parts|) else Fail;
            e == if len.Ok? && (vld ==> Within(|vs|, rules.min, rules.max) && V.Meaning(rules.mode.(lexical := true), V.Writer, sorted))
                 then Ok(len.value + Concat(sorted)) else Fail
  {
    var s, entry := Schema(Map(key, val), reg), EntrySchema(key, val);
    var ts := Settings(given, s);
    forall i | 0 <= i < |vs| ensures Encode(R, entry, vs[i], NoSettings, vld) == Ok(parts[i]) {
      EntryFormat(R, key, val, vs[i], vld);
    }
    hide Encode, Comparable, ByContent, DistinctKeys, SortBytes, Concat, LengthField, V.Meaning;
    ItemsAre(R, entry, vs, vld, parts);
    MapIsSequence(R, s, vs, parts, given, vld);
    SequenceFormat(parts, EnsureOrdering(ts), vld);
    hide EncodeSequence, Settings;
  }

  lemma EntryFormat(R: Registry, key: Schema, val: Schema, v: Value, vld: bool)
    requires v.VEntry? && Encode(R, key, v.key, NoSettings, vld).Ok? && Encode(R, val, v.val, NoSettings, vld).Ok?
    ensures Encode(R, EntrySchema(key, val), v, NoSettings, vld)
         == Ok(Encode(R, key, v.key, NoSettings, vld).value + Encode(R, val, v.val, NoSettings, vld).value)
  {
    assert Encode(R, EntrySchema(key, val), v, NoSettings, vld) == EncodeEntry(R, key, val, v, vld);
  }

  lemma MapIsSequence(R: Registry, s: Schema, vs: seq<Value>, parts: seq<Bytes>, given: TypeSettings, vld: bool)
    requires s.kind.Map? && Comparable(s.kind.key) && (ByContent(s.kind.key) ==> DistinctKeys(vs)) && |parts| == |vs|
    requires EncodeItems(R, EntrySchema(s.kind.key, s.kind.val), vs, vld) == Ok(parts)
    ensures var ts := Settings(given, s);
            Encode(R, s, VMap(vs), given, vld)
            == if vld && !Within(|vs|, Rules(ts).min, Rules(ts).max) then Fail else EncodeSequence(parts, EnsureOrdering(ts), vld)
  {
    hide EncodeItems, EncodeSequence, DistinctKeys, ByContent, Comparable;
    var ts := Settings(given, s);
    assert Encode(R, s, VMap(vs), given, vld) == EncodeMap(R, s.kind.key, s.kind.val, vs, ts, vld);
  }

  // ----- interfaces -------------------------------------------------------------------------------------------

  /** An object behind an interface is written as it is by itself, with the settings given for the
      interface, if its type is registered for it. */
  lemma InterfaceFormat(R: Registry, name: string, reg: Option<TypeSettings>, typ: string, obj: Value, given: TypeSettings, vld: bool)
    ensures Encode(R, Schema(Interface(name), reg), VIface(typ, obj), given, vld)
         == if name in R.interfaces && typ in R.interfaces[name].codeOf && typ in R.objects
            then Encode(R, R.objects[typ], obj, given, vld) else Fail
  {
    assert Encode(R, Schema(Interface(name), reg), VIface(typ, obj), given, vld) == EncodeInterface(R, name, VIface(typ, obj), given, vld);
  }

  /** Structs are written through pointers as they are by themselves, with the pointer's settings. */
  lemma PointerFormat(R: Registry, fields: seq<Field>, own: Option<TypeSettings>, reg: Option<TypeSettings>, vs: seq<Value>,
                      tag: Tag, vld: bool)
    ensures var e := Encode(R, Schema(Ptr(Schema(Struct(fields), reg)), own), VStruct(vs), TagSettings(tag), vld);
            e == Encode(R, Schema(Struct(fields), if own.Some? then own else reg), VStruct(vs), TagSettings(tag), vld)
    ensures Encode(R, Schema(Ptr(Schema(Struct(fields), reg)), own), VNil, TagSettings(tag), vld) == Fail
  {
    hide EncodeFields;
    var elem := Schema(Struct(fields), reg);
    var p := Schema(Ptr(elem), own);
    var ts := Settings(TagSettings(tag), p);
    forall v ensures Encode(R, p, v, TagSettings(tag), vld) == EncodeStruct(R, fields, v, ts, vld) {
      assert Encode(R, p, v, TagSettings(tag), vld) == EncodePointer(R, elem, v, ts, vld);
    }
    var s := Schema(Struct(fields), if own.Some? then own else reg);
    assert Settings(TagSettings(tag), s) == ts;
    assert Encode(R, s, VStruct(vs), TagSettings(tag), vld) == EncodeStruct(R, fields, VStruct(vs), ts, vld);
  }

  // ----- map keys and required elements --------------------------------------------------------------------

  /** No map has keys that Go cannot compare, on either side of the codec; everything that has no
      slice or map in it can be compared, pointers and interfaces without a look behind them. */
  lemma KeysFormat(R: Registry, key: Schema, val: Schema, reg: Option<TypeSettings>, v: Value, b: Bytes, given: TypeSettings, vld: bool)
    requires Registered(R)
    ensures key.kind.ByteSlice? || key.kind.Slice? || key.kind.Map? ==>
      Encode(R, Schema(Map(key, val), reg), v, given, vld) == Fail && Decode(R, Schema(Map(key, val), reg), b, given, vld) == Fail
    ensures key.kind.Struct? && (exists f :: f in key.kind.fields && f.Plain? && f.schema.kind.ByteSlice?) ==>
      Encode(R, Schema(Map(key, val), reg), v, given, vld) == Fail
    ensures key.kind.Bool? || key.kind.Num? || key.kind.Str? || key.kind.ByteArray? ==> Comparable(key)
    ensures key.kind.Ptr? || key.kind.Interface? || key.kind.Uint256? ==> Comparable(key)
    ensures key.kind.Struct? && (forall f :: f in key.kind.fields ==> f.Plain? && Comparable(f.schema)) ==> Comparable(key)
  {
    if key.kind.Struct? && exists f :: f in key.kind.fields && f.Plain? && f.schema.kind.ByteSlice? {
      var f :| f in key.kind.fields && f.Plain? && f.schema.kind.ByteSlice?;
      assert !ComparableField(f);
    }
    var s := Schema(Map(key, val), reg);
    assert Decode(R, s, b, given, vld) == DecodeKind(R, s.kind, b, Settings(given, s), vld);
  }

  /** Maps can be read if no interface and no unregistered pointer has to be looked through. */
  lemma LookupFormat(s: Schema)
    ensures s.kind.Interface? ==> !DirectLookup(s)
    ensures s.kind.Ptr? || s.kind.Uint256? ==> (DirectLookup(s) <==> s.reg.Some?)
    ensures !(s.kind.Interface? || s.kind.Ptr? || s.kind.Uint256?) ==> DirectLookup(s)
  {
  }

  /** The code of an element is the one registered for its type; for a pointer that of what it
      points to, and for an interface that of the object in it, behind its pointer if it is one. */
  lemma ElementCodeFormat(R: Registry, k: Kind, reg: TypeSettings, own: Option<TypeSettings>, name: string, typ: string, v: Value)
    requires k.Struct? || k.ByteArray? || k.Slice? || k.Map? || k.Str?
    ensures var c := if reg.objectType.Some? then Ok(Code(reg.objectType.value)) else Fail;
            var s := Schema(k, Some(reg));
            && ElementCode(R, s, v) == c && ElementCode(R, Schema(Ptr(s), own), v) == c
            && (typ in R.objects && (R.objects[typ] == s || R.objects[typ] == Schema(Ptr(s), own)) ==>
                  ElementCode(R, Schema(Interface(name), None), VIface(typ, v)) == c)
    ensures ElementCode(R, Schema(k, None), v) == Fail && ElementCode(R, Schema(Ptr(Schema(k, None)), own), v) == Fail
  {
  }
}
