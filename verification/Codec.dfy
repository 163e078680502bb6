/** The strict JSON codec of the current protocol: driven by a schema, it accepts exactly what it writes. */
module Codec {
  import opened Wrappers
  import opened Decimal

  datatype Json =
    | JNull | JBool(b: bool) | JInt(n: int) | JString(s: string) | JArray(items: seq<Json>) | JObject(members: map<string, Json>)

  /** The types of the generated protocol classes, floats aside. */
  datatype Type =
    | Optional(of: Type) | List(of: Type) | Int64 | Int32 | Str | Bool | Uuid
    | Enum(names: seq<string>) | Record(fields: Fields) | Adt(variants: Variants)

  datatype Fields = NoFields | Field(name: string, t: Type, rest: Fields)

  datatype Variants = NoVariants | Variant(tag: string, fields: Fields, rest: Variants)

  /** Values of those classes; absent optionals are all the same `Null`. */
  datatype Value =
    | Null | Number(n: int) | Text(s: string) | Flag(b: bool) | Id(digits: seq<nat>) | Member(name: string)
    | Items(vs: seq<Value>) | Object(values: seq<Value>) | Tagged(tag: string, values: seq<Value>)

  // ---------------------------------------------------------------- well-formed schemas

  function Names(fs: Fields): set<string> {
    match fs case NoFields => {} case Field(name, _, rest) => {name} + Names(rest)
  }

  /** No class has two fields of one name. */
  predicate WellFormed(t: Type) {
    match t
    case Optional(of) => WellFormed(of)
    case List(of) => WellFormed(of)
    case Record(fs) => WellFormedFields(fs)
    case Adt(vs) => WellFormedVariants(vs)
    case _ => true
  }

  predicate WellFormedFields(fs: Fields) {
    match fs case NoFields => true case Field(name, t, rest) => name !in Names(rest) && WellFormed(t) && WellFormedFields(rest)
  }

  predicate WellFormedVariants(vs: Variants) {
    match vs case NoVariants => true case Variant(_, fs, rest) => WellFormedFields(fs) && WellFormedVariants(rest)
  }

  // ---------------------------------------------------------------- scalars

  const MIN64: int := -0x8000_0000_0000_0000
  const MAX64: int := 0x7FFF_FFFF_FFFF_FFFF
  const MIN32: int := -0x8000_0000
  const MAX32: int := 0x7FFF_FFFF

  function IntText(n: int): string { if n < 0 then "-" + Numeral(-n) else Numeral(n) }

  /** Zero, or an optional minus and digits that do not start with zero. */
  predicate IsIntText(s: string) {
    s == "0" || (s != [] && Nonzero(if s[0] == '-' then s[1..] else s))
  }

  predicate Nonzero(s: string) { s != [] && AllDigits(s) && s[0] != '0' }

  function IntOf(s: string): int
    requires IsIntText(s)
  {
    if s[0] == '-' then -(ValueOf(s[1..]) as int) else ValueOf(s)
  }

  lemma IntTextRoundTrip(n: int)
    ensures IsIntText(IntText(n)) && IntOf(IntText(n)) == n
  {
    NumeralIsCanonical(if n < 0 then -n else n);
    if n < 0 { assert IntText(n)[1..] == Numeral(-n); }
  }

  lemma IntOfRoundTrip(s: string)
    requires IsIntText(s)
    ensures IntText(IntOf(s)) == s
  {
    if s == "0" {
      assert s[..0] == [];
    } else if s[0] == '-' {
      CanonicalIsNumeral(s[1..]);
      PositiveWithoutZero(s[1..]);
      assert s == "-" + s[1..];
    } else {
      CanonicalIsNumeral(s);
    }
  }

  const HEX: string := "0123456789abcdef"

  predicate IsId(digits: seq<nat>) { |digits| == 32 && forall i | 0 <= i < 32 :: digits[i] < 16 }

  function HexText(digits: seq<nat>): string
    requires forall i | 0 <= i < |digits| :: digits[i] < 16
  {
    if digits == [] then "" else [HEX[digits[0]]] + HexText(digits[1..])
  }

  /** The canonical form: lower-case hexadecimal in groups of 8, 4, 4, 4 and 12. */
  function IdText(digits: seq<nat>): string
    requires IsId(digits)
  {
    HexTextLength(digits);
    Grouped(HexText(digits))
  }

  function Grouped(h: string): string
    requires |h| == 32
  {
    h[..8] + "-" + h[8..12] + "-" + h[12..16] + "-" + h[16..20] + "-" + h[20..]
  }

  predicate HasGroups(s: string) { |s| == 36 && s[8] == s[13] == s[18] == s[23] == '-' }

  function Ungrouped(s: string): (h: string)
    requires HasGroups(s)
    ensures |h| == 32
  {
    s[..8] + s[9..13] + s[14..18] + s[19..23] + s[24..]
  }

  lemma GroupsRoundTrip(h: string, s: string)
    requires |h| == 32
    ensures HasGroups(Grouped(h)) && Ungrouped(Grouped(h)) == h
    ensures HasGroups(s) ==> Grouped(Ungrouped(s)) == s
  {
    if HasGroups(s) {
      var u := Ungrouped(s);
      assert u[..8] == s[..8] && u[8..12] == s[9..13] && u[12..16] == s[14..18] && u[16..20] == s[19..23] && u[20..] == s[24..];
    }
    var g := Grouped(h);
    assert g[..8] == h[..8] && g[9..13] == h[8..12] && g[14..18] == h[12..16] && g[19..23] == h[16..20] && g[24..] == h[20..];
  }

  lemma {:induction false} HexTextLength(digits: seq<nat>)
    requires forall i | 0 <= i < |digits| :: digits[i] < 16
    ensures |HexText(digits)| == |digits|
    ensures forall i | 0 <= i < |digits| :: HexText(digits)[i] == HEX[digits[i]]
  {
    if digits != [] { HexTextLength(digits[1..]); }
  }

  function HexOf(c: char): Option<nat> {
    if '0' <= c <= '9' then Some((c - '0') as nat)
    else if 'a' <= c <= 'f' then Some((c - 'a') as nat + 10)
    else None
  }

  lemma HexOfDigit(n: nat)
    requires n < 16
    ensures HexOf(HEX[n]) == Some(n)
  {
  }

  lemma DigitOfHex(c: char)
    requires HexOf(c).Some?
    ensures HexOf(c).value < 16 && HEX[HexOf(c).value] == c
  {
  }

  function ParseHex(s: string): Option<seq<nat>> {
    if s == "" then Some([])
    else
      match (HexOf(s[0]), ParseHex(s[1..]))
      case (Some(d), Some(rest)) => Some([d] + rest)
      case _ => None
  }

  lemma {:induction false} ParseHexIff(s: string, digits: seq<nat>)
    requires forall i | 0 <= i < |digits| :: digits[i] < 16
    ensures ParseHex(s) == Some(digits) <==> s == HexText(digits)
  {
    if s == "" {
      HexTextLength(digits);
    } else if digits == [] {
    } else {
      ParseHexIff(s[1..], digits[1..]);
      HexOfDigit(digits[0]);
      if HexOf(s[0]).Some? { DigitOfHex(s[0]); }
      assert s == [s[0]] + s[1..] && digits == [digits[0]] + digits[1..];
      assert HexText(digits)[1..] == HexText(digits[1..]);
    }
  }

  /** Only canonical text is read. */
  function ParseId(s: string): Option<seq<nat>> {
    if HasGroups(s) then ParseHex(Ungrouped(s)) else None
  }

  lemma {:induction false} ParsedHexIsHex(s: string)
    ensures ParseHex(s).Some? ==>
              |ParseHex(s).value| == |s| && forall i | 0 <= i < |s| :: ParseHex(s).value[i] < 16
  {
    if s != "" {
      ParsedHexIsHex(s[1..]);
      if HexOf(s[0]).Some? { DigitOfHex(s[0]); }
    }
  }

  lemma ParseIdIff(s: string, digits: seq<nat>)
    ensures ParseId(s) == Some(digits) <==> IsId(digits) && s == IdText(digits)
  {
    if IsId(digits) {
      HexTextLength(digits);
      GroupsRoundTrip(HexText(digits), s);
    }
    if HasGroups(s) {
      ParsedHexIsHex(Ungrouped(s));
      if IsId(digits) { ParseHexIff(Ungrouped(s), digits); }
    }
  }

  // ---------------------------------------------------------------- encoding

  /** None is a protocol error: the value is not one of the type. */
  function Encode(t: Type, v: Value): Option<Json>
    decreases t, 0
  {
    match t
    case Optional(of) => if v.Null? then Some(JNull) else Encode(of, v)
    case List(of) =>
      if !v.Items? then None
      else (match EncodeAll(of, v.vs) case None => None case Some(js) => Some(JArray(js)))
    case Int64 => if v.Number? && MIN64 <= v.n <= MAX64 then Some(JString(IntText(v.n))) else None
    case Int32 => if v.Number? && MIN32 <= v.n <= MAX32 then Some(JInt(v.n)) else None
    case Str => if v.Text? then Some(JString(v.s)) else None
    case Bool => if v.Flag? then Some(JBool(v.b)) else None
    case Uuid => if v.Id? && IsId(v.digits) then Some(JString(IdText(v.digits))) else None
    case Enum(names) => if v.Member? && v.name in names then Some(JString(v.name)) else None
    case Record(fs) =>
      if !v.Object? then None
      else (match EncodeFields(fs, v.values) case None => None case Some(m) => Some(JObject(m)))
    case Adt(vs) =>
      if !v.Tagged? then None
      else match EncodeVariant(vs, v.tag, v.values) case None => None case Some(m) => Some(JObject(map[v.tag := JObject(m)]))
  }

  function EncodeAll(t: Type, vs: seq<Value>): Option<seq<Json>>
    decreases t, 1 + |vs|
  {
    if vs == [] then Some([])
    else
      match (Encode(t, vs[0]), EncodeAll(t, vs[1..]))
      case (Some(j), Some(js)) => Some([j] + js)
      case _ => None
  }

  function EncodeFields(fs: Fields, vs: seq<Value>): Option<map<string, Json>>
    decreases fs, 0
  {
    match fs
    case NoFields => if vs == [] then Some(map[]) else None
    case Field(name, t, rest) =>
      if vs == [] then None
      else
        match (Encode(t, vs[0]), EncodeFields(rest, vs[1..]))
        case (Some(j), Some(m)) => Some(m[name := j])
        case _ => None
  }

  function EncodeVariant(vs: Variants, tag: string, values: seq<Value>): Option<map<string, Json>>
    decreases vs, 0
  {
    match vs
    case NoVariants => None
    case Variant(t, fs, rest) => if t == tag then EncodeFields(fs, values) else EncodeVariant(rest, tag, values)
  }

  // ---------------------------------------------------------------- decoding

  function Decode(t: Type, j: Json): Option<Value>
    decreases t, 0
  {
    match t
    case Optional(of) => if j.JNull? then Some(Null) else Decode(of, j)
    case List(of) =>
      if !j.JArray? then None
      else (match DecodeAll(of, j.items) case None => None case Some(vs) => Some(Items(vs)))
    case Int64 =>
      if j.JString? && IsIntText(j.s) && MIN64 <= IntOf(j.s) <= MAX64 then Some(Number(IntOf(j.s))) else None
    case Int32 => if j.JInt? && MIN32 <= j.n <= MAX32 then Some(Number(j.n)) else None
    case Str => if j.JString? then Some(Text(j.s)) else None
    case Bool => if j.JBool? then Some(Flag(j.b)) else None
    case Uuid =>
      if !j.JString? then None
      else (match ParseId(j.s) case None => None case Some(digits) => Some(Id(digits)))
    case Enum(names) => if j.JString? && j.s in names then Some(Member(j.s)) else None
    case Record(fs) =>
      if !j.JObject? then None
      else (match DecodeRecord(fs, j.members) case None => None case Some(vs) => Some(Object(vs)))
    case Adt(variants) =>
      if !j.JObject? || |j.members| != 1 then None
      else
        var tag := OnlyKey(j.members);
        match DecodeVariant(variants, tag, j.members[tag])
        case None => None
        case Some(vs) => Some(Tagged(tag, vs))
  }

  lemma OneKey(m: map<string, Json>)
    requires |m| == 1
    ensures exists k :: k in m && m == map[k := m[k]]
    ensures forall k, l | k in m && l in m :: k == l
  {
    var k :| k in m;
    assert m.Keys == {k} by {
      assert |m.Keys - {k}| == 0;
    }
    assert m == map[k := m[k]];
  }

  function OnlyKey(m: map<string, Json>): (k: string)
    requires |m| == 1
    ensures k in m && m == map[k := m[k]]
  {
    OneKey(m);
    var k :| k in m;
    assert m == map[k := m[k]];
    k
  }

  function DecodeAll(t: Type, js: seq<Json>): Option<seq<Value>>
    decreases t, 1 + |js|
  {
    if js == [] then Some([])
    else
      match (Decode(t, js[0]), DecodeAll(t, js[1..]))
      case (Some(v), Some(vs)) => Some([v] + vs)
      case _ => None
  }

  /** Exactly the declared fields, no more and no fewer. */
  function DecodeRecord(fs: Fields, m: map<string, Json>): Option<seq<Value>>
    decreases fs, 1
  {
    if m.Keys != Names(fs) then None else DecodeFields(fs, m)
  }

  function DecodeFields(fs: Fields, m: map<string, Json>): Option<seq<Value>>
    requires Names(fs) <= m.Keys
    decreases fs, 0
  {
    match fs
    case NoFields => Some([])
    case Field(name, t, rest) =>
      match (Decode(t, m[name]), DecodeFields(rest, m))
      case (Some(v), Some(vs)) => Some([v] + vs)
      case _ => None
  }

  function DecodeVariant(variants: Variants, tag: string, j: Json): Option<seq<Value>>
    decreases variants, 0
  {
    match variants
    case NoVariants => None
    case Variant(t, fs, rest) =>
      if t == tag then (if j.JObject? then DecodeRecord(fs, j.members) else None) else DecodeVariant(rest, tag, j)
  }

  // ---------------------------------------------------------------- the two are inverse

  /** What is encoded decodes to the same value, and what is decoded encodes to the same JSON: a value and a JSON
      tree correspond under one exactly when they do under the other. */
  lemma {:induction false} EncodeIffDecode(t: Type, v: Value, j: Json)
    requires WellFormed(t)
    ensures Encode(t, v) == Some(j) <==> Decode(t, j) == Some(v)
    decreases t, 0
  {
    match t
    case Optional(of) => EncodeIffDecode(of, v, j);
    case List(of) => if v.Items? && j.JArray? { AllIff(of, v.vs, j.items); }
    case Int64 =>
      if v.Number? { IntTextRoundTrip(v.n); }
      if j.JString? && IsIntText(j.s) { IntOfRoundTrip(j.s); }
    case Uuid => if v.Id? && j.JString? { ParseIdIff(j.s, v.digits); }
    case Record(fs) => if v.Object? && j.JObject? { RecordIff(fs, v.values, j.members); }
    case Adt(vs) => if v.Tagged? && j.JObject? { AdtIff(vs, v.tag, v.values, j.members); }
    case _ =>
  }

  lemma {:induction false} AllIff(t: Type, vs: seq<Value>, js: seq<Json>)
    requires WellFormed(t)
    ensures EncodeAll(t, vs) == Some(js) <==> DecodeAll(t, js) == Some(vs)
    decreases t, 1 + |vs|
  {
    if vs != [] && js != [] {
      EncodeIffDecode(t, vs[0], js[0]);
      AllIff(t, vs[1..], js[1..]);
      assert vs == [vs[0]] + vs[1..] && js == [js[0]] + js[1..];
    }
  }

  lemma {:induction false} EncodedNames(fs: Fields, vs: seq<Value>)
    ensures EncodeFields(fs, vs).Some? ==> EncodeFields(fs, vs).value.Keys == Names(fs)
  {
    if fs.Field? && vs != [] { EncodedNames(fs.rest, vs[1..]); }
  }

  /** Members of other names do not matter to the fields. */
  lemma {:induction false} DecodeOnlyNames(fs: Fields, m: map<string, Json>, n: map<string, Json>)
    requires Names(fs) <= m.Keys && Names(fs) <= n.Keys && forall k | k in Names(fs) :: m[k] == n[k]
    ensures DecodeFields(fs, m) == DecodeFields(fs, n)
  {
    if fs.Field? { DecodeOnlyNames(fs.rest, m, n); }
  }

  lemma OneMore(less: map<string, Json>, name: string, j: Json, m: map<string, Json>)
    requires name !in less
    ensures less[name := j] == m <==> name in m && m[name] == j && m - {name} == less
  {
    if name in m && m[name] == j && m - {name} == less {
      forall k ensures k in m <==> k in less[name := j] {
        assert k in m - {name} <==> k in m && k != name;
      }
      forall k | k in m ensures m[k] == less[name := j][k] {
        if k != name { assert (m - {name})[k] == m[k]; }
      }
    }
  }

  lemma {:induction false} RecordIff(fs: Fields, vs: seq<Value>, m: map<string, Json>)
    requires WellFormedFields(fs)
    ensures EncodeFields(fs, vs) == Some(m) <==> DecodeRecord(fs, m) == Some(vs)
    decreases fs, 0
  {
    EncodedNames(fs, vs);
    if m.Keys == Names(fs) {
      match fs
      case NoFields => assert m == map[];
      case Field(name, t, rest) =>
        var less := m - {name};
        DecodeOnlyNames(rest, m, less);
        if vs != [] {
          EncodeIffDecode(t, vs[0], m[name]);
          RecordIff(rest, vs[1..], less);
          EncodedNames(rest, vs[1..]);
          FieldIff(fs, vs, m);
        }
    }
  }

  /** One field and the rest. */
  lemma FieldIff(fs: Fields, vs: seq<Value>, m: map<string, Json>)
    requires fs.Field? && fs.name !in Names(fs.rest) && vs != [] && m.Keys == Names(fs)
    requires Encode(fs.t, vs[0]) == Some(m[fs.name]) <==> Decode(fs.t, m[fs.name]) == Some(vs[0])
    requires EncodeFields(fs.rest, vs[1..]) == Some(m - {fs.name}) <==> DecodeFields(fs.rest, m) == Some(vs[1..])
    ensures EncodeFields(fs, vs) == Some(m) <==> DecodeFields(fs, m) == Some(vs)
  {
    EncodedNames(fs.rest, vs[1..]);
    assert vs == [vs[0]] + vs[1..];
    match (Encode(fs.t, vs[0]), EncodeFields(fs.rest, vs[1..]))
    case (Some(j), Some(less)) => OneMore(less, fs.name, j, m);
    case _ =>
  }

  lemma {:induction false} VariantIff(variants: Variants, tag: string, vs: seq<Value>, m: map<string, Json>)
    requires WellFormedVariants(variants)
    ensures EncodeVariant(variants, tag, vs) == Some(m) <==> DecodeVariant(variants, tag, JObject(m)) == Some(vs)
    decreases variants, 0
  {
    match variants
    case NoVariants =>
    case Variant(t, fs, rest) => if t == tag { RecordIff(fs, vs, m); } else { VariantIff(rest, tag, vs, m); }
  }

  lemma {:induction false} OnlyObjects(variants: Variants, tag: string, j: Json)
    ensures DecodeVariant(variants, tag, j).Some? ==> j.JObject?
  {
    if variants.Variant? { OnlyObjects(variants.rest, tag, j); }
  }

  lemma AdtIff(variants: Variants, tag: string, vs: seq<Value>, members: map<string, Json>)
    requires WellFormedVariants(variants)
    ensures Encode(Adt(variants), Tagged(tag, vs)) == Some(JObject(members))
       <==> Decode(Adt(variants), JObject(members)) == Some(Tagged(tag, vs))
    decreases variants, 1
  {
    if |members| == 1 {
      var key := OnlyKey(members);
      OnlyObjects(variants, key, members[key]);
      if key == tag && members[key].JObject? { VariantIff(variants, tag, vs, members[key].members); }
    }
    match EncodeVariant(variants, tag, vs)
    case None =>
    case Some(m) => assert |map[tag := JObject(m)]| == 1 && tag in map[tag := JObject(m)];
  }

  /** Two values with one encoding are the same value. */
  lemma EncodingIsInjective(t: Type, v: Value, w: Value)
    requires WellFormed(t) && Encode(t, v).Some? && Encode(t, v) == Encode(t, w)
    ensures v == w
  {
    EncodeIffDecode(t, v, Encode(t, v).value);
    EncodeIffDecode(t, w, Encode(t, v).value);
  }

  // ---------------------------------------------------------------- what stands for what

  /** How many groups of an id are closed before its i-th digit. */
  function Dashes(i: nat): nat { if i < 8 then 0 else if i < 12 then 1 else if i < 16 then 2 else if i < 20 then 3 else 4 }

  predicate SpellsId(digits: seq<nat>, s: string) {
    && |digits| == 32 && |s| == 36 && s[8] == '-' && s[13] == '-' && s[18] == '-' && s[23] == '-'
    && forall i | 0 <= i < 32 :: digits[i] < 16 && s[i + Dashes(i)] == "0123456789abcdef"[digits[i]]
  }

  /** The JSON form of each type: 64-bit integers as canonical text, 32-bit ones as numbers, a record as exactly its
      fields under their names, and a variant as the one member of its tag. */
  ghost predicate Stands(t: Type, v: Value, j: Json)
    decreases t, 0
  {
    match t
    case Optional(of) => if v.Null? then j == JNull else j != JNull && Stands(of, v, j)
    case List(of) =>
      v.Items? && j.JArray? && |v.vs| == |j.items| && forall i | 0 <= i < |v.vs| :: Stands(of, v.vs[i], j.items[i])
    case Int64 =>
      && v.Number? && j.JString? && IsIntText(j.s) && v.n == IntOf(j.s)
      && -9223372036854775808 <= v.n <= 9223372036854775807
    case Int32 => v.Number? && j == JInt(v.n) && -2147483648 <= v.n <= 2147483647
    case Str => v.Text? && j == JString(v.s)
    case Bool => v.Flag? && j == JBool(v.b)
    case Uuid => v.Id? && j.JString? && SpellsId(v.digits, j.s)
    case Enum(names) => v.Member? && v.name in names && j == JString(v.name)
    case Record(fs) => v.Object? && j.JObject? && RecordStands(fs, v.values, j.members)
    case Adt(vs) =>
      && v.Tagged? && j.JObject? && j.members.Keys == {v.tag} && j.members[v.tag].JObject?
      && VariantStands(vs, v.tag, v.values, j.members[v.tag].members)
  }

  ghost predicate RecordStands(fs: Fields, vs: seq<Value>, m: map<string, Json>)
    decreases fs, 1
  {
    m.Keys == Names(fs) && FieldsStand(fs, vs, m)
  }

  ghost predicate FieldsStand(fs: Fields, vs: seq<Value>, m: map<string, Json>)
    decreases fs, 0
  {
    match fs
    case NoFields => vs == []
    case Field(name, t, rest) => vs != [] && name in m && Stands(t, vs[0], m[name]) && FieldsStand(rest, vs[1..], m)
  }

  ghost predicate VariantStands(variants: Variants, tag: string, vs: seq<Value>, m: map<string, Json>)
    decreases variants, 0
  {
    match variants
    case NoVariants => false
    case Variant(t, fs, rest) => if t == tag then RecordStands(fs, vs, m) else VariantStands(rest, tag, vs, m)
  }

  lemma IdIsSpelled(digits: seq<nat>, s: string)
    ensures SpellsId(digits, s) <==> IsId(digits) && s == IdText(digits)
  {
    if IsId(digits) {
      HexTextLength(digits);
      var h := HexText(digits);
      var g := Grouped(h);
      assert forall i | 0 <= i < 32 :: g[i + Dashes(i)] == h[i];
      if SpellsId(digits, s) {
        forall k | 0 <= k < 36 ensures s[k] == g[k] {
          var i := k - (if k < 8 then 0 else if k < 13 then 1 else if k < 18 then 2 else if k < 23 then 3 else 4);
          if k !in {8, 13, 18, 23} { assert i >= 0 && i + Dashes(i) == k; }
        }
        assert s == g;
      }
    }
  }

  /** Decoding finds exactly the value that the JSON stands for, and so, with `EncodeIffDecode`, does encoding. */
  lemma {:induction false} CodecIsTheForm(t: Type, v: Value, j: Json)
    requires WellFormed(t)
    ensures Decode(t, j) == Some(v) <==> Stands(t, v, j)
    ensures Encode(t, v) == Some(j) <==> Stands(t, v, j)
  {
    EncodeIffDecode(t, v, j);
    DecodesToWhatStands(t, v, j);
  }

  lemma {:induction false} DecodesToWhatStands(t: Type, v: Value, j: Json)
    ensures Decode(t, j) == Some(v) <==> Stands(t, v, j)
    decreases t, 0
  {
    match t
    case Optional(of) => DecodesToWhatStands(of, v, j); NullIsNull(of, j);
    case List(of) => if v.Items? && j.JArray? { AllStand(of, v.vs, j.items); }
    case Uuid => if v.Id? && j.JString? { ParseIdIff(j.s, v.digits); IdIsSpelled(v.digits, j.s); }
    case Record(fs) => if v.Object? && j.JObject? && j.members.Keys == Names(fs) { FieldsDecode(fs, v.values, j.members); }
    case Adt(vs) =>
      if v.Tagged? && j.JObject? {
        OneMember(j.members, v.tag);
        if j.members.Keys == {v.tag} { VariantDecodes(vs, v.tag, v.values, j.members[v.tag]); }
      }
    case _ =>
  }

  lemma OneMember(m: map<string, Json>, tag: string)
    ensures m.Keys == {tag} <==> |m| == 1 && OnlyKey(m) == tag
  {
    if m.Keys == {tag} { assert |m| == |m.Keys| == 1; }
    if |m| == 1 { OneKey(m); }
  }

  /** Only null is read as nothing. */
  lemma {:induction false} NullIsNull(t: Type, j: Json)
    ensures Decode(t, j) == Some(Null) ==> j == JNull
  {
    if t.Optional? { NullIsNull(t.of, j); }
  }

  lemma {:induction false} AllStand(t: Type, vs: seq<Value>, js: seq<Json>)
    ensures DecodeAll(t, js) == Some(vs) <==> |vs| == |js| && forall i | 0 <= i < |vs| :: Stands(t, vs[i], js[i])
    decreases t, 1 + |js|
  {
    if vs != [] && js != [] {
      DecodesToWhatStands(t, vs[0], js[0]);
      AllStand(t, vs[1..], js[1..]);
      assert vs == [vs[0]] + vs[1..];
      if |vs| == |js| && forall i | 0 <= i < |vs| :: Stands(t, vs[i], js[i]) {
        assert forall i | 0 <= i < |vs[1..]| :: Stands(t, vs[1..][i], js[1..][i]);
      }
      if DecodeAll(t, js) == Some(vs) {
        forall i | 0 <= i < |vs| ensures Stands(t, vs[i], js[i]) {
          if i > 0 { assert Stands(t, vs[1..][i - 1], js[1..][i - 1]); }
        }
      }
    }
  }

  lemma {:induction false} FieldsDecode(fs: Fields, vs: seq<Value>, m: map<string, Json>)
    requires Names(fs) <= m.Keys
    ensures DecodeFields(fs, m) == Some(vs) <==> FieldsStand(fs, vs, m)
    decreases fs, 0
  {
    if fs.Field? && vs != [] {
      DecodesToWhatStands(fs.t, vs[0], m[fs.name]);
      FieldsDecode(fs.rest, vs[1..], m);
      assert vs == [vs[0]] + vs[1..];
    }
  }

  lemma {:induction false} VariantDecodes(variants: Variants, tag: string, vs: seq<Value>, j: Json)
    ensures DecodeVariant(variants, tag, j) == Some(vs) <==> j.JObject? && VariantStands(variants, tag, vs, j.members)
    decreases variants, 0
  {
    match variants
    case NoVariants =>
    case Variant(t, fs, rest) =>
      if t != tag { VariantDecodes(rest, tag, vs, j); }
      else if j.JObject? && j.members.Keys == Names(fs) { FieldsDecode(fs, vs, j.members); }
  }

  // ---------------------------------------------------------------- responses

  function Envelope(results: Variants): Type {
    Record(Field("requestId", Uuid, Field("result", Adt(results), NoFields)))
  }

  lemma EnvelopeIsWellFormed(results: Variants)
    requires WellFormedVariants(results)
    ensures WellFormed(Envelope(results))
  {
    var t: Type := Adt(results);
    var inner := Field("result", t, NoFields);
    assert WellFormed(t) && WellFormedFields(NoFields);
    assert WellFormedFields(inner);
    assert WellFormed(Uuid) && "requestId" !in Names(inner);
    assert WellFormedFields(Field("requestId", Uuid, inner));
  }

  /** The result a client takes out of an answer to its request: one of the expected kind, or an error. */
  function Response(results: Variants, payload: Json, requestId: seq<nat>, expected: string): Option<Value> {
    match Decode(Envelope(results), payload)
    case None => None
    case Some(envelope) =>
      if !envelope.Object? || |envelope.values| != 2 || envelope.values[0] != Id(requestId) then None
      else
        var result := envelope.values[1];
        if result.Tagged? && result.tag in {expected, "Error"} then Some(result) else None
  }

  /** What the server answered is what the client gets, exactly if it is the answer to this request and of a kind
      the client waits for. */
  lemma ResponseIsTheAnswer(results: Variants, answered: seq<nat>, result: Value, payload: Json, asked: seq<nat>, expected: string)
    requires WellFormedVariants(results) && result.Tagged?
    requires Encode(Envelope(results), Object([Id(answered), result])) == Some(payload)
    ensures Response(results, payload, asked, expected)
         == if answered == asked && result.tag in {expected, "Error"} then Some(result) else None
  {
    EnvelopeIsWellFormed(results);
    EncodeIffDecode(Envelope(results), Object([Id(answered), result]), payload);
  }
}
