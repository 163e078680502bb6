/** The search expression language: `field:value` tokens and bare terms, with values optionally JSON strings. */
module Query {
  import opened Wrappers

  datatype Message =
    | ExpectedValue | IncompleteString | InvalidScalars | SeparateTokens | TooLong | UnknownField | DuplicateField
    | InvalidValue(field: Field) | BlankOwner | WrongMode | TextAndBare | BlankSearch

  /** Positions are in UTF-16 code units. */
  datatype Error = Error(message: Message, start: nat, end: nat)

  datatype Result<+T> = Ok(value: T) | Err(error: Error)

  datatype Field = Mode | Access | State | Expired | Kind | Owner | Sort | Direction | Text

  datatype Token = Token(value: string, raw: string, start: nat, end: nat)

  datatype Plan = Plan(
    q: string, mode: string, visibility: Option<string>, itemState: Option<string>, includeExpired: bool,
    kind: Option<string>, createdByUser: Option<string>, sort: string, direction: string)

  const MAX_QUERY_UTF16: nat := 4096

  // ---------------------------------------------------------------- text

  /** ECMAScript white space. */
  predicate Space(c: char) {
    || '\U{0009}' <= c <= '\U{000D}' || c == ' ' || c == '\U{00A0}' || c == '\U{1680}'
    || '\U{2000}' <= c <= '\U{200A}'
    || c in {'\U{2028}', '\U{2029}', '\U{202F}', '\U{205F}', '\U{3000}', '\U{FEFF}'}
  }

  predicate Blank(s: string) { forall i | 0 <= i < |s| :: Space(s[i]) }

  function UnitsOf(c: int): nat { if c < 0x10000 then 1 else 2 }

  function Units(s: string): nat { if s == [] then 0 else UnitsOf(s[0] as int) + Units(s[1..]) }

  lemma {:induction false} UnitsSplit(a: string, b: string)
    ensures Units(a + b) == Units(a) + Units(b)
  {
    if a == [] {
      assert a + b == b;
    } else {
      UnitsSplit(a[1..], b);
      assert (a + b)[1..] == a[1..] + b;
    }
  }

  function PointUnits(t: seq<nat>): nat { if t == [] then 0 else UnitsOf(t[0]) + PointUnits(t[1..]) }

  predicate High(x: int) { 0xD800 <= x < 0xDC00 }

  predicate Low(x: int) { 0xDC00 <= x < 0xE000 }

  predicate IsScalar(x: int) { 0 <= x < 0xD800 || 0xE000 <= x < 0x110000 }

  function Joined(high: int, low: int): int { 0x10000 + (high - 0xD800) * 0x400 + (low - 0xDC00) }

  /** Code points to scalar values: surrogate pairs are joined, a lone surrogate is an error. */
  function Scalars(t: seq<nat>): Option<string> {
    if t == [] then Some([])
    else if |t| >= 2 && High(t[0]) && Low(t[1]) then
      match Scalars(t[2..])
      case None => None
      case Some(rest) => Some([Joined(t[0], t[1]) as char] + rest)
    else if IsScalar(t[0]) then
      match Scalars(t[1..])
      case None => None
      case Some(rest) => Some([t[0] as char] + rest)
    else None
  }

  lemma {:induction false} ScalarsKeepUnits(t: seq<nat>)
    ensures Scalars(t).Some? ==> Units(Scalars(t).value) == PointUnits(t)
  {
    if t != [] {
      if |t| >= 2 && High(t[0]) && Low(t[1]) {
        ScalarsKeepUnits(t[2..]);
        assert t[1..][1..] == t[2..];
      } else if IsScalar(t[0]) {
        ScalarsKeepUnits(t[1..]);
      }
    }
  }

  function Points(s: string): seq<nat> { if s == [] then [] else [s[0] as nat] + Points(s[1..]) }

  lemma {:induction false} ScalarsOfPoints(s: string)
    ensures Scalars(Points(s)) == Some(s)
  {
    if s != [] {
      ScalarsOfPoints(s[1..]);
      assert Points(s)[1..] == Points(s[1..]);
      assert [s[0]] + s[1..] == s;
    }
  }

  /** A text in UTF-16 code units: what is beyond the basic plane as two surrogates. */
  function Utf16(s: string): seq<nat> {
    if s == [] then []
    else
      var x := s[0] as nat;
      (if x < 0x10000 then [x] else [0xD800 + (x - 0x10000) / 0x400, 0xDC00 + (x - 0x10000) % 0x400]) + Utf16(s[1..])
  }

  /** An expression means the same in code units as in scalars. */
  lemma {:induction false} ScalarsOfUtf16(s: string)
    ensures Scalars(Utf16(s)) == Some(s) && |Utf16(s)| == Units(s)
  {
    if s != [] {
      ScalarsOfUtf16(s[1..]);
      var x, t := s[0] as nat, Utf16(s);
      assert [s[0]] + s[1..] == s;
      if x < 0x10000 {
        assert t[0] == x && t[1..] == Utf16(s[1..]) && !High(x);
      } else {
        assert t[0] == 0xD800 + (x - 0x10000) / 0x400 && t[1] == 0xDC00 + (x - 0x10000) % 0x400;
        assert t[2..] == Utf16(s[1..]) && Joined(t[0], t[1]) == x;
      }
    }
  }

  // ---------------------------------------------------------------- JSON strings

  function Hex(c: char): Option<nat> {
    if '0' <= c <= '9' then Some((c - '0') as nat)
    else if 'a' <= c <= 'f' then Some((c - 'a') as nat + 10)
    else if 'A' <= c <= 'F' then Some((c - 'A') as nat + 10)
    else None
  }

  function Hex4(s: string): Option<nat> {
    if |s| < 4 then None
    else
      match (Hex(s[0]), Hex(s[1]), Hex(s[2]), Hex(s[3]))
      case (Some(a), Some(b), Some(c), Some(d)) => Some(((a * 16 + b) * 16 + c) * 16 + d)
      case _ => None
  }

  /** What a backslash stands for, other than before a `u`. */
  function Simple(c: char): Option<nat> {
    if c == '"' then Some(0x22) else if c == '\\' then Some(0x5C) else if c == '/' then Some(0x2F)
    else if c == 'b' then Some(8) else if c == 'f' then Some(12) else if c == 'n' then Some(10)
    else if c == 'r' then Some(13) else if c == 't' then Some(9) else None
  }

  datatype Piece = Piece(point: nat, taken: nat)

  /** The first character of a string body and how much of the text it takes; an escaped surrogate pair is one. */
  function OnePiece(s: string): (r: Option<Piece>)
    requires s != []
    ensures r.Some? ==> 1 <= r.value.taken <= |s|
  {
    if s[0] != '\\' then (if s[0] < ' ' then None else Some(Piece(s[0] as nat, 1)))
    else if |s| < 2 then None
    else if s[1] != 'u' then
      match Simple(s[1]) case None => None case Some(x) => Some(Piece(x, 2))
    else
      match Hex4(s[2..])
      case None => None
      case Some(x) =>
        if High(x) && |s| >= 12 && s[6] == '\\' && s[7] == 'u' && Hex4(s[8..]).Some? && Low(Hex4(s[8..]).value)
        then Some(Piece(Joined(x, Hex4(s[8..]).value), 12))
        else Some(Piece(x, 6))
  }

  datatype Scanned = Scanned(points: seq<nat>, taken: nat)

  /** The string up to its closing quote. */
  function Scan(s: string): (r: Option<Scanned>)
    ensures r.Some? ==> 1 <= r.value.taken <= |s|
  {
    if s == [] then None
    else if s[0] == '"' then Some(Scanned([], 1))
    else
      match OnePiece(s)
      case None => None
      case Some(p) =>
        match Scan(s[p.taken..])
        case None => None
        case Some(rest) => Some(Scanned([p.point] + rest.points, p.taken + rest.taken))
  }

  /** The characters that have an escape of two characters. */
  const SHORT_ESCAPES: map<char, char> := map[
    '"' := '"', '\\' := '\\', '/' := '/', 'b' := '\U{0008}', 'f' := '\U{000C}', 'n' := '\n', 'r' := '\r', 't' := '\t']

  predicate IsHexDigit(d: char, n: nat) { n < 16 && (d == "0123456789abcdef"[n] || d == "0123456789ABCDEF"[n]) }

  predicate IsHex4(s: string, n: nat) {
    |s| == 4 && n < 0x10000 && IsHexDigit(s[0], n / 4096) && IsHexDigit(s[1], n / 256 % 16) && IsHexDigit(s[2], n / 16 % 16)
    && IsHexDigit(s[3], n % 16)
  }

  /** The ways to write a character in a JSON string: as itself, by a short escape, by its code, or by the codes of
      its two surrogates. */
  predicate Spells(e: string, c: char) {
    || (e == [c] && c >= ' ' && c != '"' && c != '\\')
    || (|e| == 2 && e[0] == '\\' && e[1] in SHORT_ESCAPES && SHORT_ESCAPES[e[1]] == c)
    || (|e| == 6 && e[0] == '\\' && e[1] == 'u' && IsHex4(e[2..], c as nat))
    || (|e| == 12 && e[0] == '\\' && e[1] == 'u' && e[6] == '\\' && e[7] == 'u' && c as nat >= 0x10000
        && IsHex4(e[2..6], 0xD800 + (c as nat - 0x10000) / 0x400) && IsHex4(e[8..], 0xDC00 + (c as nat - 0x10000) % 0x400))
  }

  predicate Spelled(spelling: seq<string>, t: string) {
    |spelling| == |t| && forall i | 0 <= i < |t| :: Spells(spelling[i], t[i])
  }

  function Concat(parts: seq<string>): string { if parts == [] then [] else parts[0] + Concat(parts[1..]) }

  function Quoted(spelling: seq<string>): string { ['"'] + Concat(spelling) + ['"'] }

  lemma HexOfDigit(d: char, n: nat)
    requires IsHexDigit(d, n)
    ensures Hex(d) == Some(n)
  {
  }

  lemma DigitsMakeNumber(n: nat)
    ensures ((n / 4096 * 16 + n / 256 % 16) * 16 + n / 16 % 16) * 16 + n % 16 == n
  {
    assert n / 256 / 16 == n / 4096 && n / 16 / 16 == n / 256;
  }

  lemma Hex4OfDigits(s: string, n: nat, rest: string)
    requires IsHex4(s, n)
    ensures Hex4(s + rest) == Some(n)
  {
    hide Hex, IsHexDigit;
    DigitsMakeNumber(n);
    HexOfDigit(s[0], n / 4096);
    HexOfDigit(s[1], n / 256 % 16);
    HexOfDigit(s[2], n / 16 % 16);
    HexOfDigit(s[3], n % 16);
  }

  lemma OnePieceOfSpelling(e: string, c: char, rest: string)
    requires Spells(e, c)
    ensures e != [] && e[0] != '"' && OnePiece(e + rest) == Some(Piece(c as nat, |e|))
  {
    hide Hex4, IsHex4;
    var s := e + rest;
    assert s[0] == e[0];
    if |e| == 2 {
      assert s[1] == e[1];
    } else if |e| == 6 {
      assert s[1] == 'u' && s[2..] == e[2..] + rest;
      Hex4OfDigits(e[2..], c as nat, rest);
    } else if |e| == 12 {
      assert s[1] == 'u' && s[6] == e[6] && s[7] == e[7] && s[2..] == e[2..6] + (e[6..] + rest) && s[8..] == e[8..] + rest;
      var x := c as nat - 0x10000;
      Hex4OfDigits(e[2..6], 0xD800 + x / 0x400, e[6..] + rest);
      Hex4OfDigits(e[8..], 0xDC00 + x % 0x400, rest);
    }
  }

  lemma ScanOne(e: string, c: char, after: string, points: seq<nat>, taken: nat)
    requires Spells(e, c) && Scan(after) == Some(Scanned(points, taken))
    ensures Scan(e + after) == Some(Scanned([c as nat] + points, |e| + taken))
  {
    hide Spells, OnePiece;
    var s := e + after;
    OnePieceOfSpelling(e, c, after);
    assert s[|e|..] == after && s[0] == e[0];
  }

  lemma ScanEnd(rest: string)
    ensures Scan(['"'] + rest) == Some(Scanned([], 1))
  {
  }

  /** A text, however its characters are written, is read back up to the closing quote. */
  lemma {:induction false} ScanSpelled(spelling: seq<string>, t: string, rest: string)
    requires Spelled(spelling, t)
    ensures Scan(Concat(spelling) + (['"'] + rest)) == Some(Scanned(Points(t), |Concat(spelling)| + 1))
  {
    hide Scan, OnePiece, Spells;
    if t == [] {
      ScanEnd(rest);
      assert Concat(spelling) + (['"'] + rest) == ['"'] + rest;
    } else {
      ScanSpelled(spelling[1..], t[1..], rest);
      ScanOne(spelling[0], t[0], Concat(spelling[1..]) + (['"'] + rest), Points(t[1..]), |Concat(spelling[1..])| + 1);
      assert Concat(spelling) + (['"'] + rest) == spelling[0] + (Concat(spelling[1..]) + (['"'] + rest));
    }
  }

  /** Every text can be written. */
  function Escaped(t: string): (spelling: seq<string>)
    ensures Spelled(spelling, t)
  {
    seq(|t|, i requires 0 <= i < |t| => EscapedChar(t[i]))
  }

  function EscapedChar(c: char): (e: string)
    ensures Spells(e, c)
  {
    if c == '"' then "\\\"" else if c == '\\' then "\\\\"
    else if c < ' ' then "\\u00" + ["0123456789abcdef"[c as nat / 16], "0123456789abcdef"[c as nat % 16]]
    else [c]
  }

  // ---------------------------------------------------------------- tokens

  /** The span lies in the text, in UTF-16 units. */
  predicate Spans(e: Error, source: string) { e.start <= e.end <= Units(source) }

  function At(source: string, message: Message, start: nat, end: nat): (e: Error)
    requires start <= end <= |source|
    ensures Spans(e, source)
  {
    UnitsGrow(source, start, end);
    Error(message, Units(source[..start]), Units(source[..end]))
  }

  lemma UnitsGrow(source: string, start: nat, end: nat)
    requires start <= end <= |source|
    ensures Units(source[..start]) <= Units(source[..end]) <= Units(source)
  {
    UnitsSplit(source[..start], source[start..end]);
    UnitsSplit(source[..end], source[end..]);
    assert source[..start] + source[start..end] == source[..end] && source[..end] + source[end..] == source;
  }

  predicate Stop(c: char) { Space(c) || c == '"' || c == ':' }

  /** Where an unquoted word ends. */
  function WordEnd(source: string, i: nat): (r: nat)
    requires i <= |source|
    ensures i <= r <= |source| && forall j | i <= j < r :: !Stop(source[j])
    ensures r < |source| ==> Stop(source[r])
    decreases |source| - i
  {
    if i < |source| && !Stop(source[i]) then WordEnd(source, i + 1) else i
  }

  function SpaceEnd(source: string, i: nat): (r: nat)
    requires i <= |source|
    ensures i <= r <= |source|
    decreases |source| - i
  {
    if i < |source| && !Space(source[i]) then SpaceEnd(source, i + 1) else i
  }

  function Finished(source: string, value: string, start: nat, end: nat): (r: Result<Token>)
    requires start <= end <= |source|
    ensures r.Ok? ==> r.value == Token(value, source[start..end], start, end)
    ensures r.Err? ==> Spans(r.error, source)
  {
    if end < |source| && !Space(source[end]) then Err(At(source, SeparateTokens, start, end + 1))
    else Ok(Token(value, source[start..end], start, end))
  }

  /** The value at a position: a JSON string, or a word. */
  function ReadValue(source: string, start: nat): (r: Result<Token>)
    requires start <= |source|
    ensures r.Ok? ==> r.value.start == start <= r.value.end <= |source| && r.value.raw == source[start..r.value.end]
    ensures r.Err? ==> Spans(r.error, source)
  {
    if start == |source| || Space(source[start]) then Err(At(source, ExpectedValue, start, start))
    else if source[start] == '"' then
      match Scan(source[start + 1..])
      case None => Err(At(source, IncompleteString, start, |source|))
      case Some(scanned) =>
        var end := start + 1 + scanned.taken;
        match Scalars(scanned.points)
        case None => Err(At(source, InvalidScalars, start, end))
        case Some(value) => Finished(source, value, start, end)
    else
      var end := WordEnd(source, start);
      Finished(source, source[start..end], start, end)
  }

  /** Lower case as far as it can name a field: besides A to Z, only the Kelvin sign has an ASCII lower-case form. */
  function LowerChar(c: char): char {
    if 'A' <= c <= 'Z' then (c as int + 32) as char else if c == '\U{212A}' then 'k' else c
  }

  function Lower(s: string): string { if s == [] then [] else [LowerChar(s[0])] + Lower(s[1..]) }

  function Name(f: Field): string {
    match f
    case Mode => "mode" case Access => "access" case State => "state" case Expired => "expired" case Kind => "kind"
    case Owner => "owner" case Sort => "sort" case Direction => "direction" case Text => "text"
  }

  function FieldNamed(s: string): Option<Field> {
    if s == "mode" then Some(Mode) else if s == "access" then Some(Access) else if s == "state" then Some(State)
    else if s == "expired" then Some(Expired) else if s == "kind" then Some(Kind) else if s == "owner" then Some(Owner)
    else if s == "sort" then Some(Sort) else if s == "direction" then Some(Direction) else if s == "text" then Some(Text)
    else None
  }

  datatype Parsed = Parsed(fields: map<Field, Token>, bare: seq<Token>)

  /** Every token lies before the position; bare ones are in order and begin with something that is not white space. */
  predicate Placed(source: string, p: Parsed, index: nat) {
    && index <= |source|
    && (forall f | f in p.fields :: p.fields[f].start <= p.fields[f].end <= index)
    && (forall i | 0 <= i < |p.bare| :: p.bare[0].start <= p.bare[i].end <= index)
    && (forall i | 0 <= i < |p.bare| :: p.bare[i].raw != "" && !Space(p.bare[i].raw[0]))
  }

  /** One token, from a position that is not white space; and where it ends. */
  function Step(source: string, index: nat, p: Parsed): (r: Result<(Parsed, nat)>)
    requires index < |source| && !Space(source[index]) && Placed(source, p, index)
    ensures r.Ok? ==> index < r.value.1 <= |source| && Placed(source, r.value.0, r.value.1)
    ensures r.Err? ==> Spans(r.error, source)
  {
    var end := if source[index] == '"' then index else WordEnd(source, index);
    if end < |source| && source[end] == ':' then
      match FieldNamed(Lower(source[index..end]))
      case None => Err(At(source, UnknownField, index, SpaceEnd(source, end + 1)))
      case Some(field) =>
        if field in p.fields then Err(At(source, DuplicateField, index, end))
        else
          match ReadValue(source, end + 1)
          case Err(e) => Err(e)
          case Ok(token) => Ok((p.(fields := p.fields[field := token]), token.end))
    else
      match ReadValue(source, index)
      case Err(e) => Err(e)
      case Ok(token) =>
        NonemptyValue(source, index);
        assert p.bare != [] ==> p.bare[0].start <= p.bare[0].end;
        Ok((p.(bare := p.bare + [token]), token.end))
  }

  lemma NonemptyValue(source: string, start: nat)
    requires start < |source| && (source[start] == '"' || !Stop(source[start]) || source[start] != ':')
    ensures ReadValue(source, start).Ok? ==> ReadValue(source, start).value.end > start
  {
  }

  /** Every token from a position on. */
  function Tokens(source: string, index: nat, p: Parsed): (r: Result<Parsed>)
    requires index <= |source| && Placed(source, p, index)
    ensures r.Ok? ==> Placed(source, r.value, |source|)
    ensures r.Err? ==> Spans(r.error, source)
    decreases |source| - index
  {
    if index == |source| then Ok(p)
    else if Space(source[index]) then Tokens(source, index + 1, p)
    else
      match Step(source, index, p)
      case Err(e) => Err(e)
      case Ok((next, end)) => Tokens(source, end, next)
  }

  // ---------------------------------------------------------------- the plan

  function Choices(f: Field): seq<string> {
    match f
    case Mode => ["catalogue", "lexical", "semantic", "hybrid"]
    case Access => ["internal", "external", "public"]
    case State => ["ready", "uploading", "publishing"]
    case Expired => ["true", "false"]
    case Kind => ["file", "dir"]
    case Sort => ["name", "created_at", "expires_at", "total_bytes", "file_count", "visibility", "state", "kind",
                  "created_by_user"]
    case Direction => ["asc", "desc"]
    case _ => []
  }

  /** The value of a closed field, or none when the expression does not have it. */
  function Choice(source: string, p: Parsed, f: Field): (r: Result<Option<string>>)
    requires Placed(source, p, |source|)
    ensures r.Ok? && r.value.Some? ==> f in p.fields && r.value.value == p.fields[f].value && r.value.value in Choices(f)
    ensures r.Ok? && r.value.None? ==> f !in p.fields
    ensures r.Err? ==> Spans(r.error, source)
  {
    if f !in p.fields then Ok(None)
    else if p.fields[f].value in Choices(f) then Ok(Some(p.fields[f].value))
    else Err(At(source, InvalidValue(f), p.fields[f].start, p.fields[f].end))
  }

  function JoinWords(words: seq<Token>, raw: bool): string {
    if words == [] then ""
    else (if raw then words[0].raw else words[0].value) + if |words| == 1 then "" else " " + JoinWords(words[1..], raw)
  }

  function Or(o: Option<string>, fallback: string): string { if o.Some? then o.value else fallback }

  /** The first of the fields that is there. */
  function FirstOf(fs: seq<Field>, p: Parsed): (r: Option<Field>)
    ensures r.Some? ==> r.value in fs && r.value in p.fields
    ensures r.None? ==> forall f | f in fs :: f !in p.fields
  {
    if fs == [] then None else if fs[0] in p.fields then Some(fs[0]) else FirstOf(fs[1..], p)
  }

  function Forbidden(mode: string): seq<Field> {
    if mode == "catalogue" then [Kind, Owner] else [State, Expired, Sort, Direction]
  }

  predicate IsChoice(f: Field, v: Option<string>) { v.Some? ==> v.value in Choices(f) }

  /** What the closed fields alone determine; absent ones have their defaults. */
  predicate ChoicesOk(p: Parsed, plan: Plan) {
    && plan.mode in Choices(Mode) && plan.sort in Choices(Sort) && plan.direction in Choices(Direction)
    && IsChoice(Access, plan.visibility) && IsChoice(State, plan.itemState) && IsChoice(Kind, plan.kind)
    && (State !in p.fields ==> plan.itemState.None?) && (Expired !in p.fields ==> !plan.includeExpired)
    && (Kind !in p.fields ==> plan.kind.None?) && (Sort !in p.fields ==> plan.sort == "created_at")
    && (Direction !in p.fields ==> plan.direction == "desc")
  }

  /** The plan of the closed fields, checked in this order. */
  function CompileChoices(source: string, p: Parsed): (r: Result<Plan>)
    requires Placed(source, p, |source|)
    ensures r.Err? ==> Spans(r.error, source)
    ensures r.Ok? ==> ChoicesOk(p, r.value)
  {
    assert "catalogue" == Choices(Mode)[0] && "created_at" == Choices(Sort)[1] && "desc" == Choices(Direction)[1];
    match Choice(source, p, Mode)
    case Err(e) => Err(e)
    case Ok(mode) =>
    match Choice(source, p, Access)
    case Err(e) => Err(e)
    case Ok(access) =>
    match Choice(source, p, State)
    case Err(e) => Err(e)
    case Ok(state) =>
    match Choice(source, p, Expired)
    case Err(e) => Err(e)
    case Ok(expired) =>
    match Choice(source, p, Kind)
    case Err(e) => Err(e)
    case Ok(kind) =>
    match Choice(source, p, Sort)
    case Err(e) => Err(e)
    case Ok(sort) =>
    match Choice(source, p, Direction)
    case Err(e) => Err(e)
    case Ok(direction) =>
      Ok(Plan("", Or(mode, "catalogue"), access, state, expired == Some("true"), kind, None, Or(sort, "created_at"),
              Or(direction, "desc")))
  }

  predicate AnyNonblank(words: seq<Token>) { exists i | 0 <= i < |words| :: !Blank(words[i].value) }

  /** The closed fields, then owner, mode, and the search text. */
  function Compile(source: string, p: Parsed): (r: Result<Plan>)
    requires Placed(source, p, |source|)
    ensures r.Err? ==> Spans(r.error, source)
  {
    match CompileChoices(source, p)
    case Err(e) => Err(e)
    case Ok(plan) =>
      if Owner in p.fields && Blank(p.fields[Owner].value) then
        Err(At(source, BlankOwner, p.fields[Owner].start, p.fields[Owner].end))
      else
        var wrong := FirstOf(Forbidden(plan.mode), p);
        if wrong.Some? then Err(At(source, WrongMode, p.fields[wrong.value].start, p.fields[wrong.value].end))
        else if Text in p.fields && p.bare != [] then
          Err(At(source, TextAndBare, p.bare[0].start, p.bare[|p.bare| - 1].end))
        else
          var text := if Text in p.fields then p.fields[Text].value else JoinWords(p.bare, plan.mode != "catalogue");
          var nonblank := if Text in p.fields then !Blank(text) else AnyNonblank(p.bare);
          if plan.mode != "catalogue" && !nonblank then Err(At(source, BlankSearch, 0, |source|))
          else Ok(plan.(q := text, createdByUser := if Owner in p.fields then Some(p.fields[Owner].value) else None))
  }

  /** What an expression means. */
  function Parse(expression: seq<nat>): Result<Plan> {
    match Scalars(expression)
    case None => Err(Error(InvalidScalars, 0, PointUnits(expression)))
    case Some(source) =>
      if Units(source) > MAX_QUERY_UTF16 then Err(Error(TooLong, 0, Units(source)))
      else
        match Tokens(source, 0, Parsed(map[], []))
        case Err(e) => Err(e)
        case Ok(p) => Compile(source, p)
  }

  /** Every error names a span of the expression. */
  lemma ErrorsAreInside(expression: seq<nat>)
    ensures Parse(expression).Err? ==>
              Parse(expression).error.start <= Parse(expression).error.end <= PointUnits(expression)
  {
    ScalarsKeepUnits(expression);
  }

  // ---------------------------------------------------------------- the parser as it runs

  /** The parser: one pass from left to right, each turn of which moves on. */
  method ParseExpression(expression: seq<nat>) returns (r: Result<Plan>)
    ensures r == Parse(expression)
    ensures r.Ok? <==> Scalars(expression).Some? && exists lead, terms :: Written(Scalars(expression).value, lead, terms)
    ensures r.Ok? ==> forall lead, terms :: Written(Scalars(expression).value, lead, terms) ==> Means(terms, r.value)
  {
    hide Written, Means;
    AcceptedIff(expression);
    var scalars := Scalars(expression);
    if scalars.None? { return Err(Error(InvalidScalars, 0, PointUnits(expression))); }
    var source := scalars.value;
    if Units(source) > MAX_QUERY_UTF16 { return Err(Error(TooLong, 0, Units(source))); }
    var p := Parsed(map[], []);
    var index := 0;
    while index < |source|
      invariant index <= |source| && Placed(source, p, index)
      invariant Tokens(source, index, p) == Tokens(source, 0, Parsed(map[], []))
      decreases |source| - index
    {
      if Space(source[index]) {
        index := index + 1;
        continue;
      }
      var one := ParseToken(source, index, p);
      if one.Err? { return Err(one.error); }
      p, index := one.value.0, one.value.1;
    }
    return Compile(source, p);
  }

  /** A field with its value, or a bare term. */
  method ParseToken(source: string, start: nat, p: Parsed) returns (r: Result<(Parsed, nat)>)
    requires start < |source| && !Space(source[start]) && Placed(source, p, start)
    ensures r == Step(source, start, p)
  {
    hide Placed, ReadValue, WordEnd, FieldNamed, Lower;
    var end := start;
    if source[end] != '"' { end := SkipWord(source, end); }
    if end < |source| && source[end] == ':' {
      var field := FieldNamed(Lower(source[start..end]));
      if field.None? { return Err(At(source, UnknownField, start, SpaceEnd(source, end + 1))); }
      if field.value in p.fields { return Err(At(source, DuplicateField, start, end)); }
      var token := ReadValue(source, end + 1);
      if token.Err? { return Err(token.error); }
      return Ok((p.(fields := p.fields[field.value := token.value]), token.value.end));
    }
    var token := ReadValue(source, start);
    if token.Err? { return Err(token.error); }
    return Ok((p.(bare := p.bare + [token.value]), token.value.end));
  }

  method SkipWord(source: string, start: nat) returns (end: nat)
    requires start <= |source|
    ensures end == WordEnd(source, start)
  {
    end := start;
    while end < |source| && !Stop(source[end])
      invariant start <= end <= |source| && WordEnd(source, end) == WordEnd(source, start)
    {
      end := end + 1;
    }
  }

  // ---------------------------------------------------------------- which plans there are

  /** The plans an expression can mean. */
  predicate ValidPlan(p: Plan) {
    && p.mode in Choices(Mode) && p.sort in Choices(Sort) && p.direction in Choices(Direction)
    && IsChoice(Access, p.visibility) && IsChoice(State, p.itemState) && IsChoice(Kind, p.kind)
    && (p.createdByUser.Some? ==> !Blank(p.createdByUser.value))
    && (if p.mode == "catalogue" then p.kind.None? && p.createdByUser.None?
        else p.itemState.None? && !p.includeExpired && p.sort == "created_at" && p.direction == "desc" && !Blank(p.q))
  }

  lemma {:induction false} JoinedWordsAreNotBlank(words: seq<Token>)
    requires words != [] && words[0].raw != "" && !Space(words[0].raw[0])
    ensures !Blank(JoinWords(words, true))
  {
    assert JoinWords(words, true)[0] == words[0].raw[0];
  }

  lemma ParsedIsValid(expression: seq<nat>)
    ensures Parse(expression).Ok? ==> ValidPlan(Parse(expression).value)
  {
    if Parse(expression).Ok? {
      var source := Scalars(expression).value;
      CompiledIsValid(source, Tokens(source, 0, Parsed(map[], [])).value);
    }
  }

  lemma CompiledIsValid(source: string, p: Parsed)
    requires Placed(source, p, |source|) && Compile(source, p).Ok?
    ensures ValidPlan(Compile(source, p).value)
  {
    var plan := CompileChoices(source, p).value;
    forall f | f in Forbidden(plan.mode) ensures f !in p.fields { assert FirstOf(Forbidden(plan.mode), p).None?; }
    if plan.mode == "catalogue" {
      assert Forbidden(plan.mode)[0] == Kind && Forbidden(plan.mode)[1] == Owner;
    } else {
      assert Forbidden(plan.mode)[0] == State && Forbidden(plan.mode)[1] == Expired;
      assert Forbidden(plan.mode)[2] == Sort && Forbidden(plan.mode)[3] == Direction;
      if Text !in p.fields { JoinedWordsAreNotBlank(p.bare); }
    }
  }

  // ---------------------------------------------------------------- terms

  /** How a value is written: as a word, or as a JSON string spelled in one way or another. */
  datatype Form = AsWord | AsString(spelling: seq<string>)

  /** A field with its value, or a bare term when there is no field, and the white space after it. */
  datatype Term = Term(field: Option<Field>, name: string, v: string, form: Form, gap: string)

  function ValueText(t: Term): string {
    match t.form
    case AsWord => t.v
    case AsString(spelling) => Quoted(spelling)
  }

  function TermText(t: Term): string { if t.field.Some? then t.name + ([':'] + ValueText(t)) else ValueText(t) }

  function Expression(terms: seq<Term>): string {
    if terms == [] then "" else TermText(terms[0]) + (terms[0].gap + Expression(terms[1..]))
  }

  predicate Word(w: string) { w != "" && forall i | 0 <= i < |w| :: !Stop(w[i]) }

  /** A letter, small or capital; to a field name the Kelvin sign is a capital K. */
  predicate SameLetter(c: char, small: char) {
    'a' <= small <= 'z' && (c == small || c == "ABCDEFGHIJKLMNOPQRSTUVWXYZ"[(small - 'a') as nat] || (small == 'k' && c == '\U{212A}'))
  }

  predicate AnyCase(word: string, name: string) { |word| == |name| && forall i | 0 <= i < |word| :: SameLetter(word[i], name[i]) }

  /** Field names in upper or lower case, values as words that need no quotes or as strings in any spelling. */
  predicate WellWritten(t: Term) {
    && (t.field.Some? ==> AnyCase(t.name, Name(t.field.value)))
    && (match t.form case AsWord => Word(t.v) case AsString(spelling) => Spelled(spelling, t.v))
    && Blank(t.gap)
  }

  /** White space separates any two terms. */
  predicate AllWellWritten(terms: seq<Term>) {
    && (forall i | 0 <= i < |terms| :: WellWritten(terms[i]))
    && (forall i | 0 <= i < |terms| - 1 :: terms[i].gap != "")
  }

  // ---------------------------------------------------------------- reading a value

  lemma NameIsPlain(f: Field)
    ensures Name(f) != "" && forall i | 0 <= i < |Name(f)| :: 'a' <= Name(f)[i] <= 'z'
    ensures FieldNamed(Name(f)) == Some(f)
  {
  }

  lemma LowerOfLetter(c: char, small: char)
    requires SameLetter(c, small)
    ensures LowerChar(c) == small && !Stop(c)
  {
  }

  lemma {:induction false} LowerOfAnyCase(word: string, name: string)
    requires AnyCase(word, name)
    ensures Lower(word) == name
  {
    if word != [] {
      LowerOfLetter(word[0], name[0]);
      LowerOfAnyCase(word[1..], name[1..]);
    }
  }

  lemma {:induction false} WordEndIs(source: string, i: nat, n: nat)
    requires i <= n <= |source| && (forall j | i <= j < n :: !Stop(source[j])) && (n < |source| ==> Stop(source[n]))
    ensures WordEnd(source, i) == n
    decreases n - i
  {
    if i < n { WordEndIs(source, i + 1, n); }
  }

  predicate AtBreak(rest: string) { rest == "" || Space(rest[0]) }

  /** What is read: the value, as it was written, up to where that ends. */
  predicate ReadsAs(r: Result<Token>, value: string, raw: string, start: nat) {
    r.Ok? && r.value == Token(value, raw, start, start + |raw|)
  }

  lemma ReadQuoted(before: string, spelling: seq<string>, v: string, rest: string)
    requires AtBreak(rest) && Spelled(spelling, v)
    ensures ReadsAs(ReadValue(before + (Quoted(spelling) + rest), |before|), v, Quoted(spelling), |before|)
  {
    hide Spelled, Scan;
    var source, start := before + (Quoted(spelling) + rest), |before|;
    var end := start + |Quoted(spelling)|;
    assert end < |source| ==> source[end] == rest[0];
    assert source[start] == '"';
    assert source[start + 1..] == Concat(spelling) + (['"'] + rest);
    ScanSpelled(spelling, v, rest);
    ScalarsOfPoints(v);
    Inside(before, Quoted(spelling), rest);
  }

  lemma WordIsThere(before: string, v: string, rest: string)
    requires AtBreak(rest) && Word(v)
    ensures var source := before + (v + rest);
            && WordEnd(source, |before|) == |before| + |v| && source[|before|..|before| + |v|] == v
            && |before| < |source| && !Stop(source[|before|]) && (|before| + |v| < |source| ==> Space(source[|before| + |v|]))
  {
    var source, start := before + (v + rest), |before|;
    var end := start + |v|;
    Inside(before, v, rest);
    assert end < |source| ==> source[end] == rest[0];
    forall j | start <= j < end ensures !Stop(source[j]) { assert source[j] == v[j - start]; }
    WordEndIs(source, start, end);
  }

  lemma ReadWord(before: string, v: string, rest: string)
    requires AtBreak(rest) && Word(v)
    ensures ReadsAs(ReadValue(before + (v + rest), |before|), v, v, |before|)
  {
    hide WordEnd;
    WordIsThere(before, v, rest);
  }

  /** A written value is read back. */
  lemma ReadWritten(before: string, t: Term, rest: string)
    requires WellWritten(t) && AtBreak(rest)
    ensures ReadsAs(ReadValue(before + (ValueText(t) + rest), |before|), t.v, ValueText(t), |before|)
  {
    match t.form
    case AsWord => ReadWord(before, t.v, rest);
    case AsString(spelling) => ReadQuoted(before, spelling, t.v, rest);
  }

  lemma Beyond(before: string, tail: string, k: nat)
    requires k < |tail|
    ensures (before + tail)[|before| + k] == tail[k]
  {
  }

  lemma Inside(before: string, part: string, after: string)
    ensures (before + (part + after))[|before|..|before| + |part|] == part
    ensures before + (part + after) == (before + part) + after
  {
  }

  // ---------------------------------------------------------------- reading a term

  /** Letters and a colon: the colon ends their word. */
  lemma WordEndsAt(before: string, word: string, name: string, after: string)
    requires AnyCase(word, name)
    ensures WordEnd(before + (word + ([':'] + after)), |before|) == |before| + |word|
  {
    hide Stop, SameLetter;
    var source, colon := before + (word + ([':'] + after)), |before| + |word|;
    Inside(before, word, [':'] + after);
    Beyond(before, word + ([':'] + after), |word|);
    assert source[|before|..colon] == word;
    forall j | |before| <= j < colon ensures !Stop(source[j]) {
      assert source[j] == word[j - |before|];
      LowerOfLetter(word[j - |before|], name[j - |before|]);
    }
    ColonStops();
    WordEndIs(source, |before|, colon);
  }

  lemma ColonStops()
    ensures Stop(':')
  {
  }

  predicate HasField(source: string, start: nat, colon: nat, name: string) {
    && start < colon < |source| && source[colon] == ':' && !Space(source[start]) && source[start] != '"'
    && WordEnd(source, start) == colon && Lower(source[start..colon]) == name
  }

  /** A field's name and a colon, found at a position. */
  lemma WordFound(before: string, word: string, name: string, after: string)
    requires AnyCase(word, name) && name != ""
    ensures HasField(before + (word + ([':'] + after)), |before|, |before| + |word|, name)
  {
    WordEndsAt(before, word, name, after);
    Inside(before, word, [':'] + after);
    LowerOfAnyCase(word, name);
    LowerOfLetter(word[0], name[0]);
    Beyond(before, word + ([':'] + after), 0);
    Beyond(before, word + ([':'] + after), |word|);
  }

  /** The parser's state with one more term. */
  function With(p: Parsed, t: Term, token: Token): Parsed {
    if t.field.Some? then p.(fields := p.fields[t.field.value := token]) else p.(bare := p.bare + [token])
  }

  /** One step of the parser reads exactly this term, or refuses its field when it has that already. */
  ghost predicate StepReads(source: string, start: nat, p: Parsed, t: Term) {
    start < |source| && !Space(source[start]) && Placed(source, p, start) &&
    var r := Step(source, start, p);
    if t.field.Some? && t.field.value in p.fields
    then r.Err? && r.error.message == DuplicateField && Marks(source, r.error, t.name)
    else exists token: Token :: token.value == t.v && token.raw == ValueText(t) && r == Ok((With(p, t, token), start + |TermText(t)|))
  }

  lemma StepOfField(source: string, start: nat, colon: nat, p: Parsed, t: Term)
    requires t.field.Some? && HasField(source, start, colon, Name(t.field.value)) && Placed(source, p, start)
    requires source[start..colon] == t.name && ReadsAs(ReadValue(source, colon + 1), t.v, ValueText(t), colon + 1)
    ensures StepReads(source, start, p, t)
  {
    hide ReadValue, Placed, WordEnd, Lower, FieldNamed, Name, ValueText, Units;
    NameIsPlain(t.field.value);
    var token := ReadValue(source, colon + 1).value;
    if t.field.value !in p.fields {
      assert token.value == t.v && token.raw == ValueText(t);
      assert Step(source, start, p) == Ok((With(p, t, token), start + |TermText(t)|));
    }
  }

  lemma StepOfBare(source: string, start: nat, p: Parsed, t: Term)
    requires t.field.None? && start < |source| && !Space(source[start]) && Placed(source, p, start)
    requires ReadsAs(ReadValue(source, start), t.v, ValueText(t), start)
    requires source[start] == '"' || (WordEnd(source, start) < |source| ==> source[WordEnd(source, start)] != ':')
    ensures StepReads(source, start, p, t)
  {
    hide ReadValue, Placed, WordEnd, Lower, FieldNamed, ValueText;
    var token := ReadValue(source, start).value;
    assert token.value == t.v && token.raw == ValueText(t);
    assert Step(source, start, p) == Ok((With(p, t, token), start + |TermText(t)|));
  }

  /** A field's name, a colon and a value are one step. */
  lemma FieldTermRead(before: string, t: Term, rest: string, p: Parsed)
    requires WellWritten(t) && t.field.Some? && AtBreak(rest) && Placed(before + (TermText(t) + rest), p, |before|)
    ensures StepReads(before + (TermText(t) + rest), |before|, p, t)
  {
    hide ReadValue, Step, Placed, ValueText, HasField, ReadsAs, StepReads, Name, FieldNamed, AnyCase;
    var source, colon, value := before + (TermText(t) + rest), |before| + |t.name|, ValueText(t) + rest;
    NameIsPlain(t.field.value);
    Regrouped(before, t.name, ValueText(t), rest);
    assert source == before + (t.name + ([':'] + value)) && source == (before + (t.name + [':'])) + value;
    WordFound(before, t.name, Name(t.field.value), value);
    Inside(before, t.name, [':'] + value);
    assert HasField(source, |before|, colon, Name(t.field.value));
    ReadWritten(before + (t.name + [':']), t, rest);
    StepOfField(source, |before|, colon, p, t);
  }

  lemma Regrouped(before: string, name: string, value: string, rest: string)
    ensures before + ((name + ([':'] + value)) + rest) == before + (name + ([':'] + (value + rest)))
    ensures before + ((name + ([':'] + value)) + rest) == (before + (name + [':'])) + (value + rest)
  {
    var whole := before + (name + ([':'] + (value + rest)));
    assert (name + ([':'] + value)) + rest == name + ([':'] + (value + rest));
    assert (before + (name + [':'])) + (value + rest) == whole;
  }

  lemma BareTermRead(before: string, t: Term, rest: string, p: Parsed)
    requires WellWritten(t) && t.field.None? && AtBreak(rest) && Placed(before + (TermText(t) + rest), p, |before|)
    ensures StepReads(before + (TermText(t) + rest), |before|, p, t)
  {
    hide ReadValue, Step, Placed, ReadsAs, StepReads, WordEnd, Spelled, Word;
    var source, start := before + (TermText(t) + rest), |before|;
    ReadWritten(before, t, rest);
    if t.form.AsWord? {
      WordIsThere(before, t.v, rest);
    } else {
      assert source[start] == '"';
    }
    StepOfBare(source, start, p, t);
  }

  lemma TermRead(before: string, t: Term, rest: string, p: Parsed)
    requires WellWritten(t) && AtBreak(rest) && Placed(before + (TermText(t) + rest), p, |before|)
    ensures StepReads(before + (TermText(t) + rest), |before|, p, t)
  {
    hide StepReads, WellWritten, Placed;
    if t.field.Some? { FieldTermRead(before, t, rest, p); } else { BareTermRead(before, t, rest, p); }
  }

  // ---------------------------------------------------------------- reading all terms

  /** What follows the first part of a suffix. */
  lemma Dropped(source: string, start: nat, first: string, rest: string)
    requires start <= |source| && source[start..] == first + rest
    ensures source == source[..start] + (first + rest)
    ensures start + |first| + |rest| == |source| && source[start + |first|..] == rest
  {
    assert source[start + |first|..] == source[start..][|first|..];
  }

  /** White space is passed over. */
  lemma {:induction false} GapSkipped(source: string, start: nat, gap: string, rest: string, p: Parsed)
    requires Blank(gap) && start <= |source| && source[start..] == gap + rest && Placed(source, p, start)
    ensures start + |gap| <= |source| && source[start + |gap|..] == rest && Placed(source, p, start + |gap|)
    ensures Tokens(source, start, p) == Tokens(source, start + |gap|, p)
    decreases |gap|
  {
    hide Step;
    Dropped(source, start, gap, rest);
    if gap != "" {
      assert source[start] == source[start..][0] == gap[0];
      assert source[start + 1..] == source[start..][1..] == gap[1..] + rest;
      GapSkipped(source, start + 1, gap[1..], rest, p);
    }
  }

  /** No field comes twice, or is there already. */
  predicate NoneTwice(seen: set<Field>, terms: seq<Term>)
    decreases |terms|
  {
    if terms == [] then true
    else if terms[0].field.None? then NoneTwice(seen, terms[1..])
    else terms[0].field.value !in seen && NoneTwice(seen + {terms[0].field.value}, terms[1..])
  }

  function FieldValues(terms: seq<Term>): map<Field, string> {
    if terms == [] then map[]
    else if terms[0].field.None? then FieldValues(terms[1..])
    else map[terms[0].field.value := terms[0].v] + FieldValues(terms[1..])
  }

  function FieldTexts(terms: seq<Term>): map<Field, string> {
    if terms == [] then map[]
    else if terms[0].field.None? then FieldTexts(terms[1..])
    else map[terms[0].field.value := ValueText(terms[0])] + FieldTexts(terms[1..])
  }

  lemma {:induction false} TextsOfValues(terms: seq<Term>)
    ensures FieldTexts(terms).Keys == FieldValues(terms).Keys
  {
    hide ValueText;
    if terms != [] { TextsOfValues(terms[1..]); }
  }

  /** The texts that bare terms stand for, and the bare terms as written. */
  function BareTexts(terms: seq<Term>): seq<string> {
    if terms == [] then [] else (if terms[0].field.None? then [terms[0].v] else []) + BareTexts(terms[1..])
  }

  function BareWritten(terms: seq<Term>): seq<string> {
    if terms == [] then [] else (if terms[0].field.None? then [ValueText(terms[0])] else []) + BareWritten(terms[1..])
  }

  function Values(tokens: seq<Token>): seq<string> { seq(|tokens|, i requires 0 <= i < |tokens| => tokens[i].value) }

  function Raws(tokens: seq<Token>): seq<string> { seq(|tokens|, i requires 0 <= i < |tokens| => tokens[i].raw) }

  /** What the parser has after reading terms, besides what it had. */
  ghost predicate Took(p: Parsed, terms: seq<Term>, q: Parsed) {
    && q.fields.Keys == p.fields.Keys + FieldValues(terms).Keys
    && (forall f | f in p.fields :: q.fields[f] == p.fields[f])
    && (forall f | f in FieldValues(terms) :: q.fields[f].value == FieldValues(terms)[f])
    && (forall f | f in FieldTexts(terms) :: f in q.fields && q.fields[f].raw == FieldTexts(terms)[f])
    && Values(q.bare) == Values(p.bare) + BareTexts(terms) && Raws(q.bare) == Raws(p.bare) + BareWritten(terms)
  }

  /** The error's span is where this text stands. */
  predicate Marks(source: string, e: Error, text: string) {
    exists a, b | 0 <= a <= b <= |source| :: source[a..b] == text && e.start == Units(source[..a]) && e.end == Units(source[..b])
  }

  /** Some field is there already, and the error marks its name where it comes again. */
  predicate Repeats(seen: set<Field>, terms: seq<Term>, source: string, e: Error)
    decreases |terms|
  {
    e.message == DuplicateField && terms != [] &&
    if terms[0].field.Some? && terms[0].field.value in seen then Marks(source, e, terms[0].name)
    else Repeats(if terms[0].field.Some? then seen + {terms[0].field.value} else seen, terms[1..], source, e)
  }

  /** Reading terms from some state on: all of them are taken, or some field comes twice. */
  ghost predicate ReadAll(source: string, p: Parsed, terms: seq<Term>, r: Result<Parsed>) {
    if NoneTwice(p.fields.Keys, terms) then r.Ok? && Took(p, terms, r.value)
    else r.Err? && Repeats(p.fields.Keys, terms, source, r.error)
  }

  lemma NothingTaken(source: string, p: Parsed)
    ensures ReadAll(source, p, [], Ok(p))
  {
  }

  lemma TakenAgain(source: string, p: Parsed, terms: seq<Term>, r: Result<Parsed>)
    requires terms != [] && terms[0].field.Some? && terms[0].field.value in p.fields
    requires r.Err? && r.error.message == DuplicateField && Marks(source, r.error, terms[0].name)
    ensures ReadAll(source, p, terms, r)
  {
    hide Marks;
  }

  lemma {:induction false} FieldsOfNoneTwice(seen: set<Field>, terms: seq<Term>)
    requires NoneTwice(seen, terms)
    ensures FieldValues(terms).Keys !! seen
    decreases |terms|
  {
    if terms != [] {
      FieldsOfNoneTwice(if terms[0].field.Some? then seen + {terms[0].field.value} else seen, terms[1..]);
    }
  }

  lemma NoBareTexts(terms: seq<Term>)
    requires terms != [] && terms[0].field.Some?
    ensures BareTexts(terms) == BareTexts(terms[1..]) && BareWritten(terms) == BareWritten(terms[1..])
  {
    assert [] + BareTexts(terms[1..]) == BareTexts(terms[1..]) && [] + BareWritten(terms[1..]) == BareWritten(terms[1..]);
  }

  lemma FieldTaken(p: Parsed, terms: seq<Term>, token: Token, q: Parsed)
    requires terms != [] && terms[0].field.Some? && terms[0].field.value !in p.fields
    requires token.value == terms[0].v && token.raw == ValueText(terms[0])
    requires Took(With(p, terms[0], token), terms[1..], q) && FieldValues(terms[1..]).Keys !! p.fields.Keys + {terms[0].field.value}
    ensures Took(p, terms, q)
  {
    hide Values, Raws, BareTexts, BareWritten, ValueText;
    var f, next := terms[0].field.value, With(p, terms[0], token);
    NoBareTexts(terms);
    TextsOfValues(terms[1..]);
    assert f in next.fields && q.fields[f] == token;
  }

  lemma ValuesOfMore(tokens: seq<Token>, token: Token)
    ensures Values(tokens + [token]) == Values(tokens) + [token.value] && Raws(tokens + [token]) == Raws(tokens) + [token.raw]
  {
  }

  lemma Shifted(a: seq<string>, x: string, b: seq<string>)
    ensures a + [x] + b == a + ([x] + b)
  {
  }

  lemma BareTaken(p: Parsed, terms: seq<Term>, token: Token, q: Parsed)
    requires terms != [] && terms[0].field.None? && token.value == terms[0].v && token.raw == ValueText(terms[0])
    requires Took(With(p, terms[0], token), terms[1..], q)
    ensures Took(p, terms, q)
  {
    hide ValueText, Values, Raws;
    ValuesOfMore(p.bare, token);
    Shifted(Values(p.bare), token.value, BareTexts(terms[1..]));
    Shifted(Raws(p.bare), token.raw, BareWritten(terms[1..]));
  }

  lemma OneMoreTaken(source: string, p: Parsed, terms: seq<Term>, token: Token, r: Result<Parsed>)
    requires terms != [] && (terms[0].field.Some? ==> terms[0].field.value !in p.fields)
    requires token.value == terms[0].v && token.raw == ValueText(terms[0])
    requires ReadAll(source, With(p, terms[0], token), terms[1..], r)
    ensures ReadAll(source, p, terms, r)
  {
    hide ValueText, Took, Marks;
    var next := With(p, terms[0], token);
    if terms[0].field.Some? {
      assert next.fields.Keys == p.fields.Keys + {terms[0].field.value};
      if NoneTwice(next.fields.Keys, terms[1..]) {
        FieldsOfNoneTwice(next.fields.Keys, terms[1..]);
        FieldTaken(p, terms, token, r.value);
      }
    } else if NoneTwice(p.fields.Keys, terms[1..]) {
      BareTaken(p, terms, token, r.value);
    }
  }

  lemma StepThenGap(source: string, start: nat, p: Parsed, next: Parsed, end: nat, gap: string, rest: string)
    requires start < |source| && !Space(source[start]) && Placed(source, p, start) && Step(source, start, p) == Ok((next, end))
    requires Blank(gap) && end <= |source| && source[end..] == gap + rest
    ensures end + |gap| <= |source| && source[end + |gap|..] == rest && Placed(source, next, end + |gap|)
    ensures Tokens(source, start, p) == Tokens(source, end + |gap|, next)
  {
    hide Step;
    GapSkipped(source, end, gap, rest, next);
  }

  lemma StepRefused(source: string, start: nat, p: Parsed)
    requires start < |source| && !Space(source[start]) && Placed(source, p, start) && Step(source, start, p).Err?
    ensures Tokens(source, start, p) == Err(Step(source, start, p).error)
  {
    hide Step;
  }

  lemma BreakAfter(terms: seq<Term>)
    requires terms != [] && AllWellWritten(terms)
    ensures AtBreak(terms[0].gap + Expression(terms[1..])) && AllWellWritten(terms[1..]) && WellWritten(terms[0])
  {
    hide WellWritten, TermText;
    assert Blank(terms[0].gap) by { assert WellWritten(terms[0]); BlankGap(terms[0]); }
    if |terms| == 1 { assert terms[1..] == []; }
  }

  lemma BlankGap(t: Term)
    requires WellWritten(t)
    ensures Blank(t.gap)
  {
  }

  lemma {:induction false} TermsRead(source: string, start: nat, terms: seq<Term>, p: Parsed)
    requires start <= |source| && source[start..] == Expression(terms) && Placed(source, p, start) && AllWellWritten(terms)
    ensures ReadAll(source, p, terms, Tokens(source, start, p))
    decreases |terms|
  {
    hide Placed, ReadAll, Step, TermText, WellWritten, Tokens, ValueText, With;
    if terms == [] {
      assert start == |source|;
      EndOfTokens(source, p);
      NothingTaken(source, p);
    } else {
      var t := terms[0];
      var rest := t.gap + Expression(terms[1..]);
      BreakAfter(terms);
      Dropped(source, start, TermText(t), rest);
      TermRead(source[..start], t, rest, p);
      var r := Step(source, start, p);
      if r.Err? {
        StepRefused(source, start, p);
        TakenAgain(source, p, terms, Tokens(source, start, p));
      } else {
        var token: Token :| token.value == t.v && token.raw == ValueText(t) && r == Ok((With(p, t, token), start + |TermText(t)|));
        var next, end := With(p, t, token), start + |TermText(t)|;
        BlankGap(t);
        StepThenGap(source, start, p, next, end, t.gap, Expression(terms[1..]));
        TermsRead(source, end + |t.gap|, terms[1..], next);
        OneMoreTaken(source, p, terms, token, Tokens(source, end + |t.gap|, next));
      }
    }
  }

  /** A token is where it says. */
  predicate Lies(source: string, t: Token) { t.start <= t.end <= |source| && source[t.start..t.end] == t.raw }

  predicate AllLie(source: string, p: Parsed) {
    (forall f | f in p.fields :: Lies(source, p.fields[f])) && forall t | t in p.bare :: Lies(source, t)
  }

  lemma StepLies(source: string, start: nat, p: Parsed)
    requires start < |source| && !Space(source[start]) && Placed(source, p, start) && AllLie(source, p)
    ensures Step(source, start, p).Ok? ==> AllLie(source, Step(source, start, p).value.0)
  {
    hide Placed, ReadValue, WordEnd, Lower, FieldNamed;
  }

  lemma {:induction false} TokensLie(source: string, start: nat, p: Parsed)
    requires start <= |source| && Placed(source, p, start) && AllLie(source, p)
    ensures Tokens(source, start, p).Ok? ==> AllLie(source, Tokens(source, start, p).value)
    decreases |source| - start
  {
    hide Step, AllLie;
    if start < |source| {
      if Space(source[start]) {
        TokensLie(source, start + 1, p);
      } else {
        StepLies(source, start, p);
        if Step(source, start, p).Ok? { TokensLie(source, Step(source, start, p).value.1, Step(source, start, p).value.0); }
      }
    }
  }

  lemma EndOfTokens(source: string, p: Parsed)
    requires Placed(source, p, |source|)
    ensures Tokens(source, |source|, p) == Ok(p)
  {
  }

  // ---------------------------------------------------------------- what terms mean

  /** Texts with one space between. */
  function Spaced(words: seq<string>): string {
    if words == [] then "" else words[0] + if |words| == 1 then "" else " " + Spaced(words[1..])
  }

  lemma {:induction false} WordsAreSpaced(tokens: seq<Token>)
    ensures JoinWords(tokens, false) == Spaced(Values(tokens)) && JoinWords(tokens, true) == Spaced(Raws(tokens))
  {
    if tokens != [] {
      WordsAreSpaced(tokens[1..]);
      assert Values(tokens)[1..] == Values(tokens[1..]) && Raws(tokens)[1..] == Raws(tokens[1..]);
    }
  }

  function Get(m: map<Field, string>, f: Field): Option<string> { if f in m then Some(m[f]) else None }

  function ModeOf(m: map<Field, string>): string { if Mode in m then m[Mode] else "catalogue" }

  predicate ClosedOk(m: map<Field, string>) {
    && (Mode in m ==> m[Mode] in {"catalogue", "lexical", "semantic", "hybrid"})
    && (Access in m ==> m[Access] in {"internal", "external", "public"})
    && (State in m ==> m[State] in {"ready", "uploading", "publishing"})
    && (Expired in m ==> m[Expired] in {"true", "false"})
    && (Kind in m ==> m[Kind] in {"file", "dir"})
    && (Sort in m ==> m[Sort] in {"name", "created_at", "expires_at", "total_bytes", "file_count", "visibility", "state", "kind",
                                  "created_by_user"})
    && (Direction in m ==> m[Direction] in {"asc", "desc"})
  }

  /** What is accepted: each field once and with a value it can have, an owner that is not blank, only fields of the
      mode, search text given in one way, and not blank text when something is to be retrieved. */
  predicate Accepted(terms: seq<Term>) {
    var m, bare := FieldValues(terms), BareTexts(terms);
    && NoneTwice({}, terms) && ClosedOk(m) && (Owner in m ==> !Blank(m[Owner]))
    && (if ModeOf(m) == "catalogue" then Kind !in m && Owner !in m
        else State !in m && Expired !in m && Sort !in m && Direction !in m)
    && (Text in m ==> bare == [])
    && (ModeOf(m) != "catalogue" ==> if Text in m then !Blank(m[Text]) else exists b | b in bare :: !Blank(b))
  }

  /** The search text is that of its field, or else in the catalogue the texts of the bare terms, and for retrieval the
      bare terms as written; the rest is what the fields say, or the default. */
  predicate Means(terms: seq<Term>, plan: Plan) {
    var m := FieldValues(terms);
    && plan.mode == ModeOf(m)
    && plan.q == (if Text in m then m[Text] else if plan.mode == "catalogue" then Spaced(BareTexts(terms)) else Spaced(BareWritten(terms)))
    && plan.visibility == Get(m, Access) && plan.itemState == Get(m, State) && plan.kind == Get(m, Kind)
    && plan.createdByUser == Get(m, Owner) && plan.includeExpired == (Get(m, Expired) == Some("true"))
    && plan.sort == (if Sort in m then m[Sort] else "created_at") && plan.direction == (if Direction in m then m[Direction] else "desc")
  }

  /** The error's span begins with one text and ends with another. */
  predicate MarksFromTo(source: string, e: Error, first: string, last: string) {
    exists a, b | 0 <= a <= b <= |source| ::
      && e.start == Units(source[..a]) && e.end == Units(source[..b])
      && a + |first| <= |source| && source[a..a + |first|] == first && |last| <= b && source[b - |last|..b] == last
  }

  /** What a refusal says is wrong is wrong, and its span is where that stands. */
  predicate Blames(source: string, terms: seq<Term>, e: Error) {
    var m, texts, bare, written := FieldValues(terms), FieldTexts(terms), BareTexts(terms), BareWritten(terms);
    match e.message
    case DuplicateField => Repeats({}, terms, source, e)
    case InvalidValue(f) => f in m && !ClosedOk(map[f := m[f]]) && f in texts && Marks(source, e, texts[f])
    case BlankOwner => Owner in m && Blank(m[Owner]) && Owner in texts && Marks(source, e, texts[Owner])
    case WrongMode =>
      exists f :: f in texts && f in (if ModeOf(m) == "catalogue" then {Kind, Owner} else {State, Expired, Sort, Direction})
                  && Marks(source, e, texts[f])
    case TextAndBare => Text in m && written != [] && MarksFromTo(source, e, written[0], written[|written| - 1])
    case BlankSearch =>
      && ModeOf(m) != "catalogue" && (if Text in m then Blank(m[Text]) else forall b | b in bare :: Blank(b))
      && e.start == 0 && e.end == Units(source)
    case _ => false
  }

  /** The state after reading terms from nothing. */
  ghost predicate Holds(p: Parsed, terms: seq<Term>) {
    && p.fields.Keys == FieldValues(terms).Keys
    && (forall f | f in p.fields :: p.fields[f].value == FieldValues(terms)[f])
    && (forall f | f in p.fields :: f in FieldTexts(terms) && p.fields[f].raw == FieldTexts(terms)[f])
    && Values(p.bare) == BareTexts(terms) && Raws(p.bare) == BareWritten(terms)
  }

  lemma ChoicesAre(m: map<Field, string>)
    ensures ClosedOk(m) <==> forall f | f in m && f != Owner && f != Text :: m[f] in Choices(f)
  {
    ModesAre();
    SortsAre();
    if forall f | f in m && f != Owner && f != Text :: m[f] in Choices(f) {
      assert Mode in m ==> m[Mode] in Choices(Mode);
      assert Access in m ==> m[Access] in Choices(Access);
      assert State in m ==> m[State] in Choices(State);
      assert Expired in m ==> m[Expired] in Choices(Expired);
      assert Kind in m ==> m[Kind] in Choices(Kind);
      assert Sort in m ==> m[Sort] in Choices(Sort);
      assert Direction in m ==> m[Direction] in Choices(Direction);
    }
  }

  lemma ModesAre()
    ensures forall v :: v in Choices(Mode) <==> v in {"catalogue", "lexical", "semantic", "hybrid"}
    ensures forall v :: v in Choices(Access) <==> v in {"internal", "external", "public"}
    ensures forall v :: v in Choices(State) <==> v in {"ready", "uploading", "publishing"}
    ensures forall v :: v in Choices(Expired) <==> v in {"true", "false"}
    ensures forall v :: v in Choices(Kind) <==> v in {"file", "dir"}
    ensures forall v :: v in Choices(Direction) <==> v in {"asc", "desc"}
  {
  }

  lemma SortsAre()
    ensures forall v :: v in Choices(Sort) <==>
              v in {"name", "created_at", "expires_at", "total_bytes", "file_count", "visibility", "state", "kind", "created_by_user"}
  {
  }

  /** The closed fields are compiled exactly if each has a value it can have. */
  lemma ChoicesCompile(source: string, p: Parsed, terms: seq<Term>)
    requires Placed(source, p, |source|) && Holds(p, terms)
    ensures CompileChoices(source, p).Ok? <==> ClosedOk(FieldValues(terms))
    ensures CompileChoices(source, p).Ok? ==>
              var m, plan := FieldValues(terms), CompileChoices(source, p).value;
              && plan.mode == ModeOf(m) && plan.q == "" && plan.createdByUser == None
              && plan.visibility == Get(m, Access) && plan.itemState == Get(m, State) && plan.kind == Get(m, Kind)
              && plan.includeExpired == (Get(m, Expired) == Some("true"))
              && plan.sort == (if Sort in m then m[Sort] else "created_at")
              && plan.direction == (if Direction in m then m[Direction] else "desc")
  {
    hide Placed, Choices, ClosedOk;
    var m := FieldValues(terms);
    ChoicesAre(m);
    ChoiceIs(source, p, m, Mode);
    ChoiceIs(source, p, m, Access);
    ChoiceIs(source, p, m, State);
    ChoiceIs(source, p, m, Expired);
    ChoiceIs(source, p, m, Kind);
    ChoiceIs(source, p, m, Sort);
    ChoiceIs(source, p, m, Direction);
  }

  lemma ChoiceIs(source: string, p: Parsed, m: map<Field, string>, f: Field)
    requires Placed(source, p, |source|) && p.fields.Keys == m.Keys && (f in m ==> p.fields[f].value == m[f])
    ensures Choice(source, p, f).Ok? <==> (f in m ==> m[f] in Choices(f))
    ensures Choice(source, p, f).Ok? ==> Choice(source, p, f).value == Get(m, f)
  {
  }

  lemma ChoiceRefused(source: string, p: Parsed, m: map<Field, string>, f: Field)
    requires Placed(source, p, |source|) && p.fields.Keys == m.Keys && (f in m ==> p.fields[f].value == m[f])
    requires f != Owner && f != Text && AllLie(source, p)
    ensures Choice(source, p, f).Err? ==>
              && f in m && !ClosedOk(map[f := m[f]]) && Choice(source, p, f).error.message == InvalidValue(f)
              && Marks(source, Choice(source, p, f).error, p.fields[f].raw)
  {
    hide Choices, Placed, ClosedOk, Units, Marks;
    if f in m && m[f] !in Choices(f) {
      var one := map[f := m[f]];
      assert f in one && one[f] !in Choices(f);
      ChoicesAre(one);
      TokenIsMarked(source, p.fields[f], InvalidValue(f));
    }
  }

  lemma ChoicesRefused(source: string, p: Parsed, terms: seq<Term>)
    requires Placed(source, p, |source|) && Holds(p, terms) && AllLie(source, p) && CompileChoices(source, p).Err?
    ensures Blames(source, terms, CompileChoices(source, p).error)
  {
    hide Placed, Choices, Choice, ClosedOk, NoneTwice, BareTexts, BareWritten, FieldValues, FieldTexts, ModeOf, Get, Values, Raws;
    hide Marks, Repeats, Units, AllLie;
    var m := FieldValues(terms);
    ChoiceRefused(source, p, m, Mode);
    ChoiceRefused(source, p, m, Access);
    ChoiceRefused(source, p, m, State);
    ChoiceRefused(source, p, m, Expired);
    ChoiceRefused(source, p, m, Kind);
    ChoiceRefused(source, p, m, Sort);
    ChoiceRefused(source, p, m, Direction);
  }

  lemma ForbiddenIs(p: Parsed, m: map<Field, string>, mode: string)
    requires p.fields.Keys == m.Keys
    ensures FirstOf(Forbidden(mode), p).None? <==>
              if mode == "catalogue" then Kind !in m && Owner !in m
              else State !in m && Expired !in m && Sort !in m && Direction !in m
  {
  }

  lemma NonblankIs(tokens: seq<Token>)
    ensures AnyNonblank(tokens) <==> exists b | b in Values(tokens) :: !Blank(b)
  {
    if AnyNonblank(tokens) {
      var i :| 0 <= i < |tokens| && !Blank(tokens[i].value);
      assert Values(tokens)[i] in Values(tokens);
    }
  }

  lemma CompileIs(source: string, p: Parsed, terms: seq<Term>)
    requires Placed(source, p, |source|) && Holds(p, terms) && NoneTwice({}, terms)
    ensures Compile(source, p).Ok? <==> Accepted(terms)
    ensures Compile(source, p).Ok? ==> Means(terms, Compile(source, p).value)
  {
    hide Placed, CompileChoices, ClosedOk, JoinWords, Spaced, Blank, AnyNonblank, FirstOf, Forbidden;
    var m := FieldValues(terms);
    ChoicesCompile(source, p, terms);
    ForbiddenIs(p, m, ModeOf(m));
    WordsAreSpaced(p.bare);
    NonblankIs(p.bare);
    assert |p.bare| == |Values(p.bare)| == |BareTexts(terms)|;
  }

  lemma TokenIsMarked(source: string, t: Token, message: Message)
    requires Lies(source, t)
    ensures Marks(source, At(source, message, t.start, t.end), t.raw)
  {
    hide Units;
  }

  lemma TokensAreMarked(source: string, first: Token, last: Token, message: Message)
    requires Lies(source, first) && Lies(source, last) && first.start <= last.end
    ensures MarksFromTo(source, At(source, message, first.start, last.end), first.raw, last.raw)
  {
    hide Units;
    var a, b := first.start, last.end;
    assert a + |first.raw| == first.end && b - |last.raw| == last.start;
  }

  lemma WholeIsMarked(source: string, message: Message)
    ensures At(source, message, 0, |source|).start == 0 && At(source, message, 0, |source|).end == Units(source)
  {
    assert source[..0] == "" && source[..|source|] == source;
  }

  lemma WrongModeIsBlamed(source: string, p: Parsed, terms: seq<Term>, mode: string)
    requires Holds(p, terms) && AllLie(source, p) && FirstOf(Forbidden(mode), p).Some? && mode == ModeOf(FieldValues(terms))
    ensures var f := FirstOf(Forbidden(mode), p).value;
            Lies(source, p.fields[f]) && Blames(source, terms, At(source, WrongMode, p.fields[f].start, p.fields[f].end))
  {
    hide FieldValues, FieldTexts, ModeOf, Marks, Units, BareTexts, BareWritten, FirstOf;
    var f := FirstOf(Forbidden(mode), p).value;
    TokenIsMarked(source, p.fields[f], WrongMode);
  }

  lemma BothAreBlamed(source: string, p: Parsed, terms: seq<Term>)
    requires Placed(source, p, |source|) && Holds(p, terms) && AllLie(source, p) && Text in p.fields && p.bare != []
    ensures Blames(source, terms, At(source, TextAndBare, p.bare[0].start, p.bare[|p.bare| - 1].end))
  {
    hide FieldValues, FieldTexts, MarksFromTo, Units, BareTexts, BareWritten;
    var last := |p.bare| - 1;
    assert p.bare[0] in p.bare && p.bare[last] in p.bare;
    TokensAreMarked(source, p.bare[0], p.bare[last], TextAndBare);
    assert Raws(p.bare)[0] == p.bare[0].raw && Raws(p.bare)[last] == p.bare[last].raw;
  }

  lemma BlankIsBlamed(source: string, p: Parsed, terms: seq<Term>)
    requires Holds(p, terms) && ModeOf(FieldValues(terms)) != "catalogue"
    requires if Text in p.fields then Blank(p.fields[Text].value) else !AnyNonblank(p.bare)
    ensures Blames(source, terms, At(source, BlankSearch, 0, |source|))
  {
    hide FieldValues, FieldTexts, ModeOf, Units, BareTexts, BareWritten, Blank, AnyNonblank;
    WholeIsMarked(source, BlankSearch);
    NonblankIs(p.bare);
  }

  lemma CompileRefused(source: string, p: Parsed, terms: seq<Term>)
    requires Placed(source, p, |source|) && Holds(p, terms) && AllLie(source, p) && Compile(source, p).Err?
    ensures Blames(source, terms, Compile(source, p).error)
  {
    hide Placed, CompileChoices, ClosedOk, JoinWords, Spaced, Blank, AnyNonblank, FirstOf, Forbidden, NoneTwice, FieldValues, BareTexts;
    hide FieldTexts, Units, Marks, MarksFromTo, Repeats, Lies, BareWritten, ModeOf, Get;
    if CompileChoices(source, p).Err? {
      ChoicesRefused(source, p, terms);
    } else {
      ChoicesCompile(source, p, terms);
      var mode := CompileChoices(source, p).value.mode;
      if Owner in p.fields && Blank(p.fields[Owner].value) {
        TokenIsMarked(source, p.fields[Owner], BlankOwner);
      } else if FirstOf(Forbidden(mode), p).Some? {
        WrongModeIsBlamed(source, p, terms, mode);
      } else if Text in p.fields && p.bare != [] {
        BothAreBlamed(source, p, terms);
      } else {
        BlankIsBlamed(source, p, terms);
      }
    }
  }

  /** The whole of an expression of well-written terms is read. */
  lemma ExpressionRead(lead: string, terms: seq<Term>)
    requires Blank(lead) && AllWellWritten(terms)
    ensures var source := lead + Expression(terms);
            ReadAll(source, Parsed(map[], []), terms, Tokens(source, 0, Parsed(map[], [])))
    ensures AllLie(lead + Expression(terms), Parsed(map[], []))
  {
    hide Placed, Tokens, NoneTwice, ReadAll, Units, Blank, Space, Expression, AllWellWritten;
    var source, none := lead + Expression(terms), Parsed(map[], []);
    NothingPlaced(source);
    WholeSuffix(source);
    GapSkipped(source, 0, lead, Expression(terms), none);
    TermsRead(source, |lead|, terms, none);
  }

  lemma WholeSuffix(source: string)
    ensures source[0..] == source
  {
  }

  /** What the terms that are read from nothing come to. */
  lemma ReadMeans(source: string, terms: seq<Term>)
    requires ReadAll(source, Parsed(map[], []), terms, Tokens(source, 0, Parsed(map[], []))) && AllLie(source, Parsed(map[], []))
    requires Placed(source, Parsed(map[], []), 0)
    ensures var r := Tokens(source, 0, Parsed(map[], []));
            if NoneTwice({}, terms)
            then r.Ok? && Placed(source, r.value, |source|) && Holds(r.value, terms) && AllLie(source, r.value)
            else r.Err? && Repeats({}, terms, source, r.error)
  {
    hide Placed, Tokens, NoneTwice, Repeats, Units, AllLie, Holds, Took;
    var none := Parsed(map[], []);
    assert none.fields.Keys == {};
    if NoneTwice({}, terms) {
      TookHolds(terms, Tokens(source, 0, none).value);
      TokensLie(source, 0, none);
    }
  }

  /** What an expression of well-written terms means, whatever fields and bare terms it has and in whatever order. */
  lemma ExpressionMeans(lead: string, terms: seq<Term>)
    requires Blank(lead) && AllWellWritten(terms) && Units(lead + Expression(terms)) <= 4096
    ensures Parse(Points(lead + Expression(terms))).Ok? <==> Accepted(terms)
    ensures Accepted(terms) ==> Means(terms, Parse(Points(lead + Expression(terms))).value)
    ensures !NoneTwice({}, terms) ==> Repeats({}, terms, lead + Expression(terms), Parse(Points(lead + Expression(terms))).error)
    ensures !Accepted(terms) ==> Blames(lead + Expression(terms), terms, Parse(Points(lead + Expression(terms))).error)
  {
    hide Placed, Accepted, Means, Compile, Tokens, NoneTwice, Units, Repeats, AllLie, Holds, ReadAll, Blank, Expression, AllWellWritten;
    hide Marks, MarksFromTo, FieldValues, FieldTexts, BareTexts, BareWritten, ModeOf;
    var source, none := lead + Expression(terms), Parsed(map[], []);
    ScalarsOfPoints(source);
    NothingPlaced(source);
    ExpressionRead(lead, terms);
    ReadMeans(source, terms);
    var r := Tokens(source, 0, none);
    if NoneTwice({}, terms) {
      CompileIs(source, r.value, terms);
      if !Accepted(terms) { CompileRefused(source, r.value, terms); }
    } else {
      TwiceIsNotAccepted(terms);
      RepeatsIsDuplicate(terms, source, r.error);
    }
  }

  lemma RepeatsIsDuplicate(terms: seq<Term>, source: string, e: Error)
    requires Repeats({}, terms, source, e)
    ensures e.message == DuplicateField
  {
  }

  lemma NothingPlaced(source: string)
    ensures Placed(source, Parsed(map[], []), 0)
  {
  }

  lemma TookHolds(terms: seq<Term>, p: Parsed)
    requires Took(Parsed(map[], []), terms, p)
    ensures Holds(p, terms)
  {
    TextsOfValues(terms);
    assert Values([]) + BareTexts(terms) == BareTexts(terms) && Raws([]) + BareWritten(terms) == BareWritten(terms);
  }

  lemma TwiceIsNotAccepted(terms: seq<Term>)
    requires !NoneTwice({}, terms)
    ensures !Accepted(terms)
  {
  }

  // ---------------------------------------------------------------- what is refused

  /** A field that comes twice is refused. */
  lemma {:induction false} TwiceIsRefused(seen: set<Field>, terms: seq<Term>, i: nat, j: nat)
    requires i < j < |terms| && terms[i].field.Some? && terms[j].field == terms[i].field
    ensures !NoneTwice(seen, terms)
    decreases |terms|
  {
    if i > 0 {
      TwiceIsRefused(if terms[0].field.Some? then seen + {terms[0].field.value} else seen, terms[1..], i - 1, j - 1);
    } else {
      SeenIsRefused(seen + {terms[0].field.value}, terms[1..], j - 1);
    }
  }

  lemma {:induction false} SeenIsRefused(seen: set<Field>, terms: seq<Term>, j: nat)
    requires j < |terms| && terms[j].field.Some? && terms[j].field.value in seen
    ensures !NoneTwice(seen, terms)
    decreases |terms|
  {
    if j > 0 { SeenIsRefused(if terms[0].field.Some? then seen + {terms[0].field.value} else seen, terms[1..], j - 1); }
  }

  /** A repeated field, and a text field beside a bare term, are refused wherever they stand. */
  lemma ClashesAreRefused(lead: string, terms: seq<Term>, i: nat, j: nat)
    requires Blank(lead) && AllWellWritten(terms) && Units(lead + Expression(terms)) <= 4096
    requires i < |terms| && j < |terms| && terms[i].field.Some?
    requires (i < j && terms[j].field == terms[i].field) || (terms[i].field == Some(Text) && terms[j].field.None?)
    ensures Parse(Points(lead + Expression(terms))).Err?
    ensures terms[j].field.Some? ==> Parse(Points(lead + Expression(terms))).error.message == DuplicateField
  {
    hide AllWellWritten, Parse;
    ExpressionMeans(lead, terms);
    if i < j && terms[j].field == terms[i].field {
      TwiceIsRefused({}, terms, i, j);
    } else {
      FieldIsThere(terms, i);
      BareIsThere(terms, j);
    }
  }

  lemma {:induction false} FieldIsThere(terms: seq<Term>, i: nat)
    requires i < |terms| && terms[i].field.Some?
    ensures terms[i].field.value in FieldValues(terms)
    decreases i
  {
    if i > 0 { FieldIsThere(terms[1..], i - 1); }
  }

  lemma {:induction false} BareIsThere(terms: seq<Term>, j: nat)
    requires j < |terms| && terms[j].field.None?
    ensures terms[j].v in BareTexts(terms)
    decreases j
  {
    if j > 0 { BareIsThere(terms[1..], j - 1); }
  }

  // ---------------------------------------------------------------- what cannot be read

  lemma FirstOnce(p: Parsed, terms: seq<Term>, token: Token)
    requires terms != []
    ensures terms[0].field.Some? && terms[0].field.value in p.fields ==> !NoneTwice(p.fields.Keys, terms)
    ensures NoneTwice(p.fields.Keys, terms) <==>
              (terms[0].field.Some? ==> terms[0].field.value !in p.fields) && NoneTwice(With(p, terms[0], token).fields.Keys, terms[1..])
    ensures With(p, terms[0], token).fields.Keys + FieldValues(terms[1..]).Keys == p.fields.Keys + FieldValues(terms).Keys
  {
    if terms[0].field.Some? { assert With(p, terms[0], token).fields.Keys == p.fields.Keys + {terms[0].field.value}; }
  }

  lemma FirstOfTerms(terms: seq<Term>, last: string)
    requires terms != [] && AllWellWritten(terms) && terms[|terms| - 1].gap != ""
    ensures Expression(terms) + last == TermText(terms[0]) + (terms[0].gap + (Expression(terms[1..]) + last))
    ensures |Expression(terms)| == |TermText(terms[0])| + |terms[0].gap| + |Expression(terms[1..])|
    ensures WellWritten(terms[0]) && Blank(terms[0].gap) && AtBreak(terms[0].gap + (Expression(terms[1..]) + last))
    ensures AllWellWritten(terms[1..])
  {
    hide WellWritten, TermText;
    BlankGap(terms[0]);
  }

  /** The parser has read terms and stands before what comes last. */
  ghost predicate Reached(source: string, r: Result<Parsed>, at: nat, last: string, q: Parsed, seen: set<Field>) {
    at <= |source| && source[at..] == last && Placed(source, q, at) && r == Tokens(source, at, q) && q.fields.Keys == seen
  }

  /** Terms are read before whatever comes last, unless a field comes twice. */
  lemma {:induction false} ReadUpTo(source: string, start: nat, terms: seq<Term>, last: string, p: Parsed) returns (q: Parsed)
    requires AllWellWritten(terms) && (terms != [] ==> terms[|terms| - 1].gap != "")
    requires start <= |source| && source[start..] == Expression(terms) + last && Placed(source, p, start)
    ensures if NoneTwice(p.fields.Keys, terms)
            then Reached(source, Tokens(source, start, p), start + |Expression(terms)|, last, q, p.fields.Keys + FieldValues(terms).Keys)
            else Tokens(source, start, p).Err?
    decreases |terms|
  {
    hide Placed, Step, TermText, WellWritten, Tokens, ValueText, Units, With, NoneTwice, AllWellWritten, FieldValues;
    q := p;
    if terms == [] {
      NothingRead(source, start, last, p);
    } else {
      var t, others := terms[0], Expression(terms[1..]) + last;
      FirstOfTerms(terms, last);
      Dropped(source, start, TermText(t), t.gap + others);
      TermRead(source[..start], t, t.gap + others, p);
      var r := Step(source, start, p);
      if r.Err? {
        StepRefused(source, start, p);
        FirstOnce(p, terms, Token("", "", 0, 0));
      } else {
        var token: Token :| token.value == t.v && token.raw == ValueText(t) && r == Ok((With(p, t, token), start + |TermText(t)|));
        StepThenGap(source, start, p, With(p, t, token), start + |TermText(t)|, t.gap, others);
        q := ReadUpTo(source, start + |TermText(t)| + |t.gap|, terms[1..], last, With(p, t, token));
        FirstOnce(p, terms, token);
      }
    }
  }

  lemma NothingRead(source: string, start: nat, last: string, p: Parsed)
    requires start <= |source| && source[start..] == Expression([]) + last && Placed(source, p, start)
    ensures NoneTwice(p.fields.Keys, []) && |Expression([])| == 0
    ensures Reached(source, Tokens(source, start, p), start, last, p, p.fields.Keys + FieldValues([]).Keys)
  {
    assert Expression([]) + last == last && p.fields.Keys + FieldValues([]).Keys == p.fields.Keys;
  }

  /** A whole expression of terms and something last. */
  function Before(lead: string, terms: seq<Term>): string { lead + Expression(terms) }

  /** The parser comes to what is last in it. */
  lemma ComesTo(lead: string, terms: seq<Term>, last: string) returns (q: Parsed)
    requires Blank(lead) && AllWellWritten(terms) && (terms != [] ==> terms[|terms| - 1].gap != "")
    ensures var source := Before(lead, terms) + last;
            if NoneTwice({}, terms)
            then Reached(source, Tokens(source, 0, Parsed(map[], [])), |Before(lead, terms)|, last, q, FieldValues(terms).Keys)
            else Tokens(source, 0, Parsed(map[], [])).Err?
  {
    hide Placed, Tokens, AllWellWritten, NoneTwice, FieldValues;
    var source, none := Before(lead, terms) + last, Parsed(map[], []);
    NothingPlaced(source);
    assert source[0..] == source && source == lead + (Expression(terms) + last);
    GapSkipped(source, 0, lead, Expression(terms) + last, none);
    q := ReadUpTo(source, |lead|, terms, last, none);
    assert none.fields.Keys == {} && {} + FieldValues(terms).Keys == FieldValues(terms).Keys;
  }

  lemma ParseRefused(source: string, e: Error)
    requires Tokens(source, 0, Parsed(map[], [])) == Err(e) && Units(source) <= 4096
    ensures Parse(Points(source)) == Err(e)
  {
    hide Tokens, Units;
    ScalarsOfPoints(source);
  }

  /** An error that one step from there on gives is the error of the whole. */
  lemma StepDecides(source: string, at: nat, last: string, q: Parsed, seen: set<Field>)
    requires Reached(source, Tokens(source, 0, Parsed(map[], [])), at, last, q, seen)
    requires last != "" && !Space(last[0]) && Units(source) <= 4096
    ensures at < |source| && !Space(source[at]) && Placed(source, q, at)
    ensures Step(source, at, q).Err? ==> Parse(Points(source)) == Err(Step(source, at, q).error)
  {
    hide Placed, Step, Parse, Units, Space;
    assert source[at] == source[at..][0];
    if Step(source, at, q).Err? {
      StepRefused(source, at, q);
      ParseRefused(source, Step(source, at, q).error);
    }
  }

  lemma TwiceDecides(lead: string, terms: seq<Term>, last: string)
    requires Tokens(Before(lead, terms) + last, 0, Parsed(map[], [])).Err?
    ensures Parse(Points(Before(lead, terms) + last)).Err?
  {
    ScalarsOfPoints(Before(lead, terms) + last);
  }

  /** A word that is not the name of a field, and a colon. */
  predicate Unknown(word: string) { (forall i | 0 <= i < |word| :: !Stop(word[i])) && forall f: Field :: Lower(word) != Name(f) }

  /** A field that there is not is refused, wherever it stands and whatever follows, and marked as far as the text goes on. */
  lemma UnknownIsRefused(lead: string, terms: seq<Term>, word: string, tail: string, rest: string)
    requires Blank(lead) && AllWellWritten(terms) && (terms != [] ==> terms[|terms| - 1].gap != "") && Unknown(word)
    requires (forall i | 0 <= i < |tail| :: !Space(tail[i])) && AtBreak(rest)
    ensures var before, last := Before(lead, terms), word + ([':'] + (tail + rest));
            var r := Parse(Points(before + last));
            && r.Err?
            && (NoneTwice({}, terms) && Units(before + last) <= 4096 ==>
                  r.error == Error(UnknownField, Units(before), Units(before + (word + ([':'] + tail)))))
  {
    hide Placed, Tokens, AllWellWritten, Unknown, Compile, NoneTwice, Before, Step, Parse, Units, FieldValues;
    var last := word + ([':'] + (tail + rest));
    var q := ComesTo(lead, terms, last);
    if NoneTwice({}, terms) {
      UnknownStep(Before(lead, terms), word, tail, rest, q);
      if Units(Before(lead, terms) + last) <= 4096 {
        StepDecides(Before(lead, terms) + last, |Before(lead, terms)|, last, q, FieldValues(terms).Keys);
      } else { LongIsRefused(Before(lead, terms) + last); }
    } else {
      TwiceDecides(lead, terms, last);
    }
  }

  /** What is longer is refused as such. */
  lemma LongIsRefused(source: string)
    requires Units(source) > 4096
    ensures Parse(Points(source)) == Err(Error(TooLong, 0, Units(source)))
  {
    ScalarsOfPoints(source);
  }

  lemma {:induction false} SpaceEndIs(source: string, i: nat, n: nat)
    requires i <= n <= |source| && (forall k | i <= k < n :: !Space(source[k])) && (n < |source| ==> Space(source[n]))
    ensures SpaceEnd(source, i) == n
    decreases n - i
  {
    if i < n { SpaceEndIs(source, i + 1, n); }
  }

  /** Where a text without white space ends. */
  lemma TailEnds(before: string, tail: string, rest: string)
    requires (forall i | 0 <= i < |tail| :: !Space(tail[i])) && AtBreak(rest)
    ensures SpaceEnd(before + (tail + rest), |before|) == |before| + |tail|
    ensures (before + (tail + rest))[..|before| + |tail|] == before + tail
  {
    hide Space;
    var source := before + (tail + rest);
    Inside(before, tail, rest);
    forall k | |before| <= k < |before| + |tail| ensures !Space(source[k]) { assert source[k] == tail[k - |before|]; }
    assert |before| + |tail| < |source| ==> source[|before| + |tail|] == rest[0];
    SpaceEndIs(source, |before|, |before| + |tail|);
  }

  /** Where a word ends that a colon follows. */
  lemma WordBeforeColon(before: string, word: string, after: string)
    requires forall i | 0 <= i < |word| :: !Stop(word[i])
    ensures var source, colon := before + (word + ([':'] + after)), |before| + |word|;
            && colon < |source| && source[colon] == ':' && source[|before|..colon] == word && source[..|before|] == before
            && WordEnd(source, |before|) == colon
            && (source[|before|] == '"' ==> word == "") && !Space(source[|before|])
  {
    hide Stop, Space;
    var source, colon := before + (word + ([':'] + after)), |before| + |word|;
    Inside(before, word, [':'] + after);
    Beyond(before, word + ([':'] + after), |word|);
    ColonStops();
    forall k | |before| <= k < colon ensures !Stop(source[k]) { assert source[k] == word[k - |before|]; }
    WordEndIs(source, |before|, colon);
    Beyond(before, word + ([':'] + after), 0);
    StopsAndSpaces(source[|before|]);
  }

  lemma StopsAndSpaces(c: char)
    ensures !Stop(c) ==> c != '"' && !Space(c)
    ensures c == ':' ==> !Space(c)
  {
  }

  lemma UnknownAt(source: string, start: nat, colon: nat, end: nat, p: Parsed)
    requires start <= colon < end <= |source| && source[colon] == ':' && !Space(source[start]) && Placed(source, p, start)
    requires (source[start] == '"' ==> start == colon) && WordEnd(source, start) == colon && SpaceEnd(source, colon + 1) == end
    requires FieldNamed(Lower(source[start..colon])).None?
    ensures Step(source, start, p) == Err(Error(UnknownField, Units(source[..start]), Units(source[..end])))
  {
    hide Placed, ReadValue, Lower, FieldNamed, Units, Space, WordEnd, SpaceEnd;
  }

  lemma Grouped(before: string, word: string, tail: string, rest: string)
    ensures before + (word + ([':'] + (tail + rest))) == (before + (word + [':'])) + (tail + rest)
    ensures (before + (word + [':'])) + tail == before + (word + ([':'] + tail))
    ensures |before + (word + [':'])| == |before| + |word| + 1
    ensures |before + (word + ([':'] + (tail + rest)))| == |before| + |word| + 1 + |tail| + |rest|
  {
    assert word + ([':'] + (tail + rest)) == (word + [':']) + (tail + rest);
    assert word + ([':'] + tail) == (word + [':']) + tail;
  }

  lemma ColonLast(word: string, after: string)
    requires forall i | 0 <= i < |word| :: !Stop(word[i])
    ensures word + ([':'] + after) != "" && !Space((word + ([':'] + after))[0])
  {
    hide Stop, Space;
    StopsAndSpaces(if word == "" then ':' else word[0]);
  }

  /** A word, a colon and a text without white space, and where they end. */
  lemma UnknownPlace(before: string, word: string, tail: string, rest: string)
    requires (forall i | 0 <= i < |word| :: !Stop(word[i])) && (forall i | 0 <= i < |tail| :: !Space(tail[i])) && AtBreak(rest)
    ensures var source, start, colon := before + (word + ([':'] + (tail + rest))), |before|, |before| + |word|;
            var end := colon + 1 + |tail|;
            && end <= |source| && source[colon] == ':' && !Space(source[start]) && (source[start] == '"' ==> start == colon)
            && WordEnd(source, start) == colon && SpaceEnd(source, colon + 1) == end && source[start..colon] == word
            && source[..start] == before && source[..end] == before + (word + ([':'] + tail))
  {
    hide Space, Stop, WordEnd, SpaceEnd;
    WordBeforeColon(before, word, tail + rest);
    Grouped(before, word, tail, rest);
    TailEnds(before + (word + [':']), tail, rest);
  }

  lemma UnknownStep(before: string, word: string, tail: string, rest: string, p: Parsed)
    requires Unknown(word) && (forall i | 0 <= i < |tail| :: !Space(tail[i])) && AtBreak(rest)
    requires Placed(before + (word + ([':'] + (tail + rest))), p, |before|)
    ensures word + ([':'] + (tail + rest)) != "" && !Space((word + ([':'] + (tail + rest)))[0])
    ensures Step(before + (word + ([':'] + (tail + rest))), |before|, p)
         == Err(Error(UnknownField, Units(before), Units(before + (word + ([':'] + tail)))))
  {
    hide Placed, Step, Lower, Name, FieldNamed, Units, Space, Stop, WordEnd, SpaceEnd, AtBreak;
    ColonLast(word, tail + rest);
    UnknownPlace(before, word, tail, rest);
    if FieldNamed(Lower(word)).Some? { FieldIsNamed(Lower(word)); }
    UnknownAt(before + (word + ([':'] + (tail + rest))), |before|, |before| + |word|, |before| + |word| + 1 + |tail|, p);
  }

  lemma FieldIsNamed(s: string)
    requires FieldNamed(s).Some?
    ensures Name(FieldNamed(s).value) == s
  {
  }

  // ---------------------------------------------------------------- values that cannot be read

  /** What stands before a value: the name of its field and a colon, or nothing. */
  function Label(t: Term): string { if t.field.Some? then t.name + [':'] else "" }

  lemma AtSource(source: string, message: Message, start: nat, end: nat)
    requires start <= end <= |source|
    ensures At(source, message, start, end) == Error(message, Units(source[..start]), Units(source[..end]))
  {
  }

  lemma NothingIsRead(before: string, rest: string)
    requires AtBreak(rest)
    ensures ReadValue(before + rest, |before|) == Err(Error(ExpectedValue, Units(before), Units(before)))
  {
    hide Units, Space;
    var source := before + rest;
    assert source[..|before|] == before;
    assert rest != "" ==> source[|before|] == rest[0];
  }

  /** What stops a value: after a string anything that is not white space, after a word a quote or a colon. */
  predicate Runs(t: Term, c: char) { !Space(c) && (t.form.AsWord? ==> c == '"' || c == ':') }

  lemma ScannedRunsOn(source: string, start: nat, v: string, taken: nat)
    requires start + 1 + taken < |source| && source[start] == '"' && !Space(source[start + 1 + taken])
    requires Scan(source[start + 1..]) == Some(Scanned(Points(v), taken))
    ensures ReadValue(source, start)
         == Err(Error(SeparateTokens, Units(source[..start]), Units(source[..start + 1 + taken + 1])))
  {
    hide Units, Scan, Points, Scalars;
    QuoteIsPlain();
    hide Space;
    ScalarsOfPoints(v);
  }

  lemma QuoteIsPlain()
    ensures !Space('"')
  {
  }

  lemma PartsOf(before: string, text: string, c: char, rest: string)
    requires text != ""
    ensures var source := before + (text + ([c] + rest));
            && |before| + |text| < |source| && source[|before|] == text[0] && source[|before| + |text|] == c
            && source[|before| + 1..] == text[1..] + ([c] + rest)
            && source[..|before|] == before && source[..|before| + |text| + 1] == before + (text + [c])
  {
  }

  lemma QuotedParts(spelling: seq<string>, rest: string)
    ensures Quoted(spelling) != "" && Quoted(spelling)[0] == '"' && |Quoted(spelling)| == |Concat(spelling)| + 2
    ensures Quoted(spelling)[1..] + rest == Concat(spelling) + (['"'] + rest)
  {
    hide Concat;
  }

  lemma StringRunsOn(before: string, spelling: seq<string>, v: string, c: char, rest: string)
    requires Spelled(spelling, v) && !Space(c)
    ensures var text := Quoted(spelling);
            ReadValue(before + (text + ([c] + rest)), |before|)
            == Err(Error(SeparateTokens, Units(before), Units(before + (text + [c]))))
  {
    hide Units, Spelled, Scan, Space, ReadValue, Concat, Quoted, Points;
    var text := Quoted(spelling);
    var source := before + (text + ([c] + rest));
    QuotedParts(spelling, [c] + rest);
    PartsOf(before, text, c, rest);
    ScanSpelled(spelling, v, [c] + rest);
    assert Scan(source[|before| + 1..]) == Some(Scanned(Points(v), |Concat(spelling)| + 1));
    ScannedRunsOn(source, |before|, v, |Concat(spelling)| + 1);
  }

  lemma WordRunsOn(before: string, v: string, c: char, rest: string)
    requires Word(v) && (c == '"' || c == ':')
    ensures var source := before + (v + ([c] + rest));
            && WordEnd(source, |before|) == |before| + |v| && |before| + |v| < |source| && source[|before| + |v|] == c
            && !Stop(source[|before|])
            && ReadValue(source, |before|) == Err(Error(SeparateTokens, Units(before), Units(before + (v + [c]))))
  {
    hide Units;
    var source, start, end := before + (v + ([c] + rest)), |before|, |before| + |v|;
    Inside(before, v, [c] + rest);
    Beyond(before, v + ([c] + rest), |v|);
    forall j | start <= j < end ensures !Stop(source[j]) { assert source[j] == v[j - start]; }
    WordEndIs(source, start, end);
    assert source[..start] == before && source[..end + 1] == before + (v + [c]);
  }

  lemma {:induction false} WithoutQuote(s: string)
    requires '"' !in s
    ensures Scan(s).None?
    decreases |s|
  {
    if s != "" && OnePiece(s).Some? { WithoutQuote(s[OnePiece(s).value.taken..]); }
  }

  lemma StringRunsOut(before: string, body: string)
    requires '"' !in body
    ensures ReadValue(before + (['"'] + body), |before|)
         == Err(Error(IncompleteString, Units(before), Units(before + (['"'] + body))))
  {
    hide Units, Scan;
    var source := before + (['"'] + body);
    WithoutQuote(body);
    assert source[|before| + 1..] == body && source[|before|] == '"' && source[..|before|] == before && source[..|source|] == source;
  }

  /** The error of a value is that of its step: behind the name of a field that is not there yet, or where no colon makes
      a name of what stands there. */
  lemma StepFailsAtField(before: string, t: Term, bad: string, p: Parsed, e: Error)
    requires t.field.Some? && AnyCase(t.name, Name(t.field.value)) && t.field.value !in p.fields
    requires Placed(before + (Label(t) + bad), p, |before|)
    requires ReadValue((before + Label(t)) + bad, |before + Label(t)|) == Err(e)
    ensures Label(t) + bad != "" && !Space((Label(t) + bad)[0])
    ensures Step(before + (Label(t) + bad), |before|, p) == Err(e)
  {
    hide Placed, ReadValue, WordEnd, Lower, FieldNamed, Name, Space, AnyCase;
    var f := t.field.value;
    NameIsPlain(f);
    assert before + (Label(t) + bad) == (before + Label(t)) + bad && Label(t) + bad == t.name + ([':'] + bad);
    WordFound(before, t.name, Name(f), bad);
    Beyond(before, Label(t) + bad, 0);
  }

  lemma StepFailsAtBare(before: string, bad: string, p: Parsed, e: Error)
    requires bad != "" && !Space(bad[0]) && Placed(before + bad, p, |before|) && ReadValue(before + bad, |before|) == Err(e)
    requires bad[0] == '"' || (WordEnd(before + bad, |before|) < |before + bad| && (before + bad)[WordEnd(before + bad, |before|)] == '"')
    ensures Step(before + bad, |before|, p) == Err(e)
  {
    hide Placed, ReadValue, WordEnd, Lower, FieldNamed, Space;
    Beyond(before, bad, 0);
  }

  /** Terms, and then a step that fails: the error of the step is that of the whole. */
  lemma FailsAfter(lead: string, terms: seq<Term>, last: string, e: Error)
    requires Blank(lead) && AllWellWritten(terms) && (terms != [] ==> terms[|terms| - 1].gap != "") && NoneTwice({}, terms)
    requires last != "" && !Space(last[0]) && Units(Before(lead, terms) + last) <= 4096
    requires forall q: Parsed | Placed(Before(lead, terms) + last, q, |Before(lead, terms)|) && q.fields.Keys == FieldValues(terms).Keys ::
               Step(Before(lead, terms) + last, |Before(lead, terms)|, q) == Err(e)
    ensures Parse(Points(Before(lead, terms) + last)) == Err(e)
  {
    hide Placed, Tokens, AllWellWritten, NoneTwice, Before, Step, Parse, Units, FieldValues, Space;
    var q := ComesTo(lead, terms, last);
    StepDecides(Before(lead, terms) + last, |Before(lead, terms)|, last, q, FieldValues(terms).Keys);
  }

  /** A field without a value is refused, and marked where the value should be. */
  lemma MissingIsRefused(lead: string, terms: seq<Term>, t: Term, rest: string)
    requires Blank(lead) && AllWellWritten(terms) && (terms != [] ==> terms[|terms| - 1].gap != "") && NoneTwice({}, terms)
    requires t.field.Some? && AnyCase(t.name, Name(t.field.value)) && t.field.value !in FieldValues(terms) && AtBreak(rest)
    requires Units(Before(lead, terms) + (Label(t) + rest)) <= 4096
    ensures var place := Units(Before(lead, terms) + Label(t));
            Parse(Points(Before(lead, terms) + (Label(t) + rest))) == Err(Error(ExpectedValue, place, place))
  {
    hide Placed, AllWellWritten, NoneTwice, Before, Step, Parse, Units, FieldValues, Space, ReadValue, AnyCase, Name, Label;
    var before := Before(lead, terms);
    var e := Error(ExpectedValue, Units(before + Label(t)), Units(before + Label(t)));
    NothingIsRead(before + Label(t), rest);
    NameStarts(t, rest);
    forall q: Parsed | Placed(before + (Label(t) + rest), q, |before|) && q.fields.Keys == FieldValues(terms).Keys
      ensures Step(before + (Label(t) + rest), |before|, q) == Err(e)
    {
      StepFailsAtField(before, t, rest, q, e);
    }
    FailsAfter(lead, terms, Label(t) + rest, e);
  }

  lemma NameStarts(t: Term, rest: string)
    requires t.field.Some? && AnyCase(t.name, Name(t.field.value))
    ensures Label(t) + rest != "" && !Space((Label(t) + rest)[0])
  {
    NameIsPlain(t.field.value);
    LowerOfLetter(t.name[0], Name(t.field.value)[0]);
    assert (Label(t) + rest)[0] == t.name[0];
  }

  /** A value that something runs on from is refused, and marked with what does. */
  lemma ValueRunsOn(before: string, t: Term, c: char, rest: string)
    requires WellWritten(t) && Runs(t, c)
    ensures ReadValue(before + (ValueText(t) + ([c] + rest)), |before|)
         == Err(Error(SeparateTokens, Units(before), Units(before + (ValueText(t) + [c]))))
  {
    hide ReadValue, Units, Word, Spelled, Space;
    match t.form
    case AsWord => WordRunsOn(before, t.v, c, rest);
    case AsString(spelling) => StringRunsOn(before, spelling, t.v, c, rest);
  }

  lemma RunningBareFails(before: string, t: Term, c: char, rest: string, p: Parsed)
    requires t.field.None? && WellWritten(t) && Runs(t, c) && (t.form.AsWord? ==> c == '"')
    requires Placed(before + (ValueText(t) + ([c] + rest)), p, |before|)
    ensures var bad := ValueText(t) + ([c] + rest);
            bad != "" && !Space(bad[0])
            && Step(before + bad, |before|, p) == Err(Error(SeparateTokens, Units(before), Units(before + (ValueText(t) + [c]))))
  {
    hide Placed, Step, ReadValue, Units, Spelled, Space, WordEnd;
    var bad := ValueText(t) + ([c] + rest);
    var e := Error(SeparateTokens, Units(before), Units(before + (ValueText(t) + [c])));
    ValueRunsOn(before, t, c, rest);
    QuoteIsPlain();
    if t.form.AsWord? {
      WordRunsOn(before, t.v, c, rest);
      PlainStart(t.v);
    }
    StepFailsAtBare(before, bad, p, e);
  }

  lemma PlainStart(v: string)
    requires Word(v)
    ensures !Space(v[0])
  {
  }

  /** A term that is not separated from what follows is refused, and marked from its value to what follows. */
  lemma UnseparatedIsRefused(lead: string, terms: seq<Term>, t: Term, c: char, rest: string)
    requires Blank(lead) && AllWellWritten(terms) && (terms != [] ==> terms[|terms| - 1].gap != "") && NoneTwice({}, terms)
    requires WellWritten(t) && Runs(t, c) && (if t.field.Some? then t.field.value !in FieldValues(terms) else t.form.AsWord? ==> c == '"')
    requires Units(Before(lead, terms) + (Label(t) + (ValueText(t) + ([c] + rest)))) <= 4096
    ensures var value := Before(lead, terms) + Label(t);
            Parse(Points(Before(lead, terms) + (Label(t) + (ValueText(t) + ([c] + rest)))))
            == Err(Error(SeparateTokens, Units(value), Units(value + (ValueText(t) + [c]))))
  {
    hide Placed, AllWellWritten, NoneTwice, Before, Step, Parse, Units, FieldValues, Space, ReadValue, AnyCase, Name, Label, ValueText, Runs;
    var before, bad := Before(lead, terms), ValueText(t) + ([c] + rest);
    var e := Error(SeparateTokens, Units(before + Label(t)), Units((before + Label(t)) + (ValueText(t) + [c])));
    if t.field.Some? { NameStarts(t, bad); } else { NoLabel(before, t, bad); }
    ValueRunsOn(before + Label(t), t, c, rest);
    forall q: Parsed | Placed(before + (Label(t) + bad), q, |before|) && q.fields.Keys == FieldValues(terms).Keys
      ensures Label(t) + bad != "" && !Space((Label(t) + bad)[0]) && Step(before + (Label(t) + bad), |before|, q) == Err(e)
    {
      if t.field.Some? { StepFailsAtField(before, t, bad, q, e); } else { RunningBareFails(before, t, c, rest, q); }
    }
    if t.field.None? { ValueStarts(t, c, rest); }
    FailsAfter(lead, terms, Label(t) + bad, e);
  }

  lemma NoLabel(before: string, t: Term, bad: string)
    requires t.field.None?
    ensures Label(t) + bad == bad && before + Label(t) == before
  {
  }

  lemma ValueStarts(t: Term, c: char, rest: string)
    requires WellWritten(t) && Runs(t, c)
    ensures ValueText(t) + ([c] + rest) != "" && !Space((ValueText(t) + ([c] + rest))[0])
  {
    QuoteIsPlain();
    if t.form.AsWord? { PlainStart(t.v); }
  }

  /** A string without an end is refused, and marked as far as the text goes. */
  lemma UnclosedIsRefused(lead: string, terms: seq<Term>, t: Term, body: string)
    requires Blank(lead) && AllWellWritten(terms) && (terms != [] ==> terms[|terms| - 1].gap != "") && NoneTwice({}, terms)
    requires t.field.Some? ==> AnyCase(t.name, Name(t.field.value)) && t.field.value !in FieldValues(terms)
    requires '"' !in body && Units(Before(lead, terms) + (Label(t) + (['"'] + body))) <= 4096
    ensures var source := Before(lead, terms) + (Label(t) + (['"'] + body));
            Parse(Points(source)) == Err(Error(IncompleteString, Units(Before(lead, terms) + Label(t)), Units(source)))
  {
    hide Placed, AllWellWritten, NoneTwice, Before, Step, Parse, Units, FieldValues, Space, ReadValue, AnyCase, Name, Label;
    var before, bad := Before(lead, terms), ['"'] + body;
    StringRunsOut(before + Label(t), body);
    QuoteIsPlain();
    assert (before + Label(t)) + bad == before + (Label(t) + bad);
    var e := Error(IncompleteString, Units(before + Label(t)), Units(before + (Label(t) + bad)));
    if t.field.Some? { NameStarts(t, bad); } else { NoLabel(before, t, bad); }
    forall q: Parsed | Placed(before + (Label(t) + bad), q, |before|) && q.fields.Keys == FieldValues(terms).Keys
      ensures Step(before + (Label(t) + bad), |before|, q) == Err(e)
    {
      if t.field.Some? { StepFailsAtField(before, t, bad, q, e); } else { StepFailsAtBare(before, bad, q, e); }
    }
    FailsAfter(lead, terms, Label(t) + bad, e);
  }

  // ---------------------------------------------------------------- what is accepted

  lemma HexIsDigit(d: char)
    requires Hex(d).Some?
    ensures Hex(d).value < 16 && IsHexDigit(d, Hex(d).value)
  {
  }

  lemma NumberHasDigits(a: nat, b: nat, c: nat, d: nat)
    requires a < 16 && b < 16 && c < 16 && d < 16
    ensures var n := ((a * 16 + b) * 16 + c) * 16 + d;
            n < 0x10000 && n / 4096 == a && n / 256 % 16 == b && n / 16 % 16 == c && n % 16 == d
  {
  }

  lemma Hex4IsDigits(s: string)
    requires Hex4(s).Some?
    ensures IsHex4(s[..4], Hex4(s).value)
  {
    hide Hex, IsHexDigit;
    HexIsDigit(s[0]);
    HexIsDigit(s[1]);
    HexIsDigit(s[2]);
    HexIsDigit(s[3]);
    NumberHasDigits(Hex(s[0]).value, Hex(s[1]).value, Hex(s[2]).value, Hex(s[3]).value);
  }

  /** The first six characters are an escape by code. */
  predicate IsCode(s: string, x: nat) { |s| >= 6 && s[0] == '\\' && s[1] == 'u' && Hex4(s[2..]) == Some(x) }

  lemma SurrogatesAreJoined(s: string, x: nat, y: nat)
    requires IsCode(s, x) && High(x) && |s| >= 12 && IsCode(s[6..], y) && Low(y)
    ensures OnePiece(s) == Some(Piece(Joined(x, y), 12))
  {
    hide Hex4;
    assert s[6..][2..] == s[8..] && s[6..][0] == s[6] && s[6..][1] == s[7];
  }

  lemma HalvesOf(x: nat, y: nat)
    requires High(x) && Low(y)
    ensures var c := Joined(x, y);
            0x10000 <= c < 0x110000 && 0xD800 + (c - 0x10000) / 0x400 == x && 0xDC00 + (c - 0x10000) % 0x400 == y
  {
  }

  /** What is read of a string is a spelling of it, or half of a pair. */
  lemma PieceSpells(s: string)
    requires s != [] && s[0] != '"' && OnePiece(s).Some?
    ensures var piece := OnePiece(s).value;
            if IsScalar(piece.point) then Spells(s[..piece.taken], piece.point as char)
            else piece.taken == 6 && IsCode(s, piece.point)
  {
    hide Hex4, IsHex4;
    var piece := OnePiece(s).value;
    var e := s[..piece.taken];
    if piece.taken == 6 {
      Hex4IsDigits(s[2..]);
      assert s[2..][..4] == e[2..];
    } else if piece.taken == 12 {
      Hex4IsDigits(s[2..]);
      Hex4IsDigits(s[8..]);
      assert s[2..][..4] == e[2..6] && s[8..][..4] == e[8..];
      HalvesOf(Hex4(s[2..]).value, Hex4(s[8..]).value);
    }
  }

  /** Halves of a pair that stand beside one another have been joined. */
  lemma PointIsScalar(s: string)
    requires s != [] && s[0] != '"' && Scan(s).Some? && Scalars(Scan(s).value.points).Some?
    ensures OnePiece(s).Some? && IsScalar(OnePiece(s).value.point)
  {
    hide Hex4;
    PieceSpells(s);
    var piece, points := OnePiece(s).value, Scan(s).value.points;
    if !IsScalar(piece.point) {
      var after := s[6..];
      assert |points| >= 2 && High(points[0]) && Low(points[1]);
      assert Scan(after).Some? && Scan(after).value.points[0] == points[1];
      PieceSpells(after);
      SurrogatesAreJoined(s, points[0], points[1]);
    }
  }

  lemma {:induction false} ScannedIsSpelled(s: string) returns (spelling: seq<string>)
    requires Scan(s).Some? && Scalars(Scan(s).value.points).Some?
    ensures Spelled(spelling, Scalars(Scan(s).value.points).value) && s[..Scan(s).value.taken] == Concat(spelling) + ['"']
  {
    hide OnePiece, Spells;
    if s[0] == '"' {
      spelling := [];
    } else {
      PointIsScalar(s);
      PieceSpells(s);
      var piece := OnePiece(s).value;
      var after := s[piece.taken..];
      assert Scan(s).value.points[1..] == Scan(after).value.points;
      var others := ScannedIsSpelled(after);
      spelling := [s[..piece.taken]] + others;
      assert spelling[1..] == others;
      assert s[..Scan(s).value.taken] == s[..piece.taken] + after[..Scan(after).value.taken];
    }
  }

  /** What is read as a value is a word or a JSON string. */
  lemma ValueIsWritten(source: string, start: nat) returns (form: Form)
    requires start <= |source| && ReadValue(source, start).Ok?
    ensures var token := ReadValue(source, start).value;
            && var t := Term(None, "", token.value, form, "");
            && WellWritten(t) && ValueText(t) == token.raw && token.raw != "" && AtBreak(source[token.end..])
  {
    hide Scan, Scalars, Spelled;
    var end := ReadValue(source, start).value.end;
    assert end < |source| ==> source[end..][0] == source[end];
    if source[start] == '"' {
      var after := source[start + 1..];
      var spelling := ScannedIsSpelled(after);
      assert source[start..end] == ['"'] + after[..Scan(after).value.taken];
      form := AsString(spelling);
    } else {
      form := AsWord;
    }
  }

  lemma {:induction false} NameInAnyCase(word: string, name: string)
    requires Lower(word) == name && forall i | 0 <= i < |name| :: 'a' <= name[i] <= 'z'
    ensures AnyCase(word, name)
  {
    if word != "" {
      assert name[1..] == Lower(word[1..]);
      NameInAnyCase(word[1..], name[1..]);
      assert name[0] == LowerChar(word[0]);
      LetterOfLower(word[0]);
      forall i | 0 <= i < |word| ensures SameLetter(word[i], name[i]) {
        if i > 0 { assert SameLetter(word[1..][i - 1], name[1..][i - 1]); }
      }
    }
  }

  lemma LetterOfLower(c: char)
    requires 'a' <= LowerChar(c) <= 'z'
    ensures SameLetter(c, LowerChar(c))
  {
  }

  predicate StartsPlain(s: string) { s != "" && !Space(s[0]) }

  lemma CutAtColon(source: string, start: nat, colon: nat, end: nat)
    requires start <= colon < end <= |source| && source[colon] == ':'
    ensures source[start..end] == source[start..colon] + ([':'] + source[colon + 1..end])
    ensures (source[start..colon] + ([':'] + source[colon + 1..end]))[0] == source[start]
  {
  }

  lemma FieldStepIsTerm(source: string, start: nat, colon: nat, p: Parsed) returns (t: Term)
    requires start < |source| && !Space(source[start]) && Placed(source, p, start) && Step(source, start, p).Ok?
    requires colon == (if source[start] == '"' then start else WordEnd(source, start)) < |source| && source[colon] == ':'
    ensures var end := Step(source, start, p).value.1;
            WellWritten(t) && StartsPlain(TermText(t)) && source[start..end] == TermText(t) && AtBreak(source[end..])
  {
    hide ReadValue, Lower, Name, FieldNamed, Spelled, Space, AnyCase, ValueText, AtBreak, Placed, WordEnd, Word;
    var name := source[start..colon];
    var field := FieldNamed(Lower(name)).value;
    FieldIsNamed(Lower(name));
    NameIsPlain(field);
    NameInAnyCase(name, Name(field));
    var form := ValueIsWritten(source, colon + 1);
    var token := ReadValue(source, colon + 1).value;
    t := Term(Some(field), name, token.value, form, "");
    FieldTermIs(t, Term(None, "", token.value, form, ""), token.raw);
    CutAtColon(source, start, colon, token.end);
  }

  lemma FieldTermIs(t: Term, value: Term, raw: string)
    requires t.field.Some? && AnyCase(t.name, Name(t.field.value)) && t.v == value.v && t.form == value.form && t.gap == ""
    requires WellWritten(value) && ValueText(value) == raw
    ensures WellWritten(t) && TermText(t) == t.name + ([':'] + raw)
  {
  }

  lemma BareStepIsTerm(source: string, start: nat, p: Parsed) returns (t: Term)
    requires start < |source| && !Space(source[start]) && Placed(source, p, start) && Step(source, start, p).Ok?
    requires var colon := if source[start] == '"' then start else WordEnd(source, start);
             !(colon < |source| && source[colon] == ':')
    ensures var end := Step(source, start, p).value.1;
            WellWritten(t) && StartsPlain(TermText(t)) && source[start..end] == TermText(t) && AtBreak(source[end..])
  {
    hide ReadValue, Lower, Name, FieldNamed, Spelled, Space, ValueText, AtBreak, Placed, WordEnd;
    var form := ValueIsWritten(source, start);
    var token := ReadValue(source, start).value;
    t := Term(None, "", token.value, form, "");
    assert token.raw[0] == source[start];
  }

  /** What one step of the parser takes is a term. */
  lemma StepIsTerm(source: string, start: nat, p: Parsed) returns (t: Term)
    requires start < |source| && !Space(source[start]) && Placed(source, p, start) && Step(source, start, p).Ok?
    ensures var end := Step(source, start, p).value.1;
            WellWritten(t) && StartsPlain(TermText(t)) && source[start..end] == TermText(t) && AtBreak(source[end..])
  {
    hide Step, Space, Placed, WellWritten, StartsPlain, TermText, AtBreak;
    var colon := if source[start] == '"' then start else WordEnd(source, start);
    if colon < |source| && source[colon] == ':' {
      t := FieldStepIsTerm(source, start, colon, p);
    } else {
      t := BareStepIsTerm(source, start, p);
    }
  }

  lemma StaysPlaced(source: string, p: Parsed, index: nat)
    requires index < |source| && Placed(source, p, index)
    ensures Placed(source, p, index + 1)
  {
  }

  lemma {:induction false} TokensAreTerms(source: string, start: nat, p: Parsed) returns (lead: string, terms: seq<Term>)
    requires start <= |source| && Placed(source, p, start) && Tokens(source, start, p).Ok?
    ensures Blank(lead) && AllWellWritten(terms) && source[start..] == lead + Expression(terms)
    ensures terms != [] ==> StartsPlain(Expression(terms))
    decreases |source| - start
  {
    hide Step, Placed, WellWritten, TermText, Space;
    if start == |source| {
      lead, terms := "", [];
    } else if Space(source[start]) {
      StaysPlaced(source, p, start);
      lead, terms := TokensAreTerms(source, start + 1, p);
      lead := [source[start]] + lead;
      assert source[start..] == [source[start]] + source[start + 1..];
    } else {
      var t := StepIsTerm(source, start, p);
      var (next, end) := Step(source, start, p).value;
      var gap, others := TokensAreTerms(source, end, next);
      lead, terms := "", [t.(gap := gap)] + others;
      GapFits(t, gap);
      assert terms[1..] == others;
      assert source[start..] == source[start..end] + source[end..];
      if others != [] { BreakIsGap(gap, Expression(others)); }
    }
  }

  lemma BreakIsGap(gap: string, rest: string)
    requires StartsPlain(rest) && AtBreak(gap + rest)
    ensures gap != ""
  {
    assert gap == "" ==> gap + rest == rest;
  }

  lemma GapFits(t: Term, gap: string)
    requires WellWritten(t) && Blank(gap)
    ensures WellWritten(t.(gap := gap)) && TermText(t.(gap := gap)) == TermText(t)
  {
  }

  /** An acceptable expression that says what the terms say. */
  predicate Written(source: string, lead: string, terms: seq<Term>) {
    source == lead + Expression(terms) && Blank(lead) && AllWellWritten(terms) && Units(source) <= 4096 && Accepted(terms)
  }

  /** What is accepted: text of at most 4096 code units that is a row of acceptable terms, and nothing else. */
  lemma AcceptedIff(expression: seq<nat>)
    ensures Parse(expression).Ok? <==>
              Scalars(expression).Some? && exists lead, terms :: Written(Scalars(expression).value, lead, terms)
    ensures Parse(expression).Ok? ==>
              forall lead, terms :: Written(Scalars(expression).value, lead, terms) ==> Means(terms, Parse(expression).value)
  {
    hide Tokens, Compile, Accepted, Means, AllWellWritten, Blank;
    if Scalars(expression).Some? {
      var source := Scalars(expression).value;
      ScalarsOfPoints(source);
      if Parse(expression).Ok? {
        NothingPlaced(source);
        var lead, terms := TokensAreTerms(source, 0, Parsed(map[], []));
        assert source[0..] == source;
        ExpressionMeans(lead, terms);
        assert Written(source, lead, terms);
      }
      forall lead, terms | Written(source, lead, terms)
        ensures Parse(expression).Ok? && Means(terms, Parse(expression).value)
      {
        ExpressionMeans(lead, terms);
      }
    }
  }

  // ---------------------------------------------------------------- plans written out

  /** What an expression need not say. */
  predicate MayOmit(f: Field, v: string) {
    match f
    case Mode => v == "catalogue"
    case Expired => v == "false"
    case Sort => v == "created_at"
    case Direction => v == "desc"
    case Text => v == ""
    case _ => false
  }

  function Set(m: map<Field, string>, f: Field, v: Option<string>): map<Field, string> {
    if v.Some? then m[f := v.value] else m
  }

  /** Everything a plan says, field by field. */
  function Assignments(p: Plan): map<Field, string> {
    var m := Set(map[Mode := p.mode, Text := p.q], Access, p.visibility);
    if p.mode == "catalogue" then
      Set(m[Expired := if p.includeExpired then "true" else "false"][Sort := p.sort][Direction := p.direction],
          State, p.itemState)
    else Set(Set(m, Kind, p.kind), Owner, p.createdByUser)
  }

  /** The terms say what the plan says: its text as bare terms or in a field; every other field once, in some order,
      unless it has its default. */
  predicate Writes(terms: seq<Term>, p: Plan) {
    var m, bare := FieldValues(terms), BareTexts(terms);
    && AllWellWritten(terms) && NoneTwice({}, terms)
    && (forall f | f in m :: f in Assignments(p) && m[f] == Assignments(p)[f])
    && (forall f | f in Assignments(p) && f !in m :: MayOmit(f, Assignments(p)[f]) || (f == Text && bare != []))
    && (bare != [] ==> Text !in m && p.q == if p.mode == "catalogue" then Spaced(bare) else Spaced(BareWritten(terms)))
    && (bare != [] && p.mode != "catalogue" ==> exists b | b in bare :: !Blank(b))
  }

  lemma {:induction false} BareWrittenEmpty(terms: seq<Term>)
    ensures |BareTexts(terms)| == |BareWritten(terms)|
  {
    if terms != [] { BareWrittenEmpty(terms[1..]); }
  }

  /** What a plan says of its text. */
  lemma SaidOfText(terms: seq<Term>, p: Plan)
    requires ValidPlan(p) && Writes(terms, p)
    ensures var m, bare := FieldValues(terms), BareTexts(terms);
            && (Text in m ==> bare == [])
            && (p.mode != "catalogue" ==> if Text in m then !Blank(m[Text]) else exists b | b in bare :: !Blank(b))
            && p.q == (if Text in m then m[Text] else if p.mode == "catalogue" then Spaced(bare) else Spaced(BareWritten(terms)))
  {
    hide Choices, NoneTwice, AllWellWritten, FieldValues, BareTexts, BareWritten;
    BareWrittenEmpty(terms);
    assert Text in Assignments(p) && Assignments(p)[Text] == p.q;
    if Text !in FieldValues(terms) && BareTexts(terms) == [] {
      assert p.q == "" && Blank("");
    }
  }

  lemma AssignmentsAre(p: Plan)
    requires ValidPlan(p)
    ensures var a := Assignments(p);
            && Get(a, Mode) == Some(p.mode) && Get(a, Access) == p.visibility && Get(a, State) == p.itemState
            && Get(a, Kind) == p.kind && Get(a, Owner) == p.createdByUser
            && (if Expired in a then a[Expired] == (if p.includeExpired then "true" else "false") else !p.includeExpired)
            && (if Sort in a then a[Sort] == p.sort else p.sort == "created_at")
            && (if Direction in a then a[Direction] == p.direction else p.direction == "desc")
            && (if p.mode == "catalogue" then Kind !in a && Owner !in a
                else State !in a && Expired !in a && Sort !in a && Direction !in a)
  {
    hide Choices, Blank;
  }

  /** What a plan says of its other fields. */
  lemma SaidOfFields(terms: seq<Term>, p: Plan)
    requires ValidPlan(p) && Writes(terms, p)
    ensures var m := FieldValues(terms);
            && ModeOf(m) == p.mode && Get(m, Access) == p.visibility && Get(m, State) == p.itemState && Get(m, Kind) == p.kind
            && Get(m, Owner) == p.createdByUser && (Get(m, Expired) == Some("true")) == p.includeExpired
            && (Expired in m ==> m[Expired] in {"true", "false"})
            && (if Sort in m then m[Sort] else "created_at") == p.sort && (if Direction in m then m[Direction] else "desc") == p.direction
            && (if p.mode == "catalogue" then Kind !in m && Owner !in m
                else State !in m && Expired !in m && Sort !in m && Direction !in m)
  {
    hide Choices, Spaced, Blank, NoneTwice, AllWellWritten, Assignments, FieldValues, BareTexts, BareWritten, ValidPlan;
    AssignmentsAre(p);
  }

  lemma FieldsAreClosed(m: map<Field, string>, p: Plan)
    requires ValidPlan(p) && ModeOf(m) == p.mode && Get(m, Access) == p.visibility && Get(m, State) == p.itemState
    requires Get(m, Kind) == p.kind && (Expired in m ==> m[Expired] in {"true", "false"})
    requires (Sort in m ==> m[Sort] == p.sort) && (Direction in m ==> m[Direction] == p.direction)
    ensures ClosedOk(m)
  {
    hide Choices, Blank;
    ModesAre();
    SortsAre();
  }

  lemma WritesIsAccepted(terms: seq<Term>, p: Plan)
    requires ValidPlan(p) && Writes(terms, p)
    ensures Accepted(terms) && forall q :: Means(terms, q) ==> q == p
  {
    hide Choices, Spaced, Blank, NoneTwice, AllWellWritten, Assignments, FieldValues, BareTexts, BareWritten, ClosedOk, MayOmit;
    SaidOfText(terms, p);
    SaidOfFields(terms, p);
    FieldsAreClosed(FieldValues(terms), p);
  }

  /** A plan written out means that plan: its text as bare words and strings anywhere among its fields or in a field,
      everything spelled in any way, the fields in any order and case and without defaults or with them. */
  lemma PlanRoundTrip(p: Plan, lead: string, terms: seq<Term>)
    requires ValidPlan(p) && Writes(terms, p) && Blank(lead) && Units(lead + Expression(terms)) <= 4096
    ensures Parse(Points(lead + Expression(terms))) == Ok(p)
  {
    hide Parse, Accepted, Means, ValidPlan;
    ExpressionMeans(lead, terms);
    WritesIsAccepted(terms, p);
    assert AllWellWritten(terms);
  }

  /** Fields with their values, each as a string. */
  function Strings(m: map<Field, string>, fs: seq<Field>): seq<Term> {
    if fs == [] then []
    else if fs[0] in m then
      [Term(Some(fs[0]), Name(fs[0]), m[fs[0]], AsString(Escaped(m[fs[0]])), " ")] + Strings(m, fs[1..])
    else Strings(m, fs[1..])
  }

  lemma StringIsWellWritten(f: Field, v: string)
    ensures WellWritten(Term(Some(f), Name(f), v, AsString(Escaped(v)), " "))
  {
    NameIsPlain(f);
  }

  lemma {:induction false} StringsAreWritten(m: map<Field, string>, fs: seq<Field>)
    ensures forall t | t in Strings(m, fs) :: WellWritten(t) && t.gap != "" && t.field.Some?
    decreases |fs|
  {
    hide WellWritten, Escaped, Name;
    if fs != [] {
      StringsAreWritten(m, fs[1..]);
      if fs[0] in m { StringIsWellWritten(fs[0], m[fs[0]]); }
    }
  }

  lemma {:induction false} OnlyFields(terms: seq<Term>)
    requires forall t | t in terms :: t.field.Some?
    ensures BareTexts(terms) == []
    decreases |terms|
  {
    if terms != [] {
      assert terms[0] in terms;
      OnlyFields(terms[1..]);
    }
  }

  lemma {:induction false} StringsSay(m: map<Field, string>, fs: seq<Field>)
    ensures FieldValues(Strings(m, fs)).Keys == set f | f in fs && f in m
    ensures forall f | f in FieldValues(Strings(m, fs)) :: f in m && FieldValues(Strings(m, fs))[f] == m[f]
    decreases |fs|
  {
    hide Escaped, Name;
    if fs != [] {
      assert fs == [fs[0]] + fs[1..];
      StringsSay(m, fs[1..]);
      if fs[0] in m { assert Strings(m, fs)[1..] == Strings(m, fs[1..]); }
    }
  }

  lemma {:induction false} StringsAreOnce(m: map<Field, string>, fs: seq<Field>, seen: set<Field>)
    requires (forall i, j | 0 <= i < j < |fs| :: fs[i] != fs[j]) && forall i | 0 <= i < |fs| :: fs[i] !in seen
    ensures NoneTwice(seen, Strings(m, fs))
    decreases |fs|
  {
    hide Escaped, Name;
    if fs != [] {
      StringsAreOnce(m, fs[1..], if fs[0] in m then seen + {fs[0]} else seen);
      if fs[0] in m { assert Strings(m, fs)[1..] == Strings(m, fs[1..]); }
    }
  }

  /** Every plan can be written. */
  lemma PlanCanBeWritten(p: Plan) returns (terms: seq<Term>)
    ensures Writes(terms, p)
  {
    hide Strings, NoneTwice, BareTexts, Spaced, WellWritten;
    var all, a := [Mode, Access, State, Expired, Kind, Owner, Sort, Direction, Text], Assignments(p);
    terms := Strings(a, all);
    StringsSay(a, all);
    StringsAreOnce(a, all, {});
    StringsAreWritten(a, all);
    OnlyFields(terms);
    forall f: Field ensures f in all {
      match f
      case Mode => assert all[0] == f;
      case Access => assert all[1] == f;
      case State => assert all[2] == f;
      case Expired => assert all[3] == f;
      case Kind => assert all[4] == f;
      case Owner => assert all[5] == f;
      case Sort => assert all[6] == f;
      case Direction => assert all[7] == f;
      case Text => assert all[8] == f;
    }
    assert FieldValues(terms) == a;
  }
}
