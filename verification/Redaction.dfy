/** The redaction walk over JSON values, which also looks into strings that hold JSON, and the raw lines kept
    beside the redacted records. */
module Redaction {
  import opened Wrappers

  /** Objects keep the order of their members. */
  datatype Json = JNull | JBool(b: bool) | JNumber(n: int) | JString(s: string) | JArray(items: seq<Json>) | JObject(members: seq<Member>)

  datatype Member = Member(key: string, value: Json)

  /** What the walk is given: JSON text, the lists of keys that objects can have, text patterns, URLs, and the names of
      fields. */
  datatype Host = Host(
    parse: string -> Option<Json>, stringify: Json -> string, keysOk: seq<string> -> bool,
    scrub: string -> string, sanitizeRemote: string -> string,
    looksLikeJson: string -> bool, isSecret: string -> bool, isRemote: string -> bool)

  const REDACTED: string := "[REDACTED]"
  const MAX_DEPTH: nat := 64

  /** Assigning to this key of an object adds no member to it. */
  const PROTO: string := "__proto__"

  function Keys(members: seq<Member>): seq<string> {
    seq(|members|, i requires 0 <= i < |members| => members[i].key)
  }

  function Without(keys: seq<string>, key: string): seq<string> {
    if keys == [] then [] else (if keys[0] == key then [] else [keys[0]]) + Without(keys[1..], key)
  }

  /** A value whose objects have keys as objects of the host can have them: each once, in the host's order. */
  ghost predicate Proper(h: Host, v: Json) {
    match v
    case JArray(items) => forall i | 0 <= i < |items| :: Proper(h, items[i])
    case JObject(members) => h.keysOk(Keys(members)) && forall i | 0 <= i < |members| :: Proper(h, members[i].value)
    case _ => true
  }

  /** Only proper values are read; writing them loses nothing, keeps to one line, and begins the text of an array or
      object in a way the walk recognizes. An object can do without the key that cannot be assigned to. */
  ghost predicate Sane(h: Host) {
    && (forall s {:trigger h.parse(s)} | h.parse(s).Some? :: Proper(h, h.parse(s).value))
    && (forall v {:trigger h.stringify(v)} | Proper(h, v) :: h.parse(h.stringify(v)) == Some(v) && '\n' !in h.stringify(v))
    && (forall v {:trigger h.stringify(v)} | Proper(h, v) && Container(v) :: h.looksLikeJson(h.stringify(v)))
    && (forall keys {:trigger h.keysOk(keys)} | h.keysOk(keys) :: h.keysOk(Without(keys, PROTO)))
  }

  predicate Container(v: Json) { v.JArray? || v.JObject? }

  datatype Walked = Walked(value: Json, changed: bool)

  // ---------------------------------------------------------------- the walk, as a function

  /** The container a string holds, if it holds one. */
  function Embedded(h: Host, s: string): Option<Json> {
    if !h.looksLikeJson(s) then None
    else match h.parse(s) case None => None case Some(v) => if Container(v) then Some(v) else None
  }

  /** None is the depth limit. The flag tells whether anything was noted as changed. */
  function Walk(h: Host, v: Json, depth: nat): Option<Walked>
    decreases MAX_DEPTH + 1 - depth, 0, 0
  {
    if depth > MAX_DEPTH then None
    else
      match v
      case JString(s) => WalkString(h, s, depth)
      case JArray(items) =>
        (match WalkItems(h, items, depth)
         case None => None
         case Some((vs, changed)) => Some(Walked(JArray(vs), changed)))
      case JObject(members) =>
        (match WalkMembers(h, members, Drawn(members), depth)
         case None => None
         case Some((ms, changed)) => Some(Walked(JObject(ms), changed)))
      case _ => Some(Walked(v, false))
  }

  function WalkString(h: Host, s: string, depth: nat): Option<Walked>
    requires depth <= MAX_DEPTH
    decreases MAX_DEPTH - depth, 1, 0
  {
    var result := h.scrub(s);
    match Embedded(h, result)
    case None => Some(Walked(JString(result), result != s))
    case Some(inner) =>
      match Walk(h, inner, depth + 1)
      case None => None
      case Some(walked) =>
        if h.stringify(walked.value) != h.stringify(inner) then Some(Walked(JString(h.stringify(walked.value)), true))
        else Some(Walked(JString(result), result != s || walked.changed))
  }

  function WalkItems(h: Host, items: seq<Json>, depth: nat): Option<(seq<Json>, bool)>
    requires depth <= MAX_DEPTH
    decreases MAX_DEPTH - depth, 1, |items|
  {
    if items == [] then Some(([], false))
    else
      match (Walk(h, items[0], depth + 1), WalkItems(h, items[1..], depth))
      case (Some(first), Some((rest, changed))) => Some(([first.value] + rest, first.changed || changed))
      case _ => None
  }

  /** An image generation's result is binary. */
  predicate Drawn(members: seq<Member>) {
    exists i | 0 <= i < |members| :: members[i] == Member("type", JString("image_generation_call"))
  }

  predicate Hidden(h: Host, m: Member, drawn: bool) {
    h.isSecret(m.key) || (m.key == "data" && m.value.JString?) || (m.key == "result" && drawn)
  }

  function WalkMember(h: Host, m: Member, drawn: bool, depth: nat): Option<Walked>
    requires depth <= MAX_DEPTH
    decreases MAX_DEPTH - depth, 1, 0
  {
    if Hidden(h, m, drawn) then
      var value := if m.value.JNull? then JNull else JString(REDACTED);
      Some(Walked(value, value != m.value || m.key == PROTO))
    else if h.isRemote(m.key) && m.value.JString? then
      match Walk(h, JString(h.sanitizeRemote(m.value.s)), depth + 1)
      case None => None
      case Some(w) => Some(Walked(w.value, w.changed || w.value != m.value || m.key == PROTO))
    else Walk(h, m.value, depth + 1)
  }

  function WalkMembers(h: Host, members: seq<Member>, drawn: bool, depth: nat): Option<(seq<Member>, bool)>
    requires depth <= MAX_DEPTH
    decreases MAX_DEPTH - depth, 1, 1 + |members|
  {
    if members == [] then Some(([], false))
    else
      match (WalkMember(h, members[0], drawn, depth), WalkMembers(h, members[1..], drawn, depth))
      case (Some(first), Some((rest, changed))) =>
        Some(((if members[0].key == PROTO then [] else [Member(members[0].key, first.value)]) + rest,
              first.changed || changed))
      case _ => None
  }

  /** An array or object written into a string is found there. */
  lemma WrittenJsonIsFound(h: Host, v: Json)
    requires Sane(h) && Proper(h, v) && Container(v)
    ensures Embedded(h, h.stringify(v)) == Some(v)
  {
    assert h.parse(h.stringify(v)) == Some(v);
  }

  /** The array or object that a string holds as JSON text. */
  ghost function Inside(h: Host, s: string): Option<Json> {
    if h.looksLikeJson(s) && h.parse(s).Some? && (h.parse(s).value.JArray? || h.parse(s).value.JObject?)
    then h.parse(s) else None
  }

  // ---------------------------------------------------------------- members that are lost

  /** The value without the members that the walk cannot assign. */
  function Stripped(v: Json): Json {
    match v
    case JArray(items) => JArray(StrippedItems(items))
    case JObject(members) => JObject(StrippedMembers(members))
    case _ => v
  }

  function StrippedItems(items: seq<Json>): seq<Json> {
    if items == [] then [] else [Stripped(items[0])] + StrippedItems(items[1..])
  }

  function StrippedMembers(members: seq<Member>): seq<Member> {
    if members == [] then []
    else (if members[0].key == PROTO then [] else [Member(members[0].key, Stripped(members[0].value))])
         + StrippedMembers(members[1..])
  }

  /** Nothing is lost of the value. */
  predicate Assignable(v: Json) {
    match v
    case JArray(items) => forall i | 0 <= i < |items| :: Assignable(items[i])
    case JObject(members) => forall i | 0 <= i < |members| :: members[i].key != PROTO && Assignable(members[i].value)
    case _ => true
  }

  lemma {:induction false} StrippedIsSameIff(v: Json)
    ensures Stripped(v) == v <==> Assignable(v)
    decreases v
  {
    match v
    case JArray(items) => StrippedItemsIff(items);
    case JObject(members) => StrippedMembersIff(members);
    case _ =>
  }

  lemma {:induction false} StrippedItemsIff(items: seq<Json>)
    ensures StrippedItems(items) == items <==> forall i | 0 <= i < |items| :: Assignable(items[i])
    decreases items
  {
    if items != [] {
      StrippedIsSameIff(items[0]);
      StrippedItemsIff(items[1..]);
      assert items == [items[0]] + items[1..];
      assert (forall i | 0 <= i < |items| :: Assignable(items[i]))
        <==> Assignable(items[0]) && forall i | 0 <= i < |items[1..]| :: Assignable(items[1..][i]);
    }
  }

  lemma {:induction false} StrippedMembersIff(members: seq<Member>)
    ensures |StrippedMembers(members)| <= |members|
    ensures StrippedMembers(members) == members
      <==> forall i | 0 <= i < |members| :: members[i].key != PROTO && Assignable(members[i].value)
    decreases members
  {
    if members != [] {
      StrippedIsSameIff(members[0].value);
      StrippedMembersIff(members[1..]);
      assert members == [members[0]] + members[1..];
      assert (forall i | 0 <= i < |members| :: members[i].key != PROTO && Assignable(members[i].value))
        <==> members[0].key != PROTO && Assignable(members[0].value)
             && forall i | 0 <= i < |members[1..]| :: members[1..][i].key != PROTO && Assignable(members[1..][i].value);
    }
  }

  // ---------------------------------------------------------------- unchanged means equal

  /** A walk that notes no change gives back its input, but for the members that it cannot assign. */
  lemma {:induction false} UnchangedIsStripped(h: Host, v: Json, depth: nat)
    ensures Walk(h, v, depth).Some? && !Walk(h, v, depth).value.changed ==> Walk(h, v, depth).value.value == Stripped(v)
    decreases MAX_DEPTH + 1 - depth, 0, 0
  {
    if depth <= MAX_DEPTH {
      match v
      case JArray(items) => UnchangedItems(h, items, depth);
      case JObject(members) => UnchangedMembers(h, members, Drawn(members), depth);
      case _ =>
    }
  }

  lemma {:induction false} UnchangedItems(h: Host, items: seq<Json>, depth: nat)
    requires depth <= MAX_DEPTH
    ensures WalkItems(h, items, depth).Some? && !WalkItems(h, items, depth).value.1 ==>
              WalkItems(h, items, depth).value.0 == StrippedItems(items)
    decreases MAX_DEPTH - depth, 1, |items|
  {
    if items != [] {
      UnchangedIsStripped(h, items[0], depth + 1);
      UnchangedItems(h, items[1..], depth);
    }
  }

  lemma {:induction false} UnchangedMembers(h: Host, members: seq<Member>, drawn: bool, depth: nat)
    requires depth <= MAX_DEPTH
    ensures WalkMembers(h, members, drawn, depth).Some? && !WalkMembers(h, members, drawn, depth).value.1 ==>
              WalkMembers(h, members, drawn, depth).value.0 == StrippedMembers(members)
    decreases MAX_DEPTH - depth, 1, |members|
  {
    if members != [] {
      UnchangedIsStripped(h, members[0].value, depth + 1);
      UnchangedMembers(h, members[1..], drawn, depth);
    }
  }

  /** So a walk that notes no change gives back its input exactly if every member of it can be assigned. */
  lemma UnchangedIsEqual(h: Host, v: Json, depth: nat)
    requires Walk(h, v, depth).Some? && !Walk(h, v, depth).value.changed
    ensures Walk(h, v, depth).value.value == Stripped(v)
    ensures Walk(h, v, depth).value.value == v <==> Assignable(v)
  {
    UnchangedIsStripped(h, v, depth);
    StrippedIsSameIff(v);
  }

  // ---------------------------------------------------------------- what comes out can be written

  /** What the walk gives has only keys that can be assigned, and is proper if its input was. */
  lemma {:induction false} WalkIsProper(h: Host, v: Json, depth: nat)
    requires Sane(h)
    ensures Walk(h, v, depth).Some? ==>
              Assignable(Walk(h, v, depth).value.value) && (Proper(h, v) ==> Proper(h, Walk(h, v, depth).value.value))
    decreases MAX_DEPTH + 1 - depth, 0, 0
  {
    hide Sane;
    if depth <= MAX_DEPTH {
      match v
      case JArray(items) => ItemsAreProper(h, items, depth);
      case JObject(members) =>
        MembersAreAssignable(h, members, Drawn(members), depth);
        if Proper(h, v) {
          MembersStayProper(h, members, Drawn(members), depth);
          LessProtoIsOk(h, Keys(members));
        }
      case _ =>
    }
  }

  lemma LessProtoIsOk(h: Host, keys: seq<string>)
    requires Sane(h) && h.keysOk(keys)
    ensures h.keysOk(Without(keys, PROTO))
  {
  }

  lemma {:induction false} ItemsAreProper(h: Host, items: seq<Json>, depth: nat)
    requires Sane(h) && depth <= MAX_DEPTH
    ensures WalkItems(h, items, depth).Some? ==>
              var out := WalkItems(h, items, depth).value.0;
              && (forall i | 0 <= i < |out| :: Assignable(out[i]))
              && (Proper(h, JArray(items)) ==> Proper(h, JArray(out)))
    decreases MAX_DEPTH - depth, 1, |items|
  {
    hide Sane;
    if items != [] {
      WalkIsProper(h, items[0], depth + 1);
      ItemsAreProper(h, items[1..], depth);
      if Proper(h, JArray(items)) {
        assert Proper(h, items[0]) && forall i | 0 <= i < |items[1..]| :: items[1..][i] == items[i + 1];
        assert Proper(h, JArray(items[1..]));
      }
    }
  }

  lemma {:induction false} MembersAreAssignable(h: Host, members: seq<Member>, drawn: bool, depth: nat)
    requires Sane(h) && depth <= MAX_DEPTH
    ensures WalkMembers(h, members, drawn, depth).Some? ==>
              var out := WalkMembers(h, members, drawn, depth).value.0;
              && (forall i | 0 <= i < |out| :: out[i].key != PROTO && Assignable(out[i].value))
              && Keys(out) == Without(Keys(members), PROTO)
    decreases MAX_DEPTH - depth, 1, 1 + |members|
  {
    hide Sane, WalkMember, Proper;
    if members != [] {
      MemberIsProper(h, members[0], drawn, depth);
      MembersAreAssignable(h, members[1..], drawn, depth);
      assert Keys(members) == [members[0].key] + Keys(members[1..]);
      if WalkMembers(h, members, drawn, depth).Some? {
        var rest := WalkMembers(h, members[1..], drawn, depth).value.0;
        var first := Member(members[0].key, WalkMember(h, members[0], drawn, depth).value.value);
        assert Keys([first] + rest) == [first.key] + Keys(rest);
      }
    }
  }

  lemma {:induction false} MembersStayProper(h: Host, members: seq<Member>, drawn: bool, depth: nat)
    requires Sane(h) && depth <= MAX_DEPTH && forall m | m in members :: Proper(h, m.value)
    ensures WalkMembers(h, members, drawn, depth).Some? ==>
              forall m | m in WalkMembers(h, members, drawn, depth).value.0 :: Proper(h, m.value)
    decreases MAX_DEPTH - depth, 1, 1 + |members|
  {
    hide Sane, WalkMember, Assignable;
    if members != [] {
      MemberIsProper(h, members[0], drawn, depth);
      MembersStayProper(h, members[1..], drawn, depth);
    }
  }

  lemma {:induction false} MemberIsProper(h: Host, m: Member, drawn: bool, depth: nat)
    requires Sane(h) && depth <= MAX_DEPTH
    ensures WalkMember(h, m, drawn, depth).Some? ==>
              var out := WalkMember(h, m, drawn, depth).value.value;
              Assignable(out) && (Proper(h, m.value) ==> Proper(h, out))
    decreases MAX_DEPTH - depth, 1, 0
  {
    hide Sane;
    if !Hidden(h, m, drawn) {
      if h.isRemote(m.key) && m.value.JString? {
        WalkIsProper(h, JString(h.sanitizeRemote(m.value.s)), depth + 1);
      } else {
        WalkIsProper(h, m.value, depth + 1);
      }
    }
  }

  // ---------------------------------------------------------------- nothing secret is left

  /** No secret field has a value other than null or the mark, in the value or in JSON that its strings hold, down
      to the depth limit; and nothing is nested deeper. */
  ghost predicate Clean(h: Host, v: Json, depth: nat)
    decreases MAX_DEPTH + 1 - depth
  {
    depth <= MAX_DEPTH &&
    match v
    case JString(s) => Inside(h, s).Some? ==> Clean(h, Inside(h, s).value, depth + 1)
    case JArray(items) => forall i | 0 <= i < |items| :: Clean(h, items[i], depth + 1)
    case JObject(members) => forall i | 0 <= i < |members| :: CleanMember(h, members[i], depth)
    case _ => true
  }

  ghost predicate CleanMember(h: Host, m: Member, depth: nat)
    requires depth <= MAX_DEPTH
    decreases MAX_DEPTH + 1 - depth, 0
  {
    if h.isSecret(m.key) || (m.key == "data" && m.value.JString?) then m.value == JNull || m.value == JString(REDACTED)
    else m.value == JNull || m.value == JString(REDACTED) || Clean(h, m.value, depth + 1)
  }

  lemma {:induction false} WalkIsClean(h: Host, v: Json, depth: nat)
    requires Sane(h)
    ensures Walk(h, v, depth).Some? ==> Clean(h, Walk(h, v, depth).value.value, depth)
    decreases MAX_DEPTH + 1 - depth, 0, 0
  {
    if depth <= MAX_DEPTH {
      match v
      case JString(s) => StringIsClean(h, s, depth);
      case JArray(items) => ItemsAreClean(h, items, depth);
      case JObject(members) => MembersAreClean(h, members, Drawn(members), depth);
      case _ =>
    }
  }

  lemma {:induction false} StringIsClean(h: Host, s: string, depth: nat)
    requires Sane(h) && depth <= MAX_DEPTH
    ensures WalkString(h, s, depth).Some? ==> Clean(h, WalkString(h, s, depth).value.value, depth)
    decreases MAX_DEPTH - depth, 1, 0
  {
    var result := h.scrub(s);
    if Embedded(h, result).Some? {
      var inner := Embedded(h, result).value;
      WalkIsClean(h, inner, depth + 1);
      WalkIsProper(h, inner, depth + 1);
      assert h.parse(result) == Some(inner);
      if Walk(h, inner, depth + 1).Some? {
        var walked := Walk(h, inner, depth + 1).value.value;
        WrittenJsonIsFound(h, walked);
        WrittenJsonIsFound(h, inner);
      }
    }
  }

  lemma {:induction false} ItemsAreClean(h: Host, items: seq<Json>, depth: nat)
    requires Sane(h) && depth <= MAX_DEPTH
    ensures WalkItems(h, items, depth).Some? ==>
              forall i | 0 <= i < |WalkItems(h, items, depth).value.0| :: Clean(h, WalkItems(h, items, depth).value.0[i], depth + 1)
    decreases MAX_DEPTH - depth, 1, |items|
  {
    if items != [] {
      WalkIsClean(h, items[0], depth + 1);
      ItemsAreClean(h, items[1..], depth);
    }
  }

  lemma {:induction false} MembersAreClean(h: Host, members: seq<Member>, drawn: bool, depth: nat)
    requires Sane(h) && depth <= MAX_DEPTH
    ensures WalkMembers(h, members, drawn, depth).Some? ==>
              forall i | 0 <= i < |WalkMembers(h, members, drawn, depth).value.0| ::
                CleanMember(h, WalkMembers(h, members, drawn, depth).value.0[i], depth)
    decreases MAX_DEPTH - depth, 1, 1 + |members|
  {
    if members != [] {
      MemberIsClean(h, members[0], drawn, depth);
      MembersAreClean(h, members[1..], drawn, depth);
    }
  }

  lemma {:induction false} MemberIsClean(h: Host, m: Member, drawn: bool, depth: nat)
    requires Sane(h) && depth <= MAX_DEPTH
    ensures WalkMember(h, m, drawn, depth).Some? ==>
              CleanMember(h, Member(m.key, WalkMember(h, m, drawn, depth).value.value), depth)
    decreases MAX_DEPTH - depth, 1, 0
  {
    if !Hidden(h, m, drawn) {
      if h.isRemote(m.key) && m.value.JString? {
        WalkIsClean(h, JString(h.sanitizeRemote(m.value.s)), depth + 1);
      } else {
        WalkIsClean(h, m.value, depth + 1);
      }
    }
  }

  /** An image generation keeps its fields, and its result is hidden, or was null. */
  lemma ImagesAreHidden(h: Host, members: seq<Member>, depth: nat)
    requires Drawn(members) && Walk(h, JObject(members), depth).Some?
    ensures var out := Walk(h, JObject(members), depth).value.value;
            && out.JObject? && Keys(out.members) == Without(Keys(members), PROTO)
            && forall m | m in out.members && m.key == "result" :: m.value in {JNull, JString(REDACTED)}
  {
    ResultsAreHidden(h, members, depth);
  }

  lemma {:induction false} ResultsAreHidden(h: Host, members: seq<Member>, depth: nat)
    requires depth <= MAX_DEPTH && WalkMembers(h, members, true, depth).Some?
    ensures var out := WalkMembers(h, members, true, depth).value.0;
            && Keys(out) == Without(Keys(members), PROTO)
            && forall m | m in out && m.key == "result" :: m.value in {JNull, JString(REDACTED)}
  {
    if members != [] {
      ResultsAreHidden(h, members[1..], depth);
      assert Keys(members) == [members[0].key] + Keys(members[1..]);
      var rest := WalkMembers(h, members[1..], true, depth).value.0;
      var first := Member(members[0].key, WalkMember(h, members[0], true, depth).value.value);
      assert Keys([first] + rest) == [first.key] + Keys(rest);
    }
  }

  // ---------------------------------------------------------------- what the output shows of the input

  /** Everything is where it was, and shown as it was but for this: a string has the text patterns taken out, and what
      JSON is then inside it is shown likewise; a secret field, a binary one and the result of an image generation show
      the mark, or null; a remote is sanitized first; and a member that cannot be assigned is not there. */
  ghost predicate Shows(h: Host, v: Json, w: Json, depth: nat)
    decreases MAX_DEPTH + 1 - depth, 0, 0
  {
    depth <= MAX_DEPTH &&
    match v
    case JString(s) => w.JString? && ShowsString(h, s, w.s, depth)
    case JArray(items) => w.JArray? && |w.items| == |items| && forall i | 0 <= i < |items| :: Shows(h, items[i], w.items[i], depth + 1)
    case JObject(members) => w.JObject? && ShowsMembers(h, members, members, w.members, depth)
    case _ => w == v
  }

  ghost predicate ShowsString(h: Host, s: string, r: string, depth: nat)
    requires depth <= MAX_DEPTH
    decreases MAX_DEPTH - depth, 1, 0
  {
    var t := h.scrub(s);
    if Inside(h, t).None? then r == t
    else Inside(h, r).Some? && Shows(h, Inside(h, t).value, Inside(h, r).value, depth + 1)
  }

  /** The members of one object, or the rest of them. */
  ghost predicate ShowsMembers(h: Host, all: seq<Member>, rest: seq<Member>, out: seq<Member>, depth: nat)
    requires depth <= MAX_DEPTH
    decreases MAX_DEPTH - depth, 1, 1 + |rest|
  {
    if rest == [] then out == []
    else if rest[0].key == "__proto__" then ShowsMembers(h, all, rest[1..], out, depth)
    else out != [] && out[0].key == rest[0].key && ShowsMember(h, all, rest[0], out[0].value, depth)
         && ShowsMembers(h, all, rest[1..], out[1..], depth)
  }

  ghost predicate ShowsMember(h: Host, all: seq<Member>, m: Member, w: Json, depth: nat)
    requires depth <= MAX_DEPTH
    decreases MAX_DEPTH - depth, 1, 0
  {
    if h.isSecret(m.key) || (m.key == "data" && m.value.JString?)
       || (m.key == "result" && exists i | 0 <= i < |all| :: all[i] == Member("type", JString("image_generation_call")))
    then w == if m.value == JNull then JNull else JString("[REDACTED]")
    else if h.isRemote(m.key) && m.value.JString? then Shows(h, JString(h.sanitizeRemote(m.value.s)), w, depth + 1)
    else Shows(h, m.value, w, depth + 1)
  }

  lemma {:induction false} WalkShows(h: Host, v: Json, depth: nat)
    requires Sane(h)
    ensures Walk(h, v, depth).Some? ==> Shows(h, v, Walk(h, v, depth).value.value, depth)
    decreases MAX_DEPTH + 1 - depth, 0, 0
  {
    hide Sane;
    if depth <= MAX_DEPTH {
      match v
      case JString(s) => StringShows(h, s, depth);
      case JArray(items) => ItemsShow(h, items, depth);
      case JObject(members) => MembersShow(h, members, members, depth);
      case _ =>
    }
  }

  lemma {:induction false} StringShows(h: Host, s: string, depth: nat)
    requires Sane(h) && depth <= MAX_DEPTH
    ensures WalkString(h, s, depth).Some? ==>
              WalkString(h, s, depth).value.value.JString? && ShowsString(h, s, WalkString(h, s, depth).value.value.s, depth)
    decreases MAX_DEPTH - depth, 1, 0
  {
    var result := h.scrub(s);
    if Embedded(h, result).Some? {
      var inner := Embedded(h, result).value;
      WalkShows(h, inner, depth + 1);
      WalkIsProper(h, inner, depth + 1);
      assert h.parse(result) == Some(inner);
      if Walk(h, inner, depth + 1).Some? {
        WrittenJsonIsFound(h, Walk(h, inner, depth + 1).value.value);
        WrittenJsonIsFound(h, inner);
      }
    }
  }

  lemma {:induction false} ItemsShow(h: Host, items: seq<Json>, depth: nat)
    requires Sane(h) && depth <= MAX_DEPTH
    ensures WalkItems(h, items, depth).Some? ==>
              var out := WalkItems(h, items, depth).value.0;
              |out| == |items| && forall i | 0 <= i < |items| :: Shows(h, items[i], out[i], depth + 1)
    decreases MAX_DEPTH - depth, 1, |items|
  {
    hide Sane;
    if items != [] {
      WalkShows(h, items[0], depth + 1);
      ItemsShow(h, items[1..], depth);
    }
  }

  lemma {:induction false} MembersShow(h: Host, all: seq<Member>, rest: seq<Member>, depth: nat)
    requires Sane(h) && depth <= MAX_DEPTH
    ensures WalkMembers(h, rest, Drawn(all), depth).Some? ==>
              ShowsMembers(h, all, rest, WalkMembers(h, rest, Drawn(all), depth).value.0, depth)
    decreases MAX_DEPTH - depth, 1, 1 + |rest|
  {
    hide Sane, WalkMember;
    if rest != [] {
      MemberShows(h, all, rest[0], depth);
      MembersShow(h, all, rest[1..], depth);
      if WalkMembers(h, rest, Drawn(all), depth).Some? {
        var out, others := WalkMembers(h, rest, Drawn(all), depth).value.0, WalkMembers(h, rest[1..], Drawn(all), depth).value.0;
        var first := WalkMember(h, rest[0], Drawn(all), depth).value.value;
        if rest[0].key == PROTO {
          assert out == others;
        } else {
          assert out == [Member(rest[0].key, first)] + others;
          assert out[1..] == others && out[0].value == first;
        }
        assert ShowsMembers(h, all, rest[1..], others, depth);
        assert rest[0].key != PROTO ==> ShowsMember(h, all, rest[0], first, depth);
      }
    }
  }

  lemma {:induction false} MemberShows(h: Host, all: seq<Member>, m: Member, depth: nat)
    requires Sane(h) && depth <= MAX_DEPTH
    ensures WalkMember(h, m, Drawn(all), depth).Some? ==>
              ShowsMember(h, all, m, WalkMember(h, m, Drawn(all), depth).value.value, depth)
    decreases MAX_DEPTH - depth, 1, 0
  {
    hide Sane;
    if !Hidden(h, m, Drawn(all)) {
      if h.isRemote(m.key) && m.value.JString? {
        WalkShows(h, JString(h.sanitizeRemote(m.value.s)), depth + 1);
      } else {
        WalkShows(h, m.value, depth + 1);
      }
    }
  }

  // ---------------------------------------------------------------- no text pattern is left

  /** Taking out text patterns would change nothing in any string, also not in those inside JSON that strings hold. */
  ghost predicate Scrubbed(h: Host, v: Json, depth: nat)
    decreases MAX_DEPTH + 1 - depth
  {
    depth <= MAX_DEPTH &&
    match v
    case JString(s) => if Inside(h, s).Some? then Scrubbed(h, Inside(h, s).value, depth + 1) else h.scrub(s) == s
    case JArray(items) => forall i | 0 <= i < |items| :: Scrubbed(h, items[i], depth + 1)
    case JObject(members) => forall i | 0 <= i < |members| :: ScrubbedMember(h, members[i], depth)
    case _ => true
  }

  ghost predicate ScrubbedMember(h: Host, m: Member, depth: nat)
    requires depth <= MAX_DEPTH
    decreases MAX_DEPTH + 1 - depth, 0
  {
    m.value == JNull || m.value == JString(REDACTED) || Scrubbed(h, m.value, depth + 1)
  }

  /** Taking them out once is enough. */
  ghost predicate Idempotent(h: Host) { forall s {:trigger h.scrub(s)} :: h.scrub(h.scrub(s)) == h.scrub(s) }

  lemma {:induction false} WalkIsScrubbed(h: Host, v: Json, depth: nat)
    requires Sane(h) && Idempotent(h)
    ensures Walk(h, v, depth).Some? ==> Scrubbed(h, Walk(h, v, depth).value.value, depth)
    decreases MAX_DEPTH + 1 - depth, 0, 0
  {
    hide Sane, Idempotent;
    if depth <= MAX_DEPTH {
      match v
      case JString(s) => StringIsScrubbed(h, s, depth);
      case JArray(items) => ItemsAreScrubbed(h, items, depth);
      case JObject(members) => MembersAreScrubbed(h, members, Drawn(members), depth);
      case _ =>
    }
  }

  lemma {:induction false} StringIsScrubbed(h: Host, s: string, depth: nat)
    requires Sane(h) && Idempotent(h) && depth <= MAX_DEPTH
    ensures WalkString(h, s, depth).Some? ==> Scrubbed(h, WalkString(h, s, depth).value.value, depth)
    decreases MAX_DEPTH - depth, 1, 0
  {
    var result := h.scrub(s);
    if Embedded(h, result).Some? {
      var inner := Embedded(h, result).value;
      WalkIsScrubbed(h, inner, depth + 1);
      WalkIsProper(h, inner, depth + 1);
      assert h.parse(result) == Some(inner);
      if Walk(h, inner, depth + 1).Some? {
        WrittenJsonIsFound(h, Walk(h, inner, depth + 1).value.value);
        WrittenJsonIsFound(h, inner);
      }
    } else {
      assert h.scrub(h.scrub(s)) == h.scrub(s);
    }
  }

  lemma {:induction false} ItemsAreScrubbed(h: Host, items: seq<Json>, depth: nat)
    requires Sane(h) && Idempotent(h) && depth <= MAX_DEPTH
    ensures WalkItems(h, items, depth).Some? ==>
              forall i | 0 <= i < |WalkItems(h, items, depth).value.0| :: Scrubbed(h, WalkItems(h, items, depth).value.0[i], depth + 1)
    decreases MAX_DEPTH - depth, 1, |items|
  {
    hide Sane, Idempotent;
    if items != [] {
      WalkIsScrubbed(h, items[0], depth + 1);
      ItemsAreScrubbed(h, items[1..], depth);
    }
  }

  lemma {:induction false} MembersAreScrubbed(h: Host, members: seq<Member>, drawn: bool, depth: nat)
    requires Sane(h) && Idempotent(h) && depth <= MAX_DEPTH
    ensures WalkMembers(h, members, drawn, depth).Some? ==>
              forall i | 0 <= i < |WalkMembers(h, members, drawn, depth).value.0| ::
                ScrubbedMember(h, WalkMembers(h, members, drawn, depth).value.0[i], depth)
    decreases MAX_DEPTH - depth, 1, 1 + |members|
  {
    hide Sane, Idempotent, WalkMember;
    if members != [] {
      MemberIsScrubbed(h, members[0], drawn, depth);
      MembersAreScrubbed(h, members[1..], drawn, depth);
    }
  }

  lemma {:induction false} MemberIsScrubbed(h: Host, m: Member, drawn: bool, depth: nat)
    requires Sane(h) && Idempotent(h) && depth <= MAX_DEPTH
    ensures WalkMember(h, m, drawn, depth).Some? ==>
              ScrubbedMember(h, Member(m.key, WalkMember(h, m, drawn, depth).value.value), depth)
    decreases MAX_DEPTH - depth, 1, 0
  {
    hide Sane, Idempotent;
    if !Hidden(h, m, drawn) {
      if h.isRemote(m.key) && m.value.JString? {
        WalkIsScrubbed(h, JString(h.sanitizeRemote(m.value.s)), depth + 1);
      } else {
        WalkIsScrubbed(h, m.value, depth + 1);
      }
    }
  }

  // ---------------------------------------------------------------- what is noted as a change

  /** Nothing in the value is to be taken out, sanitized or hidden, also not inside JSON that its strings hold. */
  ghost predicate Harmless(h: Host, v: Json, depth: nat)
    decreases MAX_DEPTH + 1 - depth
  {
    depth <= MAX_DEPTH &&
    match v
    case JString(s) =>
      h.scrub(s) == s && (Inside(h, s).Some? ==> Assignable(Inside(h, s).value) && Harmless(h, Inside(h, s).value, depth + 1))
    case JArray(items) => forall i | 0 <= i < |items| :: Harmless(h, items[i], depth + 1)
    case JObject(members) => forall i | 0 <= i < |members| :: HarmlessMember(h, members, members[i], depth)
    case _ => true
  }

  ghost predicate HarmlessMember(h: Host, all: seq<Member>, m: Member, depth: nat)
    requires depth <= MAX_DEPTH
    decreases MAX_DEPTH + 1 - depth, 0
  {
    if h.isSecret(m.key) || (m.key == "data" && m.value.JString?)
       || (m.key == "result" && exists i | 0 <= i < |all| :: all[i] == Member("type", JString("image_generation_call")))
    then (m.value == JNull || m.value == JString("[REDACTED]")) && m.key != PROTO
    else if h.isRemote(m.key) && m.value.JString?
    then h.sanitizeRemote(m.value.s) == m.value.s && m.key != PROTO && Harmless(h, m.value, depth + 1)
    else Harmless(h, m.value, depth + 1)
  }

  /** A change is noted exactly if something is to be taken out, sanitized or hidden. */
  lemma {:induction false} ChangedIffHarmful(h: Host, v: Json, depth: nat)
    requires Sane(h)
    ensures Walk(h, v, depth).Some? ==> (Walk(h, v, depth).value.changed <==> !Harmless(h, v, depth))
    decreases MAX_DEPTH + 1 - depth, 0, 0
  {
    hide Sane;
    if depth <= MAX_DEPTH {
      match v
      case JString(s) => StringChangedIff(h, s, depth);
      case JArray(items) => ItemsChangedIff(h, items, depth);
      case JObject(members) => MembersChangedIff(h, members, members, depth);
      case _ =>
    }
  }

  lemma {:induction false} StringChangedIff(h: Host, s: string, depth: nat)
    requires Sane(h) && depth <= MAX_DEPTH
    ensures WalkString(h, s, depth).Some? ==> (WalkString(h, s, depth).value.changed <==> !Harmless(h, JString(s), depth))
    decreases MAX_DEPTH - depth, 1, 0
  {
    var result := h.scrub(s);
    if Embedded(h, result).Some? {
      var inner := Embedded(h, result).value;
      ChangedIffHarmful(h, inner, depth + 1);
      WalkIsProper(h, inner, depth + 1);
      assert h.parse(result) == Some(inner);
      if Walk(h, inner, depth + 1).Some? {
        WrittenJsonIsFound(h, Walk(h, inner, depth + 1).value.value);
        WrittenJsonIsFound(h, inner);
        if !Walk(h, inner, depth + 1).value.changed { UnchangedIsEqual(h, inner, depth + 1); }
      }
    }
  }

  lemma {:induction false} ItemsChangedIff(h: Host, items: seq<Json>, depth: nat)
    requires Sane(h) && depth <= MAX_DEPTH
    ensures WalkItems(h, items, depth).Some? ==>
              (WalkItems(h, items, depth).value.1 <==> exists i | 0 <= i < |items| :: !Harmless(h, items[i], depth + 1))
    decreases MAX_DEPTH - depth, 1, |items|
  {
    hide Sane;
    if items != [] {
      ChangedIffHarmful(h, items[0], depth + 1);
      ItemsChangedIff(h, items[1..], depth);
      assert (exists i | 0 <= i < |items| :: !Harmless(h, items[i], depth + 1))
        <==> !Harmless(h, items[0], depth + 1) || exists i | 0 <= i < |items[1..]| :: !Harmless(h, items[1..][i], depth + 1) by {
        if i :| 0 <= i < |items[1..]| && !Harmless(h, items[1..][i], depth + 1) { assert !Harmless(h, items[i + 1], depth + 1); }
        if i :| 0 < i < |items| && !Harmless(h, items[i], depth + 1) { assert !Harmless(h, items[1..][i - 1], depth + 1); }
      }
    }
  }

  lemma {:induction false} MembersChangedIff(h: Host, all: seq<Member>, rest: seq<Member>, depth: nat)
    requires Sane(h) && depth <= MAX_DEPTH
    ensures WalkMembers(h, rest, Drawn(all), depth).Some? ==>
              (WalkMembers(h, rest, Drawn(all), depth).value.1 <==> exists i | 0 <= i < |rest| :: !HarmlessMember(h, all, rest[i], depth))
    decreases MAX_DEPTH - depth, 1, 1 + |rest|
  {
    hide Sane, WalkMember;
    if rest != [] {
      MemberChangedIff(h, all, rest[0], depth);
      MembersChangedIff(h, all, rest[1..], depth);
      assert (exists i | 0 <= i < |rest| :: !HarmlessMember(h, all, rest[i], depth))
        <==> !HarmlessMember(h, all, rest[0], depth) || exists i | 0 <= i < |rest[1..]| :: !HarmlessMember(h, all, rest[1..][i], depth) by {
        if i :| 0 <= i < |rest[1..]| && !HarmlessMember(h, all, rest[1..][i], depth) { assert !HarmlessMember(h, all, rest[i + 1], depth); }
        if i :| 0 < i < |rest| && !HarmlessMember(h, all, rest[i], depth) { assert !HarmlessMember(h, all, rest[1..][i - 1], depth); }
      }
    }
  }

  lemma {:induction false} MemberChangedIff(h: Host, all: seq<Member>, m: Member, depth: nat)
    requires Sane(h) && depth <= MAX_DEPTH
    ensures WalkMember(h, m, Drawn(all), depth).Some? ==>
              (WalkMember(h, m, Drawn(all), depth).value.changed <==> !HarmlessMember(h, all, m, depth))
    decreases MAX_DEPTH - depth, 1, 0
  {
    hide Sane;
    if !Hidden(h, m, Drawn(all)) {
      if h.isRemote(m.key) && m.value.JString? {
        var remote := JString(h.sanitizeRemote(m.value.s));
        ChangedIffHarmful(h, remote, depth + 1);
        UnchangedIsStripped(h, remote, depth + 1);
      } else {
        ChangedIffHarmful(h, m.value, depth + 1);
      }
    }
  }

  // ---------------------------------------------------------------- how deep the walk goes

  /** What the walk looks at lies no more than 64 levels deep, JSON inside strings counted on. */
  ghost predicate Shallow(h: Host, v: Json, depth: nat)
    decreases 65 - depth
  {
    depth <= 64 &&
    match v
    case JString(s) => var t := h.scrub(s); Inside(h, t).Some? ==> Shallow(h, Inside(h, t).value, depth + 1)
    case JArray(items) => forall i | 0 <= i < |items| :: Shallow(h, items[i], depth + 1)
    case JObject(members) => forall i | 0 <= i < |members| :: ShallowMember(h, members, members[i], depth)
    case _ => true
  }

  ghost predicate ShallowMember(h: Host, all: seq<Member>, m: Member, depth: nat)
    requires depth <= 64
    decreases 65 - depth, 0
  {
    || Hidden(h, m, Drawn(all))
    || Shallow(h, if h.isRemote(m.key) && m.value.JString? then JString(h.sanitizeRemote(m.value.s)) else m.value, depth + 1)
  }

  /** The walk refuses exactly what is deeper. */
  lemma {:induction false} WalkRefusesDeep(h: Host, v: Json, depth: nat)
    ensures Walk(h, v, depth).Some? <==> Shallow(h, v, depth)
    decreases MAX_DEPTH + 1 - depth, 0, 0
  {
    if depth <= MAX_DEPTH {
      match v
      case JString(s) =>
        if Embedded(h, h.scrub(s)).Some? { WalkRefusesDeep(h, Embedded(h, h.scrub(s)).value, depth + 1); }
      case JArray(items) => ItemsRefused(h, items, depth);
      case JObject(members) => MembersRefused(h, members, members, depth);
      case _ =>
    }
  }

  lemma {:induction false} ItemsRefused(h: Host, items: seq<Json>, depth: nat)
    requires depth <= MAX_DEPTH
    ensures WalkItems(h, items, depth).Some? <==> forall i | 0 <= i < |items| :: Shallow(h, items[i], depth + 1)
    decreases MAX_DEPTH - depth, 1, |items|
  {
    if items != [] {
      WalkRefusesDeep(h, items[0], depth + 1);
      ItemsRefused(h, items[1..], depth);
      assert (forall i | 0 <= i < |items| :: Shallow(h, items[i], depth + 1))
        <==> Shallow(h, items[0], depth + 1) && forall i | 0 <= i < |items[1..]| :: Shallow(h, items[1..][i], depth + 1) by {
        assert forall i | 0 < i < |items| :: items[i] == items[1..][i - 1];
      }
    }
  }

  lemma {:induction false} MembersRefused(h: Host, all: seq<Member>, rest: seq<Member>, depth: nat)
    requires depth <= MAX_DEPTH
    ensures WalkMembers(h, rest, Drawn(all), depth).Some? <==> forall i | 0 <= i < |rest| :: ShallowMember(h, all, rest[i], depth)
    decreases MAX_DEPTH - depth, 1, 1 + |rest|
  {
    if rest != [] {
      if h.isRemote(rest[0].key) && rest[0].value.JString? {
        WalkRefusesDeep(h, JString(h.sanitizeRemote(rest[0].value.s)), depth + 1);
      } else {
        WalkRefusesDeep(h, rest[0].value, depth + 1);
      }
      MembersRefused(h, all, rest[1..], depth);
      assert (forall i | 0 <= i < |rest| :: ShallowMember(h, all, rest[i], depth))
        <==> ShallowMember(h, all, rest[0], depth) && forall i | 0 <= i < |rest[1..]| :: ShallowMember(h, all, rest[1..][i], depth) by {
        assert forall i | 0 < i < |rest| :: rest[i] == rest[1..][i - 1];
      }
    }
  }

  // ---------------------------------------------------------------- the walk as it runs

  /** The walk with its flag outside, set wherever a change is seen. */
  class Redactor {
    const h: Host
    var changed: bool

    constructor (h: Host)
      ensures this.h == h && !changed
    {
      this.h := h;
      changed := false;
    }

    /** What a part of the walk must have done. */
    static predicate Did(walked: Option<Walked>, r: Option<Json>, was: bool, now: bool) {
      if walked.None? then r.None? else r == Some(walked.value.value) && now == (was || walked.value.changed)
    }

    method Redact(v: Json, depth: nat) returns (r: Option<Json>)
      modifies this
      ensures Did(Walk(h, v, depth), r, old(changed), changed)
      ensures Sane(h) && r.Some? ==> Shows(h, v, r.value, depth) && (changed <==> old(changed) || !Harmless(h, v, depth))
      decreases MAX_DEPTH + 1 - depth, 0, 0
    {
      hide Sane, Shows, Harmless;
      if Sane(h) {
        WalkShows(h, v, depth);
        ChangedIffHarmful(h, v, depth);
      }
      if depth > MAX_DEPTH { return None; }
      match v {
        case JString(s) => r := RedactString(s, depth);
        case JArray(items) =>
          var out := RedactItems(items, depth);
          return if out.None? then None else Some(JArray(out.value));
        case JObject(members) =>
          var out := RedactMembers(members, Drawn(members), depth);
          return if out.None? then None else Some(JObject(out.value));
        case _ => return Some(v);
      }
    }

    static predicate DidAll<T(==)>(walked: Option<(seq<T>, bool)>, r: Option<seq<T>>, was: bool, now: bool) {
      if walked.None? then r.None? else r == Some(walked.value.0) && now == (was || walked.value.1)
    }

    method RedactItems(items: seq<Json>, depth: nat) returns (r: Option<seq<Json>>)
      requires depth <= MAX_DEPTH
      modifies this
      ensures DidAll(WalkItems(h, items, depth), r, old(changed), changed)
      decreases MAX_DEPTH - depth, 1, 0
    {
      var out: seq<Json> := [];
      assert items[0..] == items;
      for i := 0 to |items|
        invariant WalkedSoFar(WalkItems(h, items, depth), out, WalkItems(h, items[i..], depth), old(changed), changed)
      {
        assert items[i..][0] == items[i] && items[i..][1..] == items[i + 1..];
        var item := Redact(items[i], depth + 1);
        if item.None? { return None; }
        out := out + [item.value];
      }
      assert WalkItems(h, items[|items|..], depth) == Some(([], false)) && out + [] == out;
      return Some(out);
    }

    method RedactMembers(members: seq<Member>, drawn: bool, depth: nat) returns (r: Option<seq<Member>>)
      requires depth <= MAX_DEPTH
      modifies this
      ensures DidAll(WalkMembers(h, members, drawn, depth), r, old(changed), changed)
      decreases MAX_DEPTH - depth, 1, 1
    {
      hide WalkMember, WalkMembers, Drawn;
      var out: seq<Member> := [];
      assert members[0..] == members;
      for i := 0 to |members|
        invariant WalkedSoFar(WalkMembers(h, members, drawn, depth), out, WalkMembers(h, members[i..], drawn, depth),
                              old(changed), changed)
      {
        NextMember(h, members, drawn, depth, i);
        var value := RedactMember(members[i], drawn, depth);
        if value.None? { return None; }
        if members[i].key != PROTO { out := out + [Member(members[i].key, value.value)]; }
      }
      NoMembers(h, drawn, depth);
      assert members[|members|..] == [] && out + [] == out;
      return Some(out);
    }

    static lemma NoMembers(h: Host, drawn: bool, depth: nat)
      requires depth <= MAX_DEPTH
      ensures WalkMembers(h, [], drawn, depth) == Some(([], false))
    {
    }

    static lemma NextMember(h: Host, members: seq<Member>, drawn: bool, depth: nat, i: nat)
      requires depth <= MAX_DEPTH && i < |members|
      ensures WalkMembers(h, members[i..], drawn, depth) ==
                match (WalkMember(h, members[i], drawn, depth), WalkMembers(h, members[i + 1..], drawn, depth))
                case (Some(first), Some((rest, changed))) =>
                  Some(((if members[i].key == PROTO then [] else [Member(members[i].key, first.value)]) + rest,
                        first.changed || changed))
                case _ => None
    {
      assert members[i..][0] == members[i] && members[i..][1..] == members[i + 1..];
    }

    /** The whole result is what is there and what the rest gives. */
    static predicate WalkedSoFar<T(==)>(whole: Option<(seq<T>, bool)>, out: seq<T>, rest: Option<(seq<T>, bool)>, was: bool, now: bool) {
      if rest.None? then whole.None?
      else whole.Some? && whole.value.0 == out + rest.value.0 && (was || whole.value.1) == (now || rest.value.1)
    }

    method RedactString(s: string, depth: nat) returns (r: Option<Json>)
      requires depth <= MAX_DEPTH
      modifies this
      ensures Did(WalkString(h, s, depth), r, old(changed), changed)
      decreases MAX_DEPTH - depth, 1, 0
    {
      var result := h.scrub(s);
      if result != s { changed := true; }
      var embedded := Embedded(h, result);
      if embedded.Some? {
        var sanitized := Redact(embedded.value, depth + 1);
        if sanitized.None? { return None; }
        if h.stringify(sanitized.value) != h.stringify(embedded.value) {
          result := h.stringify(sanitized.value);
          changed := true;
        }
      }
      return Some(JString(result));
    }

    method RedactMember(m: Member, drawn: bool, depth: nat) returns (r: Option<Json>)
      requires depth <= MAX_DEPTH
      modifies this
      ensures Did(WalkMember(h, m, drawn, depth), r, old(changed), changed)
      decreases MAX_DEPTH - depth, 1, 0
    {
      if Hidden(h, m, drawn) {
        var value := if m.value.JNull? then JNull else JString(REDACTED);
        if value != m.value || m.key == PROTO { changed := true; }
        return Some(value);
      }
      if h.isRemote(m.key) && m.value.JString? {
        r := Redact(JString(h.sanitizeRemote(m.value.s)), depth + 1);
        if r.None? { return; }
        if r.value != m.value || m.key == PROTO { changed := true; }
        return;
      }
      r := Redact(m.value, depth + 1);
    }
  }

  // ---------------------------------------------------------------- raw lines beside records

  datatype Code = PartialLine | InvalidJson | InvalidRecord | DepthLimit

  datatype Parsed = Parsed(raw: string, values: seq<Json>, redacted: bool) | Refused(code: Code)

  function SplitLines(t: string): (r: seq<string>)
    ensures r != []
  {
    if t == [] then [[]]
    else if t[0] == '\n' then [[]] + SplitLines(t[1..])
    else
      var rest := SplitLines(t[1..]);
      [[t[0]] + rest[0]] + rest[1..]
  }

  function JoinLines(lines: seq<string>): string
    requires lines != []
  {
    if |lines| == 1 then lines[0] else lines[0] + ['\n'] + JoinLines(lines[1..])
  }

  lemma {:induction false} LinesHaveNoBreaks(t: string)
    ensures forall i | 0 <= i < |SplitLines(t)| :: '\n' !in SplitLines(t)[i]
  {
    if t != [] { LinesHaveNoBreaks(t[1..]); }
  }

  lemma {:induction false} SplitFirstLine(line: string, rest: string)
    requires '\n' !in line
    ensures SplitLines(line + ['\n'] + rest) == [line] + SplitLines(rest) && SplitLines(line) == [line]
  {
    if line == [] {
      assert (line + ['\n'] + rest)[1..] == rest;
    } else {
      SplitFirstLine(line[1..], rest);
      assert (line + ['\n'] + rest)[1..] == line[1..] + ['\n'] + rest;
      assert [line[0]] + line[1..] == line;
    }
  }

  lemma {:induction false} SplitJoinedLines(lines: seq<string>)
    requires lines != [] && forall i | 0 <= i < |lines| :: '\n' !in lines[i]
    ensures SplitLines(JoinLines(lines)) == lines
  {
    if |lines| == 1 {
      SplitFirstLine(lines[0], []);
    } else {
      SplitJoinedLines(lines[1..]);
      SplitFirstLine(lines[0], JoinLines(lines[1..]));
    }
  }

  predicate Deep(v: Json, depth: nat) {
    depth > MAX_DEPTH ||
    match v
    case JArray(items) => exists i | 0 <= i < |items| :: Deep(items[i], depth + 1)
    case JObject(members) => exists i | 0 <= i < |members| :: Deep(members[i].value, depth + 1)
    case _ => false
  }

  /** How many containers are around the innermost value. */
  function Height(v: Json): nat {
    match v
    case JArray(items) => ItemsHeight(items)
    case JObject(members) => MembersHeight(members)
    case _ => 0
  }

  function Larger(a: nat, b: nat): nat { if a < b then b else a }

  function ItemsHeight(items: seq<Json>): nat {
    if items == [] then 0 else Larger(1 + Height(items[0]), ItemsHeight(items[1..]))
  }

  function MembersHeight(members: seq<Member>): nat {
    if members == [] then 0 else Larger(1 + Height(members[0].value), MembersHeight(members[1..]))
  }

  /** The check refuses exactly what is nested beyond the limit. */
  lemma {:induction false} DeepIffNestedTooFar(v: Json, depth: nat)
    ensures Deep(v, depth) <==> depth + Height(v) > 64
    decreases v
  {
    if depth <= MAX_DEPTH {
      match v
      case JArray(items) => ItemsNested(items, depth);
      case JObject(members) => MembersNested(members, depth);
      case _ =>
    }
  }

  lemma {:induction false} ItemsNested(items: seq<Json>, depth: nat)
    requires depth <= MAX_DEPTH
    ensures (exists i | 0 <= i < |items| :: Deep(items[i], depth + 1)) <==> depth + ItemsHeight(items) > MAX_DEPTH
    decreases items
  {
    if items != [] {
      DeepIffNestedTooFar(items[0], depth + 1);
      ItemsNested(items[1..], depth);
      assert forall i | 0 < i < |items| :: items[i] == items[1..][i - 1];
      if i :| 0 <= i < |items[1..]| && Deep(items[1..][i], depth + 1) { assert Deep(items[i + 1], depth + 1); }
    }
  }

  lemma {:induction false} MembersNested(members: seq<Member>, depth: nat)
    requires depth <= MAX_DEPTH
    ensures (exists i | 0 <= i < |members| :: Deep(members[i].value, depth + 1)) <==> depth + MembersHeight(members) > MAX_DEPTH
    decreases members
  {
    if members != [] {
      DeepIffNestedTooFar(members[0].value, depth + 1);
      MembersNested(members[1..], depth);
      assert forall i | 0 < i < |members| :: members[i] == members[1..][i - 1];
      if i :| 0 <= i < |members[1..]| && Deep(members[1..][i].value, depth + 1) { assert Deep(members[i + 1].value, depth + 1); }
    }
  }

  /** Why a line is refused, if it is. */
  function Refusal(h: Host, line: string): Option<Code> {
    match h.parse(line)
    case None => Some(InvalidJson)
    case Some(v) =>
      if !v.JObject? then Some(InvalidRecord)
      else if Height(v) > MAX_DEPTH || Walk(h, v, 0).None? then Some(DepthLimit)
      else None
  }

  /** A line is refused if it is no JSON, no object, or too deep: as it is written, or with the JSON that its strings hold. */
  lemma RefusalIs(h: Host, line: string)
    ensures var parsed := h.parse(line);
            && (Refusal(h, line) == Some(InvalidJson) <==> parsed.None?)
            && (Refusal(h, line) == Some(InvalidRecord) <==> parsed.Some? && !parsed.value.JObject?)
            && (Refusal(h, line).None? <==>
                  parsed.Some? && parsed.value.JObject? && Height(parsed.value) <= 64 && Shallow(h, parsed.value, 0))
  {
    if h.parse(line).Some? { WalkRefusesDeep(h, h.parse(line).value, 0); }
  }

  function FirstRefusal(h: Host, lines: seq<string>): (r: Option<Code>)
    ensures r.None? <==> forall i | 0 <= i < |lines| :: Refusal(h, lines[i]).None?
  {
    if lines == [] then None
    else if Refusal(h, lines[0]).Some? then Refusal(h, lines[0])
    else FirstRefusal(h, lines[1..])
  }

  /** The record of a line that is not refused. */
  function Record(h: Host, line: string): Json
    requires Refusal(h, line).None?
  {
    Walk(h, h.parse(line).value, 0).value.value
  }

  /** What is kept of a line stands for the record: it is the record but for the members that cannot be assigned, and
      exactly the record if it has none. */
  ghost predicate StandsFor(h: Host, line: string, record: Json) {
    && h.parse(line).Some? && Stripped(h.parse(line).value) == record
    && (h.parse(line).value == record <==> Assignable(h.parse(line).value))
  }

  /** The record shows the line's own value. */
  ghost predicate ShownOf(h: Host, line: string, record: Json) {
    h.parse(line).Some? && Shows(h, h.parse(line).value, record, 0)
  }

  /** A line that is not refused: its record shows it, with no secret left, and what is kept of the line stands for that. */
  ghost predicate TakenAs(h: Host, given: string, kept: string, record: Json) {
    && Refusal(h, given).None? && record == Record(h, given) && record.JObject?
    && ShownOf(h, given, record) && Clean(h, record, 0) && StandsFor(h, kept, record)
  }

  ghost predicate HarmlessLine(h: Host, line: string) { h.parse(line).Some? && Harmless(h, h.parse(line).value, 0) }

  /** What the parser keeps of a transcript's lines: each record redacted, and a raw text whose lines stand for those
      records, one to one. It takes every transcript with whole lines none of which is refused. */
  method ParseLines(h: Host, input: string) returns (p: Parsed)
    requires Sane(h)
    ensures input == [] || input[|input| - 1] != '\n' ==> p == Refused(PartialLine)
    ensures input != [] && input[|input| - 1] == '\n' ==>
              var refusal := FirstRefusal(h, SplitLines(input[..|input| - 1]));
              if refusal.Some? then p == Refused(refusal.value) else p.Parsed?
    ensures p.Parsed? ==>
              && input != [] && p.raw != [] && p.raw[|p.raw| - 1] == '\n'
              && var lines, given := SplitLines(p.raw[..|p.raw| - 1]), SplitLines(input[..|input| - 1]);
                 && |lines| == |p.values| == |given|
                 && (forall i | 0 <= i < |lines| :: TakenAs(h, given[i], lines[i], p.values[i]))
                 && (p.redacted <==> exists i | 0 <= i < |lines| :: !HarmlessLine(h, given[i]))
                 && (!p.redacted ==> p.raw == input)
  {
    hide Sane, Refusal, SplitLines, JoinLines, TakenAs, HarmlessLine;
    if input == [] || input[|input| - 1] != '\n' { return Refused(PartialLine); }
    var lines := SplitLines(input[..|input| - 1]);
    LinesHaveNoBreaks(input[..|input| - 1]);
    var values: seq<Json>, raw: seq<string>, redacted := [], [], false;
    assert lines[0..] == lines;
    for i := 0 to |lines|
      invariant |values| == |raw| == i && FirstRefusal(h, lines) == FirstRefusal(h, lines[i..])
      invariant forall j | 0 <= j < i :: TakenAs(h, lines[j], raw[j], values[j]) && '\n' !in raw[j]
      invariant !redacted ==> raw == lines[..i]
      invariant redacted <==> exists j | 0 <= j < i :: !HarmlessLine(h, lines[j])
    {
      assert lines[i..][0] == lines[i] && lines[i..][1..] == lines[i + 1..];
      var one := ParseLine(h, lines[i]);
      if one.Refused? { return one; }
      redacted := redacted || one.redacted;
      raw := raw + [one.raw];
      values := values + one.values;
    }
    SplitJoinedLines(raw);
    assert !redacted ==> raw == lines by { assert lines[..|lines|] == lines; }
    JoinSplitLines(input[..|input| - 1]);
    p := Parsed(JoinLines(raw) + ['\n'], values, redacted);
    assert p.raw[..|p.raw| - 1] == JoinLines(raw);
    assert input == input[..|input| - 1] + ['\n'];
  }

  /** One line: its record, and the raw line to keep. */
  method ParseLine(h: Host, line: string) returns (p: Parsed)
    requires Sane(h) && '\n' !in line
    ensures if Refusal(h, line).Some? then p == Refused(Refusal(h, line).value) else p.Parsed?
    ensures p.Parsed? ==>
              && |p.values| == 1 && TakenAs(h, line, p.raw, p.values[0]) && '\n' !in p.raw
              && (p.redacted <==> !HarmlessLine(h, line)) && (!p.redacted ==> p.raw == line)
  {
    var value := h.parse(line);
    if value.None? { return Refused(InvalidJson); }
    if !value.value.JObject? { return Refused(InvalidRecord); }
    DeepIffNestedTooFar(value.value, 0);
    if Deep(value.value, 0) { return Refused(DepthLimit); }
    var redactor := new Redactor(h);
    var cleaned := redactor.Redact(value.value, 0);
    if cleaned.None? { return Refused(DepthLimit); }
    if !redactor.changed { UnchangedIsEqual(h, value.value, 0); }
    ChangedIffHarmful(h, value.value, 0);
    WalkShows(h, value.value, 0);
    WalkIsClean(h, value.value, 0);
    WalkIsProper(h, value.value, 0);
    StrippedIsSameIff(cleaned.value);
    return Parsed(if redactor.changed then h.stringify(cleaned.value) else line, [cleaned.value], redactor.changed);
  }

  lemma {:induction false} JoinSplitLines(t: string)
    ensures JoinLines(SplitLines(t)) == t
  {
    if t != [] {
      JoinSplitLines(t[1..]);
      var rest := SplitLines(t[1..]);
      if t[0] == '\n' {
        assert SplitLines(t)[1..] == rest;
      } else if |rest| == 1 {
        assert JoinLines(SplitLines(t)) == [t[0]] + rest[0];
      } else {
        assert SplitLines(t)[1..] == rest[1..];
      }
    }
  }
}
