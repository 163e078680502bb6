/** Keyset pagination of the artifact list: pages are cut out of an ordered query by a cursor that holds the last
    row's sort value and id. */
module Paging {
  import opened Wrappers

  /** Text as SQLite compares it: byte by byte. */
  type Text = seq<nat>

  datatype Value = Number(n: real) | String(t: Text)

  datatype Field = Name | CreatedAt | ExpiresAt | TotalBytes | FileCount | Visibility | State | Kind | CreatedByUser

  datatype Direction = Asc | Desc

  /** `foldedName` and `foldedId` are the case-folded name and id that a search looks into. */
  datatype Row = Row(
    id: Text, name: Text, foldedName: Text, foldedId: Text, createdAt: nat, expiresAt: Option<real>,
    totalBytes: nat, fileCount: nat, visibility: Text, state: Text, kind: Text, createdByUser: Text)

  /** `search` is the case-folded search text. */
  datatype Query = Query(
    limit: nat, includeExpired: bool, visibility: Option<Text>, state: Option<Text>, search: Text,
    field: Field, direction: Direction)

  datatype Request = Legacy(limit: nat, includeExpired: bool, visibility: Option<Text>, state: Option<Text>)
                   | Catalogue(query: Query)

  /** A legacy cursor names a second and an id; a catalogue cursor also carries a fingerprint of its query. */
  datatype Cursor = Plain(createdAt: int, id: Text) | Keyed(version: int, query: Query, value: Option<Value>, id: Text)

  const MAX_INTEGER: int := 0x7FFF_FFFF_FFFF_FFFF

  // ---------------------------------------------------------------- orders

  predicate Less(a: Text, b: Text) {
    b != [] && (a == [] || a[0] < b[0] || (a[0] == b[0] && Less(a[1..], b[1..])))
  }

  lemma {:induction false} LessIsTotal(a: Text, b: Text)
    ensures !(Less(a, b) && Less(b, a))
    ensures Less(a, b) || Less(b, a) || a == b
    ensures !Less(a, a)
  {
    if a != [] {
      LessIsTotal(a[1..], if b != [] then b[1..] else []);
      assert a == [a[0]] + a[1..];
      assert b != [] ==> b == [b[0]] + b[1..];
    }
  }

  lemma {:induction false} LessIsTransitive(a: Text, b: Text, c: Text)
    requires Less(a, b) && Less(b, c)
    ensures Less(a, c)
  {
    if a != [] && a[0] == b[0] == c[0] { LessIsTransitive(a[1..], b[1..], c[1..]); }
  }

  /** Numbers come before text. */
  predicate ValueLess(a: Value, b: Value) {
    match (a, b)
    case (Number(x), Number(y)) => x < y
    case (Number(_), String(_)) => true
    case (String(_), Number(_)) => false
    case (String(s), String(t)) => Less(s, t)
  }

  lemma ValueLessIsTotal(a: Value, b: Value)
    ensures !(ValueLess(a, b) && ValueLess(b, a))
    ensures ValueLess(a, b) || ValueLess(b, a) || a == b
    ensures !ValueLess(a, a)
  {
    if a.String? && b.String? { LessIsTotal(a.t, b.t); }
    if a.String? { LessIsTotal(a.t, a.t); }
  }

  lemma ValueLessIsTransitive(a: Value, b: Value, c: Value)
    requires ValueLess(a, b) && ValueLess(b, c)
    ensures ValueLess(a, c)
  {
    if a.String? && b.String? && c.String? { LessIsTransitive(a.t, b.t, c.t); }
  }

  /** The comparison operator of the direction: `a` comes before `b`. */
  predicate TextPrecedes(a: Text, b: Text, d: Direction) { if d.Asc? then Less(a, b) else Less(b, a) }

  predicate ValuePrecedes(a: Value, b: Value, d: Direction) { if d.Asc? then ValueLess(a, b) else ValueLess(b, a) }

  function Column(r: Row, f: Field): Option<Value> {
    match f
    case Name => Some(String(r.name))
    case CreatedAt => Some(Number(r.createdAt as real))
    case ExpiresAt => if r.expiresAt.Some? then Some(Number(r.expiresAt.value)) else None
    case TotalBytes => Some(Number(r.totalBytes as real))
    case FileCount => Some(Number(r.fileCount as real))
    case Visibility => Some(String(r.visibility))
    case State => Some(String(r.state))
    case Kind => Some(String(r.kind))
    case CreatedByUser => Some(String(r.createdByUser))
  }

  /** The order of a listing: by value in its direction, absent values last in both, ties by id. */
  predicate Before(a: Row, b: Row, f: Field, d: Direction) {
    match (Column(a, f), Column(b, f))
    case (None, None) => TextPrecedes(a.id, b.id, d)
    case (None, Some(_)) => false
    case (Some(_), None) => true
    case (Some(x), Some(y)) => ValuePrecedes(x, y, d) || (x == y && TextPrecedes(a.id, b.id, d))
  }

  lemma BeforeIsTotal(a: Row, b: Row, f: Field, d: Direction)
    ensures !(Before(a, b, f, d) && Before(b, a, f, d))
    ensures a.id != b.id ==> Before(a, b, f, d) || Before(b, a, f, d)
  {
    LessIsTotal(a.id, b.id);
    if Column(a, f).Some? && Column(b, f).Some? { ValueLessIsTotal(Column(a, f).value, Column(b, f).value); }
  }

  lemma BeforeIsTransitive(a: Row, b: Row, c: Row, f: Field, d: Direction)
    requires Before(a, b, f, d) && Before(b, c, f, d)
    ensures Before(a, c, f, d)
  {
    if TextPrecedes(a.id, b.id, d) && TextPrecedes(b.id, c.id, d) {
      if d.Asc? { LessIsTransitive(a.id, b.id, c.id); } else { LessIsTransitive(c.id, b.id, a.id); }
    }
    var x, y, z := Column(a, f), Column(b, f), Column(c, f);
    if x.Some? && y.Some? && z.Some? && ValuePrecedes(x.value, y.value, d) && ValuePrecedes(y.value, z.value, d) {
      if d.Asc? { ValueLessIsTransitive(x.value, y.value, z.value); } else { ValueLessIsTransitive(z.value, y.value, x.value); }
    }
  }

  // ---------------------------------------------------------------- the ordered query

  ghost predicate InOrder(s: seq<Row>, f: Field, d: Direction) {
    forall i, j | 0 <= i < j < |s| :: Before(s[i], s[j], f, d)
  }

  predicate DistinctIds(s: seq<Row>) { forall i, j | 0 <= i < j < |s| :: s[i].id != s[j].id }

  function Insert(r: Row, s: seq<Row>, f: Field, d: Direction): seq<Row> {
    if s == [] || Before(r, s[0], f, d) then [r] + s else [s[0]] + Insert(r, s[1..], f, d)
  }

  /** ORDER BY. */
  function Sort(s: seq<Row>, f: Field, d: Direction): seq<Row> {
    if s == [] then [] else Insert(s[0], Sort(s[1..], f, d), f, d)
  }

  lemma {:induction false} InsertSorts(r: Row, s: seq<Row>, f: Field, d: Direction)
    requires InOrder(s, f, d) && forall x | x in s :: x.id != r.id
    ensures InOrder(Insert(r, s, f, d), f, d)
    ensures forall x :: x in Insert(r, s, f, d) <==> x == r || x in s
  {
    if s != [] {
      BeforeIsTotal(r, s[0], f, d);
      if Before(r, s[0], f, d) {
        forall j | 0 <= j < |s| ensures Before(r, s[j], f, d) {
          if j > 0 { BeforeIsTransitive(r, s[0], s[j], f, d); }
        }
      } else {
        InsertSorts(r, s[1..], f, d);
        var t := Insert(r, s[1..], f, d);
        forall j | 0 <= j < |t| ensures Before(s[0], t[j], f, d) {
          assert t[j] == r || t[j] in s[1..];
        }
      }
    }
  }

  lemma {:induction false} SortSorts(s: seq<Row>, f: Field, d: Direction)
    requires DistinctIds(s)
    ensures InOrder(Sort(s, f, d), f, d)
    ensures forall x :: x in Sort(s, f, d) <==> x in s
  {
    if s != [] {
      SortSorts(s[1..], f, d);
      forall x | x in Sort(s[1..], f, d) ensures x.id != s[0].id { assert x in s[1..]; }
      InsertSorts(s[0], Sort(s[1..], f, d), f, d);
    }
  }

  lemma FirstIsIn(s: seq<Row>)
    ensures s != [] ==> s[0] in s
  {
  }

  /** There is only one ordered listing of the same rows. */
  lemma {:induction false} OrderIsUnique(s: seq<Row>, t: seq<Row>, f: Field, d: Direction)
    requires InOrder(s, f, d) && InOrder(t, f, d) && forall x :: x in s <==> x in t
    ensures s == t
  {
    FirstIsIn(s);
    FirstIsIn(t);
    if s != [] {
      assert s[0] in t;
      assert t[0] in s;
      BeforeIsTotal(s[0], t[0], f, d);
      forall x ensures x in s[1..] <==> x in t[1..] {
        BeforeIsTotal(s[0], s[0], f, d);
        if x in s[1..] { assert x in t; }
        if x in t[1..] { assert x in s; }
      }
      OrderIsUnique(s[1..], t[1..], f, d);
    }
  }

  predicate OccursAt(t: Text, part: Text, i: nat) { i + |part| <= |t| && t[i..i + |part|] == part }

  predicate Contains(t: Text, part: Text) { exists i | 0 <= i <= |t| :: OccursAt(t, part, i) }

  function FieldOf(q: Request): Field { if q.Legacy? then CreatedAt else q.query.field }

  function DirectionOf(q: Request): Direction { if q.Legacy? then Asc else q.query.direction }

  function LimitOf(q: Request): nat { if q.Legacy? then q.limit else q.query.limit }

  /** The filters of a request at a given time. */
  predicate Matches(r: Row, q: Request, now: real) {
    var includeExpired := if q.Legacy? then q.includeExpired else q.query.includeExpired;
    var visibility := if q.Legacy? then q.visibility else q.query.visibility;
    var state := if q.Legacy? then q.state else q.query.state;
    && (includeExpired || r.expiresAt.None? || r.expiresAt.value > now)
    && (visibility.Some? ==> r.visibility == visibility.value)
    && (state.Some? ==> r.state == state.value)
    && (q.Catalogue? && q.query.search != [] ==>
          Contains(r.foldedName, q.query.search) || Contains(r.foldedId, q.query.search))
  }

  /** The cursor's condition on a row, as the query states it. */
  predicate Beyond(r: Row, value: Option<Value>, id: Text, f: Field, d: Direction) {
    var x := Column(r, f);
    if value.None? then x.None? && TextPrecedes(id, r.id, d)
    else
      || (f == ExpiresAt && x.None?)
      || (x.Some? && (ValuePrecedes(value.value, x.value, d) || (x.value == value.value && TextPrecedes(id, r.id, d))))
  }

  /** The condition says: after the row the cursor was made from. */
  lemma BeyondIsAfter(last: Row, r: Row, f: Field, d: Direction)
    ensures Beyond(r, Column(last, f), last.id, f, d) <==> Before(last, r, f, d)
  {
  }

  function Filtered(table: seq<Row>, q: Request, now: real, after: Option<(Option<Value>, Text)>): seq<Row> {
    if table == [] then []
    else
      var rest := Filtered(table[1..], q, now, after);
      if Matches(table[0], q, now)
        && (after.None? || Beyond(table[0], after.value.0, after.value.1, FieldOf(q), DirectionOf(q)))
      then [table[0]] + rest else rest
  }

  lemma {:induction false} FilteredHas(table: seq<Row>, q: Request, now: real, after: Option<(Option<Value>, Text)>)
    requires DistinctIds(table)
    ensures DistinctIds(Filtered(table, q, now, after))
    ensures forall x :: x in Filtered(table, q, now, after) <==>
              x in table && Matches(x, q, now)
              && (after.None? || Beyond(x, after.value.0, after.value.1, FieldOf(q), DirectionOf(q)))
  {
    if table != [] {
      FilteredHas(table[1..], q, now, after);
      var rest := Filtered(table[1..], q, now, after);
      forall x | x in rest ensures x.id != table[0].id { assert x in table[1..]; }
      forall x ensures x in table <==> x == table[0] || x in table[1..] {}
    }
  }

  /** Everything a request is about, in its order. */
  function Listing(table: seq<Row>, q: Request, now: real): seq<Row> {
    Sort(Filtered(table, q, now, None), FieldOf(q), DirectionOf(q))
  }

  // ---------------------------------------------------------------- cursors

  function CursorOf(q: Request, last: Row): Cursor {
    if q.Legacy? then Plain(last.createdAt, last.id)
    else Keyed(1, q.query, Column(last, q.query.field), last.id)
  }

  /** A value a cursor of the query can hold. */
  predicate ValidValue(value: Option<Value>, f: Field) {
    match value
    case None => f == ExpiresAt
    case Some(v) =>
      match f
      case CreatedAt => v.Number? && -(MAX_INTEGER as real) <= v.n <= MAX_INTEGER as real
      case ExpiresAt => v.Number? && -(MAX_INTEGER as real) <= v.n <= MAX_INTEGER as real
      case TotalBytes => v.Number? && v.n == v.n.Floor as real && 0.0 <= v.n <= MAX_INTEGER as real
      case FileCount => v.Number? && v.n == v.n.Floor as real && 0.0 <= v.n <= MAX_INTEGER as real
      case _ => v.String?
  }

  /** The boundary a cursor stands for; none if it is malformed or was made for another query. */
  function Decoded(q: Request, c: Cursor): Option<(Option<Value>, Text)> {
    match c
    case Plain(createdAt, id) => if q.Legacy? then Some((Some(Number(createdAt as real)), id)) else None
    case Keyed(version, query, value, id) =>
      if q.Catalogue? && version == 1 && query == q.query && ValidValue(value, q.query.field) then Some((value, id)) else None
  }

  /** The stored numbers are within what SQLite's integers hold. */
  predicate Storable(r: Row) {
    && r.createdAt <= MAX_INTEGER && r.totalBytes <= MAX_INTEGER && r.fileCount <= MAX_INTEGER
    && (r.expiresAt.Some? ==> 0.0 <= r.expiresAt.value <= MAX_INTEGER as real)
  }

  /** A cursor made from a row is accepted by the query it was made for and stands for that row; no other query of
      the catalogue accepts it. */
  lemma CursorRoundTrip(q: Request, other: Request, last: Row)
    requires Storable(last)
    ensures Decoded(q, CursorOf(q, last)) == Some((Column(last, FieldOf(q)), last.id))
    ensures Decoded(other, CursorOf(q, last)).Some? <==> (other == q || (other.Legacy? && q.Legacy?))
  {
  }

  // ---------------------------------------------------------------- pages

  /** The page is the beginning of the rows, with a cursor exactly if that is not all. */
  predicate IsPage(rows: seq<Row>, q: Request, page: seq<Row>, next: Option<Cursor>) {
    if |rows| > LimitOf(q) && LimitOf(q) >= 1
    then page == rows[..LimitOf(q)] && next == Some(CursorOf(q, rows[LimitOf(q) - 1]))
    else page == rows && next.None?
  }

  /** One page: at most `limit` rows beyond the cursor, and a cursor if there are more. */
  method List(table: seq<Row>, q: Request, now: real, after: Option<Cursor>)
    returns (ok: bool, page: seq<Row>, next: Option<Cursor>)
    requires LimitOf(q) >= 1
    ensures ok <==> after.None? || Decoded(q, after.value).Some?
    ensures ok ==> IsPage(Sort(Filtered(table, q, now, if after.None? then None else Decoded(q, after.value)),
                               FieldOf(q), DirectionOf(q)), q, page, next)
    ensures var limit := if q.Legacy? then q.limit else q.query.limit;
            |page| <= limit && (next.Some? ==> |page| == limit)
  {
    page, next := [], None;
    var boundary := None;
    if after.Some? {
      boundary := Decoded(q, after.value);
      if boundary.None? { return false, page, next; }
    }
    var rows := Sort(Filtered(table, q, now, boundary), FieldOf(q), DirectionOf(q));
    var items := if |rows| > LimitOf(q) + 1 then rows[..LimitOf(q) + 1] else rows;
    var more := |items| > LimitOf(q);
    page := if more then items[..LimitOf(q)] else items;
    if more {
      assert page == rows[..LimitOf(q)];
      next := Some(CursorOf(q, page[|page| - 1]));
    }
    return true, page, next;
  }

  /** The rows beyond the k-th row of the listing are the rest of the listing. */
  lemma RestOfListing(table: seq<Row>, q: Request, now: real, k: nat)
    requires DistinctIds(table) && 0 < k <= |Listing(table, q, now)|
    ensures var last := Listing(table, q, now)[k - 1];
            Sort(Filtered(table, q, now, Some((Column(last, FieldOf(q)), last.id))), FieldOf(q), DirectionOf(q))
            == Listing(table, q, now)[k..]
  {
    var f, d := FieldOf(q), DirectionOf(q);
    var all := Listing(table, q, now);
    var last := all[k - 1];
    var boundary := Some((Column(last, f), last.id));
    FilteredHas(table, q, now, None);
    FilteredHas(table, q, now, boundary);
    SortSorts(Filtered(table, q, now, None), f, d);
    SortSorts(Filtered(table, q, now, boundary), f, d);
    var rest := Sort(Filtered(table, q, now, boundary), f, d);
    forall x ensures x in rest <==> x in all[k..] {
      BeyondIsAfter(last, x, f, d);
      if x in all[k..] {
        var i :| k <= i < |all| && all[i] == x;
        assert Before(all[k - 1], all[i], f, d);
      }
      if x in rest {
        assert x in all;
        var i :| 0 <= i < |all| && all[i] == x;
        if i < k { BeforeIsTotal(all[i], all[k - 1], f, d); }
      }
    }
    OrderIsUnique(rest, all[k..], f, d);
  }

  /** After the first k rows of a listing, one more page. */
  lemma PageExtends(all: seq<Row>, k: nat, q: Request, page: seq<Row>, next: Option<Cursor>)
    requires k <= |all| && LimitOf(q) >= 1 && IsPage(all[k..], q, page, next)
    ensures k + |page| <= |all| && all[..k] + page == all[..k + |page|]
    ensures next.Some? ==> |page| > 0 && next == Some(CursorOf(q, all[k + |page| - 1]))
    ensures next.None? ==> k + |page| == |all|
  {
    assert page == all[k..][..|page|] == all[k..k + |page|];
  }

  /** The page that follows the first k rows of the listing. */
  method Follow(table: seq<Row>, q: Request, now: real, c: Cursor, ghost k: nat)
    returns (page: seq<Row>, next: Option<Cursor>)
    requires LimitOf(q) >= 1 && DistinctIds(table) && 0 < k <= |Listing(table, q, now)|
    requires Storable(Listing(table, q, now)[k - 1]) && c == CursorOf(q, Listing(table, q, now)[k - 1])
    ensures IsPage(Listing(table, q, now)[k..], q, page, next)
  {
    RestOfListing(table, q, now, k);
    CursorRoundTrip(q, q, Listing(table, q, now)[k - 1]);
    var ok: bool;
    ok, page, next := List(table, q, now, Some(c));
  }

  /** Following the cursors from the first page to the last gives every matching row once, in order. */
  method Walk(table: seq<Row>, q: Request, now: real) returns (rows: seq<Row>)
    requires LimitOf(q) >= 1 && DistinctIds(table) && forall r | r in table :: Storable(r)
    ensures rows == Listing(table, q, now)
  {
    ghost var all := Listing(table, q, now);
    AllStorable(table, q, now);
    var ok, page, next := List(table, q, now, None);
    assert all[0..] == all;
    PageExtends(all, 0, q, page, next);
    rows := page;
    while next.Some?
      invariant |rows| <= |all| && rows == all[..|rows|]
      invariant if next.Some? then 0 < |rows| && next == Some(CursorOf(q, all[|rows| - 1])) else |rows| == |all|
      decreases |all| - |rows| + if next.Some? then 1 else 0
    {
      page, next := Follow(table, q, now, next.value, |rows|);
      PageExtends(all, |rows|, q, page, next);
      rows := rows + page;
    }
  }

  lemma AllStorable(table: seq<Row>, q: Request, now: real)
    requires DistinctIds(table) && forall r | r in table :: Storable(r)
    ensures forall r | r in Listing(table, q, now) :: Storable(r)
  {
    FilteredHas(table, q, now, None);
    SortSorts(Filtered(table, q, now, None), FieldOf(q), DirectionOf(q));
  }

  /** What a listing is: the matching rows of the table, each once, every earlier one before every later. */
  lemma ListingIsExact(table: seq<Row>, q: Request, now: real)
    requires DistinctIds(table)
    ensures forall r :: r in Listing(table, q, now) <==> r in table && Matches(r, q, now)
    ensures InOrder(Listing(table, q, now), FieldOf(q), DirectionOf(q))
    ensures DistinctIds(Listing(table, q, now))
  {
    FilteredHas(table, q, now, None);
    SortSorts(Filtered(table, q, now, None), FieldOf(q), DirectionOf(q));
    var all := Listing(table, q, now);
    forall i, j | 0 <= i < j < |all| ensures all[i].id != all[j].id {
      assert Before(all[i], all[j], FieldOf(q), DirectionOf(q));
      assert all[i] in all && all[j] in all;
      var a :| 0 <= a < |table| && table[a] == all[i];
      var b :| 0 <= b < |table| && table[b] == all[j];
      BeforeIsTotal(all[i], all[i], FieldOf(q), DirectionOf(q));
    }
  }

  /** To contain a text is to be something, the text, and something. */
  lemma ContainsIff(t: Text, part: Text)
    ensures Contains(t, part) <==> exists before: Text, after: Text :: t == before + part + after
  {
    if Contains(t, part) {
      var i :| 0 <= i <= |t| && OccursAt(t, part, i);
      assert t == t[..i] + part + t[i + |part|..];
    }
    if before: Text, after: Text :| t == before + part + after {
      assert OccursAt(before + part + after, part, |before|);
    }
  }

  /** A filter that is absent or that the value meets. */
  predicate Meets(wanted: Option<Text>, has: Text) { wanted in {None, Some(has)} }

  /** What a listing lets through: nothing that has expired unless that is asked for, only what has the visibility and
      the state asked for, and in a search of the catalogue only what holds the text in its name or id. */
  lemma FiltersAreExact(table: seq<Row>, q: Query, now: real, r: Row)
    requires DistinctIds(table) && r in table
    ensures var passes := (r.expiresAt.Some? && r.expiresAt.value <= now ==> q.includeExpired)
                          && Meets(q.visibility, r.visibility) && Meets(q.state, r.state);
            && (r in Listing(table, Legacy(q.limit, q.includeExpired, q.visibility, q.state), now) <==> passes)
            && (r in Listing(table, Catalogue(q), now) <==>
                  passes && (q.search == [] || (exists a: Text, b: Text :: r.foldedName == a + q.search + b)
                             || (exists a: Text, b: Text :: r.foldedId == a + q.search + b)))
  {
    hide Contains, Listing;
    var legacy := Legacy(q.limit, q.includeExpired, q.visibility, q.state);
    ListingIsExact(table, legacy, now);
    assert r in Listing(table, legacy, now) <==> Matches(r, legacy, now);
    ListingIsExact(table, Catalogue(q), now);
    ContainsIff(r.foldedName, q.search);
    ContainsIff(r.foldedId, q.search);
  }

  /** Less in the order asked for: rising or falling. */
  predicate Sorted(less: bool, greater: bool, d: Direction, idLess: bool, idGreater: bool) {
    if d.Asc? then less || (!greater && idLess) else greater || (!less && idGreater)
  }

  /** The order of a listing, column by column: two rows stand by their values, rising or falling, and by their ids
      where those are the same; what never expires comes last both ways. */
  lemma ListingIsSorted(table: seq<Row>, q: Query, now: real, i: nat, j: nat)
    requires DistinctIds(table) && i < j < |Listing(table, Catalogue(q), now)|
    ensures var a, b := Listing(table, Catalogue(q), now)[i], Listing(table, Catalogue(q), now)[j];
            var d, up, down := q.direction, Less(a.id, b.id), Less(b.id, a.id);
            match q.field
            case Name => Sorted(Less(a.name, b.name), Less(b.name, a.name), d, up, down)
            case CreatedAt => Sorted(a.createdAt < b.createdAt, b.createdAt < a.createdAt, d, up, down)
            case TotalBytes => Sorted(a.totalBytes < b.totalBytes, b.totalBytes < a.totalBytes, d, up, down)
            case FileCount => Sorted(a.fileCount < b.fileCount, b.fileCount < a.fileCount, d, up, down)
            case Visibility => Sorted(Less(a.visibility, b.visibility), Less(b.visibility, a.visibility), d, up, down)
            case State => Sorted(Less(a.state, b.state), Less(b.state, a.state), d, up, down)
            case Kind => Sorted(Less(a.kind, b.kind), Less(b.kind, a.kind), d, up, down)
            case CreatedByUser => Sorted(Less(a.createdByUser, b.createdByUser), Less(b.createdByUser, a.createdByUser), d, up, down)
            case ExpiresAt =>
              if a.expiresAt.Some? && b.expiresAt.Some?
              then Sorted(a.expiresAt.value < b.expiresAt.value, b.expiresAt.value < a.expiresAt.value, d, up, down)
              else b.expiresAt.None? && (a.expiresAt.Some? || Sorted(false, false, d, up, down))
  {
    hide Less, Listing;
    ListingIsExact(table, Catalogue(q), now);
    var a, b := Listing(table, Catalogue(q), now)[i], Listing(table, Catalogue(q), now)[j];
    assert Before(a, b, q.field, q.direction);
    if Column(a, q.field).Some? && Column(b, q.field).Some? {
      ValueLessIsTotal(Column(a, q.field).value, Column(b, q.field).value);
    }
  }

  /** The older listing goes by time of creation, then by id. */
  lemma LegacyIsSorted(table: seq<Row>, q: Request, now: real, i: nat, j: nat)
    requires DistinctIds(table) && q.Legacy? && i < j < |Listing(table, q, now)|
    ensures var a, b := Listing(table, q, now)[i], Listing(table, q, now)[j];
            a.createdAt < b.createdAt || (a.createdAt == b.createdAt && Less(a.id, b.id))
  {
    ListingIsExact(table, q, now);
    assert Before(Listing(table, q, now)[i], Listing(table, q, now)[j], CreatedAt, Asc);
  }

  /** The texts agree up to a place where the first ends or has the smaller unit. */
  predicate SmallerAt(a: Text, b: Text, k: nat) { k <= |a| && k < |b| && a[..k] == b[..k] && (k == |a| || a[k] < b[k]) }

  lemma FirstsAgree(a: Text, b: Text, k: nat)
    requires SmallerAt(a, b, k) && k > 0
    ensures a != [] && a[0] == b[0]
  {
    assert a[0] == a[..k][0] == b[..k][0];
  }

  /** Text goes by its first difference, and a beginning of a text comes before the text. */
  lemma {:induction false} LessIff(a: Text, b: Text)
    ensures Less(a, b) <==> exists k: nat :: SmallerAt(a, b, k)
  {
    if a != [] && b != [] && a[0] == b[0] {
      LessIff(a[1..], b[1..]);
      if k: nat :| SmallerAt(a[1..], b[1..], k) {
        assert a[..k + 1] == [a[0]] + a[1..][..k] && b[..k + 1] == [b[0]] + b[1..][..k];
        assert SmallerAt(a, b, k + 1);
      }
      if k: nat :| SmallerAt(a, b, k) {
        assert k > 0;
        assert a[1..][..k - 1] == a[..k][1..] && b[1..][..k - 1] == b[..k][1..];
        assert SmallerAt(a[1..], b[1..], k - 1);
      }
    } else {
      if Less(a, b) { assert SmallerAt(a, b, 0); }
      if k: nat :| SmallerAt(a, b, k) {
        if k > 0 { FirstsAgree(a, b, k); }
      }
    }
  }
}
