/** Chunk ranges: which ranges the server accepts, how it reports the received ones, and how the
    client works out from that report which chunks it still has to send. */
module Chunks {

  datatype RangeCheck = Accepted | InvalidRange | TooLarge

  /** The server's range check, branch for branch. */
  function ValidateChunkRange(chunkBytes: nat, size: nat, offset: int, length: int): RangeCheck {
    if length <= 0 then InvalidRange
    else if length > chunkBytes then TooLarge
    else if offset < 0 || offset + length > size then InvalidRange
    else if size == 0 then InvalidRange
    else if offset + length < size then
      if length != chunkBytes || offset % chunkBytes != 0 then InvalidRange else Accepted
    else
      if size > chunkBytes && offset % chunkBytes != 0 then InvalidRange
      else if size <= chunkBytes && offset != 0 then InvalidRange
      else Accepted
  }

  function Min(a: int, b: int): int { if a < b then a else b }

  function Max(a: int, b: int): int { if a < b then b else a }

  /** Cell k of the grid that a chunk size lays over a file. */
  predicate IsCell(chunkBytes: nat, size: nat, offset: int, length: int) {
    && chunkBytes > 0
    && 0 <= offset < size
    && offset % chunkBytes == 0
    && length == Min(chunkBytes, size - offset)
  }

  /** The range check accepts the cells of one grid, all of them and nothing else. */
  lemma AcceptsExactlyTheCells(chunkBytes: nat, size: nat, offset: int, length: int)
    requires chunkBytes > 0
    ensures ValidateChunkRange(chunkBytes, size, offset, length).Accepted?
       <==> IsCell(chunkBytes, size, offset, length)
  {
    if ValidateChunkRange(chunkBytes, size, offset, length).Accepted? && offset + length < size {
      assert size - offset > chunkBytes;
    }
    if IsCell(chunkBytes, size, offset, length) && size <= chunkBytes {
      AlignedBelowOneChunk(offset, chunkBytes);
    }
  }

  lemma AlignedBelowOneChunk(offset: int, chunkBytes: nat)
    requires 0 <= offset < chunkBytes && offset % chunkBytes == 0
    ensures offset == 0
  {
  }

  lemma PositiveMultiple(c: int, k: int)
    requires c > 0 && c * k > 0
    ensures c * k >= c && k >= 1
  {
  }

  lemma NoSmallMultiple(c: int, d: int)
    requires c > 0 && -c < c * d < c
    ensures d == 0
  {
  }

  lemma QuotientIsUnique(x: int, c: int, q: int, r: int)
    requires c > 0 && x == c * q + r && 0 <= r < c
    ensures x / c == q && x % c == r
  {
    var d := x / c - q;
    assert x == c * (x / c) + x % c;
    assert c * d == c * (x / c) - c * q;
    NoSmallMultiple(c, d);
  }

  lemma AlignedApart(a: int, b: int, chunkBytes: nat)
    requires chunkBytes > 0 && 0 <= a < b && a % chunkBytes == 0 && b % chunkBytes == 0
    ensures a + chunkBytes <= b
  {
    var i, j := a / chunkBytes, b / chunkBytes;
    assert a == chunkBytes * i && b == chunkBytes * j;
    assert chunkBytes * (j - i) == chunkBytes * j - chunkBytes * i;
    PositiveMultiple(chunkBytes, j - i);
  }

  lemma NextAligned(off: int, chunkBytes: nat)
    requires chunkBytes > 0 && 0 <= off && off % chunkBytes == 0
    ensures (off + chunkBytes) % chunkBytes == 0
  {
    assert off == chunkBytes * (off / chunkBytes);
    assert chunkBytes * (off / chunkBytes + 1) == chunkBytes * (off / chunkBytes) + chunkBytes;
    QuotientIsUnique(off + chunkBytes, chunkBytes, off / chunkBytes + 1, 0);
  }

  /** Two accepted chunks of one file are the same cell or do not overlap. */
  lemma CellsEqualOrDisjoint(chunkBytes: nat, size: nat, o1: int, l1: int, o2: int, l2: int)
    requires ValidateChunkRange(chunkBytes, size, o1, l1).Accepted?
    requires ValidateChunkRange(chunkBytes, size, o2, l2).Accepted?
    ensures (o1 == o2 && l1 == l2) || o1 + l1 <= o2 || o2 + l2 <= o1
  {
    AcceptsExactlyTheCells(chunkBytes, size, o1, l1);
    AcceptsExactlyTheCells(chunkBytes, size, o2, l2);
    if o1 < o2 {
      AlignedApart(o1, o2, chunkBytes);
    } else if o2 < o1 {
      AlignedApart(o2, o1, chunkBytes);
    }
  }

  // ---------------------------------------------------------------- intervals

  /** A half-open interval of byte positions. */
  datatype Interval = Interval(start: int, end: int)

  predicate Within(x: int, i: Interval) { i.start <= x < i.end }

  ghost predicate Covers(s: seq<Interval>, x: int) {
    exists i | 0 <= i < |s| :: Within(x, s[i])
  }

  /** The order in which the source sorts pairs. */
  predicate Before(a: Interval, b: Interval) {
    a.start < b.start || (a.start == b.start && a.end <= b.end)
  }

  predicate SortedByStart(s: seq<Interval>) {
    forall i, j | 0 <= i < j < |s| :: s[i].start <= s[j].start
  }

  function Insert(x: Interval, s: seq<Interval>): seq<Interval> {
    if s == [] then [x]
    else if Before(x, s[0]) then [x] + s
    else [s[0]] + Insert(x, s[1..])
  }

  function Sort(s: seq<Interval>): seq<Interval> {
    if s == [] then [] else Insert(s[0], Sort(s[1..]))
  }

  lemma {:induction false} InsertSorts(x: Interval, s: seq<Interval>)
    requires SortedByStart(s)
    ensures forall y :: y in Insert(x, s) <==> y == x || y in s
    ensures SortedByStart(Insert(x, s))
  {
    if s == [] {
    } else if Before(x, s[0]) {
    } else {
      InsertSorts(x, s[1..]);
      var t := Insert(x, s[1..]);
      assert forall y :: y in s <==> y == s[0] || y in s[1..];
      forall i | 0 <= i < |t| ensures s[0].start <= t[i].start {
        assert t[i] in t;
      }
    }
  }

  lemma {:induction false} SortSorts(s: seq<Interval>)
    ensures forall y :: y in Sort(s) <==> y in s
    ensures SortedByStart(Sort(s))
  {
    if s == [] {
    } else {
      SortSorts(s[1..]);
      InsertSorts(s[0], Sort(s[1..]));
      assert forall y :: y in s <==> y == s[0] || y in s[1..];
    }
  }

  /** Sorted, non-empty and never touching: what a canonical range report looks like. */
  predicate Canonical(s: seq<Interval>) {
    && (forall i | 0 <= i < |s| :: s[i].start < s[i].end)
    && (forall i, j | 0 <= i < j < |s| :: s[i].end < s[j].start)
  }

  predicate Proper(s: seq<Interval>) {
    forall i | i in s :: i.start < i.end
  }

  /** One step of the merge: fold the next interval, in order of starts, into what is merged so far. */
  function MergeOne(merged: seq<Interval>, next: Interval): seq<Interval> {
    var last := |merged| - 1;
    if last >= 0 && next.start <= merged[last].end then
      merged[..last] + [Interval(merged[last].start, Max(merged[last].end, next.end))]
    else
      merged + [next]
  }

  ghost predicate AllStartBy(merged: seq<Interval>, bound: int) {
    forall i | 0 <= i < |merged| :: merged[i].start <= bound
  }

  lemma MergeOneCovers(merged: seq<Interval>, next: Interval)
    requires AllStartBy(merged, next.start)
    ensures forall x :: Covers(MergeOne(merged, next), x) <==> Covers(merged, x) || Within(x, next)
  {
    var last := |merged| - 1;
    if last >= 0 && next.start <= merged[last].end {
      ExtendLast(merged, next);
    } else {
      CoversAppend(merged, next);
    }
  }

  lemma MergeOneCanonical(merged: seq<Interval>, next: Interval)
    requires Canonical(merged) && next.start < next.end && AllStartBy(merged, next.start)
    ensures Canonical(MergeOne(merged, next))
  {
  }

  /** Merges overlapping and touching intervals. The result covers the same positions, and when the
      intervals are non-empty it is canonical. */
  method Coalesce(intervals: seq<Interval>) returns (merged: seq<Interval>)
    ensures forall x :: Covers(merged, x) <==> Covers(intervals, x)
    ensures Proper(intervals) ==> Canonical(merged)
  {
    hide Covers, MergeOne, Canonical, Sort;
    var sorted := Sort(intervals);
    SortSorts(intervals);
    NothingMerged();
    merged := [];
    for n := 0 to |sorted|
      invariant forall x :: Covers(merged, x) <==> Covers(sorted[..n], x)
      invariant Proper(intervals) ==> Canonical(merged)
      invariant n < |sorted| ==> AllStartBy(merged, sorted[n].start)
    {
      assert sorted[n] in intervals;
      MergeOneCovers(merged, sorted[n]);
      CoversAppend(sorted[..n], sorted[n]);
      assert sorted[..n + 1] == sorted[..n] + [sorted[n]];
      if Proper(intervals) {
        MergeOneCanonical(merged, sorted[n]);
      }
      if n + 1 < |sorted| { MergedStartsBy(merged, sorted[n], sorted[n + 1].start); }
      merged := MergeOne(merged, sorted[n]);
    }
    assert sorted[..|sorted|] == sorted;
    SameCover(sorted, intervals);
  }

  lemma MergedStartsBy(merged: seq<Interval>, next: Interval, bound: int)
    requires AllStartBy(merged, next.start) && next.start <= bound
    ensures AllStartBy(MergeOne(merged, next), bound)
  {
  }

  lemma NothingMerged()
    ensures forall x :: !Covers([], x)
    ensures Canonical([])
    ensures forall start: nat :: AllStartBy([], start)
  {
  }

  lemma CoversAppend(s: seq<Interval>, i: Interval)
    ensures forall x :: Covers(s + [i], x) <==> Covers(s, x) || Within(x, i)
  {
    var t := s + [i];
    forall x ensures Covers(t, x) <==> Covers(s, x) || Within(x, i) {
      if Covers(s, x) {
        var k :| 0 <= k < |s| && Within(x, s[k]);
        assert t[k] == s[k];
      }
      if Within(x, i) {
        assert t[|s|] == i;
      }
    }
  }

  /** Growing the last interval over one that starts inside or next to it adds exactly that one. */
  lemma ExtendLast(s: seq<Interval>, i: Interval)
    requires |s| > 0
    requires s[|s| - 1].start <= i.start <= s[|s| - 1].end
    ensures var last := s[|s| - 1];
            forall x :: Covers(s[..|s| - 1] + [Interval(last.start, Max(last.end, i.end))], x)
                    <==> Covers(s, x) || Within(x, i)
  {
    var last := s[|s| - 1];
    assert s == s[..|s| - 1] + [last];
    CoversAppend(s[..|s| - 1], last);
    CoversAppend(s[..|s| - 1], Interval(last.start, Max(last.end, i.end)));
  }

  lemma SameCover(s: seq<Interval>, t: seq<Interval>)
    requires forall i :: i in s <==> i in t
    ensures forall x :: Covers(s, x) <==> Covers(t, x)
  {
    forall x ensures Covers(s, x) <==> Covers(t, x) {
      if Covers(s, x) {
        var i :| 0 <= i < |s| && Within(x, s[i]);
        assert s[i] in t;
        var j :| 0 <= j < |t| && t[j] == s[i];
        assert Within(x, t[j]);
      }
      if Covers(t, x) {
        var i :| 0 <= i < |t| && Within(x, t[i]);
        assert t[i] in s;
        var j :| 0 <= j < |s| && s[j] == t[i];
        assert Within(x, s[j]);
      }
    }
  }

  // ------------------------------------------------- what the client still has to send

  predicate ContainedInOne(s: seq<Interval>, start: int, end: int) {
    exists i | 0 <= i < |s| :: s[i].start <= start && end <= s[i].end
  }

  /** A canonical report contains a non-empty range in one interval exactly when it covers all of it. */
  lemma {:induction false} CoveredIsContained(s: seq<Interval>, start: int, end: int)
    requires Canonical(s) && start < end
    ensures ContainedInOne(s, start, end) <==> forall x | start <= x < end :: Covers(s, x)
    decreases end - start
  {
    if ContainedInOne(s, start, end) {
      var i :| 0 <= i < |s| && s[i].start <= start && end <= s[i].end;
      forall x | start <= x < end ensures Covers(s, x) { assert Within(x, s[i]); }
    }
    if forall x | start <= x < end :: Covers(s, x) {
      assert Covers(s, end - 1);
      var j :| 0 <= j < |s| && Within(end - 1, s[j]);
      if end - start > 1 {
        CoveredIsContained(s, start, end - 1);
        var i :| 0 <= i < |s| && s[i].start <= start && end - 1 <= s[i].end;
        assert i == j;
      }
      assert s[j].start <= start && end <= s[j].end;
    }
  }

  /** The receipts of one file: for each chunk offset the length of the chunk received there. */
  type ReceiptIndex = map<int, int>

  ghost predicate OnGrid(chunkBytes: nat, size: nat, receipts: ReceiptIndex) {
    forall o | o in receipts :: ValidateChunkRange(chunkBytes, size, o, receipts[o]).Accepted?
  }

  /** A list of the intervals of the receipts, one for each, in any order. */
  ghost predicate Lists(intervals: seq<Interval>, receipts: ReceiptIndex) {
    && (forall i | i in intervals :: i.start in receipts.Keys && i.end == i.start + receipts[i.start])
    && (forall o | o in receipts :: Interval(o, o + receipts[o]) in intervals)
  }

  ghost predicate ReceiptCovers(receipts: ReceiptIndex, x: int) {
    exists o :: o in receipts && o <= x < o + receipts[o]
  }

  lemma ListsCover(intervals: seq<Interval>, receipts: ReceiptIndex)
    requires Lists(intervals, receipts)
    ensures forall x :: Covers(intervals, x) <==> ReceiptCovers(receipts, x)
  {
    forall x ensures Covers(intervals, x) <==> ReceiptCovers(receipts, x) {
      if Covers(intervals, x) {
        var i :| 0 <= i < |intervals| && Within(x, intervals[i]);
        assert intervals[i] in intervals;
        assert intervals[i].start in receipts && intervals[i].start <= x < intervals[i].start + receipts[intervals[i].start];
      }
      if ReceiptCovers(receipts, x) {
        var o :| o in receipts && o <= x < o + receipts[o];
        var i :| 0 <= i < |intervals| && intervals[i] == Interval(o, o + receipts[o]);
        assert Within(x, intervals[i]);
      }
    }
  }

  /** All positions of a cell are covered by receipts exactly when the cell has its own receipt. */
  lemma CellCoveredIffReceived(chunkBytes: nat, size: nat, receipts: ReceiptIndex, offset: nat, length: nat)
    requires chunkBytes > 0 && IsCell(chunkBytes, size, offset, length) && OnGrid(chunkBytes, size, receipts)
    ensures (forall x | offset <= x < offset + length :: ReceiptCovers(receipts, x)) <==> offset in receipts
  {
    AcceptsExactlyTheCells(chunkBytes, size, offset, length);
    if forall x | offset <= x < offset + length :: ReceiptCovers(receipts, x) {
      assert ReceiptCovers(receipts, offset);
      var o :| o in receipts && o <= offset < o + receipts[o];
      CellsEqualOrDisjoint(chunkBytes, size, o, receipts[o], offset, length);
    }
    if offset in receipts {
      AcceptsExactlyTheCells(chunkBytes, size, offset, receipts[offset]);
      forall x | offset <= x < offset + length ensures ReceiptCovers(receipts, x) {
        assert offset in receipts && offset <= x < offset + receipts[offset];
      }
    }
  }

  /** The cells from `off` on that have no receipt. */
  ghost function MissingFrom(chunkBytes: nat, size: nat, receipts: ReceiptIndex, off: nat): seq<Interval>
    requires chunkBytes > 0
    decreases size - off
  {
    if off >= size then []
    else
      var length := Min(chunkBytes, size - off);
      (if off in receipts then [] else [Interval(off, off + length)])
      + MissingFrom(chunkBytes, size, receipts, off + length)
  }

  /** The cells from `off` on that no single reported range contains. */
  ghost function UncoveredFrom(chunkBytes: nat, size: nat, received: seq<Interval>, off: nat): seq<Interval>
    requires chunkBytes > 0
    decreases size - off
  {
    if off >= size then []
    else
      var length := Min(chunkBytes, size - off);
      (if ContainedInOne(received, off, off + length) then [] else [Interval(off, off + length)])
      + UncoveredFrom(chunkBytes, size, received, off + length)
  }

  /** The client's walk over the grid, for whatever ranges it was told. */
  method MissingChunks(size: nat, chunkBytes: nat, received: seq<Interval>) returns (out: seq<Interval>)
    requires chunkBytes > 0
    ensures out == UncoveredFrom(chunkBytes, size, received, 0)
  {
    out := [];
    var off := 0;
    while off < size
      invariant 0 <= off <= size
      invariant UncoveredFrom(chunkBytes, size, received, 0) == out + UncoveredFrom(chunkBytes, size, received, off)
    {
      var length := Min(chunkBytes, size - off);
      ghost var rest := UncoveredFrom(chunkBytes, size, received, off + length);
      if !ContainedInOne(received, off, off + length) {
        assert out + ([Interval(off, off + length)] + rest) == (out + [Interval(off, off + length)]) + rest;
        out := out + [Interval(off, off + length)];
      } else {
        assert out + ([] + rest) == out + rest;
      }
      off := off + length;
    }
  }

  /** Read against a canonical report of the receipts, the cells the client finds uncovered are the cells
      without a receipt. */
  lemma {:induction false} UncoveredIsMissing(
    chunkBytes: nat, size: nat, received: seq<Interval>, receipts: ReceiptIndex, off: nat)
    requires chunkBytes > 0 && (off < size ==> off % chunkBytes == 0)
    requires OnGrid(chunkBytes, size, receipts)
    requires Canonical(received) && forall x :: Covers(received, x) <==> ReceiptCovers(receipts, x)
    ensures UncoveredFrom(chunkBytes, size, received, off) == MissingFrom(chunkBytes, size, receipts, off)
    decreases size - off
  {
    if off < size {
      var length := Min(chunkBytes, size - off);
      CellCoveredIffReceived(chunkBytes, size, receipts, off, length);
      CoveredIsContained(received, off, off + length);
      NextAligned(off, chunkBytes);
      UncoveredIsMissing(chunkBytes, size, received, receipts, off + length);
    }
  }

  /** A cell is listed as missing exactly when it has no receipt, and nothing but cells is listed. */
  lemma {:induction false} MissingFromIsExact(chunkBytes: nat, size: nat, receipts: ReceiptIndex, off: nat)
    requires chunkBytes > 0 && (off < size ==> off % chunkBytes == 0)
    ensures forall i: Interval :: i in MissingFrom(chunkBytes, size, receipts, off) <==>
              off <= i.start && IsCell(chunkBytes, size, i.start, i.end - i.start) && i.start !in receipts
    decreases size - off
  {
    if off < size {
      var length := Min(chunkBytes, size - off);
      NextAligned(off, chunkBytes);
      MissingFromIsExact(chunkBytes, size, receipts, off + length);
      forall i: Interval
        ensures i in MissingFrom(chunkBytes, size, receipts, off)
           <==> off <= i.start && IsCell(chunkBytes, size, i.start, i.end - i.start) && i.start !in receipts
      {
        if off < i.start && IsCell(chunkBytes, size, i.start, i.end - i.start) {
          AlignedApart(off, i.start, chunkBytes);
        }
      }
    }
  }

  // ---------------------------------------------------------------- received bytes

  ghost function TotalFrom(chunkBytes: nat, size: nat, receipts: ReceiptIndex, off: nat): nat
    requires chunkBytes > 0
    decreases size - off
  {
    if off >= size then 0
    else
      var length := Min(chunkBytes, size - off);
      (if off in receipts then length else 0) + TotalFrom(chunkBytes, size, receipts, off + length)
  }

  function TotalLength(s: seq<Interval>): int {
    if s == [] then 0 else (s[0].end - s[0].start) + TotalLength(s[1..])
  }

  /** How many of the positions from `lo` to `hi` a canonical report covers. */
  ghost function CountCovered(s: seq<Interval>, lo: int, hi: int): nat
    decreases hi - lo
  {
    if lo >= hi then 0 else (if Covers(s, lo) then 1 else 0) + CountCovered(s, lo + 1, hi)
  }

  lemma {:induction false} CountSplits(s: seq<Interval>, lo: int, mid: int, hi: int)
    requires lo <= mid <= hi
    ensures CountCovered(s, lo, hi) == CountCovered(s, lo, mid) + CountCovered(s, mid, hi)
    decreases mid - lo
  {
    if lo < mid { CountSplits(s, lo + 1, mid, hi); }
  }

  lemma {:induction false} CountUniform(s: seq<Interval>, lo: int, hi: int, all: bool)
    requires lo <= hi
    requires forall x | lo <= x < hi :: Covers(s, x) <==> all
    ensures CountCovered(s, lo, hi) == if all then hi - lo else 0
    decreases hi - lo
  {
    if lo < hi { CountUniform(s, lo + 1, hi, all); }
  }

  lemma {:induction false} CountAgrees(s: seq<Interval>, t: seq<Interval>, lo: int, hi: int)
    requires forall x | lo <= x < hi :: Covers(s, x) <==> Covers(t, x)
    ensures CountCovered(s, lo, hi) == CountCovered(t, lo, hi)
    decreases hi - lo
  {
    if lo < hi { CountAgrees(s, t, lo + 1, hi); }
  }

  /** Adding up the lengths of a canonical report counts every covered position once. */
  lemma {:induction false} LengthIsCount(s: seq<Interval>, lo: int, hi: int)
    requires Canonical(s) && lo <= hi
    requires forall i | 0 <= i < |s| :: lo <= s[i].start && s[i].end <= hi
    ensures TotalLength(s) == CountCovered(s, lo, hi)
    decreases |s|
  {
    if s == [] {
      CountUniform(s, lo, hi, false);
    } else {
      var a, b := s[0].start, s[0].end;
      CountSplits(s, lo, a, hi);
      CountSplits(s, a, b, hi);
      forall x | lo <= x < a ensures !Covers(s, x) {
        forall i | 0 <= i < |s| ensures !Within(x, s[i]) { assert i == 0 || s[0].end < s[i].start; }
      }
      CountUniform(s, lo, a, false);
      forall x | a <= x < b ensures Covers(s, x) { assert Within(x, s[0]); }
      CountUniform(s, a, b, true);
      forall x | b <= x < hi ensures Covers(s, x) <==> Covers(s[1..], x) {
        if Covers(s, x) {
          var i :| 0 <= i < |s| && Within(x, s[i]);
          assert Within(x, s[1..][i - 1]);
        }
        if Covers(s[1..], x) {
          var i :| 0 <= i < |s[1..]| && Within(x, s[1..][i]);
          assert Within(x, s[i + 1]);
        }
      }
      CountAgrees(s, s[1..], b, hi);
      LengthIsCount(s[1..], b, hi);
    }
  }

  lemma {:induction false} TotalIsCount(chunkBytes: nat, size: nat, receipts: ReceiptIndex, s: seq<Interval>, off: nat)
    requires chunkBytes > 0 && OnGrid(chunkBytes, size, receipts)
    requires off <= size && (off < size ==> off % chunkBytes == 0)
    requires forall x :: Covers(s, x) <==> ReceiptCovers(receipts, x)
    ensures TotalFrom(chunkBytes, size, receipts, off) == CountCovered(s, off, size)
    decreases size - off
  {
    if off < size {
      var length := Min(chunkBytes, size - off);
      NextAligned(off, chunkBytes);
      TotalIsCount(chunkBytes, size, receipts, s, off + length);
      CountSplits(s, off, off + length, size);
      CellCoveredIffReceived(chunkBytes, size, receipts, off, length);
      forall x | off <= x < off + length ensures Covers(s, x) <==> off in receipts {
        if Covers(s, x) {
          var o :| o in receipts && o <= x < o + receipts[o];
          AcceptsExactlyTheCells(chunkBytes, size, off, length);
          CellsEqualOrDisjoint(chunkBytes, size, o, receipts[o], off, length);
        }
      }
      CountUniform(s, off, off + length, off in receipts);
    }
  }

  lemma HasMember(s: seq<Interval>)
    ensures s != [] ==> exists i :: i in s
  {
    if s != [] { assert s[0] in s; }
  }

  lemma InsideWhatItCovers(s: seq<Interval>, lo: int, hi: int)
    requires Canonical(s) && forall x | Covers(s, x) :: lo <= x < hi
    ensures forall i | i in s :: lo <= i.start && i.end <= hi
  {
    forall i | i in s ensures lo <= i.start && i.end <= hi {
      var k :| 0 <= k < |s| && s[k] == i;
      assert Within(i.start, s[k]) && Within(i.end - 1, s[k]);
      assert Covers(s, i.start) && Covers(s, i.end - 1);
    }
  }

  /** The status report of one file: canonical ranges and their total. The total counts each received
      cell once, however the receipts are listed. */
  method Received(rows: seq<Interval>, size: nat, chunkBytes: nat, ghost receipts: ReceiptIndex)
    returns (received: int, ranges: seq<Interval>)
    requires chunkBytes > 0 && OnGrid(chunkBytes, size, receipts) && Lists(rows, receipts)
    ensures Canonical(ranges) && forall x :: Covers(ranges, x) <==> ReceiptCovers(receipts, x)
    ensures received == TotalFrom(chunkBytes, size, receipts, 0)
  {
    ListsCover(rows, receipts);
    forall i | i in rows ensures 0 <= i.start < i.end <= size {
      AcceptsExactlyTheCells(chunkBytes, size, i.start, receipts[i.start]);
    }
    var merged := Coalesce(rows);
    InsideWhatItCovers(merged, 0, size);
    var clamped := [];
    if size > 0 {
      for n := 0 to |merged|
        invariant clamped == merged[..n]
      {
        if merged[n].start < size && merged[n].end > 0 {
          clamped := clamped + [Interval(Max(0, merged[n].start), Min(size, merged[n].end))];
        }
      }
      assert clamped == merged;
      ranges := Coalesce(clamped);
    } else {
      HasMember(merged);
      ranges := [];
    }
    InsideWhatItCovers(ranges, 0, size);
    received := 0;
    for n := 0 to |ranges|
      invariant received + TotalLength(ranges[n..]) == TotalLength(ranges)
    {
      received := received + (ranges[n].end - ranges[n].start);
      assert ranges[n..][1..] == ranges[n + 1..];
    }
    LengthIsCount(ranges, 0, size);
    TotalIsCount(chunkBytes, size, receipts, ranges, 0);
  }

  lemma {:induction false} AllReceivedMeansComplete(chunkBytes: nat, size: nat, receipts: ReceiptIndex, off: nat)
    requires chunkBytes > 0 && off <= size
    ensures TotalFrom(chunkBytes, size, receipts, off) <= size - off
    ensures TotalFrom(chunkBytes, size, receipts, off) == size - off
       <==> MissingFrom(chunkBytes, size, receipts, off) == []
    decreases size - off
  {
    if off < size {
      AllReceivedMeansComplete(chunkBytes, size, receipts, off + Min(chunkBytes, size - off));
    }
  }

  /** Sending what the client lists as missing makes the server report the whole file as received. */
  lemma SendingTheMissingCompletes(chunkBytes: nat, size: nat, receipts: ReceiptIndex, after: ReceiptIndex)
    requires chunkBytes > 0 && OnGrid(chunkBytes, size, receipts)
    requires forall o | o in receipts :: o in after && after[o] == receipts[o]
    requires forall i | i in MissingFrom(chunkBytes, size, receipts, 0) :: i.start in after
    ensures TotalFrom(chunkBytes, size, after, 0) == size
    ensures MissingFrom(chunkBytes, size, after, 0) == []
  {
    MissingFromIsExact(chunkBytes, size, receipts, 0);
    MissingFromIsExact(chunkBytes, size, after, 0);
    var m := MissingFrom(chunkBytes, size, after, 0);
    assert forall i: Interval :: i in m ==> i in MissingFrom(chunkBytes, size, receipts, 0);
    HasMember(m);
    AllReceivedMeansComplete(chunkBytes, size, after, 0);
  }

  /** A resumed upload: the server reports its receipts, the client reads the report. The client ends up
      with exactly the cells that have no receipt. */
  method ResumePlan(rows: seq<Interval>, size: nat, chunkBytes: nat, ghost receipts: ReceiptIndex)
    returns (out: seq<Interval>)
    requires chunkBytes > 0 && OnGrid(chunkBytes, size, receipts) && Lists(rows, receipts)
    ensures forall i: Interval :: i in out <==>
              IsCell(chunkBytes, size, i.start, i.end - i.start) && i.start !in receipts
  {
    var _, ranges := Received(rows, size, chunkBytes, receipts);
    out := MissingChunks(size, chunkBytes, ranges);
    UncoveredIsMissing(chunkBytes, size, ranges, receipts, 0);
    MissingFromIsExact(chunkBytes, size, receipts, 0);
  }
}
