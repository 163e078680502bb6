/** The per-key sliding-window throttle, with its bounded table of recently seen keys. */
module Throttle {
  import opened Wrappers

  type Key = string

  /** Everything but the leading entries that are out of the window. */
  function Fresh(bucket: seq<real>, cutoff: real): (r: seq<real>)
    ensures |r| <= |bucket| && r == bucket[|bucket| - |r|..]
    ensures forall i | 0 <= i < |bucket| - |r| :: bucket[i] <= cutoff
    ensures r != [] ==> r[0] > cutoff
  {
    if bucket != [] && bucket[0] <= cutoff then Fresh(bucket[1..], cutoff) else bucket
  }

  predicate NoDuplicates(s: seq<Key>) { forall i, j | 0 <= i < j < |s| :: s[i] != s[j] }

  function Without(s: seq<Key>, k: Key): seq<Key> {
    if s == [] then [] else if s[0] == k then s[1..] else [s[0]] + Without(s[1..], k)
  }

  lemma {:induction false} WithoutKeeps(s: seq<Key>, k: Key)
    ensures forall x | x in Without(s, k) :: x in s
    ensures forall x | x in s && x != k :: x in Without(s, k)
    ensures k !in s ==> Without(s, k) == s
    ensures k in s ==> |Without(s, k)| == |s| - 1
  {
    if s != [] {
      WithoutKeeps(s[1..], k);
      assert s == [s[0]] + s[1..];
    }
  }

  lemma {:induction false} WithoutIsDistinct(s: seq<Key>, k: Key)
    requires NoDuplicates(s)
    ensures NoDuplicates(Without(s, k)) && k !in Without(s, k)
  {
    if s != [] {
      WithoutIsDistinct(s[1..], k);
      WithoutKeeps(s[1..], k);
      assert s[0] !in s[1..];
    }
  }

  /** Only the key goes; what is before and after it stays in order. */
  lemma {:induction false} WithoutIs(before: seq<Key>, k: Key, after: seq<Key>)
    requires k !in before
    ensures Without(before + [k] + after, k) == before + after
  {
    var s := before + [k] + after;
    if before == [] {
      assert s[1..] == after;
    } else {
      assert s[1..] == before[1..] + [k] + after && s[0] == before[0];
      WithoutIs(before[1..], k, after);
    }
  }

  /** The listing after a key is used: the key comes last. */
  function Used(order: seq<Key>, k: Key): seq<Key> { Without(order, k) + [k] }

  lemma UsedIsListed(order: seq<Key>, k: Key)
    requires NoDuplicates(order)
    ensures NoDuplicates(Used(order, k)) && forall x :: x in Used(order, k) <==> x == k || x in order
    ensures |Used(order, k)| == |order| + if k in order then 0 else 1
  {
    WithoutKeeps(order, k);
    WithoutIsDistinct(order, k);
  }

  /** What is left of a listing when it is cut to the cap, from the front. */
  function Capped(order: seq<Key>, cap: nat): seq<Key> { if |order| > cap then order[|order| - cap..] else order }

  predicate Ascending(log: seq<real>) { forall i, j | 0 <= i <= j < |log| :: log[i] <= log[j] }

  /** Entries `most` or more apart are a minute apart. */
  predicate Spaced(log: seq<real>, most: nat) {
    forall i, j | 0 <= i && i + most <= j < |log| :: log[i] + 60.0 <= log[j]
  }

  function InWindow(log: seq<real>, start: real): set<nat> {
    set i: nat | i < |log| && start < log[i] <= start + 60.0
  }

  /** The first entry after a time. */
  function FirstAfter(log: seq<real>, start: real): (n: nat)
    ensures n <= |log| && (n < |log| ==> log[n] > start) && forall i | 0 <= i < n :: log[i] <= start
  {
    if log == [] || log[0] > start then 0 else 1 + FirstAfter(log[1..], start)
  }

  function Interval(first: nat, n: nat): (r: set<nat>)
    ensures |r| == n && forall i :: i in r <==> first <= i < first + n
  {
    if n == 0 then {} else Interval(first, n - 1) + {first + n - 1}
  }

  /** In a spaced log no window of a minute holds more than `most` entries. */
  lemma WindowHolds(log: seq<real>, most: nat, start: real)
    requires Ascending(log) && Spaced(log, most)
    ensures |InWindow(log, start)| <= most
  {
    var first := FirstAfter(log, start);
    assert forall j | first + most <= j < |log| :: log[first] + 60.0 <= log[j];
    SubsetIsSmaller(InWindow(log, start), Interval(first, most));
  }

  // ---------------------------------------------------------------- one key

  /** What is kept for a key is the end of its log; the rest had left the window by the latest time seen. */
  ghost predicate Good(bucket: seq<real>, log: seq<real>, most: nat, clock: real) {
    && |bucket| <= |log| && bucket == log[|log| - |bucket|..] && |bucket| <= most
    && Ascending(log) && (log != [] ==> log[|log| - 1] <= clock)
    && (forall i | 0 <= i < |log| - |bucket| :: log[i] <= clock - 60.0)
    && Spaced(log, most)
  }

  /** What is known of a key as long as time has not gone back. */
  ghost predicate Sound(steady: bool, bucket: seq<real>, log: seq<real>, most: nat, clock: real) {
    steady ==> Good(bucket, log, most, clock)
  }

  lemma EmptyIsSound(steady: bool, clock: real)
    ensures Sound(steady, [], [], 0, clock)
  {
  }

  lemma ExpiryKeepsGood(bucket: seq<real>, log: seq<real>, most: nat, clock: real, now: real, more: nat)
    requires Good(bucket, log, most, clock) && now >= clock && more >= most
    ensures Good(Fresh(bucket, now - 60.0), log, more, now)
  {
    var f := Fresh(bucket, now - 60.0);
    var gone := |bucket| - |f|;
    assert f == log[|log| - |f|..];
    forall i | 0 <= i < |log| - |f| ensures log[i] <= now - 60.0 {
      if i >= |log| - |bucket| { assert log[i] == bucket[i - (|log| - |bucket|)]; }
    }
  }

  /** What is in the window of an ascending log is its end. */
  lemma WindowIsEnd(log: seq<real>, start: real, first: nat)
    requires Ascending(log) && first <= |log| && (log != [] ==> log[|log| - 1] <= start + 60.0)
    requires (forall i | 0 <= i < first :: log[i] <= start) && (first < |log| ==> log[first] > start)
    ensures |InWindow(log, start)| == |log| - first
  {
    forall i: nat | i < |log| && first <= i ensures i in InWindow(log, start) {
      assert log[first] <= log[i] <= log[|log| - 1];
    }
    assert InWindow(log, start) == Interval(first, |log| - first);
  }

  /** What is left of a key is as much as it was let through in the last minute. */
  lemma FreshIsWindow(bucket: seq<real>, log: seq<real>, most: nat, clock: real, now: real)
    requires Good(bucket, log, most, clock) && now >= clock
    ensures |Fresh(bucket, now - 60.0)| == |InWindow(log, now - 60.0)|
  {
    hide Spaced, Ascending, InWindow;
    ExpiryKeepsGood(bucket, log, most, clock, now, most);
    var f := Fresh(bucket, now - 60.0);
    assert f != [] ==> f[0] == log[|log| - |f|];
    WindowIsEnd(log, now - 60.0, |log| - |f|);
  }

  lemma ExpiryKeepsSound(steady: bool, bucket: seq<real>, log: seq<real>, most: nat, clock: real, more: nat)
    requires Sound(steady, bucket, log, most, clock) && more >= most
    ensures Sound(steady, Fresh(bucket, clock - 60.0), log, more, clock)
  {
    if steady { ExpiryKeepsGood(bucket, log, most, clock, clock, more); }
  }

  lemma AllowingKeepsGood(bucket: seq<real>, log: seq<real>, most: nat, now: real)
    requires Good(bucket, log, most, now) && |bucket| < most
    ensures Good(bucket + [now], log + [now], most, now)
  {
    var l := log + [now];
    AscendingOneMore(log, now);
    SpacedOneMore(bucket, log, most, now);
    hide Spaced, Ascending;
    assert l[|l| - |bucket| - 1..] == bucket + [now];
  }

  lemma AscendingOneMore(log: seq<real>, now: real)
    requires Ascending(log) && (log != [] ==> log[|log| - 1] <= now)
    ensures Ascending(log + [now])
  {
  }

  lemma SpacedOneMore(bucket: seq<real>, log: seq<real>, most: nat, now: real)
    requires Good(bucket, log, most, now) && |bucket| < most
    ensures Spaced(log + [now], most)
  {
    var l := log + [now];
    forall i, j | 0 <= i && i + most <= j < |l| ensures l[i] + 60.0 <= l[j] {
      if j == |log| {
        assert log[i] <= now - 60.0;
      } else {
        assert log[i] + 60.0 <= log[j];
      }
    }
  }

  lemma AllowingKeepsSound(steady: bool, bucket: seq<real>, log: seq<real>, most: nat, now: real)
    requires Sound(steady, bucket, log, most, now) && |bucket| < most
    ensures Sound(steady, bucket + [now], log + [now], most, now)
  {
    if steady { AllowingKeepsGood(bucket, log, most, now); }
  }

  // ---------------------------------------------------------------- the table

  class Table {
    const cap: nat
    var table: map<Key, seq<real>>
    var order: seq<Key>

    /** History, per key since it was last entered: when it was allowed, and the highest limit asked for. */
    ghost var log: map<Key, seq<real>>
    ghost var most: map<Key, nat>
    /** History: the latest time seen, whether time has never gone back, whether every limit was positive. */
    ghost var clock: real
    ghost var steady: bool
    ghost var positive: bool

    constructor (cap: nat)
      ensures this.cap == cap && Inv() && steady && positive && table == map[] && order == []
    {
      this.cap := cap;
      table, order := map[], [];
      log, most, clock, steady, positive := map[], map[], 0.0, true, true;
    }

    ghost predicate KeyOk(k: Key) reads this
    {
      k in table && k in log && k in most && Sound(steady, table[k], log[k], most[k], clock)
    }

    /** The order lists the keys of the table, each once. */
    ghost predicate Listed() reads this {
      NoDuplicates(order) && forall k :: k in order <==> k in table
    }

    ghost predicate Base() reads this {
      Listed() && forall k {:trigger KeyOk(k)} | k in table :: KeyOk(k)
    }

    /** With positive limits the table stays within its cap. */
    ghost predicate Inv() reads this { Base() && (positive ==> |order| <= cap) }

    function Bucket(k: Key): seq<real> reads `table { if k in table then table[k] else [] }

    ghost function Log(k: Key): seq<real> reads `table, `log { if k in table && k in log then log[k] else [] }

    /** The key is entered if it is new, and comes last. */
    method Touch(key: Key)
      requires Base()
      modifies `table, `order, `log, `most
      ensures Base() && order == Used(old(order), key)
      ensures table == old(table)[key := old(Bucket(key))] && forall k :: Log(k) == old(Log(k))
      ensures |order| == |old(order)| + if key in old(table) then 0 else 1
    {
      hide Sound, Used, NoDuplicates;
      UsedIsListed(order, key);
      assert key in table ==> KeyOk(key);
      order := Used(order, key);
      if key !in table {
        table := table[key := []];
        log, most := log[key := []], most[key := 0];
        EmptyIsSound(steady, clock);
      }
      forall k | k in table ensures KeyOk(k) {
        if k != key { assert old(KeyOk(k)); }
      }
    }

    /** History: time passes, and a limit is asked for. */
    ghost method Note(limit: int, now: real)
      requires Base()
      modifies `clock, `steady, `positive
      ensures Base() && clock == now
      ensures steady == (old(steady) && now >= old(clock)) && positive == (old(positive) && limit > 0)
    {
      hide Spaced, Ascending;
      steady := steady && now >= clock;
      clock := now;
      positive := positive && limit > 0;
      forall k | k in table ensures KeyOk(k) { assert old(KeyOk(k)); }
    }

    /** Entries that left the window go. */
    method Purge(key: Key, limit: int, now: real)
      requires Base() && key in table && now == clock
      modifies `table, `most
      ensures Base() && key in most && limit <= most[key] && table == old(table)[key := Fresh(old(table)[key], now - 60.0)]
    {
      hide Sound, Fresh, NoDuplicates;
      assert KeyOk(key);
      ghost var bound := if limit > most[key] then limit else most[key];
      var bucket := Expire(table[key], now - 60.0);
      ExpiryKeepsSound(steady, table[key], log[key], most[key], clock, bound);
      table := table[key := bucket];
      most := most[key := bound];
      forall k | k in table ensures KeyOk(k) {
        if k != key { assert old(KeyOk(k)); }
      }
    }

    /** A key comes in: entered or moved to the end, the time noted, its bucket purged. */
    method Arrive(key: Key, limit: int, now: real)
      requires Base()
      modifies this
      ensures Base() && key in most && limit <= most[key]
      ensures steady == (old(steady) && now >= old(clock)) && clock == now && positive == (old(positive) && limit > 0)
      ensures order == Used(old(order), key) && |order| == |old(order)| + if key in old(table) then 0 else 1
      ensures table == old(table)[key := Fresh(old(Bucket(key)), now - 60.0)]
      ensures forall k :: Log(k) == old(Log(k))
    {
      hide Base, Fresh, Used, Bucket;
      Touch(key);
      Note(limit, now);
      Purge(key, limit, now);
    }

    method Record(key: Key, now: real)
      requires Base() && key in table && key in most && |table[key]| < most[key] && now == clock
      modifies `table, `log
      ensures Base() && table == old(table)[key := old(table)[key] + [now]]
      ensures key in log && key in old(log) && log == old(log)[key := old(log)[key] + [now]]
    {
      hide Sound;
      assert KeyOk(key);
      AllowingKeepsSound(steady, table[key], log[key], most[key], now);
      table := table[key := table[key] + [now]];
      log := log[key := log[key] + [now]];
      forall k | k in table ensures KeyOk(k) {
        if k != key { assert old(KeyOk(k)); }
      }
    }

    /** The key used longest ago goes. */
    method EvictOne()
      requires Base() && order != []
      modifies `table, `order
      ensures Base() && order == old(order)[1..] && table == old(table) - {old(order)[0]}
    {
      hide Sound;
      var oldest := order[0];
      order := order[1..];
      table := table - {oldest};
      assert old(order) == [oldest] + order;
      forall k | k in table ensures KeyOk(k) { assert old(KeyOk(k)); }
    }

    /** Keys go until the table is within its cap. */
    method Evict()
      requires Base()
      modifies `table, `order
      ensures Base() && order == Capped(old(order), cap)
      ensures forall k | k in table :: k in old(table) && table[k] == old(table)[k]
    {
      hide Base;
      while |order| > cap
        invariant Base() && |order| <= |old(order)| && order == old(order)[|old(order)| - |order|..]
        invariant |old(order)| > cap ==> |order| >= cap
        invariant |old(order)| <= cap ==> order == old(order)
        invariant forall k | k in table :: k in old(table) && table[k] == old(table)[k]
        decreases |order|
      {
        EvictOne();
      }
    }

    /** The request is let through: noted, and the table cut to its cap. */
    method Admit(key: Key, now: real)
      requires Base() && key in table && key in most && |table[key]| < most[key] && now == clock
      modifies `table, `order, `log
      ensures Base() && order == Capped(old(order), cap) && |order| <= cap
      ensures key in table ==> table[key] == old(table)[key] + [now] && Log(key) == old(Log(key)) + [now]
      ensures forall k | k in table && k != key :: k in old(table) && table[k] == old(table)[k] && Log(k) == old(Log(k))
    {
      hide KeyOk, Capped;
      assert KeyOk(key);
      Record(key, now);
      Evict();
      CappedFits(old(order), cap);
    }

    /** Whether a request of this key is let through at this time. */
    method Allow(key: Key, limit: int, now: real) returns (ok: bool)
      requires Inv()
      modifies this
      ensures Inv()
      ensures steady == (old(steady) && now >= old(clock)) && clock == now && positive == (old(positive) && limit > 0)
      ensures ok <==> |Fresh(old(Bucket(key)), now - 60.0)| < limit
      ensures old(steady && key in table && clock <= now) ==> (ok <==> |InWindow(old(Log(key)), now - 60.0)| < limit)
      ensures ok ==> order == Capped(Used(old(order), key), cap)
      ensures ok && key in table ==>
                table[key] == Fresh(old(Bucket(key)), now - 60.0) + [now] && Log(key) == old(Log(key)) + [now]
      ensures !ok ==> order == Used(old(order), key) && key in table && Log(key) == old(Log(key))
      ensures !ok ==> table[key] == Fresh(old(Bucket(key)), now - 60.0)
      ensures |old(order)| <= cap ==> (|order| <= cap <==> ok || key in old(table) || |old(order)| < cap)
      ensures forall k | k in table && k != key :: k in old(table) && table[k] == old(table)[k] && Log(k) == old(Log(k))
      ensures var recent := Without(old(order), key) + [key];
              if ok && |recent| > cap then order == recent[|recent| - cap..] else order == recent
    {
      hide KeyOk, Fresh, Capped, InWindow;
      if steady && key in table && clock <= now { BucketIsWindow(key, now); }
      CappedIs(Used(order, key), cap);
      CappedFits(Used(order, key), cap);
      UsedSize(order, key);
      Arrive(key, limit, now);
      if |table[key]| >= limit {
        NoneIsFresh(now - 60.0);
        return false;
      }
      Admit(key, now);
      return true;
    }

    lemma BucketIsWindow(key: Key, now: real)
      requires Inv() && steady && key in table && clock <= now
      ensures |Fresh(Bucket(key), now - 60.0)| == |InWindow(Log(key), now - 60.0)|
    {
      hide Good, Fresh, InWindow;
      assert KeyOk(key);
      FreshIsWindow(table[key], log[key], most[key], clock, now);
    }

    static lemma UsedSize(order: seq<Key>, key: Key)
      requires NoDuplicates(order)
      ensures |Used(order, key)| == |order| + if key in order then 0 else 1
    {
      UsedIsListed(order, key);
    }

    static lemma NoneIsFresh(cutoff: real)
      ensures Fresh([], cutoff) == []
    {
    }

    static lemma CappedIs(order: seq<Key>, cap: nat)
      ensures Capped(order, cap) == if |order| > cap then order[|order| - cap..] else order
    {
    }

    static lemma CappedFits(order: seq<Key>, cap: nat)
      ensures |Capped(order, cap)| <= cap
    {
    }

    /** In every reachable state with steady time, no key still in the table has been let through more often in any
        minute than the highest limit asked for it. */
    lemma WithinLimit(k: Key, start: real)
      requires Inv() && steady && k in table
      ensures k in most && |InWindow(Log(k), start)| <= most[k]
    {
      assert KeyOk(k);
      WindowHolds(log[k], most[k], start);
    }

    /** Pops expired entries off the front. */
    method Expire(bucket: seq<real>, cutoff: real) returns (r: seq<real>)
      ensures r == Fresh(bucket, cutoff)
    {
      r := bucket;
      while r != [] && r[0] <= cutoff
        invariant Fresh(r, cutoff) == Fresh(bucket, cutoff)
        decreases |r|
      {
        r := r[1..];
      }
    }
  }
}
