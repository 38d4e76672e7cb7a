/** Whole-run properties of the response cache. */
module CacheInclusion {
  import opened Prelude
  import opened CacheSpec

  /** `a` is an order-preserving subsequence of `b`. */
  ghost predicate Sub(a: Store, b: Store) {
    a == [] || (b != [] && ((a[0] == b[0] && Sub(a[1..], b[1..])) || Sub(a, b[1..])))
  }

  lemma {:induction false} SubMembers(a: Store, b: Store)
    requires Sub(a, b)
    ensures forall x :: x in a ==> x in b
    ensures |a| <= |b|
  {
    if a != [] {
      if a[0] == b[0] && Sub(a[1..], b[1..]) {
        SubMembers(a[1..], b[1..]);
        assert a == [a[0]] + a[1..];
      } else {
        SubMembers(a, b[1..]);
      }
    }
  }

  lemma {:induction false} SubPurge(a: Store, b: Store, dead: string -> bool)
    requires Sub(a, b)
    ensures Sub(Purge(a, dead), Purge(b, dead))
    ensures |a| - |Purge(a, dead)| <= |b| - |Purge(b, dead)|
  {
    if a == [] {
      PurgeShrinks(b, dead);
    } else if a[0] == b[0] && Sub(a[1..], b[1..]) {
      SubPurge(a[1..], b[1..], dead);
      if !dead(a[0].key) {
        assert Purge(a, dead)[1..] == Purge(a[1..], dead);
        assert Purge(b, dead)[1..] == Purge(b[1..], dead);
      }
    } else {
      SubPurge(a, b[1..], dead);
      if !dead(b[0].key) {
        assert Purge(b, dead)[1..] == Purge(b[1..], dead);
      }
    }
  }

  lemma {:induction false} SubAppend(a: Store, b: Store, x: Item)
    requires Sub(a, b)
    ensures Sub(a + [x], b + [x])
  {
    if b == [] {
      assert a + [x] == b + [x] == [x];
    } else {
      assert (b + [x])[1..] == b[1..] + [x];
      if a != [] && a[0] == b[0] && Sub(a[1..], b[1..]) {
        SubAppend(a[1..], b[1..], x);
        assert (a + [x])[1..] == a[1..] + [x];
      } else {
        SubAppend(a, b[1..], x);
      }
    }
  }

  lemma {:induction false} SubTail(a: Store, b: Store)
    requires Sub(a, b) && a != []
    ensures Sub(a[1..], b)
  {
    if a[0] == b[0] && Sub(a[1..], b[1..]) {
      assert Sub(a[1..], b);
    } else {
      SubTail(a, b[1..]);
    }
  }

  /** Dropping at least as many old items from the subsequence keeps it one. */
  lemma {:induction false} SubDrop(a: Store, b: Store, i: nat, j: nat)
    requires Sub(a, b) && j <= i <= |a| && j <= |b|
    ensures Sub(a[i..], b[j..])
    decreases |b|, i
  {
    if i == 0 {
      assert a[i..] == a && b[j..] == b;
    } else if j == 0 {
      SubTail(a, b);
      SubDrop(a[1..], b, i - 1, 0);
      assert a[1..][i - 1..] == a[i..];
    } else {
      assert b[1..][j - 1..] == b[j..];
      if a[0] == b[0] && Sub(a[1..], b[1..]) {
        SubDrop(a[1..], b[1..], i - 1, j - 1);
        assert a[1..][i - 1..] == a[i..];
      } else {
        SubDrop(a, b[1..], i, j - 1);
      }
    }
  }

  /** The simulation: the small store sits inside the large one and has no more room left. */
  ghost predicate Included(small: Store, n: int, large: Store, m: int) {
    && Sub(small, large) && Distinct(small) && Distinct(large)
    && |small| <= Max(0, n) && |large| <= Max(0, m)
    && n - |small| <= Max(0, m) - |large|
  }

  lemma IncludedRemove(small: Store, n: int, large: Store, m: int, dead: string -> bool)
    requires Included(small, n, large, m)
    ensures Included(Purge(small, dead), n, Purge(large, dead), m)
  {
    SubPurge(small, large, dead);
    PurgeMembers(small, dead);
    PurgeMembers(large, dead);
    PurgeShrinks(small, dead);
    PurgeShrinks(large, dead);
  }

  lemma IncludedLookup(small: Store, n: int, large: Store, m: int, k: string)
    requires Included(small, n, large, m)
    ensures Lookup(small, k).Some? ==> Lookup(large, k) == Lookup(small, k)
  {
    SubMembers(small, large);
    LookupMember(small, k);
    LookupMember(large, k);
  }

  /** Dropping a key shortens a store by one exactly when the key was present. */
  lemma WithoutLength(s: Store, k: string)
    requires Distinct(s)
    ensures |Without(s, k)| == |s| - (if Lookup(s, k).Some? then 1 else 0)
  {
    if s != [] {
      assert forall i :: 0 <= i < |s[1..]| ==> s[1..][i] == s[i + 1];
      if s[0].key == k {
        WithoutAbsent(s[1..], k);
      } else {
        WithoutLength(s[1..], k);
      }
      WithoutCons(s, k);
    }
  }

  lemma IncludedTrim(s: Store, n: int, l: Store, m: int)
    requires n <= m && Sub(s, l) && Distinct(s) && Distinct(l)
    requires n - |s| <= Max(0, m) - |l|
    ensures Included(Trim(s, n), n, Trim(l, m), m)
  {
    SubMembers(s, l);
    if n > 0 {
      var i, j := Max(0, |s| - n), Max(0, |l| - m);
      SubDrop(s, l, i, j);
      assert Trim(s, n) == s[i..] && Trim(l, m) == l[j..];
    }
  }

  lemma IncludedStore(small: Store, n: int, large: Store, m: int, x: Item)
    requires n <= m && Included(small, n, large, m)
    ensures Included(Trim(Without(small, x.key) + [x], n), n, Trim(Without(large, x.key) + [x], m), m)
  {
    var k := x.key;
    WithoutFacts(small, k);
    WithoutFacts(large, k);
    WithoutSub(small, large, k);
    SubAppend(Without(small, k), Without(large, k), x);
    WithoutLength(small, k);
    WithoutLength(large, k);
    IncludedLookup(small, n, large, m, k);
    IncludedTrim(Without(small, k) + [x], n, Without(large, k) + [x], m);
  }

  lemma WithoutSub(a: Store, b: Store, k: string)
    requires Sub(a, b)
    ensures Sub(Without(a, k), Without(b, k))
    ensures |a| - |Without(a, k)| <= |b| - |Without(b, k)|
  {
    SubPurge(a, b, x => x == k);
  }

  /** A get of `k` that refreshes it in the large store, whether or not the small one has it. */
  lemma IncludedRefresh(small: Store, n: int, large: Store, m: int, k: string)
    requires Included(small, n, large, m) && Lookup(large, k).Some?
    ensures var x := [Item(k, Lookup(large, k).value)];
            Included(if Lookup(small, k).Some? then Without(small, k) + x else small, n, Without(large, k) + x, m)
  {
    var x := Item(k, Lookup(large, k).value);
    IncludedLookup(small, n, large, m, k);
    WithoutFacts(small, k);
    WithoutFacts(large, k);
    WithoutSub(small, large, k);
    WithoutLength(small, k);
    WithoutLength(large, k);
    if Lookup(small, k).None? {
      WithoutAbsentKey(small, k);
      GrowRight(small, Without(large, k), x);
    } else {
      SubAppend(Without(small, k), Without(large, k), x);
    }
  }

  /** A get of `k` that finds it expired in the large store. */
  lemma IncludedExpire(small: Store, n: int, large: Store, m: int, k: string)
    requires Included(small, n, large, m)
    ensures Included(if Lookup(small, k).Some? then Without(small, k) else small, n, Without(large, k), m)
  {
    IncludedRemove(small, n, large, m, y => y == k);
    if Lookup(small, k).None? {
      WithoutAbsentKey(small, k);
    }
  }

  /** One operation keeps the simulation, and a hit in the small cache is the same hit in the large one. */
  lemma InclusionStep(c: Config, n: int, m: int, s: State, l: State, op: Op)
    requires c.enabled && n <= m && Included(s.store, n, l.store, m)
    requires s.hits <= l.hits
    ensures var (s', rs) := Step(c.(maxEntries := n), s, op);
            var (l', rl) := Step(c.(maxEntries := m), l, op);
            && Included(s'.store, n, l'.store, m)
            && (rs.Hit? ==> rl == rs)
            && s'.hits <= l'.hits
  {
    match op
    case Get(k, now) =>
      IncludedLookup(s.store, n, l.store, m, k);
      IncludedExpire(s.store, n, l.store, m, k);
      if Lookup(l.store, k).Some? {
        IncludedRefresh(s.store, n, l.store, m, k);
      }
    case Put(_, _, _, _, _) =>
      IncludedStore(s.store, n, l.store, m, Stored(op));
    case Invalidate(prefix) =>
      InvalidateIncluded(s.store, n, l.store, m, prefix);
  }

  lemma InvalidateIncluded(small: Store, n: int, large: Store, m: int, prefix: string)
    requires Included(small, n, large, m)
    ensures Included(WithoutPrefix(small, prefix), n, WithoutPrefix(large, prefix), m)
  {
    IncludedRemove(small, n, large, m, x => prefix <= x);
  }

  lemma WithoutAbsentKey(s: Store, k: string)
    requires Distinct(s) && Lookup(s, k).None?
    ensures Without(s, k) == s
  {
    LookupMember(s, k);
    WithoutAbsent(s, k);
  }

  lemma {:induction false} GrowRight(a: Store, b: Store, x: Item)
    requires Sub(a, b)
    ensures Sub(a, b + [x])
  {
    SubAppend(a, b, x);
    SubPrefix(a, [x], b + [x]);
  }

  lemma {:induction false} SubPrefix(a: Store, tail: Store, b: Store)
    requires Sub(a + tail, b)
    ensures Sub(a, b)
  {
    if a != [] {
      assert (a + tail)[1..] == a[1..] + tail;
      if (a + tail)[0] == b[0] && Sub((a + tail)[1..], b[1..]) {
        SubPrefix(a[1..], tail, b[1..]);
      } else {
        SubPrefix(a, tail, b[1..]);
      }
    }
  }

  /**
   * LRU inclusion with expiry, invalidation and misses that do not fill: on any trace at all,
   * whatever the clock does, the cache with room for `n` holds a subsequence of what the cache
   * with room for `m >= n` holds, and every hit of the smaller is the same hit of the larger.
   */
  lemma {:induction false} Inclusion(c: Config, n: int, m: int, ops: seq<Op>)
    requires c.enabled && n <= m
    ensures var (s, rs) := Run(c.(maxEntries := n), ops);
            var (l, rl) := Run(c.(maxEntries := m), ops);
            && Included(s.store, n, l.store, m)
            && (forall i :: 0 <= i < |ops| && rs[i].Hit? ==> rl[i] == rs[i])
            && s.hits <= l.hits
  {
    if ops != [] {
      Inclusion(c, n, m, Init(ops));
      InclusionStep(c, n, m, Run(c.(maxEntries := n), Init(ops)).0, Run(c.(maxEntries := m), Init(ops)).0, Last(ops));
    }
  }
}

module CacheHistory {
  import opened Prelude
  import opened CacheSpec
  import opened CacheInclusion

  /** What the plain put history says about `k`: the last accepted put not invalidated since. */
  ghost function LatestPut(c: Config, ops: seq<Op>, k: string): Option<Entry> {
    if ops == [] then None
    else match Last(ops)
      case Put(key, _, _, _, _) =>
        if key == k && Accepts(c, Last(ops)) then Some(Stored(Last(ops)).entry) else LatestPut(c, Init(ops), k)
      case Invalidate(prefix) => if prefix <= k then None else LatestPut(c, Init(ops), k)
      case Get(_, _) => LatestPut(c, Init(ops), k)
  }

  /** The last operation of the run is an accepted put or a hit of `k`. */
  ghost predicate JustUsed(c: Config, ops: seq<Op>, k: string)
    requires ops != []
  {
    match Last(ops)
    case Put(key, _, _, _, _) => key == k && Accepts(c, Last(ops))
    case Get(key, _) => key == k && Last(Run(c, ops).1).Hit?
    case Invalidate(_) => false
  }

  /** The distinct keys used since `k` was last used. */
  ghost function Since(c: Config, ops: seq<Op>, k: string): set<string> {
    if ops == [] then {}
    else if JustUsed(c, ops, k) then {}
    else Since(c, Init(ops), k)
         + (if !Last(ops).Invalidate? && JustUsed(c, ops, Last(ops).key) then {Last(ops).key} else {})
  }

  ghost function Gets(ops: seq<Op>): nat {
    if ops == [] then 0 else Gets(Init(ops)) + (if Last(ops).Get? then 1 else 0)
  }

  /** Every stored item is the put history's answer, and younger items were used more recently. */
  ghost predicate Faithful(c: Config, ops: seq<Op>, s: Store) {
    && Distinct(s)
    && (forall x :: x in s ==> LatestPut(c, ops, x.key) == Some(x.entry))
    && (forall i, j :: 0 <= i < j < |s| ==> s[j].key in Since(c, ops, s[i].key))
  }

  lemma PurgeIndex(s: Store, dead: string -> bool, i: nat, j: nat) returns (i': nat, j': nat)
    requires i < j < |Purge(s, dead)|
    ensures i' < j' < |s|
    ensures s[i'] == Purge(s, dead)[i] && s[j'] == Purge(s, dead)[j]
  {
    if dead(s[0].key) {
      i', j' := PurgeIndex(s[1..], dead, i, j);
      i', j' := i' + 1, j' + 1;
    } else if i == 0 {
      PurgeMembers(s[1..], dead);
      assert Purge(s, dead)[j] == Purge(s[1..], dead)[j - 1];
      assert Purge(s, dead)[j] in s[1..];
      var m :| 0 <= m < |s[1..]| && s[1..][m] == Purge(s, dead)[j];
      i', j' := 0, m + 1;
    } else {
      i', j' := PurgeIndex(s[1..], dead, i - 1, j - 1);
      i', j' := i' + 1, j' + 1;
    }
  }

  /** Removing items, with an operation that leaves the survivors' history alone. */
  lemma FaithfulPurge(c: Config, ops: seq<Op>, s: Store, dead: string -> bool)
    requires ops != [] && Faithful(c, Init(ops), s)
    requires forall k :: !dead(k) ==> !JustUsed(c, ops, k)
    requires forall k :: !dead(k) ==> LatestPut(c, ops, k) == LatestPut(c, Init(ops), k)
    ensures Faithful(c, ops, Purge(s, dead))
  {
    PurgeMembers(s, dead);
    var p := Purge(s, dead);
    forall i, j | 0 <= i < j < |p|
      ensures p[j].key in Since(c, ops, p[i].key)
    {
      var i', j' := PurgeIndex(s, dead, i, j);
      assert p[i] in p;
    }
  }

  lemma FaithfulAppend(c: Config, ops: seq<Op>, s: Store, x: Item)
    requires ops != [] && Faithful(c, ops, s)
    requires forall y :: y in s ==> y.key != x.key
    requires JustUsed(c, ops, x.key) && LatestPut(c, ops, x.key) == Some(x.entry)
    ensures Faithful(c, ops, s + [x])
  {
    forall i | 0 <= i < |s|
      ensures x.key in Since(c, ops, s[i].key)
    {
      assert s[i] in s;
      assert !JustUsed(c, ops, s[i].key);
    }
  }

  lemma FaithfulDrop(c: Config, ops: seq<Op>, s: Store, d: nat)
    requires Faithful(c, ops, s) && d <= |s|
    ensures Faithful(c, ops, s[d..])
  {
  }

  lemma FaithfulPurgeAppend(c: Config, ops: seq<Op>, s: Store, k: string, x: Item)
    requires ops != [] && Faithful(c, Init(ops), s) && x.key == k
    requires forall k' :: k' != k ==> !JustUsed(c, ops, k')
    requires forall k' :: k' != k ==> LatestPut(c, ops, k') == LatestPut(c, Init(ops), k')
    requires JustUsed(c, ops, k) && LatestPut(c, ops, k) == Some(x.entry)
    ensures Faithful(c, ops, Without(s, k) + [x])
  {
    FaithfulPurge(c, ops, s, y => y == k);
    FaithfulWithout(c, ops, s, k);
    WithoutFacts(s, k);
    FaithfulAppend(c, ops, Without(s, k), x);
  }

  lemma FaithfulWithout(c: Config, ops: seq<Op>, s: Store, k: string)
    requires ops != [] && Faithful(c, Init(ops), s)
    requires forall k' :: k' != k ==> !JustUsed(c, ops, k')
    requires forall k' :: k' != k ==> LatestPut(c, ops, k') == LatestPut(c, Init(ops), k')
    ensures Faithful(c, ops, Without(s, k))
  {
    FaithfulPurge(c, ops, s, y => y == k);
  }

  lemma FaithfulWithoutPrefix(c: Config, ops: seq<Op>, s: Store, prefix: string)
    requires ops != [] && Faithful(c, Init(ops), s) && Last(ops) == Invalidate(prefix)
    ensures Faithful(c, ops, WithoutPrefix(s, prefix))
  {
    FaithfulPurge(c, ops, s, y => prefix <= y);
  }

  lemma FaithfulSame(c: Config, ops: seq<Op>, s: Store)
    requires ops != [] && Faithful(c, Init(ops), s)
    requires forall k :: !JustUsed(c, ops, k)
    requires forall k :: LatestPut(c, ops, k) == LatestPut(c, Init(ops), k)
    ensures Faithful(c, ops, s)
  {
  }

  /**
   * After any run the store agrees with the put history, is ordered by recency, respects its
   * capacity, and every get has been counted exactly once.
   */
  lemma {:induction false} StoreIsFaithful(c: Config, ops: seq<Op>)
    ensures Faithful(c, ops, Run(c, ops).0.store)
    ensures |Run(c, ops).0.store| <= Max(0, c.maxEntries)
    ensures Run(c, ops).0.hits + Run(c, ops).0.misses == Gets(ops)
  {
    if ops != [] {
      StoreIsFaithful(c, Init(ops));
      var st, op := Run(c, Init(ops)).0, Last(ops);
      match op
      case Get(k, now) =>
        LookupMember(st.store, k);
        WithoutFacts(st.store, k);
        if Last(Run(c, ops).1).Hit? {
          WithoutLength(st.store, k);
          FaithfulPurgeAppend(c, ops, st.store, k, Item(k, Lookup(st.store, k).value));
        } else if c.enabled && Lookup(st.store, k).Some? {
          WithoutLength(st.store, k);
          FaithfulWithout(c, ops, st.store, k);
        } else {
          FaithfulSame(c, ops, st.store);
        }
      case Put(k, _, _, _, _) =>
        if Accepts(c, op) {
          FaithfulPurgeAppend(c, ops, st.store, k, Stored(op));
          var full := Without(st.store, k) + [Stored(op)];
          FaithfulDrop(c, ops, full, Min(|full|, Max(0, |full| - c.maxEntries)));
        } else {
          FaithfulSame(c, ops, st.store);
        }
      case Invalidate(prefix) =>
        FaithfulWithoutPrefix(c, ops, st.store, prefix);
        PurgeShrinks(st.store, y => prefix <= y);
    }
  }

  /** A put of `k` that a response is stored by: caching is on, the status is a 2xx, the body not too large. */
  predicate Qualifies(c: Config, op: Op, k: string) {
    op.Put? && op.key == k && c.enabled && 200 <= op.status < 300 && |op.body| <= c.maxBodyBytes
  }

  /** Call `i` put an entry for `k` that qualifies, and nothing later replaced or invalidated it. */
  ghost predicate Stands(c: Config, ops: seq<Op>, k: string, i: nat) {
    && i < |ops| && Qualifies(c, ops[i], k)
    && forall j :: i < j < |ops| ==> !Qualifies(c, ops[j], k) && !(ops[j].Invalidate? && ops[j].prefix <= k)
  }

  lemma {:induction false} LatestPutStands(c: Config, ops: seq<Op>, k: string) returns (i: nat)
    ensures LatestPut(c, ops, k).Some? ==> Stands(c, ops, k, i) && Stored(ops[i]).entry == LatestPut(c, ops, k).value
  {
    i := 0;
    if ops != [] {
      var before := LatestPutStands(c, Init(ops), k);
      assert forall j :: 0 <= j < |ops| - 1 ==> Init(ops)[j] == ops[j];
      assert Last(ops) == ops[|ops| - 1];
      i := if Last(ops).Put? && Last(ops).key == k && Accepts(c, Last(ops)) then |ops| - 1 else before;
    }
  }

  /**
   * A hit names its put: a 2xx of acceptable size for that very key, stored with the status,
   * headers and body returned, at most one TTL ago, neither replaced nor invalidated since.
   */
  lemma HitIsLatestPut(c: Config, ops: seq<Op>, k: string, now: real) returns (i: nat)
    ensures var (after, reply) := Step(c, Run(c, ops).0, Get(k, now));
            reply.Hit? ==>
              && Stands(c, ops, k, i)
              && reply.entry == Entry(ops[i].status, ops[i].headers, ops[i].body, ops[i].now)
              && now - ops[i].now <= c.ttl
  {
    StoreIsFaithful(c, ops);
    LookupMember(Run(c, ops).0.store, k);
    i := LatestPutStands(c, ops, k);
  }

  lemma YoungerAreSince(c: Config, ops: seq<Op>, s: Store, i: nat, d: nat)
    requires Faithful(c, ops, s) && i < d <= |s|
    ensures KeySet(s[d..]) <= Since(c, ops, s[i].key)
  {
    forall x | x in s[d..]
      ensures x.key in Since(c, ops, s[i].key)
    {
      var j :| 0 <= j < |s[d..]| && s[d..][j] == x;
      assert s[d + j] == x;
    }
  }

  lemma DroppedIndex(s: Store, d: nat, x: Item) returns (i: nat)
    requires d <= |s| && x in s && x !in s[d..]
    ensures i < d && s[i] == x
  {
    i :| 0 <= i < |s| && s[i] == x;
    assert forall p :: d <= p < |s| ==> s[p] == s[d..][p - d];
  }

  ghost function KeySet(s: Store): set<string> { set x | x in s :: x.key }

  /** When a put evicts, every key it leaves was used after the evicted one. */
  lemma EvictsLeastRecent(c: Config, ops: seq<Op>, gone: Item, kept: Item)
    requires ops != [] && Last(ops).Put?
    requires gone in Run(c, Init(ops)).0.store && kept in Run(c, ops).0.store
    requires forall x :: x in Run(c, ops).0.store ==> x.key != gone.key
    ensures kept.key in Since(c, ops, gone.key)
  {
    StoreIsFaithful(c, Init(ops));
    StoreIsFaithful(c, ops);
    var before, op := Run(c, Init(ops)).0.store, Last(ops);
    assert Accepts(c, op);
    FaithfulPurgeAppend(c, ops, before, op.key, Stored(op));
    var full := Without(before, op.key) + [Stored(op)];
    var after := Trim(full, c.maxEntries);
    assert after != [];
    assert op.key != gone.key by {
      assert after[|after| - 1] == Stored(op);
    }
    PurgeMembers(before, y => y == op.key);
    WithoutKeeps(before, op.key, gone);
    var i := DroppedIndex(full, |full| - |after|, gone);
    YoungerAreSince(c, ops, full, i, |full| - |after|);
    assert kept.key in KeySet(after);
  }

  lemma WithoutKeeps(s: Store, k: string, x: Item)
    requires x in s && x.key != k
    ensures x in Without(s, k)
  {
    PurgeMembers(s, y => y == k);
  }

  /** The clock never ran backwards in `ops`, nor past `now`. */
  ghost predicate Clocked(ops: seq<Op>, now: real) {
    ops == [] || (if Last(ops).Invalidate? then Clocked(Init(ops), now)
                  else Last(ops).now <= now && Clocked(Init(ops), Last(ops).now))
  }

  lemma {:induction false} ClockedLater(ops: seq<Op>, now: real, later: real)
    requires Clocked(ops, now) && now <= later
    ensures Clocked(ops, later)
  {
    if ops != [] && Last(ops).Invalidate? {
      ClockedLater(Init(ops), now, later);
    }
  }

  lemma {:induction false} KeySetSize(s: Store)
    requires Distinct(s)
    ensures |KeySet(s)| == |s|
  {
    if s != [] {
      var t := s[..|s| - 1];
      KeySetSize(t);
      assert s == t + [s[|s| - 1]];
      assert KeySet(s) == KeySet(t) + {s[|s| - 1].key};
      assert s[|s| - 1].key !in KeySet(t);
    }
  }

  /** A key pushed out by the eviction loop has `max` distinct keys used after it. */
  lemma EvictedIsCrowdedOut(c: Config, ops: seq<Op>, full: Store, k: string)
    requires Faithful(c, ops, full)
    requires Lookup(full, k).Some? && Lookup(Trim(full, c.maxEntries), k).None?
    ensures |Since(c, ops, k)| >= c.maxEntries
  {
    if c.maxEntries > 0 {
      var kept := Trim(full, c.maxEntries);
      var d := |full| - |kept|;
      LookupMember(full, k);
      LookupMember(kept, k);
      var i := DroppedIndex(full, d, Item(k, Lookup(full, k).value));
      YoungerAreSince(c, ops, full, i, d);
      FaithfulDrop(c, ops, full, d);
      KeySetSize(kept);
      SubsetSize(KeySet(kept), Since(c, ops, k));
    }
  }

  lemma LookupAfterWithout(s: Store, k: string, k': string)
    requires Distinct(s) && k != k'
    ensures Lookup(Without(s, k'), k) == Lookup(s, k)
  {
    WithoutFacts(s, k');
    PurgeMembers(s, y => y == k');
    LookupMember(s, k);
    LookupMember(Without(s, k'), k);
    if Lookup(s, k).Some? {
      WithoutKeeps(s, k', Item(k, Lookup(s, k).value));
    }
  }

  lemma {:induction false} LookupAppend(s: Store, x: Item, k: string)
    requires x.key != k || Lookup(s, k).None?
    ensures Lookup(s + [x], k) == if x.key == k then Some(x.entry) else Lookup(s, k)
  {
    if s != [] {
      assert (s + [x])[1..] == s[1..] + [x];
      LookupAppend(s[1..], x, k);
    }
  }

  /** The invariant behind `Retention`: a live put is still stored unless it was crowded out. */
  ghost predicate Retained(c: Config, ops: seq<Op>, k: string, now: real) {
    var live := LatestPut(c, ops, k);
    live.Some? && now - live.value.created <= c.ttl ==>
      Lookup(Run(c, ops).0.store, k) == live || |Since(c, ops, k)| >= c.maxEntries
  }

  lemma SinceGrows(c: Config, ops: seq<Op>, k: string)
    requires ops != [] && !JustUsed(c, ops, k)
    ensures Since(c, Init(ops), k) <= Since(c, ops, k)
    ensures |Since(c, Init(ops), k)| <= |Since(c, ops, k)|
  {
    SubsetSize(Since(c, Init(ops), k), Since(c, ops, k));
  }

  lemma RetainedGet(c: Config, ops: seq<Op>, k: string, now: real)
    requires c.enabled && ops != [] && Last(ops).Get? && Last(ops).now <= now
    requires Retained(c, Init(ops), k, now)
    ensures Retained(c, ops, k, now)
  {
    var s, key := Run(c, Init(ops)).0.store, Last(ops).key;
    StoreIsFaithful(c, Init(ops));
    WithoutFacts(s, key);
    LookupMember(Without(s, key), key);
    if key == k {
      if Lookup(s, k).Some? {
        LookupAppend(Without(s, k), Item(k, Lookup(s, k).value), k);
        LookupMember(s, k);
      }
      if !JustUsed(c, ops, k) {
        SinceGrows(c, ops, k);
      }
    } else {
      SinceGrows(c, ops, k);
      LookupAfterWithout(s, k, key);
      if Lookup(s, key).Some? {
        LookupAppend(Without(s, key), Item(key, Lookup(s, key).value), k);
      }
    }
  }

  lemma RetainedPut(c: Config, ops: seq<Op>, k: string, now: real)
    requires c.enabled && ops != [] && Last(ops).Put? && Accepts(c, Last(ops))
    requires Retained(c, Init(ops), k, now)
    ensures Retained(c, ops, k, now)
  {
    var s, op := Run(c, Init(ops)).0.store, Last(ops);
    StoreIsFaithful(c, Init(ops));
    FaithfulPurgeAppend(c, ops, s, op.key, Stored(op));
    WithoutFacts(s, op.key);
    LookupMember(Without(s, op.key), op.key);
    var full := Without(s, op.key) + [Stored(op)];
    LookupAppend(Without(s, op.key), Stored(op), k);
    if op.key != k {
      SinceGrows(c, ops, k);
      LookupAfterWithout(s, k, op.key);
    }
    if Lookup(full, k).Some? {
      StoreIsFaithful(c, ops);
      LookupMember(full, k);
      LookupMember(Trim(full, c.maxEntries), k);
      if Lookup(Trim(full, c.maxEntries), k).None? {
        EvictedIsCrowdedOut(c, ops, full, k);
      }
    }
  }

  lemma {:induction false} LivePutRetained(c: Config, ops: seq<Op>, k: string, now: real)
    requires c.enabled && Clocked(ops, now)
    ensures Retained(c, ops, k, now)
  {
    if ops != [] {
      ClockedInit(ops, now);
      LivePutRetained(c, Init(ops), k, now);
      match Last(ops)
      case Get(_, _) => RetainedGet(c, ops, k, now);
      case Put(_, _, _, _, _) =>
        if Accepts(c, Last(ops)) {
          RetainedPut(c, ops, k, now);
        } else {
          SinceGrows(c, ops, k);
        }
      case Invalidate(prefix) =>
        var s := Run(c, Init(ops)).0.store;
        StoreIsFaithful(c, Init(ops));
        StoreIsFaithful(c, ops);
        SinceGrows(c, ops, k);
        LookupMember(s, k);
        LookupMember(WithoutPrefix(s, prefix), k);
        PurgeMembers(s, y => prefix <= y);
        if !(prefix <= k) && Lookup(s, k).Some? {
          PrefixKeeps(s, prefix, Item(k, Lookup(s, k).value));
        }
    }
  }

  lemma PrefixKeeps(s: Store, prefix: string, x: Item)
    requires x in s && !(prefix <= x.key)
    ensures x in WithoutPrefix(s, prefix)
  {
    PurgeMembers(s, y => prefix <= y);
  }

  lemma ClockedInit(ops: seq<Op>, now: real)
    requires ops != [] && Clocked(ops, now)
    ensures Clocked(Init(ops), now)
  {
    if !Last(ops).Invalidate? {
      ClockedLater(Init(ops), Last(ops).now, now);
    }
  }

  /**
   * The converse of `HitIsLatestPut`: under a nondecreasing clock a get misses a live, fresh put
   * only if at least `maxEntries` other keys were used since that key was last used.
   */
  lemma Retention(c: Config, ops: seq<Op>, k: string, now: real)
    requires c.enabled && Clocked(ops, now)
    requires LatestPut(c, ops, k).Some? && now - LatestPut(c, ops, k).value.created <= c.ttl
    requires |Since(c, ops, k)| < c.maxEntries
    ensures Step(c, Run(c, ops).0, Get(k, now)).1 == Hit(LatestPut(c, ops, k).value)
  {
    LivePutRetained(c, ops, k, now);
  }

  /** Call `j` used its key: a put that was stored, or a get that hit. */
  ghost predicate Uses(c: Config, ops: seq<Op>, j: nat)
    requires j < |ops|
  {
    match ops[j]
    case Put(key, _, _, _, _) => Qualifies(c, ops[j], key)
    case Get(_, _) => Run(c, ops).1[j].Hit?
    case Invalidate(_) => false
  }

  /** The keys but `k` that were used after call `u`. */
  ghost function UsedAfter(c: Config, ops: seq<Op>, k: string, u: int): set<string> {
    set j | u < j < |ops| && 0 <= j && !ops[j].Invalidate? && Uses(c, ops, j) && ops[j].key != k :: ops[j].key
  }

  lemma {:induction false} StandingIsLatest(c: Config, ops: seq<Op>, k: string, i: nat)
    requires Stands(c, ops, k, i)
    ensures LatestPut(c, ops, k) == Some(Entry(ops[i].status, ops[i].headers, ops[i].body, ops[i].now))
  {
    if i < |ops| - 1 {
      assert Last(ops) == ops[|ops| - 1] && forall j :: 0 <= j < |ops| - 1 ==> Init(ops)[j] == ops[j];
      StandingIsLatest(c, Init(ops), k, i);
    }
  }

  lemma UsesInit(c: Config, ops: seq<Op>, j: nat)
    requires j < |ops| - 1
    ensures Uses(c, Init(ops), j) <==> Uses(c, ops, j)
  {
    assert Init(ops)[j] == ops[j] && Run(c, ops).1[j] == Run(c, Init(ops)).1[j];
  }

  /** Only keys used after a use of `k` have been used since its latest use. */
  lemma {:induction false} SinceIsUsedAfter(c: Config, ops: seq<Op>, k: string, u: nat)
    requires u < |ops| && !ops[u].Invalidate? && ops[u].key == k && Uses(c, ops, u)
    ensures Since(c, ops, k) <= UsedAfter(c, ops, k, u)
  {
    var n := |ops| - 1;
    if !JustUsed(c, ops, k) {
      assert u < n by {
        assert ops[n] == Last(ops) && Run(c, ops).1[n] == Last(Run(c, ops).1);
      }
      assert Init(ops)[u] == ops[u];
      UsesInit(c, ops, u);
      SinceIsUsedAfter(c, Init(ops), k, u);
      forall x | x in UsedAfter(c, Init(ops), k, u)
        ensures x in UsedAfter(c, ops, k, u)
      {
        var j :| u < j < n && !ops[j].Invalidate? && Uses(c, Init(ops), j) && Init(ops)[j].key != k && Init(ops)[j].key == x;
        UsesInit(c, ops, j);
      }
      if !Last(ops).Invalidate? && JustUsed(c, ops, Last(ops).key) {
        assert Uses(c, ops, n);
      }
    }
  }

  /**
   * The converse of `HitIsLatestPut`, by position: a put of a 2xx of acceptable size that no later
   * one of that key replaced and no later call invalidated, at most one TTL old, is what a get
   * returns, as long as fewer than `maxEntries` other keys were used since some use of the key.
   */
  lemma StandingPutHits(c: Config, ops: seq<Op>, k: string, i: nat, u: nat, now: real)
    requires Clocked(ops, now) && Stands(c, ops, k, i) && now - ops[i].now <= c.ttl
    requires u < |ops| && !ops[u].Invalidate? && ops[u].key == k && Uses(c, ops, u)
    requires |UsedAfter(c, ops, k, u)| < c.maxEntries
    ensures Step(c, Run(c, ops).0, Get(k, now)).1
            == Hit(Entry(ops[i].status, ops[i].headers, ops[i].body, ops[i].now))
  {
    StandingIsLatest(c, ops, k, i);
    SinceIsUsedAfter(c, ops, k, u);
    SubsetSize(Since(c, ops, k), UsedAfter(c, ops, k, u));
    Retention(c, ops, k, now);
  }

  ghost function Count(replies: seq<Reply>, hits: bool): nat {
    if replies == [] then 0
    else Count(Init(replies), hits) + (if (if hits then Last(replies).Hit? else Last(replies).Miss?) then 1 else 0)
  }

  /** The counters are the numbers of hits and of misses that were answered. */
  lemma {:induction false} CountersExact(c: Config, ops: seq<Op>)
    ensures Run(c, ops).0.hits == Count(Run(c, ops).1, true)
    ensures Run(c, ops).0.misses == Count(Run(c, ops).1, false)
  {
    if ops != [] {
      CountersExact(c, Init(ops));
      assert Init(Run(c, ops).1) == Run(c, Init(ops)).1;
    }
  }

  /** The stored keys that begin with the prefix. */
  ghost function Covered(s: Store, prefix: string): set<string> { set k | k in KeySet(s) && prefix <= k }

  lemma CoveredCount(s: Store, prefix: string)
    requires Distinct(s)
    ensures |s| - |WithoutPrefix(s, prefix)| == |Covered(s, prefix)|
  {
    var rest := WithoutPrefix(s, prefix);
    PurgeMembers(s, x => prefix <= x);
    KeySetSize(s);
    KeySetSize(rest);
    CoveredApart(s, rest, prefix);
  }

  lemma CoveredApart(s: Store, rest: Store, prefix: string)
    requires forall x :: x in rest <==> x in s && !(prefix <= x.key)
    ensures |KeySet(s)| == |Covered(s, prefix)| + |KeySet(rest)|
  {
    var gone := Covered(s, prefix);
    assert KeySet(s) == gone + KeySet(rest) && gone !! KeySet(rest);
  }

  /** An invalidation says how many stored keys began with the prefix, and leaves exactly the others. */
  lemma InvalidationCounts(c: Config, ops: seq<Op>, prefix: string)
    ensures var s, (after, reply) := Run(c, ops).0.store, Step(c, Run(c, ops).0, Invalidate(prefix));
            && reply == Removed(|Covered(s, prefix)|)
            && forall x :: x in after.store <==> x in s && !(prefix <= x.key)
  {
    var s := Run(c, ops).0.store;
    StoreIsFaithful(c, ops);
    CoveredCount(s, prefix);
    PurgeMembers(s, x => prefix <= x);
  }

  /** What a get leaves stored, exactly: everything but its own key's entry, and that too if it has not expired. */
  lemma GetLeavesExactly(c: Config, ops: seq<Op>, k: string, now: real)
    ensures var s, after := Run(c, ops).0.store, Step(c, Run(c, ops).0, Get(k, now)).0.store;
            forall x :: x in after <==> x in s && (c.enabled && x.key == k ==> now - x.entry.created <= c.ttl)
  {
    var s := Run(c, ops).0.store;
    StoreIsFaithful(c, ops);
    PurgeMembers(s, x => x == k);
    LookupMember(s, k);
  }

  /** A put raises exactly if it would store and the capacity is negative; a disabled cache stores nothing. */
  lemma PutRaisesExactly(c: Config, st: State, op: Op)
    requires op.Put?
    ensures Step(c, st, op).1 == Overflow <==> Qualifies(c, op, op.key) && c.maxEntries < 0
    ensures !Qualifies(c, op, op.key) ==> Step(c, st, op).0 == st
  {
  }
}

/** The byte string that `make_key` feeds to the digest; the digest itself is opaque. */
module CacheKey {
  import opened CacheSpec

  function Encode(method_: Bytes, path: Bytes, body: Bytes): Bytes {
    method_ + [0] + path + [0] + body
  }

  predicate NulFree(s: Bytes) { 0 !in s }

  /** Two parts cut at the first NUL are determined by their concatenation. */
  lemma CutAtNul(a: Bytes, x: Bytes, b: Bytes, y: Bytes)
    requires NulFree(a) && NulFree(b) && a + [0] + x == b + [0] + y
    ensures a == b && x == y
  {
    var s := a + [0] + x;
    assert s[|a|] == 0 && s[|b|] == 0;
    assert forall i :: 0 <= i < |a| ==> s[i] == a[i];
    assert forall i :: 0 <= i < |b| ==> s[i] == b[i];
    assert |a| == |b|;
    assert a == s[..|a|] == b;
    assert x == s[|a| + 1..] == y;
  }

  lemma EncodeInjective(m: Bytes, p: Bytes, b: Bytes, m': Bytes, p': Bytes, b': Bytes)
    requires NulFree(m) && NulFree(p) && NulFree(m') && NulFree(p')
    requires Encode(m, p, b) == Encode(m', p', b')
    ensures m == m' && p == p' && b == b'
  {
    assert Encode(m, p, b) == m + [0] + (p + [0] + b);
    assert Encode(m', p', b') == m' + [0] + (p' + [0] + b');
    CutAtNul(m, p + [0] + b, m', p' + [0] + b');
    CutAtNul(p, b, p', b');
  }

  lemma {:induction false} FirstNul(s: Bytes) returns (head: Bytes, tail: Bytes)
    requires !NulFree(s)
    ensures NulFree(head) && s == head + [0] + tail
  {
    if s[0] == 0 {
      head, tail := [], s[1..];
    } else {
      assert s == [s[0]] + s[1..];
      head, tail := FirstNul(s[1..]);
      head := [s[0]] + head;
    }
  }

  /**
   * Exactly when a request's key can only be its own: a request shares its encoding with no
   * different NUL-free request if and only if its own method and path contain no NUL.
   */
  lemma EncodingExact(m: Bytes, p: Bytes, b: Bytes)
    ensures NulFree(m) && NulFree(p) <==>
            forall m', p', b' :: NulFree(m') && NulFree(p') && Encode(m', p', b') == Encode(m, p, b)
                                 ==> m' == m && p' == p && b' == b
  {
    if NulFree(m) && NulFree(p) {
      forall m', p', b' | NulFree(m') && NulFree(p') && Encode(m', p', b') == Encode(m, p, b)
        ensures m' == m && p' == p && b' == b
      {
        EncodeInjective(m', p', b', m, p, b);
      }
    } else {
      assert Encode(m, p, b)[|m|] == 0;
      var m', rest := FirstNul(Encode(m, p, b));
      SecondNul(m, p, b, m', rest);
      var p', b' := FirstNul(rest);
      assert Encode(m', p', b') == Encode(m, p, b);
    }
  }

  /** A NUL in the path can be read as the end of the path: two different requests, one key. */
  lemma NulCollides(m: Bytes, p: Bytes, q: Bytes, b: Bytes)
    ensures Encode(m, p + [0] + q, b) == Encode(m, p, q + [0] + b) && p + [0] + q != p
  {
    assert |p + [0] + q| > |p|;
  }

  lemma SecondNul(m: Bytes, p: Bytes, b: Bytes, head: Bytes, rest: Bytes)
    requires NulFree(head) && Encode(m, p, b) == head + [0] + rest
    ensures !NulFree(rest)
  {
    var s := Encode(m, p, b);
    var second := |m| + 1 + |p|;
    assert s[second] == 0 && s[|m|] == 0;
    assert |head| <= |m| by {
      assert forall i :: 0 <= i < |head| ==> s[i] == head[i];
    }
    assert rest[second - |head| - 1] == s[second];
  }
}
