/** The response cache of services/cache.py: an ordered store with LRU eviction and a TTL. */
module CacheSpec {
  import opened Prelude

  newtype byte = x: int | 0 <= x < 256
  type Bytes = seq<byte>

  datatype Entry = Entry(status: int, headers: map<string, string>, body: Bytes, created: real)
  datatype Item = Item(key: string, entry: Entry)

  /** An `OrderedDict`, oldest item first. */
  type Store = seq<Item>

  datatype Config = Config(enabled: bool, ttl: real, maxEntries: int, maxBodyBytes: int)
  datatype State = State(store: Store, hits: nat, misses: nat)

  /** One call, with the clock reading it makes. */
  datatype Op =
    | Get(key: string, now: real)
    | Put(key: string, status: int, headers: map<string, string>, body: Bytes, now: real)
    | Invalidate(prefix: string)

  /** `Overflow` is the `KeyError` of `popitem` on an empty store. */
  datatype Reply = Hit(entry: Entry) | Miss | Done | Overflow | Removed(count: nat)

  predicate Distinct(s: Store) {
    forall i, j :: 0 <= i < j < |s| ==> s[i].key != s[j].key
  }

  function Lookup(s: Store, k: string): Option<Entry> {
    if s == [] then None else if s[0].key == k then Some(s[0].entry) else Lookup(s[1..], k)
  }

  /** The items whose key is not `dead`, in order. */
  function Purge(s: Store, dead: string -> bool): Store {
    if s == [] then []
    else if dead(s[0].key) then Purge(s[1..], dead)
    else [s[0]] + Purge(s[1..], dead)
  }

  function Without(s: Store, k: string): Store {
    Purge(s, x => x == k)
  }

  function WithoutPrefix(s: Store, prefix: string): Store {
    Purge(s, x => prefix <= x)
  }

  /** What the eviction loop leaves: the newest `max` items. */
  function Trim(s: Store, max: int): Store {
    if |s| <= max then s else if max <= 0 then [] else s[|s| - max..]
  }

  predicate Accepts(c: Config, op: Op) {
    op.Put? && c.enabled && 200 <= op.status < 300 && |op.body| <= c.maxBodyBytes
  }

  function Stored(op: Op): Item
    requires op.Put?
  {
    Item(op.key, Entry(op.status, op.headers, op.body, op.now))
  }

  function Step(c: Config, st: State, op: Op): (State, Reply) {
    match op
    case Get(k, now) =>
      if !c.enabled then (st.(misses := st.misses + 1), Miss)
      else (match Lookup(st.store, k)
            case None => (st.(misses := st.misses + 1), Miss)
            case Some(e) =>
              if now - e.created > c.ttl then
                (st.(store := Without(st.store, k), misses := st.misses + 1), Miss)
              else
                (st.(store := Without(st.store, k) + [Item(k, e)], hits := st.hits + 1), Hit(e)))
    case Put(k, _, _, _, _) =>
      if !Accepts(c, op) then (st, Done)
      else (st.(store := Trim(Without(st.store, k) + [Stored(op)], c.maxEntries)),
            if c.maxEntries < 0 then Overflow else Done)
    case Invalidate(prefix) =>
      var rest := WithoutPrefix(st.store, prefix);
      PurgeShrinks(st.store, x => prefix <= x);
      (st.(store := rest), Removed(|st.store| - |rest|))
  }

  const EMPTY := State([], 0, 0)

  /** A whole run from the empty cache: the final state and every reply. */
  function Run(c: Config, ops: seq<Op>): (r: (State, seq<Reply>))
    ensures |r.1| == |ops|
  {
    if ops == [] then (EMPTY, [])
    else
      var before := Run(c, Init(ops));
      var after := Step(c, before.0, Last(ops));
      (after.0, before.1 + [after.1])
  }

  lemma PurgeShrinks(s: Store, dead: string -> bool)
    ensures |Purge(s, dead)| <= |s|
    ensures (forall i :: 0 <= i < |s| ==> !dead(s[i].key)) ==> Purge(s, dead) == s
  {
    if s != [] {
      PurgeShrinks(s[1..], dead);
    }
  }

  lemma PurgeMembers(s: Store, dead: string -> bool)
    ensures forall x :: x in Purge(s, dead) <==> x in s && !dead(x.key)
    ensures Distinct(s) ==> Distinct(Purge(s, dead))
  {
    if s != [] {
      PurgeMembers(s[1..], dead);
      if Distinct(s) {
        assert forall i :: 0 <= i < |s[1..]| ==> s[1..][i] == s[i + 1];
        var p := Purge(s[1..], dead);
        assert forall i :: 0 <= i < |p| ==> p[i] in s[1..];
      }
    }
  }

  lemma WithoutFacts(s: Store, k: string)
    requires Distinct(s)
    ensures Distinct(Without(s, k))
    ensures forall x :: x in Without(s, k) <==> x in s && x.key != k
    ensures forall i :: 0 <= i < |Without(s, k)| ==> Without(s, k)[i].key != k
  {
    PurgeMembers(s, x => x == k);
    assert forall i :: 0 <= i < |Without(s, k)| ==> Without(s, k)[i] in Without(s, k);
  }

  lemma LookupMember(s: Store, k: string)
    requires Distinct(s)
    ensures forall e :: Lookup(s, k) == Some(e) <==> Item(k, e) in s
    ensures Lookup(s, k) == None <==> forall x :: x in s ==> x.key != k
  {
    if s != [] {
      assert Distinct(s[1..]) by {
        assert forall i :: 0 <= i < |s[1..]| ==> s[1..][i] == s[i + 1];
      }
      LookupMember(s[1..], k);
      assert forall x :: x in s[1..] ==> x.key != s[0].key;
      assert s == [s[0]] + s[1..];
    }
  }

  lemma WithoutCons(s: Store, k: string)
    requires s != []
    ensures Without(s, k) == (if s[0].key == k then [] else [s[0]]) + Without(s[1..], k)
  {
  }

  lemma WithoutAbsent(s: Store, k: string)
    requires forall i :: 0 <= i < |s| ==> s[i].key != k
    ensures Without(s, k) == s
  {
    if s != [] {
      WithoutAbsent(s[1..], k);
    }
  }
}

module ResponseCache {
  import opened Prelude
  import opened CacheSpec

  class ResponseCache {
    var config: Config
    var store: Store
    var hits: nat
    var misses: nat

    predicate Valid()
      reads this
    {
      Distinct(store)
    }

    function Model(): State
      reads this
    {
      State(store, hits, misses)
    }

    constructor (config: Config)
      ensures Valid() && Model() == EMPTY && this.config == config
    {
      this.config := config;
      store, hits, misses := [], 0, 0;
    }

    /** `get`: a fresh entry moves to the young end; an expired one is dropped. */
    method Get(key: string, now: real) returns (r: Option<(int, map<string, string>, Bytes)>)
      requires Valid()
      modifies this
      ensures Valid() && config == old(config)
      ensures Model() == Step(config, old(Model()), Op.Get(key, now)).0
      ensures match Step(config, old(Model()), Op.Get(key, now)).1
              case Hit(e) => r == Some((e.status, e.headers, e.body))
              case _ => r == None
    {
      if !config.enabled {
        misses := misses + 1;
        return None;
      }
      match Lookup(store, key)
      case None =>
        misses := misses + 1;
        return None;
      case Some(e) =>
        PurgeMembers(store, x => x == key);
        if now - e.created > config.ttl {
          WithoutFacts(store, key);
          store := Without(store, key);
          misses := misses + 1;
          return None;
        }
        WithoutFacts(store, key);
        store := Without(store, key) + [Item(key, e)];
        hits := hits + 1;
        return Some((e.status, e.headers, e.body));
    }

    /** `put`, with its eviction loop; `raised` is the exception of a negative capacity. */
    method Put(key: string, status: int, headers: map<string, string>, body: Bytes, now: real)
      returns (raised: bool)
      requires Valid()
      modifies this
      ensures Valid() && config == old(config)
      ensures Model() == Step(config, old(Model()), Op.Put(key, status, headers, body, now)).0
      ensures raised <==> Step(config, old(Model()), Op.Put(key, status, headers, body, now)).1 == Overflow
    {
      if !config.enabled || status < 200 || status >= 300 || |body| > config.maxBodyBytes {
        return false;
      }
      WithoutFacts(store, key);
      store := Without(store, key) + [Item(key, Entry(status, headers, body, now))];
      ghost var full, popped := store, 0;
      assert Distinct(full);
      while |store| > config.maxEntries
        invariant 0 <= popped <= |full| && store == full[popped..]
        invariant popped == 0 || |store| >= config.maxEntries
        invariant config == old(config) && hits == old(hits) && misses == old(misses)
      {
        if store == [] {
          return true;
        }
        store := store[1..];
        popped := popped + 1;
      }
      return false;
    }

    /** The keys `invalidate` collects, in store order. */
    method Collect(prefix: string) returns (keys: seq<string>)
      ensures keys == Matching(store, prefix)
    {
      keys := [];
      var i := 0;
      while i < |store|
        invariant 0 <= i <= |store|
        invariant keys + Matching(store[i..], prefix) == Matching(store, prefix)
      {
        assert store[i..][0] == store[i] && store[i..][1..] == store[i + 1..];
        if prefix <= store[i].key {
          keys := keys + [store[i].key];
        }
        i := i + 1;
      }
      assert Matching(store[i..], prefix) == [];
    }

    /** `invalidate`: collects the matching keys, then pops them one by one. */
    method Invalidate(prefix: string) returns (count: nat)
      requires Valid()
      modifies this
      ensures Valid() && config == old(config)
      ensures Model() == Step(config, old(Model()), Op.Invalidate(prefix)).0
      ensures Removed(count) == Step(config, old(Model()), Op.Invalidate(prefix)).1
    {
      var keys := Collect(prefix);
      MatchingCount(store, prefix);
      var i := 0;
      while i < |keys|
        invariant 0 <= i <= |keys|
        invariant Matching(store, prefix) == keys[i..]
        invariant WithoutPrefix(store, prefix) == WithoutPrefix(old(store), prefix)
        invariant Distinct(store) && config == old(config)
        invariant hits == old(hits) && misses == old(misses)
      {
        PopMatching(store, prefix);
        assert keys[i..][0] == keys[i] && keys[i..][1..] == keys[i + 1..];
        WithoutFacts(store, keys[i]);
        store := Without(store, keys[i]);
        i := i + 1;
      }
      assert keys[i..] == [];
      NoneMatching(store, prefix);
      return |keys|;
    }
  }

  function Matching(s: Store, prefix: string): seq<string> {
    if s == [] then []
    else (if prefix <= s[0].key then [s[0].key] else []) + Matching(s[1..], prefix)
  }

  lemma MatchingCount(s: Store, prefix: string)
    ensures |Matching(s, prefix)| == |s| - |WithoutPrefix(s, prefix)|
  {
    if s != [] {
      MatchingCount(s[1..], prefix);
    }
  }

  lemma NoneMatching(s: Store, prefix: string)
    requires Matching(s, prefix) == []
    ensures WithoutPrefix(s, prefix) == s
  {
    if s != [] {
      NoneMatching(s[1..], prefix);
    }
  }

  lemma PopMatching(s: Store, prefix: string)
    requires Distinct(s) && Matching(s, prefix) != []
    ensures Matching(Without(s, Matching(s, prefix)[0]), prefix) == Matching(s, prefix)[1..]
    ensures WithoutPrefix(Without(s, Matching(s, prefix)[0]), prefix) == WithoutPrefix(s, prefix)
  {
    var k := Matching(s, prefix)[0];
    assert forall i :: 0 <= i < |s[1..]| ==> s[1..][i] == s[i + 1];
    if prefix <= s[0].key {
      assert k == s[0].key;
      PurgeShrinks(s[1..], x => x == k);
      assert Without(s, k) == s[1..] by {
        WithoutCons(s, k);
        WithoutAbsent(s[1..], k);
      }
    } else {
      PopMatching(s[1..], prefix);
      MatchingPrefixed(s, prefix);
      WithoutCons(s, k);
      WithoutPrefixCons(s, prefix);
      WithoutPrefixCons(Without(s, k), prefix);
      assert k in Matching(s, prefix) && s[0].key != k;
      assert Without(s, k)[1..] == Without(s[1..], k);
    }
  }

  lemma WithoutPrefixCons(s: Store, prefix: string)
    requires s != []
    ensures WithoutPrefix(s, prefix) ==
            (if prefix <= s[0].key then [] else [s[0]]) + WithoutPrefix(s[1..], prefix)
  {
  }

  lemma MatchingPrefixed(s: Store, prefix: string)
    ensures forall k :: k in Matching(s, prefix) ==> prefix <= k
  {
  }
}
