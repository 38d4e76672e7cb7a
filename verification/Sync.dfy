/** Merging model listings, services/sync.py: independent of the order the pulls complete in. */
module SyncMerge {
  import opened Prelude

  datatype Model = Model(id: string, name: string, ownedBy: string, created: Option<int>)

  /** One model listed for one key; a pull is a key's offers, processed without interruption. */
  datatype Offer = Offer(keyId: string, source: string, base: string, provider: string, model: Model)

  /** The merge key `(id, source, base_url)`. */
  datatype MKey = MKey(id: string, source: string, base: string)

  datatype Entry = Entry(
    key: MKey, name: string, provider: string, sourceKey: string, sourceKeys: seq<string>,
    sources: seq<string>, ownedBy: string, created: Option<int>, capabilities: seq<string>,
    enabled: bool, publicId: string)

  /** What is fixed during a sync: capability inference and the on/off switches. */
  datatype Context = Context(capabilities: string -> seq<string>, states: map<string, bool>)

  function KeyOf(o: Offer): MKey { MKey(o.model.id, o.source, o.base) }

  function EnabledOf(ctx: Context, id: string): bool {
    if id in ctx.states then ctx.states[id] else true
  }

  function NewEntry(ctx: Context, o: Offer): Entry {
    Entry(KeyOf(o), o.model.name, o.provider, o.keyId, [o.keyId], [o.source], o.model.ownedBy, o.model.created,
          ctx.capabilities(o.model.id), EnabledOf(ctx, o.model.id), "")
  }

  function AddSource(e: Entry, o: Offer): Entry {
    e.(sourceKeys := if o.keyId in e.sourceKeys then e.sourceKeys else e.sourceKeys + [o.keyId],
       sources := if o.source in e.sources then e.sources else e.sources + [o.source])
  }

  /** Where the entry with key `k` is, or the length. */
  function IndexOf(ms: seq<Entry>, k: MKey): (i: nat)
    ensures i <= |ms|
    ensures i < |ms| ==> ms[i].key == k
    ensures i == |ms| ==> forall j :: 0 <= j < |ms| ==> ms[j].key != k
  {
    if ms == [] then 0 else if ms[0].key == k then 0 else 1 + IndexOf(ms[1..], k)
  }

  function Absorb(ctx: Context, ms: seq<Entry>, o: Offer): seq<Entry> {
    var i := IndexOf(ms, KeyOf(o));
    if i < |ms| then ms[i := AddSource(ms[i], o)] else ms + [NewEntry(ctx, o)]
  }

  function Merge(ctx: Context, offers: seq<Offer>): seq<Entry> {
    if offers == [] then [] else Absorb(ctx, Merge(ctx, Init(offers)), Last(offers))
  }

  /** The pulls, each with its offers, in the order they complete. */
  function Flatten(pulls: seq<seq<Offer>>): seq<Offer> {
    if pulls == [] then [] else Flatten(Init(pulls)) + Last(pulls)
  }

  ghost predicate Distinct(ms: seq<Entry>) {
    forall i, j :: 0 <= i < j < |ms| ==> ms[i].key != ms[j].key
  }

  /** Source keys: non-empty, without duplicates, led by `source_key`; one source, the entry's own. */
  ghost predicate WellFormed(ctx: Context, e: Entry) {
    && e.sourceKeys != [] && e.sourceKey == e.sourceKeys[0]
    && (forall i, j :: 0 <= i < j < |e.sourceKeys| ==> e.sourceKeys[i] != e.sourceKeys[j])
    && e.sources == [e.key.source]
    && e.capabilities == ctx.capabilities(e.key.id)
    && e.enabled == EnabledOf(ctx, e.key.id)
  }

  ghost predicate Offered(offers: seq<Offer>, k: MKey, id: string) {
    exists i :: 0 <= i < |offers| && KeyOf(offers[i]) == k && offers[i].keyId == id
  }

  /** The merged list says exactly who offers what. */
  ghost predicate Exact(ctx: Context, offers: seq<Offer>, ms: seq<Entry>) {
    && Distinct(ms)
    && (forall i :: 0 <= i < |ms| ==> WellFormed(ctx, ms[i]))
    && (forall i, id :: 0 <= i < |ms| && id in ms[i].sourceKeys ==> Offered(offers, ms[i].key, id))
    && (forall j :: 0 <= j < |offers| ==>
          exists i :: 0 <= i < |ms| && ms[i].key == KeyOf(offers[j]) && offers[j].keyId in ms[i].sourceKeys)
  }

  lemma OfferedExtends(offers: seq<Offer>, o: Offer, k: MKey, id: string)
    ensures Offered(offers, k, id) ==> Offered(offers + [o], k, id)
    ensures Offered(offers + [o], KeyOf(o), o.keyId)
  {
    if Offered(offers, k, id) {
      var i :| 0 <= i < |offers| && KeyOf(offers[i]) == k && offers[i].keyId == id;
      assert (offers + [o])[i] == offers[i];
    }
    assert (offers + [o])[|offers|] == o;
  }

  lemma AbsorbShape(ctx: Context, ms: seq<Entry>, o: Offer)
    requires Distinct(ms) && forall i :: 0 <= i < |ms| ==> WellFormed(ctx, ms[i])
    ensures var ms' := Absorb(ctx, ms, o);
            && Distinct(ms') && |ms| <= |ms'|
            && (forall i :: 0 <= i < |ms'| ==> WellFormed(ctx, ms'[i]))
            && (forall i :: 0 <= i < |ms| ==> ms'[i].key == ms[i].key)
            && (forall i, id :: 0 <= i < |ms| && id in ms[i].sourceKeys ==> id in ms'[i].sourceKeys)
            && (forall i, id :: 0 <= i < |ms'| && id in ms'[i].sourceKeys ==>
                  (i < |ms| && id in ms[i].sourceKeys) || (ms'[i].key == KeyOf(o) && id == o.keyId))
            && (exists i :: 0 <= i < |ms'| && ms'[i].key == KeyOf(o) && o.keyId in ms'[i].sourceKeys)
  {
    var i := IndexOf(ms, KeyOf(o));
    var ms' := Absorb(ctx, ms, o);
    if i < |ms| {
      assert WellFormed(ctx, ms[i]);
      assert ms'[i].key == KeyOf(o) && o.keyId in ms'[i].sourceKeys;
    } else {
      assert ms'[|ms|] == NewEntry(ctx, o);
      assert ms'[|ms|].key == KeyOf(o) && o.keyId in ms'[|ms|].sourceKeys;
    }
  }

  lemma ExactStep(ctx: Context, offers: seq<Offer>, o: Offer, ms: seq<Entry>)
    requires Exact(ctx, offers, ms)
    ensures Exact(ctx, offers + [o], Absorb(ctx, ms, o))
  {
    AbsorbShape(ctx, ms, o);
    var ms' := Absorb(ctx, ms, o);
    forall i, id | 0 <= i < |ms'| && id in ms'[i].sourceKeys
      ensures Offered(offers + [o], ms'[i].key, id)
    {
      OfferedExtends(offers, o, ms'[i].key, id);
    }
    forall j | 0 <= j < |offers + [o]|
      ensures exists i :: 0 <= i < |ms'| && ms'[i].key == KeyOf((offers + [o])[j])
                          && (offers + [o])[j].keyId in ms'[i].sourceKeys
    {
      if j < |offers| {
        var i :| 0 <= i < |ms| && ms[i].key == KeyOf(offers[j]) && offers[j].keyId in ms[i].sourceKeys;
        assert ms'[i].key == ms[i].key;
      }
    }
  }

  lemma {:induction false} MergeExact(ctx: Context, offers: seq<Offer>)
    ensures Exact(ctx, offers, Merge(ctx, offers))
  {
    if offers == [] {
      assert Exact(ctx, [], []);
    } else {
      var init, last := Init(offers), Last(offers);
      assert offers == init + [last];
      MergeExact(ctx, init);
      ExactStep(ctx, init, last, Merge(ctx, init));
      assert Merge(ctx, offers) == Absorb(ctx, Merge(ctx, init), last);
    }
  }

  /** An entry is switched on unless its model was switched off, however often it is offered. */
  lemma {:induction false} SwitchExactly(ctx: Context, offers: seq<Offer>, i: nat)
    requires i < |Merge(ctx, offers)|
    ensures var e := Merge(ctx, offers)[i];
            e.enabled <==> !(e.key.id in ctx.states && !ctx.states[e.key.id])
  {
    MergeExact(ctx, offers);
    assert WellFormed(ctx, Merge(ctx, offers)[i]);
  }

  lemma {:induction false} FlattenMembers(pulls: seq<seq<Offer>>)
    ensures forall o :: o in Flatten(pulls) <==> exists p :: p in pulls && o in p
  {
    if pulls != [] {
      FlattenMembers(Init(pulls));
      assert pulls == Init(pulls) + [Last(pulls)];
      assert Last(pulls) in pulls;
      forall o
        ensures o in Flatten(pulls) <==> exists p :: p in pulls && o in p
      {
        if p :| p in pulls && o in p {
          assert p in Init(pulls) || p == Last(pulls);
        }
      }
    }
  }

  lemma OfferedByMember(a: seq<Offer>, b: seq<Offer>, k: MKey, id: string)
    requires (forall o :: o in a ==> o in b) && Offered(a, k, id)
    ensures Offered(b, k, id)
  {
    var i :| 0 <= i < |a| && KeyOf(a[i]) == k && a[i].keyId == id;
    assert a[i] in b;
  }

  /** What two merges must agree on for an entry: all of it but which source came first. */
  ghost predicate Agree(a: Entry, b: Entry) {
    && a.key == b.key && a.capabilities == b.capabilities && a.enabled == b.enabled && a.sources == b.sources
    && (forall id :: id in a.sourceKeys <==> id in b.sourceKeys)
  }

  /** Every entry of `a` has an agreeing one in `b`. */
  ghost predicate Within(a: seq<Entry>, b: seq<Entry>) {
    forall i :: 0 <= i < |a| ==> HasMatch(a[i], b)
  }

  ghost predicate HasMatch(e: Entry, b: seq<Entry>) {
    exists j :: 0 <= j < |b| && Agree(e, b[j])
  }

  lemma {:induction false} EntryElsewhere(ctx: Context, a: seq<Offer>, b: seq<Offer>, i: nat) returns (j: nat)
    requires forall o :: o in a ==> o in b
    requires Exact(ctx, a, Merge(ctx, a)) && Exact(ctx, b, Merge(ctx, b))
    requires i < |Merge(ctx, a)|
    ensures j < |Merge(ctx, b)| && Merge(ctx, b)[j].key == Merge(ctx, a)[i].key
  {
    var e, mb := Merge(ctx, a)[i], Merge(ctx, b);
    assert WellFormed(ctx, e) && e.sourceKeys[0] in e.sourceKeys;
    OfferedByMember(a, b, e.key, e.sourceKeys[0]);
    var q :| 0 <= q < |b| && KeyOf(b[q]) == e.key && b[q].keyId == e.sourceKeys[0];
    j :| 0 <= j < |mb| && mb[j].key == KeyOf(b[q]) && b[q].keyId in mb[j].sourceKeys;
  }

  lemma AgreeSomewhere(ctx: Context, a: seq<Offer>, b: seq<Offer>, i: nat)
    requires forall o :: o in a <==> o in b
    requires i < |Merge(ctx, a)|
    ensures HasMatch(Merge(ctx, a)[i], Merge(ctx, b))
  {
    MergeExact(ctx, a);
    MergeExact(ctx, b);
    var j := EntryElsewhere(ctx, a, b, i);
    SameSources(ctx, a, b, i, j);
    assert WellFormed(ctx, Merge(ctx, a)[i]) && WellFormed(ctx, Merge(ctx, b)[j]);
    assert Agree(Merge(ctx, a)[i], Merge(ctx, b)[j]);
  }

  lemma {:induction false} MergeWithin(ctx: Context, a: seq<Offer>, b: seq<Offer>)
    requires forall o :: o in a <==> o in b
    ensures Within(Merge(ctx, a), Merge(ctx, b))
  {
    forall i | 0 <= i < |Merge(ctx, a)|
      ensures HasMatch(Merge(ctx, a)[i], Merge(ctx, b))
    {
      AgreeSomewhere(ctx, a, b, i);
    }
  }

  lemma SourcesInto(ctx: Context, a: seq<Offer>, b: seq<Offer>, i: nat, j: nat, id: string)
    requires (forall o :: o in a ==> o in b) && Exact(ctx, a, Merge(ctx, a)) && Exact(ctx, b, Merge(ctx, b))
    requires i < |Merge(ctx, a)| && j < |Merge(ctx, b)| && Merge(ctx, a)[i].key == Merge(ctx, b)[j].key
    requires id in Merge(ctx, a)[i].sourceKeys
    ensures id in Merge(ctx, b)[j].sourceKeys
  {
    var k := Merge(ctx, a)[i].key;
    OfferedByMember(a, b, k, id);
    var q :| 0 <= q < |b| && KeyOf(b[q]) == k && b[q].keyId == id;
    var j' :| 0 <= j' < |Merge(ctx, b)| && Merge(ctx, b)[j'].key == KeyOf(b[q])
              && b[q].keyId in Merge(ctx, b)[j'].sourceKeys;
    assert j' == j;
  }

  lemma SameSources(ctx: Context, a: seq<Offer>, b: seq<Offer>, i: nat, j: nat)
    requires (forall o :: o in a <==> o in b) && Exact(ctx, a, Merge(ctx, a)) && Exact(ctx, b, Merge(ctx, b))
    requires i < |Merge(ctx, a)| && j < |Merge(ctx, b)| && Merge(ctx, a)[i].key == Merge(ctx, b)[j].key
    ensures forall id :: id in Merge(ctx, a)[i].sourceKeys <==> id in Merge(ctx, b)[j].sourceKeys
  {
    forall id
      ensures id in Merge(ctx, a)[i].sourceKeys <==> id in Merge(ctx, b)[j].sourceKeys
    {
      if id in Merge(ctx, a)[i].sourceKeys {
        SourcesInto(ctx, a, b, i, j, id);
      }
      if id in Merge(ctx, b)[j].sourceKeys {
        SourcesInto(ctx, b, a, j, i, id);
      }
    }
  }

  /**
   * Sync confluence: whatever order the concurrent pulls complete in, the merged lists have the
   * same entries, with the same capabilities, switch, sources and set of source keys.
   */
  lemma {:induction false} Confluence(ctx: Context, p: seq<seq<Offer>>, q: seq<seq<Offer>>)
    requires multiset(p) == multiset(q)
    ensures Within(Merge(ctx, Flatten(p)), Merge(ctx, Flatten(q)))
    ensures Within(Merge(ctx, Flatten(q)), Merge(ctx, Flatten(p)))
    ensures Distinct(Merge(ctx, Flatten(p))) && Distinct(Merge(ctx, Flatten(q)))
    ensures forall i :: 0 <= i < |Merge(ctx, Flatten(p))| ==> WellFormed(ctx, Merge(ctx, Flatten(p))[i])
  {
    SameOffers(p, q);
    MergeWithin(ctx, Flatten(p), Flatten(q));
    MergeWithin(ctx, Flatten(q), Flatten(p));
    MergeExact(ctx, Flatten(p));
    MergeExact(ctx, Flatten(q));
  }

  lemma SameOffers(p: seq<seq<Offer>>, q: seq<seq<Offer>>)
    requires multiset(p) == multiset(q)
    ensures forall o :: o in Flatten(p) <==> o in Flatten(q)
  {
    FlattenMembers(p);
    FlattenMembers(q);
    assert forall x :: x in p <==> x in multiset(p);
    assert forall x :: x in q <==> x in multiset(q);
  }

  /** The first offer of `k`. */
  function First(offers: seq<Offer>, k: MKey): Option<Offer> {
    if offers == [] then None
    else if First(Init(offers), k).Some? then First(Init(offers), k)
    else if KeyOf(Last(offers)) == k then Some(Last(offers)) else None
  }

  /** The entry carries what its first offer says. */
  ghost predicate LedBy(e: Entry, o: Option<Offer>) {
    && o.Some? && e.sourceKey == o.value.keyId && e.provider == o.value.provider
    && e.name == o.value.model.name && e.ownedBy == o.value.model.ownedBy && e.created == o.value.model.created
  }

  /** What depends on the order at all is decided by the first offer of the model. */
  lemma {:induction false} LeaderIsFirst(ctx: Context, offers: seq<Offer>)
    ensures forall i :: 0 <= i < |Merge(ctx, offers)| ==>
              LedBy(Merge(ctx, offers)[i], First(offers, Merge(ctx, offers)[i].key))
    ensures forall k :: First(offers, k).Some? <==> IndexOf(Merge(ctx, offers), k) < |Merge(ctx, offers)|
  {
    if offers != [] {
      var before, o := Merge(ctx, Init(offers)), Last(offers);
      var after := Merge(ctx, offers);
      LeaderIsFirst(ctx, Init(offers));
      forall i | 0 <= i < |after|
        ensures LedBy(after[i], First(offers, after[i].key))
      {
        if i < |before| {
          assert before[i].key == after[i].key;
        } else {
          assert IndexOf(before, KeyOf(o)) == |before|;
        }
      }
      forall k
        ensures First(offers, k).Some? <==> IndexOf(after, k) < |after|
      {
        KnownAfter(ctx, before, o, k);
      }
    }
  }

  lemma KnownAfter(ctx: Context, ms: seq<Entry>, o: Offer, k: MKey)
    ensures IndexOf(Absorb(ctx, ms, o), k) < |Absorb(ctx, ms, o)| <==> k == KeyOf(o) || IndexOf(ms, k) < |ms|
  {
    var after := Absorb(ctx, ms, o);
    var i, j := IndexOf(ms, k), IndexOf(ms, KeyOf(o));
    assert j < |ms| ==> after[j].key == KeyOf(o);
    assert j == |ms| ==> after[|ms|].key == KeyOf(o);
    assert i < |ms| ==> after[i].key == k;
    assert forall m :: 0 <= m < |ms| ==> after[m].key == ms[m].key;
  }

  lemma {:induction false} FirstAppend(a: seq<Offer>, b: seq<Offer>, k: MKey)
    ensures First(a + b, k) == if First(a, k).Some? then First(a, k) else First(b, k)
  {
    if b == [] {
      assert a + b == a;
    } else {
      FirstAppend(a, Init(b), k);
      assert Init(a + b) == a + Init(b);
    }
  }

  /** The leader comes from the first pull to complete that offers the model. */
  lemma {:induction false} LeadingPull(pulls: seq<seq<Offer>>, k: MKey) returns (j: nat)
    ensures First(Flatten(pulls), k).Some? ==> j < |pulls| && First(Flatten(pulls), k) == First(pulls[j], k)
    ensures First(Flatten(pulls), k).None? ==> forall p :: p in pulls ==> First(p, k).None?
    ensures pulls != [] && First(pulls[0], k).Some? ==> First(Flatten(pulls), k) == First(pulls[0], k)
  {
    j := 0;
    if pulls != [] {
      var init, last := Init(pulls), Last(pulls);
      var before := LeadingPull(init, k);
      FirstAppend(Flatten(init), last, k);
      j := if First(Flatten(init), k).Some? then before else |pulls| - 1;
      assert pulls == init + [last];
    }
  }

  /** All of an entry that can depend on the order: its leading key and what it took over from its first offer. */
  datatype Lead = Lead(keyId: string, provider: string, name: string, ownedBy: string, created: Option<int>)

  function Leader(ctx: Context, pulls: seq<seq<Offer>>, k: MKey): Option<Lead> {
    var ms := Merge(ctx, Flatten(pulls));
    var i := IndexOf(ms, k);
    if i < |ms| then Some(Lead(ms[i].sourceKey, ms[i].provider, ms[i].name, ms[i].ownedBy, ms[i].created)) else None
  }

  function Mark(o: Option<Offer>): Option<Lead> {
    match o
    case Some(Offer(keyId, _, _, provider, m)) => Some(Lead(keyId, provider, m.name, m.ownedBy, m.created))
    case None => None
  }

  lemma LeaderMark(ctx: Context, pulls: seq<seq<Offer>>, k: MKey)
    ensures Leader(ctx, pulls, k) == Mark(First(Flatten(pulls), k))
  {
    LeaderIsFirst(ctx, Flatten(pulls));
  }

  /** All pulls that offer `k` would make the same leader. */
  ghost predicate Unanimous(pulls: seq<seq<Offer>>, k: MKey) {
    forall a, b :: a in pulls && b in pulls && First(a, k).Some? && First(b, k).Some? ==>
      Mark(First(a, k)) == Mark(First(b, k))
  }

  ghost predicate SameLeader(ctx: Context, p: seq<seq<Offer>>, k: MKey) {
    forall q :: multiset(q) == multiset(p) ==> Leader(ctx, q, k) == Leader(ctx, p, k)
  }

  lemma UnanimousLeader(ctx: Context, p: seq<seq<Offer>>, q: seq<seq<Offer>>, k: MKey)
    requires Unanimous(p, k) && multiset(q) == multiset(p)
    ensures Leader(ctx, q, k) == Leader(ctx, p, k)
  {
    LeaderMark(ctx, p, k);
    LeaderMark(ctx, q, k);
    var i := LeadingPull(p, k);
    var j := LeadingPull(q, k);
    assert forall x :: x in p <==> x in multiset(p);
    assert forall x :: x in q <==> x in multiset(q);
    assert forall m :: 0 <= m < |p| ==> p[m] in p;
    assert forall m :: 0 <= m < |q| ==> q[m] in q;
  }

  /** Any pull may be the first to complete. */
  lemma MovedToFront<T>(p: seq<T>, a: T) returns (q: seq<T>)
    requires a in p
    ensures multiset(q) == multiset(p) && q != [] && q[0] == a
  {
    var i :| 0 <= i < |p| && p[i] == a;
    q := [a] + p[..i] + p[i + 1..];
    assert p == p[..i] + [a] + p[i + 1..];
  }

  lemma FrontLeads(ctx: Context, p: seq<seq<Offer>>, a: seq<Offer>, k: MKey)
    requires SameLeader(ctx, p, k) && a in p && First(a, k).Some?
    ensures Leader(ctx, p, k) == Mark(First(a, k))
  {
    var q := MovedToFront(p, a);
    var j := LeadingPull(q, k);
    LeaderMark(ctx, q, k);
  }

  /**
   * When an entry depends on the completion order at all, exactly: every order gives the model the
   * same leading key, provider, name, owner and creation time if and only if all pulls that offer it
   * have the same ones in their first offer of it.
   */
  lemma LeaderFixedExactly(ctx: Context, p: seq<seq<Offer>>, k: MKey)
    ensures SameLeader(ctx, p, k) <==> Unanimous(p, k)
  {
    if SameLeader(ctx, p, k) {
      forall a, b | a in p && b in p && First(a, k).Some? && First(b, k).Some?
        ensures Mark(First(a, k)) == Mark(First(b, k))
      {
        FrontLeads(ctx, p, a, k);
        FrontLeads(ctx, p, b, k);
      }
    }
    if Unanimous(p, k) {
      forall q | multiset(q) == multiset(p)
        ensures Leader(ctx, q, k) == Leader(ctx, p, k)
      {
        UnanimousLeader(ctx, p, q, k);
      }
    }
  }

  /** Two keys that offer one model: whichever completes first leads. */
  lemma LeadingSourceDependsOnOrder(ctx: Context)
    ensures var m := Model("m", "m", "", None);
            var p, q := [Offer("k1", "s", "b", "x", m)], [Offer("k2", "s", "b", "y", m)];
            && Merge(ctx, Flatten([p, q]))[0].sourceKey == "k1" && Merge(ctx, Flatten([p, q]))[0].provider == "x"
            && Merge(ctx, Flatten([q, p]))[0].sourceKey == "k2" && Merge(ctx, Flatten([q, p]))[0].provider == "y"
  {
    var m := Model("m", "m", "", None);
    var o1, o2 := Offer("k1", "s", "b", "x", m), Offer("k2", "s", "b", "y", m);
    TwoOffers(ctx, o1, o2);
    TwoOffers(ctx, o2, o1);
  }

  lemma TwoOffers(ctx: Context, o1: Offer, o2: Offer)
    requires KeyOf(o1) == KeyOf(o2)
    ensures Merge(ctx, Flatten([[o1], [o2]])) == [AddSource(NewEntry(ctx, o1), o2)]
  {
    FlattenTwo(o1, o2);
    var first := [NewEntry(ctx, o1)];
    assert Init([o1]) == [] && Last([o1]) == o1;
    assert Merge(ctx, [o1]) == first by {
      assert Merge(ctx, []) == [];
    }
    assert Init([o1, o2]) == [o1] && Last([o1, o2]) == o2;
    assert first[0].key == KeyOf(o2);
    assert IndexOf(first, KeyOf(o2)) == 0;
  }

  lemma FlattenTwo(o1: Offer, o2: Offer)
    ensures Flatten([[o1], [o2]]) == [o1, o2]
  {
    assert Init([[o1], [o2]]) == [[o1]] && Init([[o1]]) == [];
    assert Flatten([[o1]]) == [o1];
  }

  /** A key as `sync` reads it; an empty base is an address that could not be resolved. */
  datatype SyncKey = SyncKey(id: string, name: string, provider: string, base: string, active: bool)

  /** One model of a listing, `""` for a missing field. */
  datatype Listed = Listed(id: string, name: string, ownedBy: string, created: Option<int>)

  /** What each key's listing holds; a key that is missing could not be decrypted or asked. */
  type Answers = map<string, seq<Listed>>

  const MAX_PULLS := 20

  function ActiveKeys(keys: seq<SyncKey>): seq<SyncKey> {
    if keys == [] then []
    else if Last(keys).active then ActiveKeys(Init(keys)) + [Last(keys)] else ActiveKeys(Init(keys))
  }

  /** The keys that are asked: the first 20 ACTIVE ones. */
  function Chosen(keys: seq<SyncKey>): seq<SyncKey> {
    var active := ActiveKeys(keys);
    if |active| <= MAX_PULLS then active else active[..MAX_PULLS]
  }

  function ActiveBefore(keys: seq<SyncKey>, n: nat): nat
    requires n <= |keys|
  {
    if n == 0 then 0 else ActiveBefore(keys, n - 1) + (if keys[n - 1].active then 1 else 0)
  }

  lemma {:induction false} ActiveAt(keys: seq<SyncKey>, i: nat)
    requires i < |keys| && keys[i].active
    ensures ActiveBefore(keys, i) < |ActiveKeys(keys)| && ActiveKeys(keys)[ActiveBefore(keys, i)] == keys[i]
    decreases |keys|
  {
    ActiveCount(Init(keys));
    BeforeInInit(keys, i);
    if i < |keys| - 1 {
      BeforeInInit(keys, |keys| - 1);
      ActiveAt(Init(keys), i);
    } else {
      BeforeInInit(keys, |keys| - 1);
    }
  }

  lemma {:induction false} BeforeInInit(keys: seq<SyncKey>, n: nat)
    requires n < |keys|
    ensures ActiveBefore(Init(keys), n) == ActiveBefore(keys, n)
  {
    if n > 0 {
      BeforeInInit(keys, n - 1);
    }
  }

  lemma {:induction false} ActiveCount(keys: seq<SyncKey>)
    ensures |ActiveKeys(keys)| == ActiveBefore(keys, |keys|)
  {
    if keys != [] {
      ActiveCount(Init(keys));
      BeforeInInit(keys, |keys| - 1);
    }
  }

  /** Which keys are asked, exactly: an ACTIVE one if fewer than 20 of those before it are, and in the same order. */
  lemma ChosenExactly(keys: seq<SyncKey>)
    ensures |Chosen(keys)| <= 20 && forall k :: k in Chosen(keys) ==> k in keys && k.active
    ensures forall i :: 0 <= i < |keys| && keys[i].active && ActiveBefore(keys, i) < 20 ==>
              ActiveBefore(keys, i) < |Chosen(keys)| && Chosen(keys)[ActiveBefore(keys, i)] == keys[i]
    ensures |Chosen(keys)| == if ActiveBefore(keys, |keys|) < 20 then ActiveBefore(keys, |keys|) else 20
  {
    ActiveMembers(keys);
    ActiveCount(keys);
    forall i | 0 <= i < |keys| && keys[i].active && ActiveBefore(keys, i) < 20
      ensures ActiveBefore(keys, i) < |Chosen(keys)| && Chosen(keys)[ActiveBefore(keys, i)] == keys[i]
    {
      ActiveAt(keys, i);
    }
  }

  /** A listed model without id goes by its name, one with neither is skipped; the source is the key's name. */
  function OfferOf(k: SyncKey, m: Listed): Option<Offer> {
    var id := if m.id != "" then m.id else m.name;
    if id == "" then None
    else Some(Offer(k.id, if k.name != "" then k.name else k.provider, k.base, k.provider,
                    Model(id, if m.name != "" then m.name else id, m.ownedBy, m.created)))
  }

  /**
   * What a listed model becomes, exactly: with an id it goes by that id, whatever its name, and keeps
   * its name if it has one; with a name only it goes by the name; with neither it is passed over. Its
   * source is the key's name, or the provider of a key without one.
   */
  lemma OfferExactly(k: SyncKey, m: Listed)
    ensures m.id == "" && m.name == "" <==> OfferOf(k, m).None?
    ensures var source := if k.name == "" then k.provider else k.name;
            && (m.id != "" ==> OfferOf(k, m).Some? && KeyOf(OfferOf(k, m).value) == MKey(m.id, source, k.base))
            && (m.id == "" && m.name != "" ==>
                  OfferOf(k, m).Some? && KeyOf(OfferOf(k, m).value) == MKey(m.name, source, k.base))
    ensures OfferOf(k, m).Some? ==>
              var o := OfferOf(k, m).value;
              && o.keyId == k.id && o.provider == k.provider
              && o.model.name == (if m.name != "" then m.name else m.id)
              && o.model.ownedBy == m.ownedBy && o.model.created == m.created
  {
  }

  function OffersOf(k: SyncKey, listing: seq<Listed>): seq<Offer> {
    if listing == [] then []
    else
      var earlier, o := OffersOf(k, Init(listing)), OfferOf(k, Last(listing));
      if o.Some? then earlier + [o.value] else earlier
  }

  function PullOf(k: SyncKey, answers: Answers): seq<Offer> {
    if k.base == "" || k.id !in answers then [] else OffersOf(k, answers[k.id])
  }

  function PullsOf(order: seq<SyncKey>, answers: Answers): seq<seq<Offer>> {
    seq(|order|, i requires 0 <= i < |order| => PullOf(order[i], answers))
  }

  /** The key's pull breaks off, after the part of its listing that `answers` has. */
  predicate Fails(k: SyncKey, answers: Answers, failures: map<string, string>) {
    k.base != "" && k.id in answers && k.id in failures
  }

  /** What a sync reports as its error: the last failure to be noted, and nothing clears it. */
  function ErrorAfter(before: string, order: seq<SyncKey>, answers: Answers, failures: map<string, string>): string {
    if order == [] then before
    else if Fails(Last(order), answers, failures) then failures[Last(order).id]
    else ErrorAfter(before, Init(order), answers, failures)
  }

  lemma {:induction false} NoFailure(before: string, order: seq<SyncKey>, answers: Answers, failures: map<string, string>)
    requires forall k :: k in order ==> !Fails(k, answers, failures)
    ensures ErrorAfter(before, order, answers, failures) == before
  {
    if order != [] {
      assert Last(order) in order && forall k :: k in Init(order) ==> k in order;
      NoFailure(before, Init(order), answers, failures);
    }
  }

  lemma {:induction false} FailureReplaces(a: string, b: string, order: seq<SyncKey>, answers: Answers,
                                           failures: map<string, string>, k: SyncKey)
    requires k in order && Fails(k, answers, failures)
    ensures ErrorAfter(a, order, answers, failures) == ErrorAfter(b, order, answers, failures)
  {
    if !Fails(Last(order), answers, failures) {
      assert order == Init(order) + [Last(order)];
      FailureReplaces(a, b, Init(order), answers, failures, k);
    }
  }

  /**
   * The error reported is that of the last pull in completion order to break off; a key without an
   * address, or whose secret or listing is missing, is not pulled and reports nothing.
   */
  lemma {:induction false} LastErrorReported(before: string, order: seq<SyncKey>, answers: Answers,
                                             failures: map<string, string>, i: nat)
    requires i < |order| && order[i].base != "" && order[i].id in answers && order[i].id in failures
    requires forall j :: i < j < |order| ==>
               order[j].base == "" || order[j].id !in answers || order[j].id !in failures
    ensures ErrorAfter(before, order, answers, failures) == failures[order[i].id]
  {
    if i < |order| - 1 {
      assert forall j :: i < j < |order| - 1 ==> Init(order)[j] == order[j];
      LastErrorReported(before, Init(order), answers, failures, i);
    }
  }

  /** A sync reports whatever error was left before it if and only if none of its own pulls fails. */
  lemma {:induction false} StaleErrorExactly(order: seq<SyncKey>, answers: Answers, failures: map<string, string>)
    ensures (forall before :: ErrorAfter(before, order, answers, failures) == before)
            <==> forall k :: k in order ==> k.base == "" || k.id !in answers || k.id !in failures
  {
    assert forall k :: Fails(k, answers, failures) <==> k.base != "" && k.id in answers && k.id in failures;
    if forall k :: k in order ==> !Fails(k, answers, failures) {
      forall before
        ensures ErrorAfter(before, order, answers, failures) == before
      {
        NoFailure(before, order, answers, failures);
      }
    } else {
      var k :| k in order && Fails(k, answers, failures);
      var reported := ErrorAfter("", order, answers, failures);
      FailureReplaces("", reported + "!", order, answers, failures, k);
    }
  }

  /** The key's listing has a model that is merged under `key`. */
  ghost predicate Lists(k: SyncKey, answers: Answers, key: MKey) {
    k.base != "" && k.id in answers
    && exists m :: m in answers[k.id] && OfferOf(k, m).Some? && KeyOf(OfferOf(k, m).value) == key
  }

  lemma {:induction false} OffersOfMembers(k: SyncKey, listing: seq<Listed>)
    ensures forall o :: o in OffersOf(k, listing) <==> exists m :: m in listing && OfferOf(k, m) == Some(o)
  {
    if listing != [] {
      OffersOfMembers(k, Init(listing));
      assert listing == Init(listing) + [Last(listing)];
    }
  }

  lemma PulledMembers(order: seq<SyncKey>, answers: Answers)
    ensures forall o :: o in Flatten(PullsOf(order, answers)) <==> exists k :: k in order && o in PullOf(k, answers)
  {
    var pulls := PullsOf(order, answers);
    FlattenMembers(pulls);
    forall o
      ensures o in Flatten(pulls) <==> exists k :: k in order && o in PullOf(k, answers)
    {
      if o in Flatten(pulls) {
        var p :| p in pulls && o in p;
        var i :| 0 <= i < |pulls| && pulls[i] == p;
        assert order[i] in order;
      }
      if k :| k in order && o in PullOf(k, answers) {
        var i :| 0 <= i < |order| && order[i] == k;
        assert pulls[i] in pulls;
      }
    }
  }

  lemma KeyOffers(k: SyncKey, answers: Answers, key: MKey)
    ensures Lists(k, answers, key) <==> exists o :: o in PullOf(k, answers) && KeyOf(o) == key
    ensures forall o :: o in PullOf(k, answers) ==> o.keyId == k.id
  {
    if k.id in answers {
      OffersOfMembers(k, answers[k.id]);
    }
    if k.base != "" && k.id in answers {
      if m :| m in answers[k.id] && OfferOf(k, m).Some? && KeyOf(OfferOf(k, m).value) == key {
        assert OfferOf(k, m).value in PullOf(k, answers);
      }
    }
  }

  /** A chosen key of that id lists the model. */
  ghost predicate Provided(order: seq<SyncKey>, answers: Answers, key: MKey, id: string) {
    exists k :: k in order && k.id == id && Lists(k, answers, key)
  }

  lemma OfferedExactly(order: seq<SyncKey>, answers: Answers, key: MKey, id: string)
    ensures Offered(Flatten(PullsOf(order, answers)), key, id) <==> Provided(order, answers, key, id)
  {
    var offers := Flatten(PullsOf(order, answers));
    PulledMembers(order, answers);
    forall k
      ensures Lists(k, answers, key) <==> exists o :: o in PullOf(k, answers) && KeyOf(o) == key
      ensures forall o :: o in PullOf(k, answers) ==> o.keyId == k.id
    {
      KeyOffers(k, answers, key);
    }
    if Offered(offers, key, id) {
      var i :| 0 <= i < |offers| && KeyOf(offers[i]) == key && offers[i].keyId == id;
      assert offers[i] in offers;
      var k :| k in order && offers[i] in PullOf(k, answers);
      assert Lists(k, answers, key);
    }
    if Provided(order, answers, key, id) {
      var k :| k in order && k.id == id && Lists(k, answers, key);
      var o :| o in PullOf(k, answers) && KeyOf(o) == key;
      assert o in offers;
    }
  }

  /**
   * What a sync says about keys, exactly: whatever order the pulls complete in, an entry names the
   * keys among the first 20 ACTIVE ones that list its model, and no other.
   */
  lemma SyncedSources(ctx: Context, keys: seq<SyncKey>, order: seq<SyncKey>, answers: Answers, i: nat, id: string)
    requires multiset(order) == multiset(Chosen(keys))
    requires i < |Merge(ctx, Flatten(PullsOf(order, answers)))|
    ensures var e := Merge(ctx, Flatten(PullsOf(order, answers)))[i];
            id in e.sourceKeys <==> Provided(Chosen(keys), answers, e.key, id)
  {
    var offers := Flatten(PullsOf(order, answers));
    var ms := Merge(ctx, offers);
    MergeExact(ctx, offers);
    OfferedExactly(order, answers, ms[i].key, id);
    assert forall k :: k in order <==> k in multiset(order);
    assert forall k :: k in Chosen(keys) <==> k in multiset(Chosen(keys));
    if Offered(offers, ms[i].key, id) {
      var q :| 0 <= q < |offers| && KeyOf(offers[q]) == ms[i].key && offers[q].keyId == id;
      var j :| 0 <= j < |ms| && ms[j].key == KeyOf(offers[q]) && offers[q].keyId in ms[j].sourceKeys;
      assert j == i;
    }
  }

  lemma {:induction false} ActiveMembers(keys: seq<SyncKey>)
    ensures forall k :: k in ActiveKeys(keys) ==> k in keys && k.active
  {
    if keys != [] {
      ActiveMembers(Init(keys));
      assert forall k :: k in Init(keys) ==> k in keys;
      assert Last(keys) in keys;
    }
  }

  /** No two keys have the same id. */
  ghost predicate OwnIds(keys: seq<SyncKey>) {
    forall i, j :: 0 <= i < j < |keys| ==> keys[i].id != keys[j].id
  }

  lemma ChosenOnce(keys: seq<SyncKey>, a: SyncKey, b: SyncKey)
    requires OwnIds(keys) && a in Chosen(keys) && b in Chosen(keys) && a.id == b.id
    ensures a == b
  {
    ActiveMembers(keys);
    assert a in keys && b in keys;
  }

  lemma {:induction false} FirstFound(offers: seq<Offer>, k: MKey)
    ensures First(offers, k).Some? ==> First(offers, k).value in offers
    ensures First(offers, k).Some? <==> exists o :: o in offers && KeyOf(o) == k
  {
    if offers != [] {
      FirstFound(Init(offers), k);
      assert offers == Init(offers) + [Last(offers)];
    }
  }

  /** A key's first offer of a model it lists is its own. */
  lemma PullLeads(k: SyncKey, answers: Answers, key: MKey)
    ensures First(PullOf(k, answers), key).Some? <==> Lists(k, answers, key)
    ensures First(PullOf(k, answers), key).Some? ==> First(PullOf(k, answers), key).value.keyId == k.id
  {
    FirstFound(PullOf(k, answers), key);
    KeyOffers(k, answers, key);
  }

  /** At most one of the keys lists the model. */
  ghost predicate OneLister(chosen: seq<SyncKey>, answers: Answers, key: MKey) {
    forall a, b :: a in chosen && b in chosen && Lists(a, answers, key) && Lists(b, answers, key) ==> a == b
  }

  ghost predicate SameLead(ctx: Context, chosen: seq<SyncKey>, answers: Answers, key: MKey) {
    forall p, q :: multiset(p) == multiset(chosen) == multiset(q) ==>
      Leader(ctx, PullsOf(p, answers), key) == Leader(ctx, PullsOf(q, answers), key)
  }

  /** Whoever comes first among the listing keys leads. */
  lemma LeadingKey(order: seq<SyncKey>, answers: Answers, key: MKey) returns (k: Option<SyncKey>)
    ensures var first := First(Flatten(PullsOf(order, answers)), key);
            match k
            case None => first.None? && forall x :: x in order ==> !Lists(x, answers, key)
            case Some(x) => x in order && Lists(x, answers, key) && first == First(PullOf(x, answers), key)
    ensures order != [] && Lists(order[0], answers, key) ==> k == Some(order[0])
  {
    var pulls := PullsOf(order, answers);
    var j := LeadingPull(pulls, key);
    forall i | 0 <= i < |order|
      ensures pulls[i] in pulls && (First(pulls[i], key).Some? <==> Lists(order[i], answers, key))
    {
      PullLeads(order[i], answers, key);
    }
    if First(Flatten(pulls), key).None? {
      return None;
    }
    return Some(order[if Lists(order[0], answers, key) then 0 else j]);
  }

  lemma ListerLeads(ctx: Context, chosen: seq<SyncKey>, answers: Answers, key: MKey, a: SyncKey)
    requires SameLead(ctx, chosen, answers, key) && a in chosen && Lists(a, answers, key)
    ensures Leader(ctx, PullsOf(chosen, answers), key).Some?
    ensures Leader(ctx, PullsOf(chosen, answers), key).value.keyId == a.id
  {
    var q := MovedToFront(chosen, a);
    var k := LeadingKey(q, answers, key);
    LeaderMark(ctx, PullsOf(q, answers), key);
    PullLeads(a, answers, key);
  }

  /**
   * When a sync's result depends on the order its pulls complete in, exactly: an entry's leading
   * key, provider, name, owner and creation time are the same for every order if and only if at
   * most one of the chosen keys lists the model.
   */
  lemma LeadFixedExactly(ctx: Context, keys: seq<SyncKey>, answers: Answers, key: MKey)
    requires OwnIds(keys)
    ensures SameLead(ctx, Chosen(keys), answers, key) <==> OneLister(Chosen(keys), answers, key)
  {
    var chosen := Chosen(keys);
    if SameLead(ctx, chosen, answers, key) {
      forall a, b | a in chosen && b in chosen && Lists(a, answers, key) && Lists(b, answers, key)
        ensures a == b
      {
        ListerLeads(ctx, chosen, answers, key, a);
        ListerLeads(ctx, chosen, answers, key, b);
        ChosenOnce(keys, a, b);
      }
    }
    if OneLister(chosen, answers, key) {
      forall p, q | multiset(p) == multiset(chosen) == multiset(q)
        ensures Leader(ctx, PullsOf(p, answers), key) == Leader(ctx, PullsOf(q, answers), key)
      {
        var a := LeadingKey(p, answers, key);
        var b := LeadingKey(q, answers, key);
        LeaderMark(ctx, PullsOf(p, answers), key);
        LeaderMark(ctx, PullsOf(q, answers), key);
        SameKeys(p, chosen);
        SameKeys(q, chosen);
      }
    }
  }

  lemma SameKeys(p: seq<SyncKey>, q: seq<SyncKey>)
    requires multiset(p) == multiset(q)
    ensures forall k :: k in p <==> k in q
  {
    assert forall k :: k in p <==> k in multiset(p);
    assert forall k :: k in q <==> k in multiset(q);
  }

  /** Two completion orders of one sync give agreeing entries. */
  lemma SyncConfluent(ctx: Context, keys: seq<SyncKey>, p: seq<SyncKey>, q: seq<SyncKey>, answers: Answers)
    requires multiset(p) == multiset(Chosen(keys)) == multiset(q)
    ensures Within(Merge(ctx, Flatten(PullsOf(p, answers))), Merge(ctx, Flatten(PullsOf(q, answers))))
  {
    PulledMembers(p, answers);
    PulledMembers(q, answers);
    assert forall k :: k in p <==> k in multiset(p);
    assert forall k :: k in q <==> k in multiset(q);
    MergeWithin(ctx, Flatten(PullsOf(p, answers)), Flatten(PullsOf(q, answers)));
  }
}
