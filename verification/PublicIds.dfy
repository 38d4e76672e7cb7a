/** Public model ids of services/sync.py: assignment, uniqueness, lookup and removal. */
module PublicIds {
  import opened Prelude
  import opened Sorting
  import opened SyncMerge

  /** The id of a model nobody else shares: source, dash, model. */
  function GroupId(k: MKey): string { k.source + "-" + k.id }

  function Digit(n: nat): char requires n < 10 { '0' + n as char }

  function Decimal(n: nat): string {
    if n < 10 then [Digit(n)] else Decimal(n / 10) + [Digit(n % 10)]
  }

  function Numbered(pid: string, n: nat): string { pid + "-" + Decimal(n) }

  /** The order members of a group are numbered in. */
  predicate InOrder(a: MKey, b: MKey) {
    StrLess(a.base, b.base) || (a.base == b.base && StrLess(a.id, b.id))
  }

  ghost function Group(keys: set<MKey>, pid: string): set<MKey> { set k | k in keys && GroupId(k) == pid }

  ghost function Below(keys: set<MKey>, k: MKey): set<MKey> { set x | x in Group(keys, GroupId(k)) && InOrder(x, k) }

  /** The public id as a property of the set of merge keys alone. */
  ghost function PublicId(keys: set<MKey>, k: MKey): string {
    if |Group(keys, GroupId(k))| == 1 then GroupId(k) else Numbered(GroupId(k), |Below(keys, k)| + 1)
  }

  lemma {:induction false} DecimalDigits(n: nat)
    ensures Decimal(n) != [] && forall i :: 0 <= i < |Decimal(n)| ==> '0' <= Decimal(n)[i] <= '9'
  {
    if n >= 10 {
      DecimalDigits(n / 10);
    }
  }

  lemma {:induction false} DecimalInjective(m: nat, n: nat)
    requires Decimal(m) == Decimal(n)
    ensures m == n
  {
    var a, b := Decimal(m), Decimal(n);
    assert a[|a| - 1] == b[|b| - 1];
    DecimalDigits(m / 10);
    DecimalDigits(n / 10);
    if m >= 10 && n >= 10 {
      assert Decimal(m / 10) == a[..|a| - 1] == b[..|b| - 1] == Decimal(n / 10);
      DecimalInjective(m / 10, n / 10);
    }
  }

  /** The number after the last dash can be read back. */
  lemma NumberedInjective(p: string, m: nat, q: string, n: nat)
    requires Numbered(p, m) == Numbered(q, n)
    ensures p == q && m == n
  {
    var s, t := Numbered(p, m), Numbered(q, n);
    DecimalDigits(m);
    DecimalDigits(n);
    assert s[|p|] == '-' && t[|q|] == '-';
    assert forall i :: |p| < i < |s| ==> s[i] == Decimal(m)[i - |p| - 1];
    assert forall i :: |q| < i < |t| ==> t[i] == Decimal(n)[i - |q| - 1];
    assert |p| == |q|;
    assert p == s[..|p|] == q;
    assert Decimal(m) == s[|p| + 1..] == Decimal(n);
    DecimalInjective(m, n);
  }

  /** Within a group the numbering order is strict and total: base and id determine the source. */
  lemma OrderWithinGroup(a: MKey, b: MKey)
    requires GroupId(a) == GroupId(b)
    ensures InOrder(a, b) ==> !InOrder(b, a)
    ensures !InOrder(a, a)
    ensures a != b ==> InOrder(a, b) || InOrder(b, a)
  {
    StrLessTrichotomy(a.base, b.base);
    StrLessTrichotomy(a.id, b.id);
    StrLessTrichotomy(a.base, a.base);
    StrLessTrichotomy(a.id, a.id);
    if a.id == b.id {
      assert |a.source| == |b.source|;
      assert a.source == GroupId(a)[..|a.source|] == b.source;
    }
  }

  lemma InOrderTransitive(a: MKey, b: MKey, c: MKey)
    requires InOrder(a, b) && InOrder(b, c)
    ensures InOrder(a, c)
  {
    if StrLess(a.base, b.base) && StrLess(b.base, c.base) {
      StrLessTransitive(a.base, b.base, c.base);
    }
    if StrLess(a.id, b.id) && StrLess(b.id, c.id) {
      StrLessTransitive(a.id, b.id, c.id);
    }
  }

  lemma GroupOrders(g: seq<MKey>, pid: string)
    requires forall k :: k in g ==> GroupId(k) == pid
    ensures Orders(InOrder, g)
  {
    forall a, b | a in g && b in g
      ensures a != b ==> InOrder(a, b) || InOrder(b, a)
      ensures InOrder(a, b) ==> !InOrder(b, a)
    {
      OrderWithinGroup(a, b);
    }
    forall a, b, c | a in g && b in g && c in g && InOrder(a, b) && InOrder(b, c)
      ensures InOrder(a, c)
    {
      InOrderTransitive(a, b, c);
    }
  }

  /** In a sorted enumeration of a group, the member at place `j` has exactly `j` members below it. */
  lemma PlaceIsRank(keys: set<MKey>, pid: string, s: seq<MKey>, j: nat)
    requires Sorted(s, InOrder) && SetOf(s) == Group(keys, pid) && j < |s|
    ensures |Below(keys, s[j])| == j && |s| == |Group(keys, pid)|
  {
    assert forall i :: 0 <= i < |s| ==> s[i] in SetOf(s);
    forall i, m | 0 <= i < m < |s|
      ensures s[i] != s[m]
    {
      OrderWithinGroup(s[i], s[m]);
    }
    SetOfSize(s);
    SetOfSize(s[..j]);
    assert SetOf(s[..j]) == Below(keys, s[j]) by {
      forall x
        ensures x in SetOf(s[..j]) <==> x in Below(keys, s[j])
      {
        if x in Group(keys, pid) {
          var i :| 0 <= i < |s| && s[i] == x;
          OrderWithinGroup(s[i], s[j]);
        }
      }
    }
  }

  /** Every number up to the size of the group is some member's. */
  lemma MemberNumbered(keys: set<MKey>, pid: string, j: nat) returns (k: MKey)
    requires j < |Group(keys, pid)|
    ensures k in Group(keys, pid) && |Below(keys, k)| == j
  {
    var g := Group(keys, pid);
    var s := Enumerate(g);
    assert forall x :: x in s ==> x in SetOf(s);
    SetOfSize(s);
    GroupOrders(s, pid);
    SortSorted(s, InOrder);
    SortMembers(s, InOrder);
    var t := Sort(s, InOrder);
    assert SetOf(t) == SetOf(s);
    PlaceIsRank(keys, pid, t, j);
    k := t[j];
    assert k in SetOf(t);
  }

  lemma RankBelowSize(keys: set<MKey>, k: MKey)
    requires k in keys
    ensures |Below(keys, k)| < |Group(keys, GroupId(k))|
  {
    OrderWithinGroup(k, k);
    assert Below(keys, k) + {k} <= Group(keys, GroupId(k));
    SubsetSize(Below(keys, k) + {k}, Group(keys, GroupId(k)));
  }

  lemma RankInjective(keys: set<MKey>, a: MKey, b: MKey)
    requires a in keys && b in keys && a != b && GroupId(a) == GroupId(b)
    ensures |Below(keys, a)| != |Below(keys, b)|
  {
    OrderWithinGroup(a, b);
    if InOrder(a, b) {
      RankGrows(keys, a, b);
    } else {
      RankGrows(keys, b, a);
    }
  }

  lemma RankGrows(keys: set<MKey>, a: MKey, b: MKey)
    requires a in keys && GroupId(a) == GroupId(b) && InOrder(a, b)
    ensures |Below(keys, a)| < |Below(keys, b)|
  {
    forall x | x in Below(keys, a)
      ensures x in Below(keys, b)
    {
      InOrderTransitive(x, a, b);
    }
    OrderWithinGroup(a, a);
    SubsetSize(Below(keys, a) + {a}, Below(keys, b));
  }

  /** Of two models under one name the one at the lesser address has the lesser number, and then the lesser id. */
  lemma NumberedByAddress(keys: set<MKey>, a: MKey, b: MKey) returns (m: nat, n: nat)
    requires a in keys && b in keys && a.source + "-" + a.id == b.source + "-" + b.id
    requires StrLess(a.base, b.base) || (a.base == b.base && StrLess(a.id, b.id))
    ensures 1 <= m < n <= |Group(keys, GroupId(a))|
    ensures PublicId(keys, a) == Numbered(a.source + "-" + a.id, m)
    ensures PublicId(keys, b) == Numbered(a.source + "-" + a.id, n)
  {
    RankGrows(keys, a, b);
    RankBelowSize(keys, b);
    m, n := |Below(keys, a)| + 1, |Below(keys, b)| + 1;
  }

  /** A number is written in decimal, most significant digit first, without leading zeros. */
  lemma {:induction false} DecimalExactly(n: nat)
    ensures n < 10 ==> |Decimal(n)| == 1 && Decimal(n)[0] as int - '0' as int == n
    ensures n >= 10 ==> |Decimal(n)| > 1 && Decimal(n)[..|Decimal(n)| - 1] == Decimal(n / 10)
                        && Decimal(n)[|Decimal(n)| - 1] as int - '0' as int == n % 10
  {
    if n >= 10 {
      DecimalDigits(n / 10);
    }
  }

  ghost predicate AllDifferent(keys: set<MKey>) {
    forall a, b :: a in keys && b in keys && a != b ==> PublicId(keys, a) != PublicId(keys, b)
  }

  /** A model alone under its name is called what a numbered member of another group is called. */
  ghost predicate Clash(keys: set<MKey>) {
    exists a, b, j :: a in keys && b in keys && |Group(keys, GroupId(a))| == 1
                      && 1 < |Group(keys, GroupId(b))| && 1 <= j <= |Group(keys, GroupId(b))|
                      && GroupId(a) == Numbered(GroupId(b), j)
  }

  lemma OnlyMember(keys: set<MKey>, a: MKey, b: MKey)
    requires a in keys && b in keys && GroupId(a) == GroupId(b) && |Group(keys, GroupId(a))| == 1
    ensures a == b
  {
    var g := Group(keys, GroupId(a));
    assert a in g && b in g;
    if a != b {
      SubsetSize({a, b}, g);
    }
  }

  lemma SameIdMeansClash(keys: set<MKey>, a: MKey, b: MKey)
    requires a in keys && b in keys && a != b && PublicId(keys, a) == PublicId(keys, b)
    ensures Clash(keys)
  {
    var ga, gb := Group(keys, GroupId(a)), Group(keys, GroupId(b));
    assert a in ga && b in gb;
    RankBelowSize(keys, a);
    RankBelowSize(keys, b);
    if |ga| == 1 && |gb| == 1 {
      OnlyMember(keys, a, b);
    } else if |ga| == 1 {
      assert GroupId(a) == Numbered(GroupId(b), |Below(keys, b)| + 1);
    } else if |gb| == 1 {
      assert GroupId(b) == Numbered(GroupId(a), |Below(keys, a)| + 1);
    } else {
      NumberedInjective(GroupId(a), |Below(keys, a)| + 1, GroupId(b), |Below(keys, b)| + 1);
      RankInjective(keys, a, b);
    }
  }

  /**
   * Public ids address one entry each, exactly when no model alone under its name clashes with a
   * number in another group.
   */
  lemma DifferentExactly(keys: set<MKey>)
    ensures AllDifferent(keys) <==> !Clash(keys)
  {
    if !AllDifferent(keys) {
      var a, b :| a in keys && b in keys && a != b && PublicId(keys, a) == PublicId(keys, b);
      SameIdMeansClash(keys, a, b);
    }
    if Clash(keys) {
      var a, b, j :| a in keys && b in keys && |Group(keys, GroupId(a))| == 1
                     && 1 < |Group(keys, GroupId(b))| && 1 <= j <= |Group(keys, GroupId(b))|
                     && GroupId(a) == Numbered(GroupId(b), j);
      var m := MemberNumbered(keys, GroupId(b), j - 1);
      assert PublicId(keys, m) == PublicId(keys, a) && m != a;
    }
  }

  ghost function KeySet(ms: seq<Entry>): set<MKey> { set i | 0 <= i < |ms| :: ms[i].key }

  /** The members of a group, in list order. */
  function GroupList(ms: seq<Entry>, pid: string): seq<MKey> {
    if ms == [] then []
    else if GroupId(Last(ms).key) == pid then GroupList(Init(ms), pid) + [Last(ms).key]
    else GroupList(Init(ms), pid)
  }

  function Place(s: seq<MKey>, k: MKey): nat {
    if s == [] || s[0] == k then 0 else 1 + Place(s[1..], k)
  }

  /** The id the code computes: alone, the bare name; otherwise numbered by place in the sorted group. */
  function AssignedId(ms: seq<Entry>, k: MKey): string {
    var g := GroupList(ms, GroupId(k));
    if |g| == 1 then GroupId(k) else Numbered(GroupId(k), Place(Sort(g, InOrder), k) + 1)
  }

  function Assign(ms: seq<Entry>): (r: seq<Entry>)
    ensures |r| == |ms| && forall i :: 0 <= i < |ms| ==> r[i] == ms[i].(publicId := AssignedId(ms, ms[i].key))
  {
    seq(|ms|, i requires 0 <= i < |ms| => ms[i].(publicId := AssignedId(ms, ms[i].key)))
  }

  lemma KeySetInit(ms: seq<Entry>)
    requires ms != []
    ensures KeySet(ms) == KeySet(Init(ms)) + {Last(ms).key}
  {
    assert forall i :: 0 <= i < |ms| - 1 ==> Init(ms)[i] == ms[i];
    assert ms[|ms| - 1] == Last(ms);
    assert KeySet(Init(ms)) <= KeySet(ms) by {
      forall k | k in KeySet(Init(ms))
        ensures k in KeySet(ms)
      {
        var i :| 0 <= i < |Init(ms)| && Init(ms)[i].key == k;
        assert ms[i].key == k;
      }
    }
  }

  lemma {:induction false} GroupListMembers(ms: seq<Entry>, pid: string)
    ensures forall k :: k in GroupList(ms, pid) <==> GroupId(k) == pid && k in KeySet(ms)
    ensures Distinct(ms) ==> !Repeats(GroupList(ms, pid))
  {
    if ms != [] {
      GroupListMembers(Init(ms), pid);
      KeySetInit(ms);
      var g := GroupList(Init(ms), pid);
      if Distinct(ms) {
        assert forall i :: 0 <= i < |g| ==> g[i] in g;
        assert Last(ms).key !in KeySet(Init(ms)) by {
          assert forall i :: 0 <= i < |Init(ms)| ==> Init(ms)[i].key != ms[|ms| - 1].key;
        }
      }
    }
  }

  lemma {:induction false} PlaceFinds(s: seq<MKey>, k: MKey)
    requires k in s
    ensures Place(s, k) < |s| && s[Place(s, k)] == k
  {
    if s[0] != k {
      assert k in s[1..];
      PlaceFinds(s[1..], k);
    }
  }

  /** A group's sorted list enumerates it. */
  lemma SortedGroup(ms: seq<Entry>, pid: string)
    requires Distinct(ms)
    ensures var t := Sort(GroupList(ms, pid), InOrder);
            Sorted(t, InOrder) && SetOf(t) == Group(KeySet(ms), pid) && |t| == |GroupList(ms, pid)|
  {
    var g := GroupList(ms, pid);
    GroupListMembers(ms, pid);
    GroupOrders(g, pid);
    SortSorted(g, InOrder);
    SortMembers(g, InOrder);
    assert SetOf(Sort(g, InOrder)) == Group(KeySet(ms), pid);
  }

  /** The computed id depends on the set of models only, not on the order they were merged in. */
  lemma AssignedIsPublicId(ms: seq<Entry>, k: MKey)
    requires Distinct(ms) && k in KeySet(ms)
    ensures AssignedId(ms, k) == PublicId(KeySet(ms), k)
  {
    var pid := GroupId(k);
    var t := Sort(GroupList(ms, pid), InOrder);
    SortedGroup(ms, pid);
    assert k in SetOf(t);
    PlaceFinds(t, k);
    PlaceIsRank(KeySet(ms), pid, t, Place(t, k));
  }

  /** `_rebuild_public_index`: later entries overwrite earlier ones. */
  function Index(ms: seq<Entry>): map<string, Entry> {
    if ms == [] then map[] else Index(Init(ms))[Last(ms).publicId := Last(ms)]
  }

  lemma {:induction false} IndexFaithful(ms: seq<Entry>)
    ensures forall pid :: pid in Index(ms) ==> Index(ms)[pid] in ms && Index(ms)[pid].publicId == pid
    ensures forall m :: m in ms ==> m.publicId in Index(ms)
    ensures (forall i, j :: 0 <= i < j < |ms| ==> ms[i].publicId != ms[j].publicId) ==>
              forall m :: m in ms ==> Index(ms)[m.publicId] == m
  {
    if ms != [] {
      IndexFaithful(Init(ms));
      assert ms == Init(ms) + [Last(ms)];
    }
  }

  /**
   * Lookup inverts the public view exactly when no clash exists: the index built after a sync then
   * returns for each entry's public id that very entry. It never answers for an id no entry has.
   */
  lemma {:induction false} LookupInvertsExactly(ms: seq<Entry>)
    requires Distinct(ms)
    ensures Inverts(Assign(ms)) <==> !Clash(KeySet(ms))
    ensures forall pid :: pid in Index(Assign(ms)) ==> Carried(Assign(ms), pid)
  {
    var view := Assign(ms);
    IndexFaithful(view);
    forall pid | pid in Index(view)
      ensures Carried(view, pid)
    {
      assert Index(view)[pid] in view;
    }
    DifferentExactly(KeySet(ms));
    DifferentInView(ms);
  }

  ghost predicate DistinctIds(ms: seq<Entry>) {
    forall i, j :: 0 <= i < j < |ms| ==> ms[i].publicId != ms[j].publicId
  }

  lemma InvertsIfDistinct(view: seq<Entry>)
    requires Distinct(view)
    ensures Inverts(view) <==> DistinctIds(view)
  {
    IndexFaithful(view);
    forall i | 0 <= i < |view|
      ensures view[i].publicId in Index(view)
    {
      assert view[i] in view;
    }
    if Inverts(view) {
      forall i, j | 0 <= i < j < |view|
        ensures view[i].publicId != view[j].publicId
      {
        assert Index(view)[view[i].publicId] == view[i] && Index(view)[view[j].publicId] == view[j];
      }
    }
  }

  lemma DifferentInView(ms: seq<Entry>)
    requires Distinct(ms)
    ensures Inverts(Assign(ms)) <==> AllDifferent(KeySet(ms))
  {
    var view := Assign(ms);
    InvertsIfDistinct(view);
    forall i | 0 <= i < |view|
      ensures view[i].publicId == PublicId(KeySet(ms), ms[i].key)
    {
      AssignedIsPublicId(ms, ms[i].key);
    }
    if DistinctIds(view) {
      forall a, b | a in KeySet(ms) && b in KeySet(ms) && a != b
        ensures PublicId(KeySet(ms), a) != PublicId(KeySet(ms), b)
      {
        var i :| 0 <= i < |ms| && ms[i].key == a;
        var j :| 0 <= j < |ms| && ms[j].key == b;
        assert view[i].publicId != view[j].publicId;
      }
    }
    if AllDifferent(KeySet(ms)) {
      forall i, j | 0 <= i < j < |view|
        ensures view[i].publicId != view[j].publicId
      {
        assert ms[i].key in KeySet(ms) && ms[j].key in KeySet(ms);
      }
    }
  }

  /** Every entry is found under its own public id. */
  ghost predicate Inverts(view: seq<Entry>) {
    forall i :: 0 <= i < |view| ==> view[i].publicId in Index(view) && Index(view)[view[i].publicId] == view[i]
  }

  ghost predicate Carried(view: seq<Entry>, pid: string) {
    exists i :: 0 <= i < |view| && view[i].publicId == pid
  }

  ghost function OfferedKeys(offers: seq<Offer>): set<MKey> { set i | 0 <= i < |offers| :: KeyOf(offers[i]) }

  lemma {:induction false} ExactKeys(ctx: Context, offers: seq<Offer>, ms: seq<Entry>)
    requires Exact(ctx, offers, ms)
    ensures KeySet(ms) == OfferedKeys(offers)
  {
    forall k | k in KeySet(ms)
      ensures k in OfferedKeys(offers)
    {
      var i :| 0 <= i < |ms| && ms[i].key == k;
      assert WellFormed(ctx, ms[i]) && ms[i].sourceKeys[0] in ms[i].sourceKeys;
      assert Offered(offers, k, ms[i].sourceKeys[0]);
      var j :| 0 <= j < |offers| && KeyOf(offers[j]) == k && offers[j].keyId == ms[i].sourceKeys[0];
    }
    forall k | k in OfferedKeys(offers)
      ensures k in KeySet(ms)
    {
      var j :| 0 <= j < |offers| && KeyOf(offers[j]) == k;
      var i :| 0 <= i < |ms| && ms[i].key == KeyOf(offers[j]) && offers[j].keyId in ms[i].sourceKeys;
    }
  }

  /** The models merged are the models offered. */
  lemma {:induction false} MergedKeys(ctx: Context, offers: seq<Offer>)
    ensures KeySet(Merge(ctx, offers)) == OfferedKeys(offers) && Distinct(Merge(ctx, offers))
  {
    MergeExact(ctx, offers);
    ExactKeys(ctx, offers, Merge(ctx, offers));
  }

  /**
   * A clash: model "m" of source "s" at two addresses, and its model "m-1". The first copy of "m"
   * and "m-1" are both called "s-m-1", so a lookup after the sync misses one of them.
   */
  lemma {:induction false} ClashReached(ctx: Context)
    ensures var offers := [Offer("k1", "s", "b1", "p", Model("m", "m", "", None)),
                           Offer("k2", "s", "b2", "p", Model("m", "m", "", None)),
                           Offer("k1", "s", "b1", "p", Model("m-1", "m-1", "", None))];
            var keys := KeySet(Merge(ctx, offers));
            && Clash(keys) && !Inverts(Assign(Merge(ctx, offers)))
            && PublicId(keys, MKey("m", "s", "b1")) == PublicId(keys, MKey("m-1", "s", "b1")) == "s-m-1"
  {
    var offers := [Offer("k1", "s", "b1", "p", Model("m", "m", "", None)),
                   Offer("k2", "s", "b2", "p", Model("m", "m", "", None)),
                   Offer("k1", "s", "b1", "p", Model("m-1", "m-1", "", None))];
    var a, b, c := MKey("m", "s", "b1"), MKey("m", "s", "b2"), MKey("m-1", "s", "b1");
    var keys := KeySet(Merge(ctx, offers));
    MergedKeys(ctx, offers);
    assert KeyOf(offers[0]) == a && KeyOf(offers[1]) == b && KeyOf(offers[2]) == c;
    assert keys == {a, b, c};
    ThreeIds(keys, a, b, c);
    assert GroupId(c) == Numbered(GroupId(a), 1);
    LookupInvertsExactly(Merge(ctx, offers));
  }

  lemma ThreeIds(keys: set<MKey>, a: MKey, b: MKey, c: MKey)
    requires a == MKey("m", "s", "b1") && b == MKey("m", "s", "b2") && c == MKey("m-1", "s", "b1") && keys == {a, b, c}
    ensures |Group(keys, GroupId(c))| == 1 && |Group(keys, GroupId(a))| == 2 && GroupId(a) == GroupId(b)
    ensures PublicId(keys, a) == PublicId(keys, c) == "s-m-1" == GroupId(c)
  {
    assert GroupId(a) == "s-m" && GroupId(b) == "s-m" && GroupId(c) == "s-m-1";
    assert Group(keys, "s-m") == {a, b} && Group(keys, "s-m-1") == {c};
    OrderWithinGroup(a, b);
    assert !InOrder(a, a) && !InOrder(b, a);
    assert Below(keys, a) == {};
    assert Decimal(1) == "1";
  }

  lemma {:induction false} SameKeySets(ctx: Context, p: seq<seq<Offer>>, q: seq<seq<Offer>>)
    requires multiset(p) == multiset(q)
    ensures KeySet(Merge(ctx, Flatten(p))) == KeySet(Merge(ctx, Flatten(q)))
    ensures Distinct(Merge(ctx, Flatten(p))) && Distinct(Merge(ctx, Flatten(q)))
  {
    Confluence(ctx, p, q);
    WithinKeys(Merge(ctx, Flatten(p)), Merge(ctx, Flatten(q)));
    WithinKeys(Merge(ctx, Flatten(q)), Merge(ctx, Flatten(p)));
  }

  lemma SameKeysSameIds(a: seq<Entry>, b: seq<Entry>, i: nat, j: nat)
    requires Distinct(a) && Distinct(b) && KeySet(a) == KeySet(b)
    requires i < |a| && j < |b| && a[i].key == b[j].key
    ensures Assign(a)[i].publicId == Assign(b)[j].publicId
  {
    AssignedIsPublicId(a, a[i].key);
    AssignedIsPublicId(b, b[j].key);
  }

  /** The same sync, whatever the completion order, gives every model the same public id. */
  lemma PublicIdsConfluent(ctx: Context, p: seq<seq<Offer>>, q: seq<seq<Offer>>, i: nat, j: nat)
    requires multiset(p) == multiset(q)
    requires i < |Merge(ctx, Flatten(p))| && j < |Merge(ctx, Flatten(q))|
    requires Merge(ctx, Flatten(p))[i].key == Merge(ctx, Flatten(q))[j].key
    ensures Assign(Merge(ctx, Flatten(p)))[i].publicId == Assign(Merge(ctx, Flatten(q)))[j].publicId
  {
    SameKeySets(ctx, p, q);
    SameKeysSameIds(Merge(ctx, Flatten(p)), Merge(ctx, Flatten(q)), i, j);
  }

  lemma WithinKeys(a: seq<Entry>, b: seq<Entry>)
    requires Within(a, b)
    ensures KeySet(a) <= KeySet(b)
  {
    forall k | k in KeySet(a)
      ensures k in KeySet(b)
    {
      var i :| 0 <= i < |a| && a[i].key == k;
      assert HasMatch(a[i], b);
      var j :| 0 <= j < |b| && Agree(a[i], b[j]);
    }
  }

  function Others(ids: seq<string>, id: string): seq<string> {
    if ids == [] then [] else if Last(ids) == id then Others(Init(ids), id) else Others(Init(ids), id) + [Last(ids)]
  }

  /** `remove_by_key` on one entry: nothing left of it if the key was its only source. */
  function Strip(e: Entry, id: string): Option<Entry> {
    if id !in e.sourceKeys then Some(e)
    else
      var rest := Others(e.sourceKeys, id);
      if rest == [] then None else Some(e.(sourceKeys := rest, sourceKey := rest[0]))
  }

  function StripAll(ms: seq<Entry>, id: string): seq<Entry> {
    if ms == [] then []
    else StripAll(Init(ms), id) + (match Strip(Last(ms), id) case Some(e) => [e] case None => [])
  }

  lemma {:induction false} OthersMembers(ids: seq<string>, id: string)
    ensures forall x :: x in Others(ids, id) <==> x in ids && x != id
    ensures (forall i, j :: 0 <= i < j < |ids| ==> ids[i] != ids[j]) ==>
              forall i, j :: 0 <= i < j < |Others(ids, id)| ==> Others(ids, id)[i] != Others(ids, id)[j]
  {
    if ids != [] {
      OthersMembers(Init(ids), id);
      assert ids == Init(ids) + [Last(ids)];
      var o := Others(Init(ids), id);
      assert forall i :: 0 <= i < |o| ==> o[i] in o;
    }
  }

  lemma StripKeeps(ctx: Context, e: Entry, id: string)
    requires WellFormed(ctx, e) && Strip(e, id).Some?
    ensures WellFormed(ctx, Strip(e, id).value) && id !in Strip(e, id).value.sourceKeys
    ensures Survives(e, Strip(e, id).value, id)
  {
    OthersMembers(e.sourceKeys, id);
  }

  /** `b` is what remains of `a`. */
  ghost predicate Survives(a: Entry, b: Entry, id: string) {
    && b == a.(sourceKeys := b.sourceKeys, sourceKey := b.sourceKey)
    && (forall x :: x in b.sourceKeys <==> x in a.sourceKeys && x != id)
    && (id !in a.sourceKeys ==> b == a)
  }

  ghost function SoleCount(ms: seq<Entry>, id: string): nat {
    if ms == [] then 0 else SoleCount(Init(ms), id) + (if Last(ms).sourceKeys == [id] then 1 else 0)
  }

  lemma SoleWhenStripped(ctx: Context, e: Entry, id: string)
    requires WellFormed(ctx, e)
    ensures Strip(e, id) == None <==> e.sourceKeys == [id]
  {
    OthersMembers(e.sourceKeys, id);
    assert forall i :: 0 <= i < |e.sourceKeys| ==> e.sourceKeys[i] in e.sourceKeys;
    if e.sourceKeys == [id] {
      assert Init(e.sourceKeys) == [];
      assert Others(e.sourceKeys, id) == [];
    }
  }

  /** Where each survivor of a removal stood before. */
  function Origin(ms: seq<Entry>, id: string): seq<nat> {
    if ms == [] then []
    else if Strip(Last(ms), id).Some? then Origin(Init(ms), id) + [|ms| - 1] else Origin(Init(ms), id)
  }

  lemma {:induction false} OriginOrder(ms: seq<Entry>, id: string)
    ensures forall i :: 0 <= i < |Origin(ms, id)| ==> Origin(ms, id)[i] < |ms|
    ensures forall i, j :: 0 <= i < j < |Origin(ms, id)| ==> Origin(ms, id)[i] < Origin(ms, id)[j]
  {
    if ms != [] {
      OriginOrder(Init(ms), id);
    }
  }

  lemma {:induction false} OriginMap(ms: seq<Entry>, id: string)
    ensures |Origin(ms, id)| == |StripAll(ms, id)|
    ensures forall i :: 0 <= i < |Origin(ms, id)| ==>
              Origin(ms, id)[i] < |ms| && Strip(ms[Origin(ms, id)[i]], id) == Some(StripAll(ms, id)[i])
  {
    if ms != [] {
      OriginMap(Init(ms), id);
      assert forall j :: 0 <= j < |ms| - 1 ==> Init(ms)[j] == ms[j];
    }
  }

  lemma {:induction false} OriginComplete(ms: seq<Entry>, id: string, j: nat)
    requires j < |ms| && Strip(ms[j], id).Some?
    ensures j in Origin(ms, id)
  {
    if j < |ms| - 1 {
      OriginComplete(Init(ms), id, j);
    }
  }

  /** The survivors of a removal, in order, and where each stood. */
  lemma StripOrigin(ms: seq<Entry>, id: string) returns (from: seq<nat>)
    ensures |from| == |StripAll(ms, id)|
    ensures forall i :: 0 <= i < |from| ==> from[i] < |ms| && Strip(ms[from[i]], id) == Some(StripAll(ms, id)[i])
    ensures forall i, j :: 0 <= i < j < |from| ==> from[i] < from[j]
    ensures forall j :: 0 <= j < |ms| && Strip(ms[j], id).Some? ==> j in from
  {
    from := Origin(ms, id);
    OriginOrder(ms, id);
    OriginMap(ms, id);
    forall j | 0 <= j < |ms| && Strip(ms[j], id).Some?
      ensures j in from
    {
      OriginComplete(ms, id, j);
    }
  }

  lemma {:induction false} DroppedCount(ctx: Context, ms: seq<Entry>, id: string)
    requires forall i :: 0 <= i < |ms| ==> WellFormed(ctx, ms[i])
    ensures |ms| - |StripAll(ms, id)| == SoleCount(ms, id)
  {
    if ms != [] {
      DroppedCount(ctx, Init(ms), id);
      SoleWhenStripped(ctx, ms[|ms| - 1], id);
    }
  }

  /**
   * Removing a key: no survivor refers to it, the survivors are the entries with another source,
   * in order, each with its public id, its other sources and a leading source among them, and
   * exactly the entries the key alone provided are dropped.
   */
  lemma RemovalExact(ctx: Context, ms: seq<Entry>, id: string) returns (from: seq<nat>)
    requires forall i :: 0 <= i < |ms| ==> WellFormed(ctx, ms[i])
    ensures var after := StripAll(ms, id);
            && |from| == |after| && (forall i :: 0 <= i < |from| ==> from[i] < |ms|)
            && (forall i, j :: 0 <= i < j < |from| ==> from[i] < from[j])
            && (forall j :: 0 <= j < |ms| ==> (j in from <==> ms[j].sourceKeys != [id]))
            && (forall i :: 0 <= i < |after| ==> WellFormed(ctx, after[i]) && Survives(ms[from[i]], after[i], id))
            && |ms| - |after| == SoleCount(ms, id)
  {
    from := StripOrigin(ms, id);
    DroppedCount(ctx, ms, id);
    forall j | 0 <= j < |ms|
      ensures j in from <==> ms[j].sourceKeys != [id]
    {
      SoleWhenStripped(ctx, ms[j], id);
    }
    forall i | 0 <= i < |from|
      ensures WellFormed(ctx, StripAll(ms, id)[i]) && Survives(ms[from[i]], StripAll(ms, id)[i], id)
    {
      StripKeeps(ctx, ms[from[i]], id);
    }
  }

  /**
   * Lookup after a removal: with different public ids, an id is still answered exactly when its
   * entry had another source, and the answer is what remains of that entry.
   */
  lemma {:induction false} LookupAfterRemoval(ctx: Context, ms: seq<Entry>, id: string, j: nat)
    requires (forall i :: 0 <= i < |ms| ==> WellFormed(ctx, ms[i])) && DistinctIds(ms) && j < |ms|
    ensures var index := Index(StripAll(ms, id));
            && (ms[j].publicId in index <==> ms[j].sourceKeys != [id])
            && (ms[j].publicId in index ==> Survives(ms[j], index[ms[j].publicId], id))
  {
    var after := StripAll(ms, id);
    var from := RemovalExact(ctx, ms, id);
    IndexFaithful(after);
    forall i, k | 0 <= i < k < |after|
      ensures after[i].publicId != after[k].publicId
    {
      assert Survives(ms[from[i]], after[i], id) && Survives(ms[from[k]], after[k], id);
    }
    if ms[j].publicId in Index(after) {
      var i :| 0 <= i < |after| && after[i] == Index(after)[ms[j].publicId];
      assert Survives(ms[from[i]], after[i], id);
      assert from[i] == j;
    }
    if j in from {
      var i :| 0 <= i < |from| && from[i] == j;
      assert after[i] in after && Survives(ms[from[i]], after[i], id);
    }
  }

  /** `k` was alone under its name, or its group is still shared and has lost nobody numbered below it. */
  ghost predicate KeepsPlace(keys: set<MKey>, survivors: set<MKey>, k: MKey) {
    || |Group(keys, GroupId(k))| == 1
    || (|Group(survivors, GroupId(k))| >= 2 && Below(survivors, k) == Below(keys, k))
  }

  /** When a model goes by the same id among fewer models, exactly. */
  lemma IdKeptExactly(keys: set<MKey>, survivors: set<MKey>, k: MKey)
    requires survivors <= keys && k in survivors
    ensures PublicId(survivors, k) == PublicId(keys, k) <==> KeepsPlace(keys, survivors, k)
  {
    var g, g' := Group(keys, GroupId(k)), Group(survivors, GroupId(k));
    var b, b' := Below(keys, k), Below(survivors, k);
    assert k in g' && g' <= g && b' <= b;
    SubsetSize({k}, g');
    SubsetSize(g', g);
    SameSize(b', b);
    if |g| > 1 && |g'| > 1 && PublicId(survivors, k) == PublicId(keys, k) {
      NumberedInjective(GroupId(k), |b'| + 1, GroupId(k), |b| + 1);
    }
  }

  lemma SameSize(a: set<MKey>, b: set<MKey>)
    requires a <= b
    ensures |a| == |b| <==> a == b
  {
    if x :| x in b && x !in a {
      SubsetSize(a + {x}, b);
    }
  }

  /** What a saved model's row is filed under. */
  function RowKey(k: MKey): string { k.id + "|" + k.source + "|" + k.base }

  /** The rows but those filed under `row`. */
  function WithoutRow(rows: seq<Entry>, row: string): seq<Entry> {
    if rows == [] then []
    else if RowKey(Last(rows).key) == row then WithoutRow(Init(rows), row)
    else WithoutRow(Init(rows), row) + [Last(rows)]
  }

  /** `save_model_cache`: a row for each model, without its public id; a later model takes over a shared row. */
  function Saved(ms: seq<Entry>): seq<Entry> {
    if ms == [] then [] else SaveRow(Saved(Init(ms)), Last(ms))
  }

  function SaveRow(rows: seq<Entry>, e: Entry): seq<Entry> {
    WithoutRow(rows, RowKey(e.key)) + [e.(publicId := "")]
  }

  /** Each model has a row of its own. */
  ghost predicate OwnRows(ms: seq<Entry>) {
    forall i, j :: 0 <= i < j < |ms| ==> RowKey(ms[i].key) != RowKey(ms[j].key)
  }

  function Unnumbered(ms: seq<Entry>): (r: seq<Entry>)
    ensures |r| == |ms| && forall i :: 0 <= i < |ms| ==> r[i] == ms[i].(publicId := "")
  {
    seq(|ms|, i requires 0 <= i < |ms| => ms[i].(publicId := ""))
  }

  lemma {:induction false} WithoutRowDrops(rows: seq<Entry>, row: string)
    ensures forall x :: x in WithoutRow(rows, row) ==> x in rows && RowKey(x.key) != row
  {
    if rows != [] {
      WithoutRowDrops(Init(rows), row);
      assert forall x :: x in Init(rows) ==> x in rows;
      assert Last(rows) in rows;
    }
  }

  lemma {:induction false} WithoutNoRow(rows: seq<Entry>, row: string)
    requires forall x :: x in rows ==> RowKey(x.key) != row
    ensures WithoutRow(rows, row) == rows
  {
    if rows != [] {
      var init, last := Init(rows), Last(rows);
      assert rows == init + [last];
      assert last in rows;
      forall x | x in init
        ensures RowKey(x.key) != row
      {
        assert x in rows;
      }
      WithoutNoRow(init, row);
    }
  }

  lemma {:induction false} WithoutRowKeeps(rows: seq<Entry>, row: string)
    requires OwnRows(rows)
    ensures OwnRows(WithoutRow(rows, row))
  {
    if rows != [] {
      WithoutRowKeeps(Init(rows), row);
      WithoutRowDrops(Init(rows), row);
      var w := WithoutRow(Init(rows), row);
      forall i | 0 <= i < |w|
        ensures RowKey(w[i].key) != RowKey(Last(rows).key)
      {
        assert w[i] in Init(rows);
      }
    }
  }

  lemma {:induction false} SavedOwnRows(ms: seq<Entry>)
    ensures OwnRows(Saved(ms))
  {
    if ms != [] {
      var rows, row := Saved(Init(ms)), RowKey(Last(ms).key);
      SavedOwnRows(Init(ms));
      WithoutRowKeeps(rows, row);
      WithoutRowDrops(rows, row);
      var w := WithoutRow(rows, row);
      assert forall i :: 0 <= i < |w| ==> w[i] in w;
    }
  }

  lemma {:induction false} SavedFrom(ms: seq<Entry>)
    ensures forall x :: x in Saved(ms) ==> x.key in KeySet(ms)
  {
    if ms != [] {
      SavedFrom(Init(ms));
      WithoutRowDrops(Saved(Init(ms)), RowKey(Last(ms).key));
      KeySetInit(ms);
    }
  }

  /** The saved copy is the whole list, in order, exactly when no two models are filed under one row. */
  lemma {:induction false} SavedExactly(ms: seq<Entry>)
    ensures Saved(ms) == Unnumbered(ms) <==> OwnRows(ms)
  {
    if Saved(ms) == Unnumbered(ms) {
      SavedOwnRows(ms);
      assert forall i :: 0 <= i < |ms| ==> Unnumbered(ms)[i].key == ms[i].key;
    }
    if OwnRows(ms) {
      SavedWhole(ms);
    }
  }

  lemma {:induction false} SavedWhole(ms: seq<Entry>)
    requires OwnRows(ms)
    ensures Saved(ms) == Unnumbered(ms)
  {
    if ms != [] {
      OwnRowsInit(ms);
      SavedWhole(Init(ms));
      WithoutNoRow(Unnumbered(Init(ms)), RowKey(Last(ms).key));
      assert Unnumbered(ms) == Unnumbered(Init(ms)) + [Last(ms).(publicId := "")];
    }
  }

  lemma OwnRowsInit(ms: seq<Entry>)
    requires ms != [] && OwnRows(ms)
    ensures OwnRows(Init(ms)) && forall x :: x in Unnumbered(Init(ms)) ==> RowKey(x.key) != RowKey(Last(ms).key)
  {
    forall x | x in Unnumbered(Init(ms))
      ensures RowKey(x.key) != RowKey(Last(ms).key)
    {
      var i :| 0 <= i < |ms| - 1 && Unnumbered(Init(ms))[i] == x;
      assert x.key == ms[i].key;
    }
  }

  /** Two models at one address whose rows collide: the saved copy keeps only the second. */
  lemma SavedLosesModel(a: Entry, b: Entry)
    requires a.key == MKey("m|s", "t", "b") && b.key == MKey("m", "s|t", "b")
    ensures Saved([a, b]) == [b.(publicId := "")]
  {
    SavedOne(a);
    assert Init([a, b]) == [a] && Init([a.(publicId := "")]) == [];
    assert RowKey(a.key) == "m|s|t|b" && RowKey(b.key) == "m|s|t|b";
  }

  /** The saved models as a restart reads them: the switches kept apart win. */
  function Reloaded(ctx: Context, saved: seq<Entry>): (r: seq<Entry>)
    ensures |r| == |saved| && forall i :: 0 <= i < |saved| ==> r[i] == saved[i].(enabled := r[i].enabled)
  {
    seq(|saved|, i requires 0 <= i < |saved| =>
      saved[i].(enabled := if saved[i].key.id in ctx.states then ctx.states[saved[i].key.id] else saved[i].enabled))
  }

  /** After a restart a model is on unless it was switched off, by name or, without a word on it, in the saved copy. */
  lemma RestartSwitch(ctx: Context, saved: seq<Entry>, i: nat)
    requires i < |saved|
    ensures var id, again := saved[i].key.id, Reloaded(ctx, saved)[i];
            && (id in ctx.states ==> again.enabled == ctx.states[id])
            && (id !in ctx.states ==> again.enabled == saved[i].enabled)
  {
  }

  lemma SurvivorKeys(ctx: Context, ms: seq<Entry>, id: string)
    requires Distinct(ms) && forall i :: 0 <= i < |ms| ==> WellFormed(ctx, ms[i])
    ensures Distinct(StripAll(ms, id)) && KeySet(StripAll(ms, id)) <= KeySet(ms)
  {
    var after := StripAll(ms, id);
    var from := RemovalExact(ctx, ms, id);
    assert forall i :: 0 <= i < |after| ==> Survives(ms[from[i]], after[i], id);
  }

  lemma ReloadedKeys(ctx: Context, saved: seq<Entry>)
    requires Distinct(saved)
    ensures Distinct(Reloaded(ctx, saved)) && KeySet(Reloaded(ctx, saved)) == KeySet(saved)
  {
    assert forall i :: 0 <= i < |saved| ==> Reloaded(ctx, saved)[i].key == saved[i].key;
  }

  lemma {:induction false} SavedKeys(ms: seq<Entry>)
    ensures Distinct(Saved(ms)) && KeySet(Saved(ms)) <= KeySet(ms)
  {
    SavedOwnRows(ms);
    SavedFrom(ms);
    var rows := Saved(ms);
    forall i | 0 <= i < |rows|
      ensures rows[i].key in KeySet(ms)
    {
      assert rows[i] in rows;
    }
  }

  lemma RemovalKeepsId(ctx: Context, ms: seq<Entry>, id: string, i: nat)
    requires Distinct(ms) && forall i :: 0 <= i < |ms| ==> WellFormed(ctx, ms[i])
    requires i < |StripAll(Assign(ms), id)|
    ensures var e := StripAll(Assign(ms), id)[i]; e.key in KeySet(ms) && e.publicId == PublicId(KeySet(ms), e.key)
  {
    var view := Assign(ms);
    var from := RemovalExact(ctx, view, id);
    assert Survives(view[from[i]], StripAll(view, id)[i], id);
    AssignedIsPublicId(ms, ms[from[i]].key);
  }

  /**
   * A removal keeps the survivors' ids only until the next restart, which numbers what was saved
   * anew: a survivor then goes by the id it had exactly if it kept its place among the saved ones.
   */
  lemma RestartKeepsIdExactly(ctx: Context, ctx': Context, ms: seq<Entry>, id: string, i: nat, j: nat)
    requires Distinct(ms) && forall i :: 0 <= i < |ms| ==> WellFormed(ctx, ms[i])
    requires var after := StripAll(Assign(ms), id);
             i < |after| && j < |Saved(after)| && after[i].key == Saved(after)[j].key
    ensures var after := StripAll(Assign(ms), id);
            Assign(Reloaded(ctx', Saved(after)))[j].publicId == after[i].publicId
            <==> KeepsPlace(KeySet(ms), KeySet(Saved(after)), after[i].key)
  {
    var view := Assign(ms);
    var after := StripAll(view, id);
    ViewFacts(ctx, ms);
    SurvivorKeys(ctx, view, id);
    SavedKeys(after);
    RemovalKeepsId(ctx, ms, id, i);
    RestartAssigns(ctx', Saved(after), j);
    IdKeptExactly(KeySet(ms), KeySet(Saved(after)), after[i].key);
  }

  lemma ViewFacts(ctx: Context, ms: seq<Entry>)
    requires Distinct(ms) && forall i :: 0 <= i < |ms| ==> WellFormed(ctx, ms[i])
    ensures Distinct(Assign(ms)) && forall i :: 0 <= i < |ms| ==> WellFormed(ctx, Assign(ms)[i])
    ensures KeySet(Assign(ms)) == KeySet(ms)
  {
    assert forall i :: 0 <= i < |ms| ==> Assign(ms)[i].key == ms[i].key;
  }

  lemma RestartAssigns(ctx: Context, rows: seq<Entry>, j: nat)
    requires Distinct(rows) && j < |rows|
    ensures rows[j].key in KeySet(rows)
    ensures Assign(Reloaded(ctx, rows))[j].publicId == PublicId(KeySet(rows), rows[j].key)
  {
    var again := Reloaded(ctx, rows);
    ReloadedKeys(ctx, rows);
    assert again[j].key == rows[j].key && again[j].key in KeySet(again);
    AssignedIsPublicId(again, again[j].key);
  }

  /** Two copies of "m" are "s-m-1" and "s-m-2"; with the first one's key gone, a restart calls the second "s-m". */
  lemma {:induction false} RestartRenames(ctx: Context)
    ensures var o1, o2 := Offer("k1", "s", "b1", "p", Model("m", "m", "", None)),
                          Offer("k2", "s", "b2", "p", Model("m", "m", "", None));
            var after := StripAll(Assign(Merge(ctx, [o1, o2])), "k1");
            && |after| == 1 && after[0].publicId == "s-m-2" && "s-m-2" in Index(after)
            && "s-m-2" !in Index(Assign(Reloaded(ctx, Saved(after))))
  {
    var o1, o2 := Offer("k1", "s", "b1", "p", Model("m", "m", "", None)),
                  Offer("k2", "s", "b2", "p", Model("m", "m", "", None));
    TwoEntries(ctx, o1, o2);
    SecondRenamed(ctx, [NewEntry(ctx, o1), NewEntry(ctx, o2)], "k1");
  }

  lemma {:induction false} SecondRenamed(ctx: Context, ms: seq<Entry>, id: string)
    requires |ms| == 2 && ms[0].key == MKey("m", "s", "b1") && ms[1].key == MKey("m", "s", "b2")
    requires ms[0].sourceKeys == [id] && id !in ms[1].sourceKeys
    ensures var after := StripAll(Assign(ms), id);
            && |after| == 1 && after[0].publicId == "s-m-2" && "s-m-2" in Index(after)
            && "s-m-2" !in Index(Assign(Reloaded(ctx, Saved(after))))
  {
    SecondNumbered(ms);
    var e := Assign(ms)[1];
    FirstDropped(Assign(ms), id);
    SavedOne(e);
    AloneAgain(ctx, e);
    AloneAgain(ctx, e.(publicId := ""));
  }

  lemma SavedOne(e: Entry)
    ensures Saved([e]) == [e.(publicId := "")]
  {
    assert Init([e]) == [] && WithoutRow([], RowKey(e.key)) == [];
  }

  lemma {:induction false} SecondNumbered(ms: seq<Entry>)
    requires |ms| == 2 && ms[0].key == MKey("m", "s", "b1") && ms[1].key == MKey("m", "s", "b2")
    ensures Assign(ms)[1].publicId == "s-m-2"
  {
    assert KeySet(ms) == {ms[0].key, ms[1].key};
    TwoIds(KeySet(ms), ms[0].key, ms[1].key);
    AssignedIsPublicId(ms, ms[1].key);
  }

  lemma {:induction false} AloneAgain(ctx: Context, e: Entry)
    requires e.key == MKey("m", "s", "b2")
    ensures Index([e]) == map[e.publicId := e]
    ensures forall pid :: pid in Index(Assign(Reloaded(ctx, [e]))) ==> pid == "s-m"
  {
    var again := Reloaded(ctx, [e]);
    assert Init(again) == [] && Init([e]) == [];
    assert GroupList(again, "s-m") == [e.key];
    assert Init(Assign(again)) == [];
  }

  lemma TwoEntries(ctx: Context, o1: Offer, o2: Offer)
    requires KeyOf(o1) != KeyOf(o2)
    ensures Merge(ctx, [o1, o2]) == [NewEntry(ctx, o1), NewEntry(ctx, o2)]
  {
    assert Init([o1, o2]) == [o1] && Init([o1]) == [];
    assert Merge(ctx, []) == [] && Merge(ctx, [o1]) == [NewEntry(ctx, o1)];
  }

  lemma TwoIds(keys: set<MKey>, a: MKey, b: MKey)
    requires a == MKey("m", "s", "b1") && b == MKey("m", "s", "b2") && keys == {a, b}
    ensures GroupId(a) == GroupId(b) == "s-m" && PublicId(keys, b) == "s-m-2"
  {
    assert Group(keys, "s-m") == {a, b};
    OrderWithinGroup(a, b);
    assert InOrder(a, b) && !InOrder(b, b);
    assert Below(keys, b) == {a};
    assert Decimal(2) == "2";
  }

  lemma FirstDropped(ms: seq<Entry>, id: string)
    requires |ms| == 2 && ms[0].sourceKeys == [id] && id !in ms[1].sourceKeys
    ensures StripAll(ms, id) == [ms[1]]
  {
    assert Init(ms) == [ms[0]] && Init([ms[0]]) == [] && Init([id]) == [];
    assert Others([id], id) == [];
    assert StripAll([ms[0]], id) == [];
  }
}

module ModelSyncer {
  import opened Prelude
  import opened Sorting
  import opened SyncMerge
  import opened PublicIds

  class ModelSyncer {
    const context: Context
    var models: seq<Entry>
    var publicIndex: map<string, Entry>
    var saved: seq<Entry>
    var error: string
    var lastSync: Option<int>

    /** The index belongs to the models. */
    ghost predicate Valid()
      reads this
    {
      publicIndex == Index(models)
    }

    constructor (context: Context)
      ensures Valid() && this.context == context && models == [] && publicIndex == map[]
      ensures saved == [] && error == "" && lastSync == None
    {
      this.context := context;
      models, publicIndex, saved := [], map[], [];
      error, lastSync := "", None;
    }

    /** Start-up: the saved models, a row each, numbered anew. */
    constructor Restore(context: Context, saved: seq<Entry>)
      requires Distinct(saved)
      ensures Valid() && this.context == context && models == Assign(Reloaded(context, saved))
      ensures this.saved == saved && error == "" && lastSync == None
    {
      this.context := context;
      models, publicIndex, this.saved := [], map[], saved;
      error, lastSync := "", None;
      new;
      models := LoadCached(saved);
      ReloadedKeys(context, saved);
      AssignPublicIds();
      RebuildPublicIndex();
    }

    /** The loop of `_load_cached_models` over the saved rows. */
    method LoadCached(saved: seq<Entry>) returns (loaded: seq<Entry>)
      ensures loaded == Reloaded(context, saved)
    {
      loaded := [];
      var i := 0;
      while i < |saved|
        invariant 0 <= i <= |saved| && loaded == Reloaded(context, saved)[..i]
      {
        var m := saved[i];
        loaded := loaded + [m.(enabled := if m.key.id in context.states then context.states[m.key.id] else m.enabled)];
        i := i + 1;
      }
    }

    /** The ACTIVE keys, at most 20 of them. */
    method Choose(keys: seq<SyncKey>) returns (chosen: seq<SyncKey>)
      ensures chosen == Chosen(keys)
    {
      chosen := [];
      var i := 0;
      while i < |keys|
        invariant 0 <= i <= |keys| && chosen == ActiveKeys(keys[..i])
      {
        assert Init(keys[..i + 1]) == keys[..i] && Last(keys[..i + 1]) == keys[i];
        if keys[i].active {
          chosen := chosen + [keys[i]];
        }
        i := i + 1;
      }
      assert keys[..i] == keys;
      if |chosen| > MAX_PULLS {
        chosen := chosen[..MAX_PULLS];
      }
    }

    /**
     * `sync`: `order` is the order the chosen keys' pulls complete in, `answers` what they were told,
     * `failures` what broke off a pull after that. The error reported may be an earlier sync's.
     */
    method Sync(keys: seq<SyncKey>, order: seq<SyncKey>, answers: Answers, failures: map<string, string>, now: int)
      returns (count: nat, error: string)
      requires multiset(order) == multiset(Chosen(keys))
      modifies this
      ensures Valid() && models == Assign(Merge(context, Flatten(PullsOf(order, answers)))) && saved == Saved(models)
      ensures count == |models| && error == this.error == ErrorAfter(old(this.error), order, answers, failures)
      ensures lastSync == Some(now)
    {
      var chosen := Choose(keys);
      assert multiset(order) == multiset(chosen);
      MergePulls(PullsOf(order, answers));
      NoteFailures(order, answers, failures);
      lastSync := Some(now);
      PersistModels();
      return |models|, this.error;
    }

    method NoteFailures(order: seq<SyncKey>, answers: Answers, failures: map<string, string>)
      modifies this`error
      ensures error == ErrorAfter(old(error), order, answers, failures)
    {
      var i := 0;
      while i < |order|
        invariant 0 <= i <= |order| && error == ErrorAfter(old(error), order[..i], answers, failures)
      {
        assert Init(order[..i + 1]) == order[..i] && Last(order[..i + 1]) == order[i];
        if Fails(order[i], answers, failures) {
          error := failures[order[i].id];
        }
        i := i + 1;
      }
      assert order[..i] == order;
    }

    /** `_persist_models`: the table is emptied and written again. */
    method PersistModels()
      modifies this`saved
      ensures saved == Saved(models)
    {
      saved := [];
      var i := 0;
      while i < |models|
        invariant 0 <= i <= |models| && saved == Saved(models[..i])
      {
        assert Init(models[..i + 1]) == models[..i] && Last(models[..i + 1]) == models[i];
        saved := SaveRow(saved, models[i]);
        i := i + 1;
      }
      assert models[..i] == models;
    }

    /** The merging of the pulls in the order they complete, and what follows it. */
    method MergePulls(pulls: seq<seq<Offer>>)
      modifies this`models, this`publicIndex
      ensures Valid() && models == Assign(Merge(context, Flatten(pulls)))
    {
      var merged: seq<Entry> := [];
      var p := 0;
      while p < |pulls|
        invariant 0 <= p <= |pulls| && merged == Merge(context, Flatten(pulls[..p]))
      {
        merged := AbsorbPull(merged, pulls[p], Flatten(pulls[..p]));
        assert Init(pulls[..p + 1]) == pulls[..p] && Last(pulls[..p + 1]) == pulls[p];
        p := p + 1;
      }
      assert pulls[..p] == pulls;
      MergeExact(context, Flatten(pulls));
      models := merged;
      AssignPublicIds();
      RebuildPublicIndex();
    }

    /** One offer: another source of a known entry, or a new entry. */
    method AbsorbOffer(merged: seq<Entry>, offer: Offer) returns (more: seq<Entry>)
      ensures more == Absorb(context, merged, offer)
    {
      var i := IndexOf(merged, KeyOf(offer));
      if i < |merged| {
        more := merged[i := AddSource(merged[i], offer)];
      } else {
        more := merged + [NewEntry(context, offer)];
      }
    }

    /** One completed pull; nothing else runs while its offers are merged. */
    method AbsorbPull(merged: seq<Entry>, pull: seq<Offer>, ghost before: seq<Offer>) returns (more: seq<Entry>)
      requires merged == Merge(context, before)
      ensures more == Merge(context, before + pull)
    {
      more := merged;
      var o := 0;
      assert before + pull[..0] == before;
      while o < |pull|
        invariant 0 <= o <= |pull| && more == Merge(context, before + pull[..o])
      {
        MergeNext(context, before, pull, o);
        more := AbsorbOffer(more, pull[o]);
        o := o + 1;
      }
      assert pull[..o] == pull;
    }

    /** The first loop of `_assign_public_ids`: the models under each bare name, names in list order. */
    method GroupByName() returns (pids: seq<string>, groups: map<string, seq<MKey>>)
      ensures forall pid :: pid in groups <==> pid in pids
      ensures forall pid :: pid in groups ==> groups[pid] == GroupList(models, pid) && groups[pid] != []
      ensures forall j :: 0 <= j < |models| ==> GroupId(models[j].key) in pids
    {
      pids, groups := [], map[];
      var i := 0;
      while i < |models|
        invariant 0 <= i <= |models|
        invariant forall pid :: pid in groups <==> pid in pids
        invariant forall pid :: pid in groups ==> groups[pid] == GroupList(models[..i], pid) && groups[pid] != []
        invariant forall pid :: pid !in groups ==> GroupList(models[..i], pid) == []
        invariant forall j :: 0 <= j < i ==> GroupId(models[j].key) in pids
      {
        assert Init(models[..i + 1]) == models[..i] && Last(models[..i + 1]) == models[i];
        var pid := GroupId(models[i].key);
        if pid !in groups {
          pids := pids + [pid];
          groups := groups[pid := []];
        }
        groups := groups[pid := groups[pid] + [models[i].key]];
        i := i + 1;
      }
      assert models[..i] == models;
    }

    /** `_assign_public_ids`: group by bare name, sort each shared group, number its members. */
    method AssignPublicIds()
      requires Distinct(models)
      modifies this`models
      ensures models == Assign(old(models))
    {
      var pids, groups := GroupByName();
      ghost var ms, named: set<MKey> := models, {};
      var p := 0;
      while p < |pids|
        invariant 0 <= p <= |pids| && Named(models, ms, named)
        invariant forall q :: 0 <= q < p ==> forall k :: k in GroupList(ms, pids[q]) ==> k in named
      {
        named := AssignGroup(ms, named, pids[p], groups[pids[p]]);
        p := p + 1;
      }
      AllNamed(models, ms, named, pids);
    }

    /** Names the members of one group: alone, the bare name; otherwise numbers in sorted order. */
    method AssignGroup(ghost ms: seq<Entry>, ghost named: set<MKey>, pid: string, g: seq<MKey>)
      returns (ghost more: set<MKey>)
      requires Distinct(ms) && Named(models, ms, named) && g == GroupList(ms, pid) && g != []
      modifies this`models
      ensures Named(models, ms, more) && named <= more && forall k :: k in g ==> k in more
    {
      if |g| == 1 {
        GroupHolds(ms, pid);
        more := Rename(ms, named, g[0], pid);
      } else {
        SortMembers(g, InOrder);
        more := NumberGroup(ms, named, pid, Sort(g, InOrder));
      }
    }

    method NumberGroup(ghost ms: seq<Entry>, ghost named: set<MKey>, pid: string, items: seq<MKey>)
      returns (ghost more: set<MKey>)
      requires Distinct(ms) && Named(models, ms, named)
      requires |GroupList(ms, pid)| != 1 && items == Sort(GroupList(ms, pid), InOrder)
      modifies this`models
      ensures Named(models, ms, more) && named <= more && forall k :: k in items ==> k in more
    {
      more := named;
      var i := 0;
      while i < |items|
        invariant 0 <= i <= |items| && Named(models, ms, more) && named <= more
        invariant forall j :: 0 <= j < i ==> items[j] in more
      {
        NumberIsAssigned(ms, pid, items, i);
        more := Rename(ms, more, items[i], Numbered(pid, i + 1));
        i := i + 1;
      }
    }

    method Rename(ghost ms: seq<Entry>, ghost named: set<MKey>, k: MKey, id: string)
      returns (ghost more: set<MKey>)
      requires Distinct(ms) && Named(models, ms, named) && k in KeySet(ms) && id == AssignedId(ms, k)
      modifies this`models
      ensures more == named + {k} && Named(models, ms, more)
    {
      var i := IndexOf(models, k);
      ghost var j :| 0 <= j < |ms| && ms[j].key == k;
      assert models[j].key == k;
      models := models[i := models[i].(publicId := id)];
      more := named + {k};
    }

    method RebuildPublicIndex()
      modifies this`publicIndex
      ensures publicIndex == Index(models)
    {
      publicIndex := map[];
      var i := 0;
      while i < |models|
        invariant 0 <= i <= |models| && publicIndex == Index(models[..i])
      {
        assert Init(models[..i + 1]) == models[..i] && Last(models[..i + 1]) == models[i];
        publicIndex := publicIndex[models[i].publicId := models[i]];
        i := i + 1;
      }
      assert models[..i] == models;
    }

    /** An entry shown under the id, the only one if ids differ; nothing exactly if no entry is. */
    method FindByPublicId(id: string) returns (e: Option<Entry>)
      requires Valid()
      ensures e.Some? ==> e.value in models && e.value.publicId == id
      ensures e == None <==> !Carried(models, id)
      ensures DistinctIds(models) ==> forall m :: m in models && m.publicId == id ==> e == Some(m)
    {
      IndexFaithful(models);
      assert forall i :: 0 <= i < |models| ==> models[i] in models;
      if id in publicIndex {
        return Some(publicIndex[id]);
      }
      return None;
    }

    /** `remove_by_key`: drops or re-leads each entry the key provides, saves the rest, rebuilds the index. */
    method RemoveByKey(id: string) returns (removed: nat)
      modifies this`models, this`saved, this`publicIndex
      ensures Valid() && models == StripAll(old(models), id) && saved == Saved(models)
      ensures removed == |old(models)| - |models|
    {
      removed := 0;
      var kept: seq<Entry> := [];
      var i := 0;
      while i < |models|
        invariant 0 <= i <= |models| && kept == StripAll(models[..i], id) && removed == i - |kept|
      {
        assert Init(models[..i + 1]) == models[..i] && Last(models[..i + 1]) == models[i];
        var m := models[i];
        if id !in m.sourceKeys {
          kept := kept + [m];
        } else {
          var rest := Others(m.sourceKeys, id);
          if rest == [] {
            removed := removed + 1;
          } else {
            kept := kept + [m.(sourceKeys := rest, sourceKey := rest[0])];
          }
        }
        i := i + 1;
      }
      assert models[..i] == models;
      models := kept;
      PersistModels();
      RebuildPublicIndex();
    }
  }

  /** The entries whose key is in `named` have their assigned id, the others are untouched. */
  ghost predicate Named(now: seq<Entry>, ms: seq<Entry>, named: set<MKey>) {
    |now| == |ms| && forall j :: 0 <= j < |ms| ==>
      now[j] == if ms[j].key in named then ms[j].(publicId := AssignedId(ms, ms[j].key)) else ms[j]
  }

  lemma GroupHolds(ms: seq<Entry>, pid: string)
    requires Distinct(ms)
    ensures forall k :: k in GroupList(ms, pid) ==> k in KeySet(ms) && GroupId(k) == pid
    ensures forall j :: 0 <= j < |ms| && GroupId(ms[j].key) == pid ==> ms[j].key in GroupList(ms, pid)
  {
    GroupListMembers(ms, pid);
  }

  lemma MergeNext(ctx: Context, before: seq<Offer>, pull: seq<Offer>, o: nat)
    requires o < |pull|
    ensures Merge(ctx, before + pull[..o + 1]) == Absorb(ctx, Merge(ctx, before + pull[..o]), pull[o])
  {
    var all := before + pull[..o + 1];
    assert Init(all) == before + pull[..o] && Last(all) == pull[o];
  }

  /** Once every group is named, so is every entry. */
  lemma AllNamed(now: seq<Entry>, ms: seq<Entry>, named: set<MKey>, pids: seq<string>)
    requires Distinct(ms) && Named(now, ms, named)
    requires forall q :: 0 <= q < |pids| ==> forall k :: k in GroupList(ms, pids[q]) ==> k in named
    requires forall j :: 0 <= j < |ms| ==> GroupId(ms[j].key) in pids
    ensures now == Assign(ms)
  {
    forall j | 0 <= j < |ms|
      ensures ms[j].key in named
    {
      var q :| 0 <= q < |pids| && pids[q] == GroupId(ms[j].key);
      GroupHolds(ms, pids[q]);
    }
  }

  lemma {:induction false} PlaceOf(s: seq<MKey>, i: nat)
    requires i < |s| && !Repeats(s)
    ensures Place(s, s[i]) == i
  {
    if i > 0 {
      assert s[0] != s[i];
      assert !Repeats(s[1..]) by {
        assert forall a :: 0 <= a < |s| - 1 ==> s[1..][a] == s[a + 1];
      }
      PlaceOf(s[1..], i - 1);
    }
  }

  /** Numbering the sorted group by position is the assignment the whole list calls for. */
  lemma NumberIsAssigned(ms: seq<Entry>, pid: string, t: seq<MKey>, i: nat)
    requires Distinct(ms) && |GroupList(ms, pid)| != 1 && t == Sort(GroupList(ms, pid), InOrder)
    requires i < |t|
    ensures t[i] in KeySet(ms) && AssignedId(ms, t[i]) == Numbered(pid, i + 1)
  {
    SortedGroup(ms, pid);
    assert t[i] in SetOf(t);
    forall a, b | 0 <= a < b < |t|
      ensures t[a] != t[b]
    {
      assert t[a] in SetOf(t) && t[b] in SetOf(t);
      OrderWithinGroup(t[a], t[b]);
    }
    PlaceOf(t, i);
  }
}
