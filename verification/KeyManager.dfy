/** The key lifecycle of services/key_manager.py. */
module KeyLifecycle {
  import opened Prelude
  import opened ApiKeys

  const MAX_FAILURES := 3
  const COOLDOWN_MS := 300000
  const QUOTA_COOLDOWN_MS := 1800000

  /** `Other` is upstream, timeout or tpm. */
  datatype Category = QuotaGone | AuthFailed | Other

  /** What can happen to one key; `Recorded` is a usage record with the quota monitor's verdict. */
  datatype Event =
    | Success(now: int)
    | Failure(category: Category, now: int)
    | SetStatus(status: Status)
    | Tested(ok: bool, error: string, now: int)
    | Recorded(usage: Usage, now: int, spent: bool)

  function OnSuccess(k: Key, now: int): Key {
    k.(lastUsed := now, failureCount := 0, cooldownUntil := None, status := Active)
  }

  function OnFailure(k: Key, category: Category, now: int): Key {
    var k' := k.(failureCount := k.failureCount + 1, lastUsed := now);
    if category == QuotaGone then k'.(status := Exhausted, cooldownUntil := Some(now + QUOTA_COOLDOWN_MS))
    else if category == AuthFailed || k'.failureCount >= MAX_FAILURES then
      k'.(status := Error, cooldownUntil := Some(now + COOLDOWN_MS))
    else k'
  }

  function OnSetStatus(k: Key, status: Status): Key {
    if status == Active then k.(status := status, cooldownUntil := None, failureCount := 0)
    else k.(status := status)
  }

  function OnTested(k: Key, ok: bool, error: string, now: int): Key {
    var k' := k.(extra := k.extra.(lastTested := Some(now), testResult := Some(if ok then "ok" else "fail"),
                                   testError := Some(if ok then "" else error)));
    if ok then k'.(status := Active, cooldownUntil := None, failureCount := 0)
    else k'.(status := Error, cooldownUntil := Some(now + COOLDOWN_MS))
  }

  function OnRecorded(k: Key, usage: Usage, now: int, spent: bool): Key {
    k.(usage := usage, lastUsed := now, status := if spent then Exhausted else k.status)
  }

  function On(k: Key, e: Event): Key {
    match e
    case Success(now) => OnSuccess(k, now)
    case Failure(category, now) => OnFailure(k, category, now)
    case SetStatus(status) => OnSetStatus(k, status)
    case Tested(ok, error, now) => OnTested(k, ok, error, now)
    case Recorded(usage, now, spent) => OnRecorded(k, usage, now, spent)
  }

  /** `list_active` revives an ERROR key that is not cooling. */
  function Recover(k: Key, now: int): Key {
    if k.status == Error && !InCooldown(k, now) then k.(status := Active, failureCount := 0, cooldownUntil := None)
    else k
  }

  predicate Wanted(k: Key, provider: string) { provider == "" || k.provider == provider }

  /** Whether `list_active` returns a key, given as it is after recovery. */
  predicate Listed(k: Key, provider: string, excludeCooldown: bool, now: int) {
    match k.status
    case Active => Wanted(k, provider) && !(excludeCooldown && InCooldown(k, now))
    case Error => !excludeCooldown && Wanted(k, provider)
    case _ => false
  }

  type Keys = seq<Key>

  /** One event on the key named `id`; unknown ids are ignored. */
  function Apply(ks: Keys, id: string, e: Event): (r: Keys)
    ensures |r| == |ks| && forall i :: 0 <= i < |ks| ==> r[i].id == ks[i].id && r[i].provider == ks[i].provider
  {
    seq(|ks|, i requires 0 <= i < |ks| => if ks[i].id == id then On(ks[i], e) else ks[i])
  }

  function Recovered(ks: Keys, now: int): (r: Keys)
    ensures |r| == |ks| && forall i :: 0 <= i < |ks| ==> r[i].id == ks[i].id && r[i].provider == ks[i].provider
  {
    seq(|ks|, i requires 0 <= i < |ks| => Recover(ks[i], now))
  }

  /** Those of the first `n` keys that satisfy `Listed`, in order. */
  function FilterTo(ks: Keys, n: nat, provider: string, excludeCooldown: bool, now: int): Keys
    requires n <= |ks|
  {
    if n == 0 then []
    else FilterTo(ks, n - 1, provider, excludeCooldown, now)
         + (if Listed(ks[n - 1], provider, excludeCooldown, now) then [ks[n - 1]] else [])
  }

  function Filter(ks: Keys, provider: string, excludeCooldown: bool, now: int): Keys {
    FilterTo(ks, |ks|, provider, excludeCooldown, now)
  }

  function ListActive(ks: Keys, provider: string, excludeCooldown: bool, now: int): (Keys, Keys) {
    var ks' := Recovered(ks, now);
    (ks', Filter(ks', provider, excludeCooldown, now))
  }

  lemma {:induction false} FilterToMembers(ks: Keys, n: nat, provider: string, excludeCooldown: bool, now: int)
    requires n <= |ks|
    ensures var f := FilterTo(ks, n, provider, excludeCooldown, now);
            && (forall k :: k in f <==> Listed(k, provider, excludeCooldown, now) && exists i :: 0 <= i < n && ks[i] == k)
            && (DistinctIds(ks) ==> DistinctIds(f))
  {
    if n > 0 {
      FilterToMembers(ks, n - 1, provider, excludeCooldown, now);
      var f := FilterTo(ks, n - 1, provider, excludeCooldown, now);
      assert forall i :: 0 <= i < |f| ==> f[i] in f;
    }
  }

  lemma FilterMembers(ks: Keys, provider: string, excludeCooldown: bool, now: int)
    ensures forall k :: k in Filter(ks, provider, excludeCooldown, now) <==>
                        k in ks && Listed(k, provider, excludeCooldown, now)
    ensures DistinctIds(ks) ==> DistinctIds(Filter(ks, provider, excludeCooldown, now))
  {
    FilterToMembers(ks, |ks|, provider, excludeCooldown, now);
  }

  function Find(ks: Keys, id: string): Option<Key> {
    if ks == [] then None else if Last(ks).id == id then Some(Last(ks)) else Find(Init(ks), id)
  }

  lemma {:induction false} FindMember(ks: Keys, id: string)
    ensures Find(ks, id).Some? ==> Find(ks, id).value in ks && Find(ks, id).value.id == id
    ensures Find(ks, id).None? ==> forall i :: 0 <= i < |ks| ==> ks[i].id != id
  {
    if ks != [] {
      FindMember(Init(ks), id);
      assert ks == Init(ks) + [Last(ks)];
    }
  }

  lemma {:induction false} FindAt(ks: Keys, i: nat)
    requires DistinctIds(ks) && i < |ks|
    ensures Find(ks, ks[i].id) == Some(ks[i])
  {
    if i < |ks| - 1 {
      FindAt(Init(ks), i);
    }
  }

  lemma {:induction false} NotFound(ks: Keys, id: string)
    requires forall i :: 0 <= i < |ks| ==> ks[i].id != id
    ensures Find(ks, id) == None
  {
    if ks != [] {
      NotFound(Init(ks), id);
    }
  }

  /** Assignment to the cache dictionary: in place if the id is there, at the end if not. */
  function Store(ks: Keys, k: Key): Keys {
    if Find(ks, k.id).Some? then seq(|ks|, i requires 0 <= i < |ks| => if ks[i].id == k.id then k else ks[i])
    else ks + [k]
  }

  lemma StoreKeeps(ks: Keys, k: Key)
    requires DistinctIds(ks)
    ensures DistinctIds(Store(ks, k)) && |ks| <= |Store(ks, k)|
    ensures forall i :: 0 <= i < |ks| ==> Store(ks, k)[i] == if ks[i].id == k.id then k else ks[i]
    ensures forall id :: Find(Store(ks, k), id) == if id == k.id then Some(k) else Find(ks, id)
  {
    var after := Store(ks, k);
    FindMember(ks, k.id);
    forall id
      ensures Find(after, id) == if id == k.id then Some(k) else Find(ks, id)
    {
      FindStored(ks, k, id);
    }
  }

  lemma {:induction false} FindStored(ks: Keys, k: Key, id: string)
    requires DistinctIds(ks)
    ensures Find(Store(ks, k), id) == if id == k.id then Some(k) else Find(ks, id)
  {
    var after := Store(ks, k);
    FindMember(ks, id);
    FindMember(ks, k.id);
    FindMember(after, id);
    if i :| 0 <= i < |after| && after[i].id == id {
      FindAt(after, i);
      if i < |ks| {
        FindAt(ks, i);
      }
    }
    if i :| 0 <= i < |ks| && ks[i].id == id {
      assert after[i].id == id;
    }
  }

  /** `add_key`: ACTIVE, no cooldown, no failures, no usage. */
  function NewKey(k: Key): Key {
    k.(status := Active, failureCount := 0, cooldownUntil := None, usage := UNUSED)
  }

  /** `delete_key`. */
  function Drop(ks: Keys, id: string): Keys {
    if ks == [] then []
    else
      var rest, last := Drop(ks[..|ks| - 1], id), ks[|ks| - 1];
      if last.id == id then rest else rest + [last]
  }

  ghost predicate HasId(ks: Keys, id: string) { exists k :: k in ks && k.id == id }

  lemma {:induction false} DropNone(ks: Keys, id: string)
    requires forall j :: 0 <= j < |ks| ==> ks[j].id != id
    ensures Drop(ks, id) == ks
  {
    if ks != [] {
      DropNone(ks[..|ks| - 1], id);
      assert ks == ks[..|ks| - 1] + [ks[|ks| - 1]];
    }
  }

  lemma {:induction false} DropAt(ks: Keys, id: string, i: nat)
    requires i < |ks| && ks[i].id == id && forall j :: 0 <= j < |ks| && j != i ==> ks[j].id != id
    ensures Drop(ks, id) == ks[..i] + ks[i + 1..]
  {
    var init, last := ks[..|ks| - 1], ks[|ks| - 1];
    if i == |ks| - 1 {
      DropNone(init, id);
      assert ks[..i] + ks[i + 1..] == init;
    } else {
      DropAt(init, id, i);
      assert ks[..i] + ks[i + 1..] == init[..i] + init[i + 1..] + [last];
    }
  }

  lemma {:induction false} DropMembers(ks: Keys, id: string)
    ensures forall k :: k in Drop(ks, id) <==> k in ks && k.id != id
    ensures DistinctIds(ks) ==> DistinctIds(Drop(ks, id))
  {
    if ks != [] {
      DropMembers(Init(ks), id);
      assert ks == Init(ks) + [Last(ks)];
      if DistinctIds(ks) {
        var d := Drop(Init(ks), id);
        forall i | 0 <= i < |d|
          ensures d[i].id != Last(ks).id
        {
          assert d[i] in Init(ks);
        }
      }
    }
  }

  lemma {:induction false} DropFind(ks: Keys, gone: string, id: string)
    ensures Find(Drop(ks, gone), id) == if id == gone then None else Find(ks, id)
  {
    if ks != [] {
      DropFind(Init(ks), gone, id);
      var rest := Drop(Init(ks), gone);
      assert Init(rest + [Last(ks)]) == rest;
    }
  }

  lemma {:induction false} ApplyFind(ks: Keys, id: string, e: Event, x: string)
    ensures Find(Apply(ks, id, e), x) ==
            match Find(ks, x)
            case Some(k) => Some(if x == id then On(k, e) else k)
            case None => None
  {
    if ks != [] {
      ApplyFind(Init(ks), id, e, x);
      assert Init(Apply(ks, id, e)) == Apply(Init(ks), id, e);
    }
  }

  /**
   * `list_active`, exactly: it changes only ERROR keys whose cooldown has expired, and it returns
   * a key if and only if that key was ACTIVE and not cooling or has just been recovered (or, when
   * cooling keys are asked for, is ACTIVE or in ERROR), and belongs to the provider asked for.
   */
  lemma ListActiveExact(ks: Keys, provider: string, excludeCooldown: bool, now: int, i: nat)
    requires DistinctIds(ks) && i < |ks|
    ensures var (after, out) := ListActive(ks, provider, excludeCooldown, now);
            var expired := ks[i].status == Error && !InCooldown(ks[i], now);
            && (after[i] != ks[i] ==> expired)
            && (expired ==> after[i].status == Active && after[i].failureCount == 0 && after[i].cooldownUntil == None)
            && (after[i] in out <==>
                  (provider == "" || ks[i].provider == provider)
                  && (expired || (ks[i].status == Active && !(excludeCooldown && InCooldown(ks[i], now)))
                      || (ks[i].status == Error && !excludeCooldown)))
            && DistinctIds(out)
  {
    var after := Recovered(ks, now);
    FilterMembers(after, provider, excludeCooldown, now);
    assert after[i] == Recover(ks[i], now);
  }
}

/** The row a record is saved as, and the rows the manager's calls queue. */
module KeyRows {
  import opened Prelude
  import opened ApiKeys
  import opened KeyLifecycle
  import opened Tables

  function StatusText(s: Status): string {
    match s
    case Active => "active"
    case Inactive => "inactive"
    case Exhausted => "exhausted"
    case Error => "error"
  }

  /** `to_db_dict` on a given day. */
  function RowOf(k: Key, today: Date): KeyRow {
    var u, x := Saved(k.usage, today), k.extra;
    KeyRow(x.createdAt, KeyCols(
      k.provider, x.encryptedKey, k.name, x.providerId, x.note, Some(k.baseUrl), k.grp, k.priority, k.weight,
      k.maxRpm, k.dailyQuota, u.usedToday, u.usedMonth, u.requestsToday, u.requestsMonth, u.errorsToday,
      u.dayStamp, u.monthStamp, StatusText(k.status), x.lastTested, x.testResult, x.testError, k.lastUsed,
      k.failureCount, k.cooldownUntil, x.metadata))
  }

  /** The counters `from_dict` reads back. */
  function UsageIn(row: KeyRow): Usage {
    Usage(row.cols.usedToday, row.cols.usedMonth, row.cols.requestsToday, row.cols.requestsMonth,
          row.cols.errorsToday, row.cols.dayStamp, row.cols.monthStamp)
  }

  /** A saved row, read back on any later day, shows what the record shows. */
  lemma RowKeepsViews(k: Key, today: Date, d: Date)
    requires StampsBy(k.usage, today) && NotLater(today, d)
    ensures SameViews(UsageIn(RowOf(k, today)), k.usage, d)
  {
    SaveKeepsViews(k.usage, today, d);
  }

  /** The status a saved text stands for; only the four are ever saved. */
  function StatusIn(text: string): Status {
    if text == "active" then Active else if text == "inactive" then Inactive
    else if text == "exhausted" then Exhausted else Error
  }

  /** The text of a record without metadata. */
  const NO_METADATA := "{}"

  /**
   * `from_dict` on a saved row: the metadata are looked for under a name the table does not use, an
   * empty name becomes the provider's, and a creation time of 0 the present.
   */
  function KeyIn(id: string, row: KeyRow, now: int): Key {
    var c := row.cols;
    Key(id, c.provider, if c.name != "" then c.name else c.provider + "-key",
        if c.baseUrl.Some? then c.baseUrl.value else "", c.grp, c.priority, c.weight, c.maxRpm, c.dailyQuota,
        UsageIn(row), StatusIn(c.status), c.lastUsed, c.failureCount, c.cooldownUntil,
        Extra(c.encryptedKey, c.providerId, c.note, if row.createdAt != 0 then row.createdAt else now, NO_METADATA,
              c.lastTested, c.testResult, c.testError))
  }

  /**
   * What a restart makes of a saved key, exactly: the same key, with its counters rolled over, if and
   * only if it has a name, a creation time and no metadata. Metadata never survive.
   */
  lemma ReloadExactly(k: Key, today: Date, now: int)
    ensures var again := KeyIn(k.id, RowOf(k, today), now);
            && again.extra.metadata == "{}"
            && again == k.(usage := Saved(k.usage, today), name := again.name,
                           extra := k.extra.(createdAt := again.extra.createdAt, metadata := "{}"))
            && (again == k.(usage := Saved(k.usage, today)) <==>
                  && k.name != "" && k.extra.metadata == "{}"
                  && (k.extra.createdAt != 0 || now == 0))
  {
    if k.name == "" {
      assert k.provider + "-key" != "" by {
        assert |k.provider + "-key"| >= 4;
      }
    }
  }

  function ItemOf(k: Key, today: Date): Item { KeyItem(k.id, RowOf(k, today)) }

  /** The snapshot of the key named `id`, if there is one. */
  function Snapshot(ks: Keys, id: string, today: Date): seq<Item> {
    match Find(ks, id)
    case Some(k) => [ItemOf(k, today)]
    case None => []
  }

  /** The snapshot a listing queues of a key it revives. */
  function Revival(k: Key, now: int, today: Date): seq<Item> {
    if k.status == Error && !InCooldown(k, now) then [ItemOf(Recover(k, now), today)] else []
  }

  /** The snapshots of the keys that a listing revives among the first `n`. */
  function RevivedTo(ks: Keys, n: nat, now: int, today: Date): seq<Item>
    requires n <= |ks|
  {
    if n == 0 then [] else RevivedTo(ks, n - 1, now, today) + Revival(ks[n - 1], now, today)
  }
}

module KeyManager {
  import opened Prelude
  import opened ApiKeys
  import opened KeyLifecycle
  import opened KeyRows
  import opened BatchDatabase

  function ModelsOf(ks: seq<ApiKey>): Keys
    reads ks
  {
    seq(|ks|, i requires 0 <= i < |ks| reads ks => ks[i].Model())
  }

  /** The cache dictionary in insertion order; the gateway and the quota monitor share its records. */
  class KeyManager {
    const db: Database
    var cache: seq<ApiKey>

    ghost predicate Valid()
      reads this
    {
      forall i, j :: 0 <= i < j < |cache| ==> cache[i] != cache[j] && cache[i].id != cache[j].id
    }

    ghost function View(): Keys
      reads this, cache
    {
      ModelsOf(cache)
    }

    /** The records in the cache under `id`: one or none. */
    ghost function Under(id: string): set<ApiKey>
      reads this
    {
      set c | c in cache && c.id == id
    }

    /** No other record is cached under this record's id. */
    ghost predicate Own(k: ApiKey)
      reads this
    {
      Under(k.id) <= {k}
    }

    constructor (db: Database)
      ensures Valid() && View() == [] && this.db == db
    {
      this.db := db;
      cache := [];
    }

    /** A new key under an unused id, saved at once. */
    method AddKey(k: Key, today: Date)
      requires Valid() && forall i :: 0 <= i < |cache| ==> cache[i].id != k.id
      modifies this, db`tables
      ensures Valid() && View() == old(View()) + [NewKey(k)]
      ensures fresh(set c | c in cache && c !in old(cache))
      ensures db.tables == Tables.UpsertKey(old(db.tables), k.id, RowOf(NewKey(k), today))
    {
      db.UpsertKey(k.id, RowOf(NewKey(k), today));
      var c := new ApiKey(NewKey(k));
      cache := cache + [c];
    }

    method DeleteKey(id: string) returns (existed: bool)
      requires Valid()
      modifies this`cache, db`tables
      ensures Valid() && View() == Drop(old(View()), id)
      ensures forall c :: c in cache ==> c in old(cache)
      ensures existed <==> HasId(old(View()), id)
      ensures db.tables == Tables.DeleteKey(old(db.tables), id)
    {
      db.DeleteKey(id);
      var i := Get(id);
      DropFound(id, i);
      existed := i < |cache|;
      if existed {
        var rest := cache[..i] + cache[i + 1..];
        CutOut(cache, i, rest);
        cache := rest;
      }
    }

    lemma DropFound(id: string, i: nat)
      requires Valid() && i <= |cache|
      requires i < |cache| ==> cache[i].id == id
      requires i == |cache| ==> forall j :: 0 <= j < |cache| ==> cache[j].id != id
      ensures Drop(View(), id) == if i < |cache| then View()[..i] + View()[i + 1..] else View()
      ensures HasId(View(), id) <==> i < |cache|
    {
      if i < |cache| {
        DropAt(View(), id, i);
        assert View()[i] in View();
      } else {
        DropNone(View(), id);
      }
    }

    static lemma CutOut(ks: seq<ApiKey>, i: nat, rest: seq<ApiKey>)
      requires i < |ks| && rest == ks[..i] + ks[i + 1..]
      requires forall j, m :: 0 <= j < m < |ks| ==> ks[j] != ks[m] && ks[j].id != ks[m].id
      ensures forall j, m :: 0 <= j < m < |rest| ==> rest[j] != rest[m] && rest[j].id != rest[m].id
      ensures ModelsOf(rest) == ModelsOf(ks)[..i] + ModelsOf(ks)[i + 1..]
    {
    }

    method Get(id: string) returns (i: nat)
      requires Valid()
      ensures i <= |cache|
      ensures i < |cache| ==> cache[i].id == id
      ensures i == |cache| ==> forall j :: 0 <= j < |cache| ==> cache[j].id != id
    {
      i := 0;
      while i < |cache| && cache[i].id != id
        invariant i <= |cache| && forall j :: 0 <= j < i ==> cache[j].id != id
      {
        i := i + 1;
      }
    }

    /** `self._cache[k.id] = k`. */
    method Put(k: ApiKey)
      requires Valid() && Own(k)
      modifies this`cache
      ensures Valid() && cache == if k in old(cache) then old(cache) else old(cache) + [k]
    {
      var i := Get(k.id);
      if i < |cache| {
        assert cache[i] in Under(k.id);
        cache := cache[i := k];
      } else {
        cache := cache + [k];
      }
    }

    /** `_persist_async`: a snapshot joins the queue, and the record the cache, whether or not it was deleted. */
    method PersistAsync(k: ApiKey, today: Date)
      requires Valid() && Own(k)
      modifies this`cache, db`pending, db`wake
      ensures Valid() && cache == if k in old(cache) then old(cache) else old(cache) + [k]
      ensures db.pending == old(db.pending) + [ItemOf(k.Model(), today)] && db.wake
    {
      db.Enqueue(ItemOf(k.Model(), today));
      Put(k);
    }

    /** `_persist`: the same, written at once. */
    method Persist(k: ApiKey, today: Date)
      requires Valid() && Own(k)
      modifies this`cache, db`tables
      ensures Valid() && cache == if k in old(cache) then old(cache) else old(cache) + [k]
      ensures db.tables == Tables.UpsertKey(old(db.tables), k.id, RowOf(k.Model(), today))
    {
      db.UpsertKey(k.id, RowOf(k.Model(), today));
      Put(k);
    }

    method RecordSuccess(id: string, now: int, today: Date)
      requires Valid()
      modifies this`cache, Under(id), db`pending, db`wake
      ensures Valid() && cache == old(cache)
      ensures View() == Apply(old(View()), id, Success(now))
      ensures db.pending == old(db.pending) + Snapshot(View(), id, today)
    {
      var i := Get(id);
      ghost var before := View();
      Located(id, i);
      if i < |cache| {
        Succeed(cache[i], now);
        PersistAsync(cache[i], today);
        Applied(before, i, id, Success(now));
      } else {
        Ignored(id, Success(now));
      }
    }

    /** The record's part of `record_success`. */
    static method Succeed(k: ApiKey, now: int)
      modifies k
      ensures k.Model() == OnSuccess(old(k.Model()), now)
    {
      k.lastUsed := now;
      k.failureCount := 0;
      k.cooldownUntil := None;
      k.status := Active;
    }

    method RecordFailure(id: string, category: Category, now: int, today: Date)
      requires Valid()
      modifies this`cache, Under(id), db`pending, db`wake
      ensures Valid() && cache == old(cache)
      ensures View() == Apply(old(View()), id, Failure(category, now))
      ensures db.pending == old(db.pending) + Snapshot(View(), id, today)
    {
      var i := Get(id);
      ghost var before := View();
      Located(id, i);
      if i < |cache| {
        Fail(cache[i], category, now);
        PersistAsync(cache[i], today);
        Applied(before, i, id, Failure(category, now));
      } else {
        Ignored(id, Failure(category, now));
      }
    }

    /** The record's part of `record_failure`. */
    static method Fail(k: ApiKey, category: Category, now: int)
      modifies k
      ensures k.Model() == OnFailure(old(k.Model()), category, now)
    {
      k.failureCount := k.failureCount + 1;
      k.lastUsed := now;
      if category == QuotaGone {
        k.status := Exhausted;
        k.cooldownUntil := Some(now + QUOTA_COOLDOWN_MS);
      } else if category == AuthFailed {
        k.status := Error;
        k.cooldownUntil := Some(now + COOLDOWN_MS);
      } else if k.failureCount >= MAX_FAILURES {
        k.status := Error;
        k.cooldownUntil := Some(now + COOLDOWN_MS);
      }
    }

    /** Where the record of an id is, in the cache and in its view. */
    lemma Located(id: string, i: nat)
      requires Valid() && i <= |cache|
      requires i < |cache| ==> cache[i].id == id
      requires i == |cache| ==> forall j :: 0 <= j < |cache| ==> cache[j].id != id
      ensures Find(View(), id) == if i < |cache| then Some(cache[i].Model()) else None
      ensures Under(id) == if i < |cache| then {cache[i]} else {}
    {
      assert DistinctIds(View());
      if i < |cache| {
        FindAt(View(), i);
      } else {
        FindMember(View(), id);
      }
    }

    method SetStatus(id: string, status: Status, today: Date)
      requires Valid()
      modifies this`cache, Under(id), db`tables
      ensures Valid() && cache == old(cache)
      ensures View() == Apply(old(View()), id, KeyLifecycle.SetStatus(status))
      ensures db.tables == match Find(View(), id)
                           case Some(k) => Tables.UpsertKey(old(db.tables), id, RowOf(k, today))
                           case None => old(db.tables)
    {
      var i := Get(id);
      ghost var before := View();
      Located(id, i);
      if i < |cache| {
        Assign(cache[i], status);
        Persist(cache[i], today);
        Applied(before, i, id, KeyLifecycle.SetStatus(status));
      } else {
        Ignored(id, KeyLifecycle.SetStatus(status));
      }
    }

    /** The record's part of `set_status`. */
    static method Assign(k: ApiKey, status: Status)
      modifies k
      ensures k.Model() == OnSetStatus(old(k.Model()), status)
    {
      k.status := status;
      if status == Active {
        k.cooldownUntil := None;
        k.failureCount := 0;
      }
    }

    /** The view after the record of `id` alone has changed, by an event. */
    lemma Applied(before: Keys, i: nat, id: string, e: Event)
      requires Valid() && i < |cache| == |before| && before[i].id == id == cache[i].id
      requires forall j :: 0 <= j < |cache| ==> before[j].id == cache[j].id
      requires forall j :: 0 <= j < |cache| && j != i ==> cache[j].Model() == before[j]
      requires cache[i].Model() == On(before[i], e)
      ensures View() == Apply(before, id, e) && Find(View(), id) == Some(cache[i].Model())
    {
      Located(id, i);
    }

    /** An event for an id that is not cached changes nothing. */
    lemma Ignored(id: string, e: Event)
      requires forall j :: 0 <= j < |cache| ==> cache[j].id != id
      ensures View() == Apply(View(), id, e)
    {
    }

    /** `test_key` once the probe of the record it holds has answered; the key may have been deleted meanwhile. */
    method TestKey(k: ApiKey, ok: bool, error: string, now: int, today: Date)
      requires Valid() && Own(k)
      modifies this`cache, k, db`tables
      ensures Valid() && cache == if k in old(cache) then old(cache) else old(cache) + [k]
      ensures k.Model() == OnTested(old(k.Model()), ok, error, now)
      ensures View() == Store(old(View()), k.Model())
      ensures db.tables == Tables.UpsertKey(old(db.tables), k.id, RowOf(k.Model(), today))
    {
      ghost var before := View();
      Probe(k, ok, error, now);
      Persist(k, today);
      Shown(before, k);
    }

    /** The record's part of `test_key`. */
    static method Probe(k: ApiKey, ok: bool, error: string, now: int)
      modifies k
      ensures k.Model() == OnTested(old(k.Model()), ok, error, now)
    {
      k.extra := k.extra.(lastTested := Some(now), testResult := Some(if ok then "ok" else "fail"),
                          testError := Some(if ok then "" else error));
      if !ok {
        k.status := Error;
        k.cooldownUntil := Some(now + COOLDOWN_MS);
      } else {
        k.status := Active;
        k.cooldownUntil := None;
        k.failureCount := 0;
      }
    }

    /** What the view shows under the id of a record held outside. */
    lemma Held(k: ApiKey)
      requires Valid() && Own(k)
      ensures Find(View(), k.id) == if k in cache then Some(k.Model()) else None
    {
      assert DistinctIds(View());
      if k in cache {
        var i :| 0 <= i < |cache| && cache[i] == k;
        FindAt(View(), i);
      } else {
        assert forall i :: 0 <= i < |cache| ==> cache[i] in cache;
        assert forall c :: c in cache && c.id == k.id ==> c in Under(k.id);
        NotFound(View(), k.id);
      }
    }

    /** The view after a record has changed and been put into the cache. */
    lemma Shown(before: Keys, k: ApiKey)
      requires Valid() && k in cache && |before| <= |cache| <= |before| + 1
      requires forall i :: 0 <= i < |before| ==>
                 cache[i].id == before[i].id && (cache[i] != k ==> cache[i].Model() == before[i])
      requires |cache| == |before| + 1 ==> cache[|before|] == k
      ensures View() == Store(before, k.Model())
    {
      FindMember(before, k.id);
      var i :| 0 <= i < |cache| && cache[i] == k;
    }

    /** `_auto_recover`; storing a cached record under its own id changes nothing. */
    static method AutoRecover(k: ApiKey, db: Database, today: Date)
      modifies k, db`pending, db`wake
      ensures k.Model() == if old(k.status) == Error
                           then old(k.Model()).(status := Active, failureCount := 0, cooldownUntil := None)
                           else old(k.Model())
      ensures db.pending == old(db.pending) + (if old(k.status) == Error then [ItemOf(k.Model(), today)] else [])
    {
      if k.status != Error {
        return;
      }
      k.status := Active;
      k.failureCount := 0;
      k.cooldownUntil := None;
      db.Enqueue(ItemOf(k.Model(), today));
    }

    /** The body of the `list_active` loop: recover if due, then decide. */
    static method Consider(k: ApiKey, db: Database, provider: string, excludeCooldown: bool, now: int, today: Date)
      returns (listed: bool)
      modifies k, db`pending, db`wake
      ensures k.Model() == Recover(old(k.Model()), now)
      ensures db.pending == old(db.pending) + Revival(old(k.Model()), now, today)
      ensures listed == Listed(k.Model(), provider, excludeCooldown, now)
    {
      if k.status == Exhausted {
        return false;
      }
      if k.status == Inactive {
        return false;
      }
      if k.status == Error && !InCooldown(k.Model(), now) {
        AutoRecover(k, db, today);
      }
      if k.status != Active {
        return !excludeCooldown && !(provider != "" && k.provider != provider);
      }
      if provider != "" && k.provider != provider {
        return false;
      }
      return !(excludeCooldown && k.cooldownUntil.Some? && k.cooldownUntil.value > now);
    }

    method ListActive(provider: string, excludeCooldown: bool, now: int, today: Date) returns (out: seq<ApiKey>)
      requires Valid()
      modifies cache, db`pending, db`wake
      ensures View() == KeyLifecycle.ListActive(old(View()), provider, excludeCooldown, now).0
      ensures ModelsOf(out) == KeyLifecycle.ListActive(old(View()), provider, excludeCooldown, now).1
      ensures forall k :: k in out ==> k in cache
      ensures db.pending == old(db.pending) + RevivedTo(old(View()), |cache|, now, today)
    {
      out := Scan(cache, db, provider, excludeCooldown, now, today);
    }

    /** The `list_active` loop. */
    static method Scan(ks: seq<ApiKey>, db: Database, provider: string, excludeCooldown: bool, now: int, today: Date)
      returns (out: seq<ApiKey>)
      requires forall i, j :: 0 <= i < j < |ks| ==> ks[i] != ks[j]
      modifies ks, db`pending, db`wake
      ensures ModelsOf(ks) == Recovered(old(ModelsOf(ks)), now)
      ensures ModelsOf(out) == Filter(ModelsOf(ks), provider, excludeCooldown, now)
      ensures forall k :: k in out ==> k in ks
      ensures db.pending == old(db.pending) + RevivedTo(old(ModelsOf(ks)), |ks|, now, today)
    {
      out := [];
      ghost var from: seq<int> := [];
      ghost var before, queue := ModelsOf(ks), db.pending;
      assert ModelsOf(out) == [];
      ScanStart(before, queue, provider, excludeCooldown, now, today);
      for i := 0 to |ks|
        invariant Drawn(ks, i, out, from)
        invariant Scanned(before, queue, i, ModelsOf(ks), ModelsOf(out), db.pending, provider, excludeCooldown, now, today)
      {
        out, from := Advance(before, queue, ks, i, out, from, db, provider, excludeCooldown, now, today);
      }
      ScanEnd(before, queue, ModelsOf(ks), ModelsOf(out), db.pending, provider, excludeCooldown, now, today);
    }

    /** One turn of the loop, as progress. */
    static method Advance(ghost before: Keys, ghost queue: seq<Tables.Item>, ks: seq<ApiKey>, i: nat, out: seq<ApiKey>,
                          ghost from: seq<int>, db: Database, provider: string, excludeCooldown: bool, now: int,
                          today: Date)
      returns (more: seq<ApiKey>, ghost drawn: seq<int>)
      requires i < |ks| && (forall j, m :: 0 <= j < m < |ks| ==> ks[j] != ks[m]) && Drawn(ks, i, out, from)
      requires Scanned(before, queue, i, ModelsOf(ks), ModelsOf(out), db.pending, provider, excludeCooldown, now, today)
      modifies ks[i], db`pending, db`wake
      ensures Drawn(ks, i + 1, more, drawn)
      ensures Scanned(before, queue, i + 1, ModelsOf(ks), ModelsOf(more), db.pending,
                      provider, excludeCooldown, now, today)
    {
      ghost var models, shown, queued := ModelsOf(ks), ModelsOf(out), db.pending;
      more, drawn := Visit(ks, i, out, from, db, provider, excludeCooldown, now, today);
      ScanStep(before, queue, i, models, shown, queued, provider, excludeCooldown, now, today);
    }

    /** Where the loop stands after `i` keys: which are recovered, what it has listed and queued. */
    static ghost predicate Scanned(before: Keys, queue: seq<Tables.Item>, i: nat, ks: Keys, out: Keys,
                                   pending: seq<Tables.Item>, provider: string, excludeCooldown: bool, now: int,
                                   today: Date)
    {
      && i <= |before| == |ks|
      && (forall j :: 0 <= j < |ks| ==> ks[j] == if j < i then Recovered(before, now)[j] else before[j])
      && out == FilterTo(Recovered(before, now), i, provider, excludeCooldown, now)
      && pending == queue + RevivedTo(before, i, now, today)
    }

    static lemma ScanStart(before: Keys, queue: seq<Tables.Item>, provider: string, excludeCooldown: bool, now: int,
                           today: Date)
      ensures Scanned(before, queue, 0, before, [], queue, provider, excludeCooldown, now, today)
    {
    }

    static lemma ScanEnd(before: Keys, queue: seq<Tables.Item>, ks: Keys, out: Keys, pending: seq<Tables.Item>,
                         provider: string, excludeCooldown: bool, now: int, today: Date)
      requires Scanned(before, queue, |before|, ks, out, pending, provider, excludeCooldown, now, today)
      ensures ks == Recovered(before, now) && out == Filter(ks, provider, excludeCooldown, now)
      ensures pending == queue + RevivedTo(before, |before|, now, today)
    {
    }

    static lemma ScanStep(before: Keys, queue: seq<Tables.Item>, i: nat, ks: Keys, out: Keys, pending: seq<Tables.Item>,
                          provider: string, excludeCooldown: bool, now: int, today: Date)
      requires i < |before| && Scanned(before, queue, i, ks, out, pending, provider, excludeCooldown, now, today)
      ensures var ks' := ks[i := Recover(ks[i], now)];
              var more := if Listed(ks'[i], provider, excludeCooldown, now) then [ks'[i]] else [];
              Scanned(before, queue, i + 1, ks', out + more, pending + Revival(ks[i], now, today),
                      provider, excludeCooldown, now, today)
    {
      var a, b, c := queue, RevivedTo(before, i, now, today), Revival(before[i], now, today);
      assert a + b + c == a + (b + c);
    }

    /** `out` holds keys of `ks` from places before `i`. */
    static ghost predicate Drawn(ks: seq<ApiKey>, i: int, out: seq<ApiKey>, from: seq<int>) {
      |from| == |out| && forall m :: 0 <= m < |out| ==> 0 <= from[m] < i <= |ks| && out[m] == ks[from[m]]
    }

    /** One turn of that loop: only `ks[i]` changes, and it joins the result if listed. */
    static method Visit(ks: seq<ApiKey>, i: nat, out: seq<ApiKey>, ghost from: seq<int>, db: Database,
                        provider: string, excludeCooldown: bool, now: int, today: Date)
      returns (more: seq<ApiKey>, ghost drawn: seq<int>)
      requires i < |ks| && (forall j, m :: 0 <= j < m < |ks| ==> ks[j] != ks[m])
      requires Drawn(ks, i, out, from)
      modifies ks[i], db`pending, db`wake
      ensures Drawn(ks, i + 1, more, drawn)
      ensures ModelsOf(ks) == old(ModelsOf(ks))[i := Recover(old(ModelsOf(ks))[i], now)]
      ensures ModelsOf(more) ==
              old(ModelsOf(out))
              + (if Listed(ModelsOf(ks)[i], provider, excludeCooldown, now) then [ModelsOf(ks)[i]] else [])
      ensures db.pending == old(db.pending) + Revival(old(ModelsOf(ks))[i], now, today)
    {
      var listed := Consider(ks[i], db, provider, excludeCooldown, now, today);
      assert ModelsOf(out) == old(ModelsOf(out));
      more, drawn := out, from;
      if listed {
        more, drawn := more + [ks[i]], drawn + [i];
      }
    }
  }
}
