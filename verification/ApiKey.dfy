/** The key record of models/api_key.py: usage counters with day and month stamps, status, cooldown. */
module ApiKeys {
  import opened Prelude

  datatype Status = Active | Inactive | Exhausted | Error

  /** Counters are meaningful only for the day and month in their stamps (`""` is `None`). */
  datatype Usage = Usage(
    usedToday: int, usedMonth: int, requestsToday: int, requestsMonth: int, errorsToday: int,
    dayStamp: Option<Date>, monthStamp: Option<Month>)

  const UNUSED := Usage(0, 0, 0, 0, 0, None, None)

  /** What the record carries besides; a test fills in its outcome. */
  datatype Extra = Extra(
    encryptedKey: string, providerId: string, note: string, createdAt: int, metadata: string,
    lastTested: Option<int>, testResult: Option<string>, testError: Option<string>)

  datatype Key = Key(
    id: string, provider: string, name: string, baseUrl: string, grp: string, priority: int,
    weight: int, maxRpm: int, dailyQuota: int, usage: Usage, status: Status, lastUsed: int,
    failureCount: int, cooldownUntil: Option<int>, extra: Extra)

  predicate DistinctIds(ks: seq<Key>) {
    forall i, j :: 0 <= i < j < |ks| ==> ks[i].id != ks[j].id
  }

  predicate IsToday(u: Usage, d: Date) { u.dayStamp == Some(d) }
  predicate IsThisMonth(u: Usage, d: Date) { u.monthStamp == Some(MonthOf(d)) }

  function TodayUsed(u: Usage, d: Date): int { if IsToday(u, d) then u.usedToday else 0 }
  function TodayRequests(u: Usage, d: Date): int { if IsToday(u, d) then u.requestsToday else 0 }
  function TodayErrors(u: Usage, d: Date): int { if IsToday(u, d) then u.errorsToday else 0 }
  function ThisMonthUsed(u: Usage, d: Date): int { if IsThisMonth(u, d) then u.usedMonth else 0 }
  function ThisMonthRequests(u: Usage, d: Date): int { if IsThisMonth(u, d) then u.requestsMonth else 0 }

  predicate InCooldown(k: Key, now: int) { k.cooldownUntil.Some? && k.cooldownUntil.value > now }

  /** -1 when the key has no daily quota. */
  function QuotaRemaining(k: Key, d: Date): int {
    if k.dailyQuota <= 0 then -1 else Max(0, k.dailyQuota - TodayUsed(k.usage, d))
  }

  function ErrorRate(u: Usage, d: Date): real {
    if TodayRequests(u, d) == 0 then 0.0 else TodayErrors(u, d) as real / TodayRequests(u, d) as real
  }

  /** The counters `to_db_dict` writes: rolled over as of `today`, with the stamps brought in step. */
  function Saved(u: Usage, today: Date): Usage {
    Usage(TodayUsed(u, today), ThisMonthUsed(u, today), TodayRequests(u, today), ThisMonthRequests(u, today),
          TodayErrors(u, today), Some(today), Some(MonthOf(today)))
  }

  ghost predicate SameViews(u: Usage, v: Usage, d: Date) {
    && TodayUsed(u, d) == TodayUsed(v, d)
    && TodayRequests(u, d) == TodayRequests(v, d)
    && TodayErrors(u, d) == TodayErrors(v, d)
    && ThisMonthUsed(u, d) == ThisMonthUsed(v, d)
    && ThisMonthRequests(u, d) == ThisMonthRequests(v, d)
  }

  predicate StampsBy(u: Usage, d: Date) {
    && (u.dayStamp.Some? ==> NotLater(u.dayStamp.value, d))
    && (u.monthStamp.Some? ==>
          u.monthStamp.value.year < d.year
          || (u.monthStamp.value.year == d.year && u.monthStamp.value.month <= d.month))
  }

  /** Saving and reloading a key, even across a rollover, changes nothing a later day can read. */
  lemma {:induction false} SaveKeepsViews(u: Usage, today: Date, d: Date)
    requires StampsBy(u, today) && NotLater(today, d)
    ensures SameViews(Saved(u, today), u, d)
  {
  }

  /** The mutable record; `Model` is its value. */
  class ApiKey {
    const id: string
    const provider: string
    const name: string
    const baseUrl: string
    const grp: string
    const priority: int
    const weight: int
    const maxRpm: int
    const dailyQuota: int
    var usage: Usage
    var status: Status
    var lastUsed: int
    var failureCount: int
    var cooldownUntil: Option<int>
    var extra: Extra

    function Model(): Key
      reads this
    {
      Key(id, provider, name, baseUrl, grp, priority, weight, maxRpm, dailyQuota, usage, status, lastUsed,
          failureCount, cooldownUntil, extra)
    }

    constructor (k: Key)
      ensures Model() == k
    {
      id, provider, name, baseUrl, grp := k.id, k.provider, k.name, k.baseUrl, k.grp;
      priority, weight, maxRpm, dailyQuota := k.priority, k.weight, k.maxRpm, k.dailyQuota;
      usage, status, lastUsed := k.usage, k.status, k.lastUsed;
      failureCount, cooldownUntil, extra := k.failureCount, k.cooldownUntil, k.extra;
    }
  }
}
