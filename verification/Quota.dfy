/** Usage recording of services/quota.py: rollover counters, the statistics queue, exhaustion. */
module QuotaSpec {
  import opened Prelude
  import opened ApiKeys
  import opened Tables
  import opened KeyLifecycle

  datatype Monitor = Monitor(warnEnabled: bool, threshold: real)

  /** One call of `record`: its day, its token counts, its status and its cost. */
  datatype Rec = Rec(date: Date, prompt: int, completion: int, statusCode: int, cost: real) {
    predicate IsError() { statusCode >= 400 }
    function Tokens(): int { prompt + completion }
  }

  /** The counters are reset when their stamp is not today's, then the call is added. */
  function RollDay(u: Usage, today: Date): Usage {
    if u.dayStamp != Some(today) then
      u.(dayStamp := Some(today), usedToday := 0, requestsToday := 0, errorsToday := 0)
    else u
  }

  function RollMonth(u: Usage, today: Date): Usage {
    if u.monthStamp != Some(MonthOf(today)) then
      u.(monthStamp := Some(MonthOf(today)), usedMonth := 0, requestsMonth := 0)
    else u
  }

  function AddUsage(u: Usage, r: Rec): Usage {
    var v := RollMonth(RollDay(u, r.date), r.date);
    v.(usedToday := v.usedToday + r.Tokens(), usedMonth := v.usedMonth + r.Tokens(),
       requestsToday := v.requestsToday + 1, requestsMonth := v.requestsMonth + 1,
       errorsToday := v.errorsToday + (if r.IsError() then 1 else 0))
  }

  function StatsOf(provider: string, id: string, r: Rec): Item {
    StatsItem(StatKey(r.date, provider, id), Stat(1, if r.IsError() then 1 else 0, r.prompt, r.completion, r.cost))
  }

  /** `quota_ratio`: the share of the daily quota used today, capped at 1. */
  function QuotaRatio(k: Key, today: Date): real {
    if k.dailyQuota <= 0 then 0.0
    else
      var share := TodayUsed(k.usage, today) as real / k.dailyQuota as real;
      if share < 1.0 then share else 1.0
  }

  /** Warnings are on and today's use has reached both the threshold and the quota. */
  predicate Spent(m: Monitor, k: Key, today: Date) {
    m.warnEnabled && k.dailyQuota > 0 && QuotaRatio(k, today) >= m.threshold && QuotaRatio(k, today) >= 1.0
  }

  /** The status effect of `_evaluate`. */
  function Evaluate(m: Monitor, k: Key, today: Date): Key {
    if Spent(m, k, today) then k.(status := Exhausted) else k
  }

  /** `record`: the key afterwards. */
  function Record(m: Monitor, k: Key, r: Rec, now: int): Key {
    Evaluate(m, k.(usage := AddUsage(k.usage, r), lastUsed := now), r.date)
  }

  /** To the key's life a usage record is one event. */
  lemma RecordIsEvent(m: Monitor, k: Key, r: Rec, now: int)
    ensures Record(m, k, r, now)
            == On(k, Recorded(AddUsage(k.usage, r), now, Spent(m, k.(usage := AddUsage(k.usage, r)), r.date)))
  {
    var u := AddUsage(k.usage, r);
    assert QuotaRatio(k.(usage := u, lastUsed := now), r.date) == QuotaRatio(k.(usage := u), r.date);
  }

  const MAX_PERSISTED_ALERTS := 200

  datatype AlertKind = QuotaExhausted | HighErrorRate
  datatype Alert = Alert(ts: int, kind: AlertKind, keyId: string, provider: string)

  /** What a call reports back: quota nearly or quite used, or too many errors. */
  datatype Warning = QuotaReached(ratio: real) | QuotaSpent | ManyErrors(rate: real)

  /** A new alert joins the list, which keeps its latest 200. */
  function Push(alerts: seq<Alert>, a: Alert): seq<Alert> {
    var all := alerts + [a];
    if |all| > MAX_PERSISTED_ALERTS then all[|all| - MAX_PERSISTED_ALERTS..] else all
  }

  predicate Failing(m: Monitor, k: Key, today: Date) {
    m.warnEnabled && k.usage.requestsToday >= 10 && ErrorRate(k.usage, today) > 0.5
  }

  function Raise(alerts: seq<Alert>, spent: bool, failing: bool, exhausted: Alert, errors: Alert): seq<Alert> {
    var first := if spent then Push(alerts, exhausted) else alerts;
    if failing && (first == [] || Last(first).kind != HighErrorRate) then Push(first, errors) else first
  }

  /** The alerts after `_evaluate`: one for every call of a spent key, and no error alert right after another. */
  function Alerts(m: Monitor, k: Key, today: Date, now: int, alerts: seq<Alert>): seq<Alert> {
    Raise(alerts, Spent(m, k, today), Failing(m, k, today),
          Alert(now, QuotaExhausted, k.id, k.provider), Alert(now, HighErrorRate, k.id, k.provider))
  }

  function Warnings(m: Monitor, k: Key, today: Date): seq<Warning> {
    (if m.warnEnabled && k.dailyQuota > 0 && QuotaRatio(k, today) >= m.threshold
     then [QuotaReached(QuotaRatio(k, today))] + (if Spent(m, k, today) then [QuotaSpent] else []) else [])
    + (if Failing(m, k, today) then [ManyErrors(ErrorRate(k.usage, today))] else [])
  }

  /** At most 200 alerts, and never two error alerts in a row. */
  ghost predicate Tidy(alerts: seq<Alert>) {
    && |alerts| <= MAX_PERSISTED_ALERTS
    && forall i :: 0 < i < |alerts| ==> !(alerts[i - 1].kind == HighErrorRate && alerts[i].kind == HighErrorRate)
  }

  /** Over every call, of any key, the list of alerts stays tidy and ends with what the call raised. */
  lemma AlertsStayTidy(m: Monitor, k: Key, today: Date, now: int, alerts: seq<Alert>)
    requires Tidy(alerts)
    ensures var after := Alerts(m, k, today, now, alerts);
            && Tidy(after)
            && (Failing(m, k, today) ==> after != [] && Last(after).kind == HighErrorRate)
            && (Spent(m, k, today) && !Failing(m, k, today) ==>
                  after != [] && Last(after) == Alert(now, QuotaExhausted, k.id, k.provider))
            && (!Spent(m, k, today) && !Failing(m, k, today) ==> after == alerts)
  {
    RaiseTidy(alerts, Spent(m, k, today), Failing(m, k, today),
              Alert(now, QuotaExhausted, k.id, k.provider), Alert(now, HighErrorRate, k.id, k.provider));
  }

  lemma RaiseTidy(alerts: seq<Alert>, spent: bool, failing: bool, exhausted: Alert, errors: Alert)
    requires Tidy(alerts) && exhausted.kind == QuotaExhausted && errors.kind == HighErrorRate
    ensures var after := Raise(alerts, spent, failing, exhausted, errors);
            && Tidy(after)
            && (failing ==> after != [] && Last(after).kind == HighErrorRate)
            && (spent && !failing ==> after != [] && Last(after) == exhausted)
            && (!spent && !failing ==> after == alerts)
  {
    PushTidy(alerts, exhausted);
    var first := if spent then Push(alerts, exhausted) else alerts;
    if first == [] || Last(first).kind != HighErrorRate {
      PushTidy(first, errors);
    }
  }

  /**
   * When a failing key's own error alert is raised, exactly: the key is spent as well, or there is
   * no alert yet, or the latest alert is one of exhaustion. An error alert of any key drops it.
   */
  lemma ErrorAlertExactly(m: Monitor, k: Key, today: Date, now: int, alerts: seq<Alert>)
    requires Failing(m, k, today)
    ensures var errors := Alert(now, HighErrorRate, k.id, k.provider);
            var first := if Spent(m, k, today) then Push(alerts, Alert(now, QuotaExhausted, k.id, k.provider)) else alerts;
            var after := Alerts(m, k, today, now, alerts);
            && (after == Push(first, errors) || after == first)
            && (after != first <==> Spent(m, k, today) || alerts == [] || Last(alerts).kind == QuotaExhausted)
  {
    var exhausted, errors := Alert(now, QuotaExhausted, k.id, k.provider), Alert(now, HighErrorRate, k.id, k.provider);
    PushedLast(alerts, exhausted);
    var first := if Spent(m, k, today) then Push(alerts, exhausted) else alerts;
    PushedLast(first, errors);
  }

  lemma PushedLast(alerts: seq<Alert>, a: Alert)
    ensures Push(alerts, a) != [] && Last(Push(alerts, a)) == a
  {
  }

  /** Exactly the latest 200 alerts are kept, the old ones and what the call raised, exhaustion first. */
  lemma LatestAlertsKept(m: Monitor, k: Key, today: Date, now: int, alerts: seq<Alert>)
    requires |alerts| <= 200
    ensures var spent, errors := Alert(now, QuotaExhausted, k.id, k.provider), Alert(now, HighErrorRate, k.id, k.provider);
            var first := alerts + (if Spent(m, k, today) then [spent] else []);
            var quiet := !Failing(m, k, today) || (first != [] && Last(first).kind == HighErrorRate);
            var all := first + (if quiet then [] else [errors]);
            Alerts(m, k, today, now, alerts) == if |all| > 200 then all[|all| - 200..] else all
  {
  }

  /** Too many errors, in integers: at least ten requests today, and more than every second one failed. */
  lemma FailingExactly(m: Monitor, k: Key, today: Date)
    ensures var requests, errors := TodayRequests(k.usage, today), TodayErrors(k.usage, today);
            Failing(m, k, today) <==> m.warnEnabled && requests >= 10 && 2 * errors > requests
  {
    if TodayRequests(k.usage, today) > 0 {
      HalfExactly(TodayErrors(k.usage, today), TodayRequests(k.usage, today));
    }
  }

  lemma HalfExactly(errors: int, requests: int)
    requires requests > 0
    ensures errors as real / requests as real > 0.5 <==> 2 * errors > requests
  {
    var rate, n := errors as real / requests as real, requests as real;
    assert rate * n == errors as real;
    if rate > 0.5 {
      Scaled(0.5, rate, n);
    } else if rate < 0.5 {
      Scaled(rate, 0.5, n);
    }
  }

  lemma Scaled(a: real, b: real, c: real)
    requires a < b && c > 0.0
    ensures a * c < b * c
  {
  }

  /** What a call warns of, exactly: the quota from the threshold on, its end, and too many errors. */
  lemma {:induction false} WarningsExactly(m: Monitor, k: Key, today: Date)
    ensures var ws, used := Warnings(m, k, today), TodayUsed(k.usage, today);
            && (forall w :: w in ws && w.QuotaReached? ==>
                  m.warnEnabled && k.dailyQuota > 0 && w.ratio >= m.threshold
                  && w.ratio * k.dailyQuota as real == Min(used, k.dailyQuota) as real)
            && ((exists w :: w in ws && w.QuotaReached?) <==>
                  m.warnEnabled && k.dailyQuota > 0
                  && Min(used, k.dailyQuota) as real >= m.threshold * k.dailyQuota as real)
            && (QuotaSpent in ws <==> m.warnEnabled && m.threshold <= 1.0 && 0 < k.dailyQuota <= used)
            && ((exists w :: w in ws && w.ManyErrors?) <==> Failing(m, k, today))
  {
    if k.dailyQuota > 0 {
      ShareExactly(TodayUsed(k.usage, today), k.dailyQuota, m.threshold);
      ShareReachesOne(TodayUsed(k.usage, today), k.dailyQuota);
    }
    WarningForms(m, k, today);
  }

  lemma WarningForms(m: Monitor, k: Key, today: Date)
    ensures var ws, reached := Warnings(m, k, today),
                m.warnEnabled && k.dailyQuota > 0 && QuotaRatio(k, today) >= m.threshold;
            && (forall w :: w in ws && w.QuotaReached? ==> reached && w.ratio == QuotaRatio(k, today))
            && ((exists w :: w in ws && w.QuotaReached?) <==> reached)
            && (QuotaSpent in ws <==> reached && Spent(m, k, today))
            && ((exists w :: w in ws && w.ManyErrors?) <==> Failing(m, k, today))
  {
    var ws := Warnings(m, k, today);
    if m.warnEnabled && k.dailyQuota > 0 && QuotaRatio(k, today) >= m.threshold {
      assert QuotaReached(QuotaRatio(k, today)) == ws[0] && ws[0] in ws;
      if Spent(m, k, today) {
        assert ws[1] == QuotaSpent && ws[1] in ws;
      }
    }
    if Failing(m, k, today) {
      assert ws[|ws| - 1] == ManyErrors(ErrorRate(k.usage, today)) && ws[|ws| - 1] in ws;
    }
  }

  lemma ShareExactly(used: int, quota: int, threshold: real)
    requires quota > 0
    ensures var share := used as real / quota as real;
            var ratio := if share < 1.0 then share else 1.0;
            && ratio * quota as real == Min(used, quota) as real
            && (ratio >= threshold <==> Min(used, quota) as real >= threshold * quota as real)
  {
    var share := used as real / quota as real;
    ShareReachesOne(used, quota);
    assert share * quota as real == used as real;
    var ratio := if share < 1.0 then share else 1.0;
    if ratio >= threshold {
      assert ratio * quota as real >= threshold * quota as real;
    } else {
      assert ratio * quota as real < threshold * quota as real;
    }
  }

  /** One evaluation, of any key on any day. */
  datatype Evaluation = Evaluation(k: Key, today: Date, now: int)

  function AlertsAfter(m: Monitor, es: seq<Evaluation>, alerts: seq<Alert>): seq<Alert> {
    if es == [] then alerts
    else Alerts(m, Last(es).k, Last(es).today, Last(es).now, AlertsAfter(m, Init(es), alerts))
  }

  /** Once an error alert is the latest, no evaluation of any key adds anything until some key is spent. */
  lemma {:induction false} Silence(m: Monitor, es: seq<Evaluation>, alerts: seq<Alert>)
    requires alerts != [] && Last(alerts).kind == HighErrorRate
    requires forall i :: 0 <= i < |es| ==> !Spent(m, es[i].k, es[i].today)
    ensures AlertsAfter(m, es, alerts) == alerts
  {
    if es != [] {
      Silence(m, Init(es), alerts);
      assert Last(es) == es[|es| - 1];
    }
  }

  lemma PushTidy(alerts: seq<Alert>, a: Alert)
    requires Tidy(alerts) && (a.kind == HighErrorRate ==> alerts == [] || Last(alerts).kind != HighErrorRate)
    ensures Tidy(Push(alerts, a)) && Push(alerts, a) != [] && Last(Push(alerts, a)) == a
  {
    var all, kept := alerts + [a], Push(alerts, a);
    var cut := |all| - |kept|;
    forall i | 0 < i < |kept|
      ensures !(kept[i - 1].kind == HighErrorRate && kept[i].kind == HighErrorRate)
    {
      assert kept[i] == all[cut + i] && kept[i - 1] == all[cut + i - 1];
    }
  }

  /** Exhaustion in integers: recording disables the key exactly when today's use reaches its quota. */
  lemma {:induction false} ExhaustedExactly(m: Monitor, k: Key, r: Rec, now: int)
    ensures var u := AddUsage(k.usage, r);
            Record(m, k, r, now).status ==
              if m.warnEnabled && k.dailyQuota > 0 && m.threshold <= 1.0 && TodayUsed(u, r.date) >= k.dailyQuota
              then Exhausted else k.status
  {
    var u := AddUsage(k.usage, r);
    if k.dailyQuota > 0 {
      ShareReachesOne(TodayUsed(u, r.date), k.dailyQuota);
    }
  }

  lemma ShareReachesOne(used: int, quota: int)
    requires quota > 0
    ensures used as real / quota as real >= 1.0 <==> used >= quota
  {
    var share := used as real / quota as real;
    assert share * quota as real == used as real;
    if share >= 1.0 {
      assert share * quota as real >= quota as real;
    } else {
      assert share * quota as real < quota as real;
    }
  }
}

module QuotaMonitor {
  import opened Prelude
  import opened ApiKeys
  import opened Tables
  import opened KeyLifecycle
  import opened KeyRows
  import opened KeyManager
  import opened QuotaSpec

  class QuotaMonitor {
    const config: Monitor
    /** Whose `_persist_async` the gateway installs as the change callback. */
    const keys: KeyManager
    var alerts: seq<Alert>

    constructor (config: Monitor, keys: KeyManager, alerts: seq<Alert>)
      ensures this.config == config && this.keys == keys && this.alerts == alerts
    {
      this.config := config;
      this.keys := keys;
      this.alerts := alerts;
    }

    /**
     * `record`, on a record that its caller holds: roll over, count, queue the statistics row,
     * evaluate, and hand the record to the change callback, which queues its snapshot and puts it
     * into the cache even if it was deleted meanwhile.
     */
    method Record(key: ApiKey, statusCode: int, prompt: int, completion: int, cost: real, today: Date, now: int)
      returns (warnings: seq<Warning>)
      requires keys.Valid() && keys.Own(key)
      modifies key, this`alerts, keys`cache, keys.db`pending, keys.db`wake
      ensures keys.Valid()
      ensures keys.cache == if key in old(keys.cache) then old(keys.cache) else old(keys.cache) + [key]
      ensures key.Model() ==
              QuotaSpec.Record(config, old(key.Model()), Rec(today, prompt, completion, statusCode, cost), now)
      ensures keys.View() == Store(old(keys.View()), key.Model())
      ensures keys.db.pending ==
              old(keys.db.pending) + [StatsOf(key.provider, key.id, Rec(today, prompt, completion, statusCode, cost)),
                                      ItemOf(key.Model(), today)]
      ensures alerts == Alerts(config, key.Model(), today, now, old(alerts))
      ensures warnings == Warnings(config, key.Model(), today)
    {
      ghost var before, queue := keys.View(), keys.db.pending;
      warnings := Settle(key, statusCode, prompt, completion, cost, today, now);
      ghost var row := StatsOf(key.provider, key.id, Rec(today, prompt, completion, statusCode, cost));
      ghost var snapshot := ItemOf(key.Model(), today);
      keys.PersistAsync(key, today);
      keys.Shown(before, key);
      assert queue + [row] + [snapshot] == queue + [row, snapshot];
    }

    /** `record` up to the callback. */
    method Settle(key: ApiKey, statusCode: int, prompt: int, completion: int, cost: real, today: Date, now: int)
      returns (warnings: seq<Warning>)
      modifies key, this`alerts, keys.db`pending, keys.db`wake
      ensures key.Model() ==
              QuotaSpec.Record(config, old(key.Model()), Rec(today, prompt, completion, statusCode, cost), now)
      ensures keys.db.pending ==
              old(keys.db.pending) + [StatsOf(key.provider, key.id, Rec(today, prompt, completion, statusCode, cost))]
      ensures alerts == Alerts(config, key.Model(), today, now, old(alerts))
      ensures warnings == Warnings(config, key.Model(), today)
    {
      CountCall(key, statusCode, prompt, completion, today, now);
      keys.db.Enqueue(StatsItem(StatKey(today, key.provider, key.id),
                                Stat(1, if statusCode >= 400 then 1 else 0, prompt, completion, cost)));
      warnings := Evaluate(key, today, now);
    }

    /** The counters of `record`, rolled over to today. */
    method CountCall(key: ApiKey, statusCode: int, prompt: int, completion: int, today: Date, now: int)
      modifies key
      ensures key.Model() == old(key.Model()).(
                usage := AddUsage(old(key.usage), Rec(today, prompt, completion, statusCode, 0.0)), lastUsed := now)
    {
      var u := key.usage;
      if u.dayStamp != Some(today) {
        u := u.(dayStamp := Some(today), usedToday := 0, requestsToday := 0, errorsToday := 0);
      }
      if u.monthStamp != Some(MonthOf(today)) {
        u := u.(monthStamp := Some(MonthOf(today)), usedMonth := 0, requestsMonth := 0);
      }
      u := u.(usedToday := u.usedToday + prompt + completion);
      u := u.(usedMonth := u.usedMonth + prompt + completion);
      u := u.(requestsToday := u.requestsToday + 1, requestsMonth := u.requestsMonth + 1);
      if statusCode >= 400 {
        u := u.(errorsToday := u.errorsToday + 1);
      }
      key.usage := u;
      key.lastUsed := now;
    }

    /** `_evaluate`: warnings, alerts, and the status of a key that has spent its quota. */
    method Evaluate(key: ApiKey, today: Date, now: int) returns (warnings: seq<Warning>)
      modifies key`status, this`alerts
      ensures key.Model() == QuotaSpec.Evaluate(config, old(key.Model()), today)
      ensures alerts == Alerts(config, key.Model(), today, now, old(alerts))
      ensures warnings == Warnings(config, key.Model(), today)
    {
      warnings := [];
      if !config.warnEnabled {
        return;
      }
      var ratio := QuotaRatio(key.Model(), today);
      if key.dailyQuota > 0 && ratio >= config.threshold {
        warnings := warnings + [QuotaReached(ratio)];
        if ratio >= 1.0 {
          key.status := Exhausted;
          warnings := warnings + [QuotaSpent];
          alerts := Push(alerts, Alert(now, QuotaExhausted, key.id, key.provider));
        }
      }
      var rate := ErrorRate(key.usage, today);
      if key.usage.requestsToday >= 10 && rate > 0.5 {
        warnings := warnings + [ManyErrors(rate)];
        if alerts == [] || Last(alerts).kind != HighErrorRate {
          alerts := Push(alerts, Alert(now, HighErrorRate, key.id, key.provider));
        }
      }
    }
  }
}

/** The counters, the statistics table and the plain list of records all tell the same story. */
module UsageLedger {
  import opened Prelude
  import opened ApiKeys
  import opened Tables
  import opened QuotaSpec
  import opened KeyLifecycle

  /** The ledger: every `record` call, for any key, in order. */
  datatype Call = Call(id: string, rec: Rec)

  function UsageOf(calls: seq<Call>, id: string): Usage {
    if calls == [] then UNUSED
    else if Last(calls).id == id then AddUsage(UsageOf(Init(calls), id), Last(calls).rec)
    else UsageOf(Init(calls), id)
  }

  /** The statistics items those calls put on the writer's queue. */
  function QueueOf(calls: seq<Call>, providerOf: string -> string): seq<Item> {
    if calls == [] then []
    else QueueOf(Init(calls), providerOf) + [StatsOf(providerOf(Last(calls).id), Last(calls).id, Last(calls).rec)]
  }

  datatype Sums = Sums(tokens: int, requests: int, errors: int)

  function Plus(a: Sums, r: Rec): Sums {
    Sums(a.tokens + r.Tokens(), a.requests + 1, a.errors + (if r.IsError() then 1 else 0))
  }

  function DaySums(calls: seq<Call>, id: string, d: Date): Sums {
    if calls == [] then Sums(0, 0, 0)
    else
      var s := DaySums(Init(calls), id, d);
      if Last(calls).id == id && Last(calls).rec.date == d then Plus(s, Last(calls).rec) else s
  }

  function MonthSums(calls: seq<Call>, id: string, m: Month): Sums {
    if calls == [] then Sums(0, 0, 0)
    else
      var s := MonthSums(Init(calls), id, m);
      if Last(calls).id == id && MonthOf(Last(calls).rec.date) == m then Plus(s, Last(calls).rec) else s
  }

  /** The calendar never runs backwards, and has not passed `d`. */
  predicate Dated(calls: seq<Call>, d: Date) {
    calls == [] || (NotLater(Last(calls).rec.date, d) && Dated(Init(calls), Last(calls).rec.date))
  }

  lemma {:induction false} NothingAhead(calls: seq<Call>, id: string, last: Date, d: Date)
    requires Dated(calls, last) && NotLater(last, d)
    ensures last != d ==> DaySums(calls, id, d) == Sums(0, 0, 0)
    ensures MonthOf(last) != MonthOf(d) ==> MonthSums(calls, id, MonthOf(d)) == Sums(0, 0, 0)
  {
    if calls != [] {
      NothingAhead(Init(calls), id, Last(calls).rec.date, d);
    }
  }

  /**
   * Counters equal the ledger: read on any day no earlier than the last record, the derived views
   * of every key are the sums over that key's records of that day and of that month.
   */
  lemma {:induction false} ViewsEqualLedger(calls: seq<Call>, id: string, d: Date)
    requires Dated(calls, d)
    ensures var u := UsageOf(calls, id);
            && DaySums(calls, id, d) == Sums(TodayUsed(u, d), TodayRequests(u, d), TodayErrors(u, d))
            && MonthSums(calls, id, MonthOf(d)).tokens == ThisMonthUsed(u, d)
            && MonthSums(calls, id, MonthOf(d)).requests == ThisMonthRequests(u, d)
  {
    if calls != [] {
      var r := Last(calls).rec;
      if Last(calls).id == id {
        ViewsEqualLedger(Init(calls), id, r.date);
        NothingAhead(Init(calls), id, r.date, d);
      } else {
        DatedLater(Init(calls), r.date, d);
        ViewsEqualLedger(Init(calls), id, d);
      }
    }
  }

  lemma {:induction false} DatedLater(calls: seq<Call>, d: Date, d': Date)
    requires Dated(calls, d) && NotLater(d, d')
    ensures Dated(calls, d')
  {
  }

  predicate Nonnegative(calls: seq<Call>) {
    forall i :: 0 <= i < |calls| ==> calls[i].rec.prompt >= 0 && calls[i].rec.completion >= 0
  }

  lemma {:induction false} DayWithinMonth(calls: seq<Call>, id: string, d: Date)
    requires Nonnegative(calls)
    ensures var day, month := DaySums(calls, id, d), MonthSums(calls, id, MonthOf(d));
            && 0 <= day.tokens <= month.tokens && 0 <= day.errors <= day.requests <= month.requests
  {
    if calls != [] {
      assert Nonnegative(Init(calls));
      DayWithinMonth(Init(calls), id, d);
      assert Last(calls) == calls[|calls| - 1];
    }
  }

  /** Across every rollover: used today is at most used this month, errors at most requests. */
  lemma ViewsInOrder(calls: seq<Call>, id: string, d: Date)
    requires Dated(calls, d) && Nonnegative(calls)
    ensures var u := UsageOf(calls, id);
            && 0 <= TodayUsed(u, d) <= ThisMonthUsed(u, d)
            && 0 <= TodayErrors(u, d) <= TodayRequests(u, d) <= ThisMonthRequests(u, d)
  {
    ViewsEqualLedger(calls, id, d);
    DayWithinMonth(calls, id, d);
  }

  /** The statistics table, once the queue is drained, holds the ledger's day sums of every key. */
  lemma {:induction false} TableEqualsLedger(db: Db, calls: seq<Call>, providerOf: string -> string, id: string, d: Date)
    ensures var pk := StatKey(d, providerOf(id), id);
            var before, after := StatAt(db, pk), StatAt(DirectAll(db, QueueOf(calls, providerOf)), pk);
            DaySums(calls, id, d) == Sums(after.prompt + after.completion - before.prompt - before.completion,
                                          after.requests - before.requests, after.errors - before.errors)
  {
    if calls != [] {
      TableEqualsLedger(db, Init(calls), providerOf, id, d);
      var q := QueueOf(calls, providerOf);
      assert Init(q) == QueueOf(Init(calls), providerOf);
    }
  }

  /**
   * Memory and table agree: whatever other days and keys the statistics table holds, if it has no
   * row yet for this key and day, what the key shows for today is what that row holds after the
   * writer has drained the queue, regrouped as it is.
   */
  lemma TodayEqualsDrainedRow(db: Db, calls: seq<Call>, providerOf: string -> string, id: string, d: Date)
    requires Dated(calls, d) && StatKey(d, providerOf(id), id) !in db.stats
    ensures var u := UsageOf(calls, id);
            var row := StatAt(Grouped(db, QueueOf(calls, providerOf)), StatKey(d, providerOf(id), id));
            && TodayRequests(u, d) == row.requests
            && TodayErrors(u, d) == row.errors
            && TodayUsed(u, d) == row.prompt + row.completion
  {
    ViewsEqualLedger(calls, id, d);
    TableEqualsLedger(db, calls, providerOf, id, d);
    GroupedIsDirect(db, QueueOf(calls, providerOf));
  }

  /** A finished request: its lifecycle event, then its usage record. */
  datatype Finished = Finished(event: Event, rec: Rec, now: int)

  function Finish(m: Monitor, k: Key, f: Finished): Key {
    Record(m, On(k, f.event), f.rec, f.now)
  }

  /** What happens to one key: a finished request, another lifecycle event, a listing, or a new daily quota. */
  datatype Act = Request(f: Finished) | Manage(event: Event) | Listing(now: int) | Edit(quota: int)

  function Perform(m: Monitor, k: Key, act: Act): Key {
    match act
    case Request(f) => Finish(m, k, f)
    case Manage(event) => On(k, event)
    case Listing(now) => Recover(k, now)
    case Edit(quota) => k.(dailyQuota := quota)
  }

  function PerformAll(m: Monitor, k: Key, acts: seq<Act>): Key {
    if acts == [] then k else Perform(m, PerformAll(m, k, Init(acts)), Last(acts))
  }

  /** The acts of one day, usage records only as part of finished requests. */
  predicate SameDay(acts: seq<Act>, d: Date) {
    forall i :: 0 <= i < |acts| ==>
      match acts[i]
      case Request(f) => f.rec.date == d && f.rec.prompt >= 0 && f.rec.completion >= 0 && !f.event.Recorded?
      case Manage(event) => !event.Recorded?
      case _ => true
  }

  /** Every quota set during the acts is positive and already used up when it is set. */
  ghost predicate Exceeded(m: Monitor, k: Key, acts: seq<Act>, d: Date) {
    forall i :: 0 <= i < |acts| && acts[i].Edit? ==>
      0 < acts[i].quota <= TodayUsed(PerformAll(m, k, acts[..i]).usage, d)
  }

  /** The latest act but listings and edits was a finished request, or the key began EXHAUSTED. */
  predicate Settled(k: Key, acts: seq<Act>) {
    if acts == [] then k.status == Exhausted
    else Last(acts).Request? || ((Last(acts).Listing? || Last(acts).Edit?) && Settled(k, Init(acts)))
  }

  lemma OverQuotaStep(m: Monitor, k: Key, f: Finished, d: Date)
    requires m.warnEnabled && m.threshold <= 1.0 && k.dailyQuota > 0
    requires TodayUsed(k.usage, d) >= k.dailyQuota
    requires f.rec.date == d && f.rec.prompt >= 0 && f.rec.completion >= 0 && !f.event.Recorded?
    ensures Finish(m, k, f).status == Exhausted
    ensures TodayUsed(Finish(m, k, f).usage, d) >= k.dailyQuota
  {
    ExhaustedExactly(m, On(k, f.event), f.rec, f.now);
  }

  /**
   * A success in flight sets its key ACTIVE unconditionally; the usage record that follows undoes
   * it. Within a day, whatever listings, status changes, tests, failures and changes to a quota
   * already used up come between, an over-quota key stays over its quota and is EXHAUSTED from
   * every finished request on until some other lifecycle event.
   */
  lemma {:induction false} OverQuotaStaysExhausted(m: Monitor, k: Key, acts: seq<Act>, d: Date)
    requires m.warnEnabled && m.threshold <= 1.0 && 0 < k.dailyQuota <= TodayUsed(k.usage, d)
    requires SameDay(acts, d) && Exceeded(m, k, acts, d)
    ensures var after := PerformAll(m, k, acts);
            0 < after.dailyQuota <= TodayUsed(after.usage, d) && (Settled(k, acts) ==> after.status == Exhausted)
  {
    if acts != [] {
      var n, act := |acts| - 1, Last(acts);
      var before := PerformAll(m, k, Init(acts));
      assert acts[n] == act && acts[..n] == Init(acts) && SameDay(Init(acts), d);
      assert Exceeded(m, k, Init(acts), d) by {
        assert forall i :: 0 <= i < n ==> Init(acts)[i] == acts[i] && Init(acts)[..i] == acts[..i];
      }
      OverQuotaStaysExhausted(m, k, Init(acts), d);
      if act.Request? {
        OverQuotaStep(m, before, act.f, d);
      }
    }
  }

  /** A quota raised above today's use is what ends it: a success after that leaves the key ACTIVE. */
  lemma RaisedQuotaReleases(m: Monitor, k: Key, quota: int, now: int, rec: Rec)
    requires m.warnEnabled && m.threshold <= 1.0 && quota > TodayUsed(AddUsage(k.usage, rec), rec.date)
    ensures PerformAll(m, k, [Edit(quota), Request(Finished(Success(now), rec, now))]).status == Active
  {
    var acts := [Edit(quota), Request(Finished(Success(now), rec, now))];
    var k' := k.(dailyQuota := quota);
    assert Init(acts) == [Edit(quota)] && Init([Edit(quota)]) == [];
    assert PerformAll(m, k, [Edit(quota)]) == k';
    assert PerformAll(m, k, acts) == Record(m, OnSuccess(k', now), rec, now);
    ExhaustedExactly(m, OnSuccess(k.(dailyQuota := quota), now), rec, now);
  }

  /** `n` failed calls of a key on one day. */
  function Failures(id: string, d: Date, n: nat): seq<Call> { seq(n, i => Call(id, Rec(d, 0, 0, 500, 0.0))) }

  lemma {:induction false} UsageOfFailures(id: string, d: Date, n: nat)
    ensures var u := UsageOf(Failures(id, d, n), id);
            u.requestsToday == n && u.errorsToday == n && (n > 0 ==> u.dayStamp == Some(d))
  {
    if n > 0 {
      UsageOfFailures(id, d, n - 1);
      assert Init(Failures(id, d, n)) == Failures(id, d, n - 1);
      assert Last(Failures(id, d, n)) == Call(id, Rec(d, 0, 0, 500, 0.0));
    }
  }

  /** The evaluations of a key without quota after each of its first `n` failed calls. */
  function Evaluations(k: Key, d: Date, n: nat): seq<Evaluation> {
    seq(n, i requires 0 <= i < n => Evaluation(k.(usage := UsageOf(Failures(k.id, d, i + 1), k.id)), d, 0))
  }

  /** A key's tenth failed call in a row raises its error alert. */
  lemma {:induction false} TenFailuresAlert(m: Monitor, k: Key, d: Date, n: nat)
    requires m.warnEnabled && k.dailyQuota <= 0 && n <= 10
    ensures AlertsAfter(m, Evaluations(k, d, n), []) ==
            if n < 10 then [] else [Alert(0, HighErrorRate, k.id, k.provider)]
  {
    if n > 0 {
      TenFailuresAlert(m, k, d, n - 1);
      UsageOfFailures(k.id, d, n);
      assert Init(Evaluations(k, d, n)) == Evaluations(k, d, n - 1);
      var e := Last(Evaluations(k, d, n));
      assert e == Evaluation(k.(usage := UsageOf(Failures(k.id, d, n), k.id)), d, 0);
      AllErrors(e.k.usage, d, n);
    }
  }

  lemma AllErrors(u: Usage, d: Date, n: nat)
    requires n > 0 && u.dayStamp == Some(d) && u.requestsToday == n && u.errorsToday == n
    ensures ErrorRate(u, d) == 1.0
  {
    assert n as real / n as real == 1.0;
  }

  /**
   * Two keys fail ten times each, the second after the first: the second is failing by every
   * measure, and the only alert is the first one's.
   */
  lemma SecondKeySilenced(m: Monitor, a: Key, b: Key, d: Date)
    requires m.warnEnabled && a.dailyQuota <= 0 && b.dailyQuota <= 0
    ensures Failing(m, Last(Evaluations(b, d, 10)).k, d)
    ensures AlertsAfter(m, Evaluations(b, d, 10), AlertsAfter(m, Evaluations(a, d, 10), []))
            == [Alert(0, HighErrorRate, a.id, a.provider)]
  {
    TenFailuresAlert(m, a, d, 10);
    UsageOfFailures(b.id, d, 10);
    assert Last(Evaluations(b, d, 10)) == Evaluation(b.(usage := UsageOf(Failures(b.id, d, 10), b.id)), d, 0);
    AllErrors(UsageOf(Failures(b.id, d, 10), b.id), d, 10);
    Silence(m, Evaluations(b, d, 10), [Alert(0, HighErrorRate, a.id, a.provider)]);
  }
}
