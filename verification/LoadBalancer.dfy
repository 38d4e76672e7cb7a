/** The strategies of services/load_balancer.py. */
module BalancerSpec {
  import opened Prelude
  import opened Sorting
  import opened ApiKeys

  datatype Group = Group(provider: string, baseUrl: string, grp: string)
  datatype Cursor = Cursor(next: nat, ids: seq<string>)

  datatype Strategy = RoundRobinS | WeightedS | PriorityS | LeastConnectionsS | ResponseTimeS | SmartS

  type Rotation = map<Group, Cursor>

  function GroupOf(k: Key): Group { Group(k.provider, k.baseUrl, k.grp) }

  function Ids(ks: seq<Key>): seq<string> {
    seq(|ks|, i requires 0 <= i < |ks| => ks[i].id)
  }

  /** The group's cursor, rebuilt at 0 when the candidate ids are not those it was built for. */
  function CursorFor(rr: Rotation, g: Group, ids: seq<string>): nat {
    if g in rr && rr[g].ids == ids then rr[g].next else 0
  }

  function RoundRobin(rr: Rotation, ks: seq<Key>): (r: (Rotation, Key))
    requires ks != []
    ensures r.1 in ks
  {
    var i := CursorFor(rr, GroupOf(ks[0]), Ids(ks)) % |ks|;
    (rr[GroupOf(ks[0]) := Cursor(i + 1, Ids(ks))], ks[i])
  }

  function ActiveCount(active: map<string, int>, id: string): int {
    if id in active then active[id] else 0
  }

  function ReportActive(active: map<string, int>, id: string, delta: int): map<string, int> {
    active[id := Max(0, ActiveCount(active, id) + delta)]
  }

  /** A key and the change of its count. */
  datatype Move = Move(id: string, delta: int)

  function Moved(moves: seq<Move>): map<string, int> {
    if moves == [] then map[] else ReportActive(Moved(Init(moves)), Last(moves).id, Last(moves).delta)
  }

  /** No count falls below zero, and each report moves its own by the delta as far as that allows. */
  lemma {:induction false} NeverNegative(moves: seq<Move>, id: string)
    ensures ActiveCount(Moved(moves), id) >= 0
    ensures moves != [] ==>
              var was, last := ActiveCount(Moved(Init(moves)), id), Last(moves);
              ActiveCount(Moved(moves), id) ==
              if last.id != id then was else if was + last.delta < 0 then 0 else was + last.delta
  {
    if moves != [] {
      NeverNegative(Init(moves), id);
    }
  }

  /** The order `_priority` sorts by. */
  predicate Before(a: Key, b: Key) {
    a.priority < b.priority || (a.priority == b.priority && StrLess(a.id, b.id))
  }

  /** The leading keys of a sorted list that share its first priority. */
  function Leading(ks: seq<Key>, priority: int): seq<Key> {
    if ks == [] then []
    else (if ks[0].priority == priority then [ks[0]] else []) + Leading(ks[1..], priority)
  }

  function Pool(ks: seq<Key>): seq<Key>
    requires ks != []
  {
    var sorted := Sort(ks, Before);
    SortMembers(ks, Before);
    Leading(sorted, sorted[0].priority)
  }

  lemma BeforeOrders(ks: seq<Key>)
    requires DistinctIds(ks)
    ensures Orders(Before, ks)
  {
    forall a, b | a in ks && b in ks
      ensures a != b ==> Before(a, b) || Before(b, a)
      ensures Before(a, b) ==> !Before(b, a)
    {
      StrLessTrichotomy(a.id, b.id);
    }
    forall a, b, c | a in ks && b in ks && c in ks && Before(a, b) && Before(b, c)
      ensures Before(a, c)
    {
      if StrLess(a.id, b.id) && StrLess(b.id, c.id) {
        StrLessTransitive(a.id, b.id, c.id);
      }
    }
  }

  lemma {:induction false} LeadingMembers(ks: seq<Key>, priority: int)
    ensures forall x :: x in Leading(ks, priority) <==> x in ks && x.priority == priority
  {
    if ks != [] {
      LeadingMembers(ks[1..], priority);
      assert ks == [ks[0]] + ks[1..];
    }
  }

  /** The pool is the set of most urgent candidates, and does not depend on their order. */
  lemma PoolExact(ks: seq<Key>, other: seq<Key>)
    requires ks != [] && DistinctIds(ks) && DistinctIds(other) && forall x :: x in ks <==> x in other
    ensures other != [] && Pool(ks) == Pool(other)
    ensures forall x :: x in Pool(ks) <==> x in ks && forall y :: y in ks ==> x.priority <= y.priority
    ensures Pool(ks) != []
  {
    assert ks[0] in other;
    BeforeOrders(ks);
    BeforeOrders(other);
    SortSorted(ks, Before);
    SortSorted(other, Before);
    SortMembers(ks, Before);
    SortMembers(other, Before);
    SortedUnique(Sort(ks, Before), Sort(other, Before), Before);
    var s := Sort(ks, Before);
    LeadingMembers(s, s[0].priority);
    assert s[0] in ks;
    assert s[0] in Pool(ks);
    forall y | y in ks
      ensures s[0].priority <= y.priority
    {
      assert y in s;
    }
  }

  lemma {:induction false} LeadingInOrder(ks: seq<Key>, priority: int)
    requires Sorted(ks, Before)
    ensures forall i, j :: 0 <= i < j < |Leading(ks, priority)| ==>
              StrLess(Leading(ks, priority)[i].id, Leading(ks, priority)[j].id)
  {
    if ks != [] {
      LeadingInOrder(ks[1..], priority);
      LeadingMembers(ks[1..], priority);
      var rest := Leading(ks[1..], priority);
      forall j | 0 <= j < |rest| && ks[0].priority == priority
        ensures StrLess(ks[0].id, rest[j].id)
      {
        assert rest[j] in ks[1..];
        var m :| 0 <= m < |ks[1..]| && ks[1..][m] == rest[j];
        assert ks[m + 1] == rest[j] && Before(ks[0], ks[m + 1]);
      }
    }
  }

  /** The pool takes its turns in the order of the ids. */
  lemma PoolInIdOrder(ks: seq<Key>, i: nat, j: nat)
    requires ks != [] && DistinctIds(ks) && i < j < |Pool(ks)|
    ensures StrLess(Pool(ks)[i].id, Pool(ks)[j].id)
  {
    BeforeOrders(ks);
    SortSorted(ks, Before);
    SortMembers(ks, Before);
    LeadingInOrder(Sort(ks, Before), Sort(ks, Before)[0].priority);
  }

  /** `_priority`: alone at the top wins outright, several share a rotation. */
  function Priority(rr: Rotation, ks: seq<Key>): (r: (Rotation, Key))
    requires ks != []
    ensures r.1 in ks
  {
    PoolInKeys(ks);
    var pool := Pool(ks);
    if |pool| == 1 then (rr, pool[0]) else RoundRobin(rr, pool)
  }

  lemma PoolInKeys(ks: seq<Key>)
    requires ks != []
    ensures Pool(ks) != [] && forall x :: x in Pool(ks) ==> x in ks
  {
    SortMembers(ks, Before);
    var s := Sort(ks, Before);
    LeadingMembers(s, s[0].priority);
    assert s[0] in Pool(ks);
  }

  /** The first key with the least `cost`. */
  ghost predicate FirstLeast(ks: seq<Key>, cost: Key -> real, k: Key) {
    exists i :: 0 <= i < |ks| && ks[i] == k
                && (forall j :: 0 <= j < i ==> cost(ks[j]) > cost(k))
                && (forall j :: 0 <= j < |ks| ==> cost(ks[j]) >= cost(k))
  }

  function Average(samples: seq<real>): real
    requires samples != []
  {
    Sum(samples) / |samples| as real
  }

  function Sum(samples: seq<real>): real {
    if samples == [] then 0.0 else Sum(samples[..|samples| - 1]) + samples[|samples| - 1]
  }

  function Samples(latencies: map<string, seq<real>>, id: string): seq<real> {
    if id in latencies then latencies[id] else []
  }

  /** Appends a sample and keeps the last 20. */
  function PushLatency(latencies: map<string, seq<real>>, id: string, ms: real): map<string, seq<real>> {
    var q := Samples(latencies, id) + [ms];
    latencies[id := if |q| > 20 then q[|q| - 20..] else q]
  }

  /** One report: the key and its latency. */
  datatype Report = Report(id: string, ms: real)

  function Reported(reports: seq<Report>): map<string, seq<real>> {
    if reports == [] then map[]
    else PushLatency(Reported(reports[..|reports| - 1]), reports[|reports| - 1].id, reports[|reports| - 1].ms)
  }

  /** Everything ever reported for a key, in order. */
  function AllOf(reports: seq<Report>, id: string): seq<real> {
    if reports == [] then []
    else
      var before, last := AllOf(reports[..|reports| - 1], id), reports[|reports| - 1];
      if last.id == id then before + [last.ms] else before
  }

  /** The samples kept for a key are the latest 20 ever reported for it, in order, however reports interleave. */
  lemma {:induction false} LatestTwenty(reports: seq<Report>, id: string)
    ensures var all := AllOf(reports, id);
            Samples(Reported(reports), id) == if |all| > 20 then all[|all| - 20..] else all
  {
    if reports != [] {
      var init, last := reports[..|reports| - 1], reports[|reports| - 1];
      LatestTwenty(init, id);
      if last.id == id {
        PushKeepsLatest(Samples(Reported(init), id), AllOf(init, id), last.ms);
      }
    }
  }

  lemma PushKeepsLatest(q: seq<real>, all: seq<real>, ms: real)
    requires q == if |all| > 20 then all[|all| - 20..] else all
    ensures var p, more := q + [ms], all + [ms];
            (if |p| > 20 then p[|p| - 20..] else p) == if |more| > 20 then more[|more| - 20..] else more
  {
  }

  function ConnectionCost(active: map<string, int>): Key -> real {
    (k: Key) => ActiveCount(active, k.id) as real
  }

  function LatencyCost(latencies: map<string, seq<real>>): Key -> real {
    (k: Key) => var q := Samples(latencies, k.id); if q == [] then 0.0 else Average(q)
  }

  function SmartCost(active: map<string, int>, today: Date, now: int): Key -> real {
    (k: Key) => -Score(k, active, today, now)
  }

  /** Weights below 1 count as 1. */
  function TotalWeight(ks: seq<Key>): int {
    if ks == [] then 0 else TotalWeight(ks[..|ks| - 1]) + Max(1, ks[|ks| - 1].weight)
  }

  lemma {:induction false} WeightGrows(ks: seq<Key>, i: nat)
    requires i <= |ks|
    ensures TotalWeight(ks[..i]) <= TotalWeight(ks)
  {
    if i == |ks| {
      assert ks[..i] == ks;
    } else {
      WeightGrows(ks[..|ks| - 1], i);
      assert ks[..|ks| - 1][..i] == ks[..i];
    }
  }

  /** `_response_time`: the first key without samples, or else the first of the fastest on average. */
  ghost predicate Quickest(ks: seq<Key>, latencies: map<string, seq<real>>, k: Key) {
    if exists x :: x in ks && Samples(latencies, x.id) == [] then
      exists i :: 0 <= i < |ks| && ks[i] == k && Samples(latencies, k.id) == []
                  && forall j :: 0 <= j < i ==> Samples(latencies, ks[j].id) != []
    else FirstLeast(ks, LatencyCost(latencies), k)
  }

  /** `_weighted`: the key whose stretch of the cumulative weights holds the draw, or the last beyond them. */
  ghost predicate Drawn(ks: seq<Key>, draw: real, k: Key)
    requires ks != []
  {
    if draw <= TotalWeight(ks) as real then
      exists i :: 0 <= i < |ks| && k == ks[i] && draw <= TotalWeight(ks[..i + 1]) as real
                  && (i > 0 ==> TotalWeight(ks[..i]) as real < draw)
    else k == Last(ks)
  }

  /** The score of the smart strategy. */
  function Score(k: Key, active: map<string, int>, today: Date, now: int): real {
    (100 - k.priority) as real
    + (1.0 - ErrorRate(k.usage, today)) * 20.0
    - ActiveCount(active, k.id) as real * 2.0
    + (var share := QuotaRemaining(k, today) as real / Max(1, k.dailyQuota) as real;
       (if share < 1.0 then share else 1.0) * 10.0)
    + Max(1, k.weight) as real * 0.5
    + (if k.lastUsed != 0 && now - k.lastUsed < 60000 then 2.0 else 0.0)
  }

  /** The share of a daily quota still to be used, as the smart score reads it. */
  function ShareLeft(k: Key, today: Date): real
    requires k.dailyQuota > 0
  {
    var share := QuotaRemaining(k, today) as real / k.dailyQuota as real;
    if share < 1.0 then share else 1.0
  }

  lemma ShareNonnegative(k: Key, today: Date)
    requires k.dailyQuota > 0
    ensures 0.0 <= ShareLeft(k, today) <= 1.0
  {
    QuotientNonnegative(QuotaRemaining(k, today) as real, k.dailyQuota as real);
  }

  lemma QuotientNonnegative(a: real, b: real)
    requires a >= 0.0 && b > 0.0
    ensures a / b >= 0.0
  {
  }

  /** The key answered, or failed, less than a minute ago. */
  predicate Recent(k: Key, now: int) { k.lastUsed != 0 && now - k.lastUsed < 60000 }

  /** What is left of a daily quota: -1 without one, otherwise what is not used, and never less than nothing. */
  lemma RemainingExactly(k: Key, today: Date)
    ensures var left, used := QuotaRemaining(k, today), TodayUsed(k.usage, today);
            && (left == -1 <==> k.dailyQuota <= 0)
            && (0 <= used <= k.dailyQuota && k.dailyQuota > 0 ==> left + used == k.dailyQuota)
            && (used > k.dailyQuota > 0 ==> left == 0)
  {
  }

  /** `a` is no worse than `b` in anything the smart strategy looks at. */
  predicate NoWorse(a: Key, b: Key, active: map<string, int>, today: Date, now: int) {
    && a.priority <= b.priority
    && ErrorRate(a.usage, today) <= ErrorRate(b.usage, today)
    && ActiveCount(active, a.id) <= ActiveCount(active, b.id)
    && a.dailyQuota == b.dailyQuota && QuotaRemaining(a, today) >= QuotaRemaining(b, today)
    && Max(1, a.weight) >= Max(1, b.weight)
    && (Recent(b, now) ==> Recent(a, now))
  }

  /** And better in something, be it priority, errors, load, weight or a recent use. */
  predicate Better(a: Key, b: Key, active: map<string, int>, today: Date, now: int) {
    NoWorse(a, b, active, today, now)
    && (|| a.priority < b.priority
        || ErrorRate(a.usage, today) < ErrorRate(b.usage, today)
        || ActiveCount(active, a.id) < ActiveCount(active, b.id)
        || (a.weight > b.weight && a.weight > 1)
        || (Recent(a, now) && !Recent(b, now)))
  }

  /** The share that enters the score grows with what is left. */
  lemma MoreLeftScoresMore(left: int, less: int, quota: int)
    requires left >= less && quota >= 1
    ensures var x, y := left as real / quota as real, less as real / quota as real;
            (if x < 1.0 then x else 1.0) >= (if y < 1.0 then y else 1.0)
  {
    var x, y := left as real / quota as real, less as real / quota as real;
    assert x * quota as real == left as real && y * quota as real == less as real;
    if x < y {
      Stretched(x, y, quota as real);
    }
  }

  lemma Stretched(a: real, b: real, c: real)
    requires a < b && c > 0.0
    ensures a * c < b * c
  {
  }

  lemma BetterScoresMore(a: Key, b: Key, active: map<string, int>, today: Date, now: int)
    requires Better(a, b, active, today, now)
    ensures Score(a, active, today, now) > Score(b, active, today, now)
  {
    MoreLeftScoresMore(QuotaRemaining(a, today), QuotaRemaining(b, today), Max(1, a.dailyQuota));
  }

  /**
   * The smart strategy never picks a key while another candidate is better in priority, error rate,
   * load, weight or recent use and worse in nothing.
   */
  lemma SmartPicksUndominated(ks: seq<Key>, active: map<string, int>, today: Date, now: int, chosen: Key, other: Key)
    requires FirstLeast(ks, SmartCost(active, today, now), chosen) && other in ks
    ensures !Better(other, chosen, active, today, now)
  {
    if Better(other, chosen, active, today, now) {
      BetterScoresMore(other, chosen, active, today, now);
    }
  }

  /**
   * What each thing is worth: a step of priority one point, an attempt in flight two, a unit of
   * weight a half, a use within the last minute two, and the error rate twenty.
   */
  lemma {:induction false} ScoreSteps(k: Key, active: map<string, int>, today: Date, now: int, priority: int, weight: int,
                                      count: int)
    ensures var score := Score(k, active, today, now);
            && Score(k.(priority := priority), active, today, now) == score + (k.priority - priority) as real
            && Score(k, active[k.id := count], today, now) == score + (ActiveCount(active, k.id) - count) as real * 2.0
            && Score(k.(weight := weight), active, today, now)
               == score + (Max(1, weight) - Max(1, k.weight)) as real * 0.5
            && (!Recent(k, now) && now > 0 ==> Score(k.(lastUsed := now), active, today, now) == score + 2.0)
  {
  }

  lemma {:induction false} ErrorsCost(k: Key, usage: Usage, active: map<string, int>, today: Date, now: int)
    requires TodayUsed(usage, today) == TodayUsed(k.usage, today)
    ensures Score(k.(usage := usage), active, today, now)
            == Score(k, active, today, now) + (ErrorRate(k.usage, today) - ErrorRate(usage, today)) * 20.0
    ensures TodayRequests(usage, today) != 0 ==>
              ErrorRate(usage, today) * TodayRequests(usage, today) as real == TodayErrors(usage, today) as real
    ensures TodayRequests(usage, today) == 0 ==> ErrorRate(usage, today) == 0.0
  {
    assert QuotaRemaining(k.(usage := usage), today) == QuotaRemaining(k, today);
  }

  /** The average, exactly: what the samples add up to, divided evenly. */
  lemma {:induction false} AverageExactly(a: seq<real>, b: seq<real>, x: real)
    ensures Sum([]) == 0.0 && Sum([x]) == x && Sum(a + b) == Sum(a) + Sum(b)
    ensures a != [] ==> Average(a) * |a| as real == Sum(a)
    decreases |b|
  {
    assert [x][..0] == [];
    if b == [] {
      assert a + b == a;
    } else {
      var init, last := b[..|b| - 1], b[|b| - 1];
      assert (a + b)[..|a + b| - 1] == a + init;
      AverageExactly(a, init, x);
    }
  }

  /**
   * The quickest key has no samples, or else every candidate has some and none has a smaller sum for
   * its number of samples.
   */
  lemma QuickestExactly(ks: seq<Key>, latencies: map<string, seq<real>>, k: Key, other: Key)
    requires Quickest(ks, latencies, k) && other in ks
    ensures var a, b := Samples(latencies, k.id), Samples(latencies, other.id);
            a != [] ==> b != [] && Sum(a) * |b| as real <= Sum(b) * |a| as real
  {
    var a, b := Samples(latencies, k.id), Samples(latencies, other.id);
    if a != [] {
      assert b != [];
      assert LatencyCost(latencies)(k) <= LatencyCost(latencies)(other);
      CrossMultiplied(Sum(a), |a| as real, Sum(b), |b| as real);
    }
  }

  lemma CrossMultiplied(x: real, m: real, y: real, n: real)
    requires m > 0.0 && n > 0.0 && x / m <= y / n
    ensures x * n <= y * m
  {
    var p, q := x / m, y / n;
    assert p * (m * n) <= q * (m * n);
    assert x == p * m && y == q * n;
  }

  /** A key's stretch of the weighted draw is as long as its weight, or 1, and begins where the one before ends. */
  lemma {:induction false} StretchIsWeight(ks: seq<Key>, i: nat)
    requires i < |ks|
    ensures TotalWeight(ks[..0]) == 0
    ensures TotalWeight(ks[..i + 1]) == TotalWeight(ks[..i]) + (if ks[i].weight > 1 then ks[i].weight else 1)
  {
    assert ks[..i + 1][..i] == ks[..i];
  }

  /** So a draw picks a key exactly if it falls into that stretch, a draw of 0 being the first key's. */
  lemma {:induction false} DrawnExactly(ks: seq<Key>, draw: real, i: nat)
    requires DistinctIds(ks) && i < |ks| && draw <= TotalWeight(ks) as real
    ensures var start := TotalWeight(ks[..i]) as real;
            Drawn(ks, draw, ks[i]) <==>
            (i == 0 || start < draw) && draw <= start + (if ks[i].weight > 1 then ks[i].weight else 1) as real
  {
    StretchIsWeight(ks, i);
  }

  /** A rotation pick turns the cursor of its own provider, address and group, and no other. */
  lemma RotationsApart(rr: Rotation, ks: seq<Key>, g: Group)
    requires ks != []
    ensures (g.provider, g.baseUrl, g.grp) != (ks[0].provider, ks[0].baseUrl, ks[0].grp) ==>
              (g in RoundRobin(rr, ks).0 <==> g in rr) && (g in rr ==> RoundRobin(rr, ks).0[g] == rr[g])
    ensures Group(ks[0].provider, ks[0].baseUrl, ks[0].grp) in RoundRobin(rr, ks).0
  {
  }

  /**
   * The smart score reads "no daily quota" as a remainder of -1: whatever was used, a key without a
   * quota ranks 10 points and ten times the share left below its twin with a quota, so at least 10
   * points below, even if the twin has overspent.
   */
  lemma {:induction false} UnlimitedRanksBelow(k: Key, active: map<string, int>, today: Date, now: int,
                                               quota: int, none: int)
    requires quota > 0 && none <= 0
    ensures var limited, unlimited := k.(dailyQuota := quota), k.(dailyQuota := none);
            && Score(limited, active, today, now) - Score(unlimited, active, today, now)
               == 10.0 + 10.0 * ShareLeft(limited, today)
            && Score(limited, active, today, now) >= Score(unlimited, active, today, now) + 10.0
  {
    ShareNonnegative(k.(dailyQuota := quota), today);
    assert -1 as real / 1 as real == -1.0;
  }
}

module LoadBalancer {
  import opened Prelude
  import opened ApiKeys
  import opened BalancerSpec

  class LoadBalancer {
    var rr: Rotation
    var active: map<string, int>
    var latencies: map<string, seq<real>>

    constructor ()
      ensures rr == map[] && active == map[] && latencies == map[]
    {
      rr, active, latencies := map[], map[], map[];
    }

    method ReportActive(id: string, delta: int)
      modifies this`active
      ensures active == BalancerSpec.ReportActive(old(active), id, delta)
    {
      active := active[id := Max(0, ActiveCount(active, id) + delta)];
    }

    method ReportLatency(id: string, latencyMs: real)
      modifies this`latencies
      ensures latencies == PushLatency(old(latencies), id, latencyMs)
    {
      var q := Samples(latencies, id) + [latencyMs];
      if |q| > 20 {
        q := q[|q| - 20..];
      }
      latencies := latencies[id := q];
    }

    method RoundRobin(ks: seq<Key>) returns (k: Key)
      requires ks != []
      modifies this`rr
      ensures (rr, k) == BalancerSpec.RoundRobin(old(rr), ks)
    {
      var g, ids := GroupOf(ks[0]), Ids(ks);
      if g !in rr || rr[g].ids != ids {
        rr := rr[g := Cursor(0, ids)];
      }
      var i := rr[g].next % |ks|;
      rr := rr[g := Cursor(i + 1, ids)];
      assert rr == old(rr)[g := Cursor(i + 1, ids)];
      return ks[i];
    }

    method Priority(ks: seq<Key>) returns (k: Key)
      requires ks != []
      modifies this`rr
      ensures (rr, k) == BalancerSpec.Priority(old(rr), ks)
    {
      PoolInKeys(ks);
      var pool := Pool(ks);
      if |pool| == 1 {
        return pool[0];
      }
      k := RoundRobin(pool);
    }

    /** `min` and `max` with a key function: the first of the least. */
    static method ArgLeast(ks: seq<Key>, cost: Key -> real) returns (k: Key)
      requires ks != []
      ensures k in ks && FirstLeast(ks, cost, k)
    {
      var best := 0;
      var i := 1;
      while i < |ks|
        invariant 0 <= best < i <= |ks|
        invariant forall j :: 0 <= j < best ==> cost(ks[j]) > cost(ks[best])
        invariant forall j :: 0 <= j < i ==> cost(ks[j]) >= cost(ks[best])
      {
        if cost(ks[i]) < cost(ks[best]) {
          best := i;
        }
        i := i + 1;
      }
      return ks[best];
    }

    method LeastConnections(ks: seq<Key>) returns (k: Key)
      requires ks != []
      ensures k in ks && FirstLeast(ks, ConnectionCost(active), k)
    {
      k := ArgLeast(ks, ConnectionCost(active));
    }

    /** A key without samples goes first; otherwise the first of the fastest on average. */
    method ResponseTime(ks: seq<Key>) returns (k: Key)
      requires ks != []
      ensures k in ks && Quickest(ks, latencies, k)
    {
      var best := 0;
      var i := 0;
      while i < |ks|
        invariant 0 <= i <= |ks| && 0 <= best < |ks| && (i > 0 ==> best < i)
        invariant forall j :: 0 <= j < i ==> Samples(latencies, ks[j].id) != []
        invariant i > 0 ==> forall j :: 0 <= j < best ==> LatencyCost(latencies)(ks[j]) > LatencyCost(latencies)(ks[best])
        invariant i > 0 ==> forall j :: 0 <= j < i ==> LatencyCost(latencies)(ks[j]) >= LatencyCost(latencies)(ks[best])
      {
        var q := Samples(latencies, ks[i].id);
        if q == [] {
          return ks[i];
        }
        if i == 0 || Average(q) < LatencyCost(latencies)(ks[best]) {
          best := i;
        }
        i := i + 1;
      }
      return ks[best];
    }

    /** The key whose stretch of the cumulative weights holds the draw. */
    method Weighted(ks: seq<Key>, draw: real) returns (k: Key)
      requires ks != []
      ensures k in ks && Drawn(ks, draw, k)
    {
      var acc := 0;
      var i := 0;
      while i < |ks|
        invariant 0 <= i <= |ks| && acc == TotalWeight(ks[..i])
        invariant i > 0 ==> acc as real < draw
      {
        assert ks[..i + 1][..i] == ks[..i];
        acc := acc + Max(1, ks[i].weight);
        if draw <= acc as real {
          WeightGrows(ks, i + 1);
          return ks[i];
        }
        i := i + 1;
      }
      assert ks[..i] == ks;
      return ks[|ks| - 1];
    }

    method Smart(ks: seq<Key>, today: Date, now: int) returns (k: Key)
      requires ks != []
      ensures k in ks && FirstLeast(ks, SmartCost(active, today, now), k)
    {
      k := ArgLeast(ks, SmartCost(active, today, now));
    }

    /** `pick`: nothing from nothing, otherwise one of the candidates, by the strategy asked for. */
    method Pick(ks: seq<Key>, strategy: Strategy, draw: real, today: Date, now: int) returns (r: Option<Key>)
      modifies this`rr
      ensures r == None <==> ks == []
      ensures r.Some? ==> r.value in ks
      ensures ks != [] && strategy == RoundRobinS ==> (rr, r.value) == BalancerSpec.RoundRobin(old(rr), ks)
      ensures ks != [] && strategy == PriorityS ==> (rr, r.value) == BalancerSpec.Priority(old(rr), ks)
      ensures ks != [] && strategy == WeightedS ==> Drawn(ks, draw, r.value)
      ensures ks != [] && strategy == ResponseTimeS ==> Quickest(ks, latencies, r.value)
      ensures ks != [] && strategy == LeastConnectionsS ==> FirstLeast(ks, ConnectionCost(active), r.value)
      ensures ks != [] && strategy == SmartS ==> FirstLeast(ks, SmartCost(active, today, now), r.value)
      ensures strategy != RoundRobinS && strategy != PriorityS ==> rr == old(rr)
    {
      if ks == [] {
        return None;
      }
      var k;
      match strategy {
        case RoundRobinS => k := RoundRobin(ks);
        case WeightedS => k := Weighted(ks, draw);
        case PriorityS => k := Priority(ks);
        case LeastConnectionsS => k := LeastConnections(ks);
        case ResponseTimeS => k := ResponseTime(ks);
        case SmartS => k := Smart(ks, today, now);
      }
      return Some(k);
    }
  }
}

/** Fairness of the rotation and exactness of the in-flight counts, over whole runs. */
module BalancerTheorems {
  import opened Prelude
  import opened ApiKeys
  import opened BalancerSpec

  /** The cursors after a series of round-robin picks, each with its own candidate list. */
  function Rotate(rr: Rotation, picks: seq<seq<Key>>): Rotation
    requires forall i :: 0 <= i < |picks| ==> picks[i] != []
  {
    if picks == [] then rr else RoundRobin(Rotate(rr, Init(picks)), Last(picks)).0
  }

  /** The ids picked on group `g`, in order; picks on other groups are interleaved freely. */
  function PickedOn(rr: Rotation, picks: seq<seq<Key>>, g: Group): seq<string>
    requires forall i :: 0 <= i < |picks| ==> picks[i] != []
  {
    if picks == [] then []
    else
      var earlier := PickedOn(rr, Init(picks), g);
      if GroupOf(Last(picks)[0]) == g
      then earlier + [RoundRobin(Rotate(rr, Init(picks)), Last(picks)).1.id]
      else earlier
  }

  /** Every pick on `g` offers the same candidates, by id and in order. */
  ghost predicate SameCandidates(picks: seq<seq<Key>>, g: Group, ids: seq<string>) {
    forall i :: 0 <= i < |picks| ==> picks[i] != [] && (GroupOf(picks[i][0]) == g ==> Ids(picks[i]) == ids)
  }

  lemma MultipleMod(q: nat, n: nat, r: nat)
    requires r < n
    ensures (q * n + r) % n == r && (q * n + r) / n == q
  {
    var m := q * n + r;
    assert m == (m / n) * n + m % n;
    assert (m / n - q) * n == r - m % n;
    ZeroMultiple(m / n - q, n);
  }

  lemma ZeroMultiple(d: int, n: nat)
    requires d * n < n && 0 < d * n + n
    ensures d == 0
  {
  }

  lemma ModStep(c: nat, n: nat)
    requires n > 0
    ensures (c + 1) % n == if c % n + 1 == n then 0 else c % n + 1
    ensures (c + 1) / n == if c % n + 1 == n then c / n + 1 else c / n
    ensures (c % n + 1) % n == (c + 1) % n
  {
    var q := c / n;
    assert c == q * n + c % n;
    if c % n + 1 == n {
      assert c + 1 == (q + 1) * n + 0;
      MultipleMod(q + 1, n, 0);
      MultipleMod(1, n, 0);
    } else {
      assert c + 1 == q * n + (c % n + 1);
      MultipleMod(q, n, c % n + 1);
      MultipleMod(0, n, c % n + 1);
    }
  }

  /** The j-th pick on a group goes to the candidate j places after its cursor's start. */
  lemma {:induction false} RotationExact(rr: Rotation, picks: seq<seq<Key>>, g: Group, ids: seq<string>)
    requires ids != [] && SameCandidates(picks, g, ids)
    ensures var c, picked := CursorFor(rr, g, ids), PickedOn(rr, picks, g);
            && (forall j :: 0 <= j < |picked| ==> picked[j] == ids[(c + j) % |ids|])
            && CursorFor(Rotate(rr, picks), g, ids) % |ids| == (c + |picked|) % |ids|
  {
    if picks != [] {
      assert SameCandidates(Init(picks), g, ids);
      RotationExact(rr, Init(picks), g, ids);
      assert Last(picks) == picks[|picks| - 1];
      var before := Rotate(rr, Init(picks));
      if GroupOf(Last(picks)[0]) == g {
        var i := CursorFor(before, g, ids) % |ids|;
        assert Ids(Last(picks))[i] == Last(picks)[i].id;
        ModStep(CursorFor(rr, g, ids) + |PickedOn(rr, Init(picks), g)|, |ids|);
      }
    }
  }

  function Count(s: seq<string>, x: string): nat {
    if s == [] then 0 else Count(Init(s), x) + (if Last(s) == x then 1 else 0)
  }

  /** How many of 0, 1, .., m - 1 leave remainder `r`. */
  function Residues(m: nat, n: nat, r: nat): nat
    requires r < n
  {
    m / n + (if r < m % n then 1 else 0)
  }

  lemma ResiduesStep(m: nat, n: nat, r: nat)
    requires r < n
    ensures Residues(m + 1, n, r) == Residues(m, n, r) + (if m % n == r then 1 else 0)
  {
    ModStep(m, n);
  }

  lemma {:induction false} CountStretch(picked: seq<string>, ids: seq<string>, c: nat, a: nat, b: nat, r: nat)
    requires ids != [] && a <= b <= |picked| && r < |ids|
    requires forall i, j :: 0 <= i < j < |ids| ==> ids[i] != ids[j]
    requires forall j :: 0 <= j < |picked| ==> picked[j] == ids[(c + j) % |ids|]
    ensures Count(picked[a..b], ids[r]) == Residues(c + b, |ids|, r) - Residues(c + a, |ids|, r)
    decreases b
  {
    if a < b {
      CountStretch(picked, ids, c, a, b - 1, r);
      assert Init(picked[a..b]) == picked[a..b - 1];
      assert Last(picked[a..b]) == picked[b - 1] == ids[(c + b - 1) % |ids|];
      ResiduesStep(c + b - 1, |ids|, r);
    }
  }

  lemma ResiduesOfTurn(m: nat, n: nat, r: nat)
    requires r < n
    ensures Residues(m + n, n, r) == Residues(m, n, r) + 1
  {
    var q := m / n;
    assert m == q * n + m % n;
    assert m + n == (q + 1) * n + m % n;
    MultipleMod(q + 1, n, m % n);
  }

  /** Between any two points the remainder classes grow by amounts at most one apart. */
  lemma ResiduesClose(x: nat, y: nat, n: nat, r: nat, s: nat)
    requires r < n && s < n
    ensures -1 <= (Residues(y, n, r) - Residues(x, n, r)) - (Residues(y, n, s) - Residues(x, n, s)) <= 1
  {
  }

  lemma FairStretch(picked: seq<string>, ids: seq<string>, c: nat, a: nat, b: nat, r: nat, s: nat)
    requires ids != [] && a <= b <= |picked| && r < |ids| && s < |ids|
    requires forall i, j :: 0 <= i < j < |ids| ==> ids[i] != ids[j]
    requires forall j :: 0 <= j < |picked| ==> picked[j] == ids[(c + j) % |ids|]
    ensures -1 <= Count(picked[a..b], ids[r]) - Count(picked[a..b], ids[s]) <= 1
    ensures b - a == |ids| ==> Count(picked[a..b], ids[r]) == 1
  {
    CountStretch(picked, ids, c, a, b, r);
    CountStretch(picked, ids, c, a, b, s);
    ResiduesClose(c + a, c + b, |ids|, r, s);
    ResiduesOfTurn(c + a, |ids|, r);
  }

  /**
   * Round-robin fairness under interleaving: over any stretch of the picks on one group no
   * candidate is ahead of another by more than one, and any n consecutive picks are a full turn.
   */
  lemma RoundRobinFair(rr: Rotation, picks: seq<seq<Key>>, g: Group, ids: seq<string>, a: nat, b: nat, r: nat, s: nat)
    requires ids != [] && SameCandidates(picks, g, ids) && r < |ids| && s < |ids|
    requires forall i, j :: 0 <= i < j < |ids| ==> ids[i] != ids[j]
    requires a <= b <= |PickedOn(rr, picks, g)|
    ensures var stretch := PickedOn(rr, picks, g)[a..b];
            && -1 <= Count(stretch, ids[r]) - Count(stretch, ids[s]) <= 1
            && (b - a == |ids| ==> Count(stretch, ids[r]) == 1)
  {
    RotationExact(rr, picks, g, ids);
    FairStretch(PickedOn(rr, picks, g), ids, CursorFor(rr, g, ids), a, b, r, s);
  }

  /** `_priority` with the same candidates, in any order, rotates over the same pool. */
  lemma PriorityInherits(rr: Rotation, ks: seq<Key>, other: seq<Key>)
    requires ks != [] && DistinctIds(ks) && DistinctIds(other) && forall x :: x in ks <==> x in other
    ensures other != [] && Priority(rr, ks) == Priority(rr, other)
    ensures |Pool(ks)| > 1 ==> Priority(rr, ks) == RoundRobin(rr, Pool(ks))
    ensures forall y :: y in ks ==> Priority(rr, ks).1.priority <= y.priority
  {
    PoolExact(ks, other);
  }

  /** The group whose cursor a priority pick among several leaders turns. */
  function PoolGroup(ks: seq<Key>): Group
    requires ks != []
  {
    PoolInKeys(ks);
    GroupOf(Pool(ks)[0])
  }

  /** The cursors after a series of priority picks, each with its own candidate list. */
  function RotateByPriority(rr: Rotation, picks: seq<seq<Key>>): Rotation
    requires forall i :: 0 <= i < |picks| ==> picks[i] != []
  {
    if picks == [] then rr else Priority(RotateByPriority(rr, Init(picks)), Last(picks)).0
  }

  /** The ids picked from pools of group `g`, in order; pools of other groups are interleaved freely. */
  function PickedByPriority(rr: Rotation, picks: seq<seq<Key>>, g: Group): seq<string>
    requires forall i :: 0 <= i < |picks| ==> picks[i] != []
  {
    if picks == [] then []
    else
      var earlier := PickedByPriority(rr, Init(picks), g);
      if PoolGroup(Last(picks)) == g
      then earlier + [Priority(RotateByPriority(rr, Init(picks)), Last(picks)).1.id]
      else earlier
  }

  /** Every pool of group `g` has the same members; the candidates below them may differ. */
  ghost predicate SamePools(picks: seq<seq<Key>>, g: Group, ids: seq<string>) {
    forall i :: 0 <= i < |picks| ==> picks[i] != [] && (PoolGroup(picks[i]) == g ==> Ids(Pool(picks[i])) == ids)
  }

  /** The pools that priority picks hand to the rotation: those with several leaders. */
  function Shared(picks: seq<seq<Key>>): (pools: seq<seq<Key>>)
    requires forall i :: 0 <= i < |picks| ==> picks[i] != []
    ensures forall i :: 0 <= i < |pools| ==> pools[i] != []
  {
    if picks == [] then []
    else
      PoolInKeys(Last(picks));
      if |Pool(Last(picks))| == 1 then Shared(Init(picks)) else Shared(Init(picks)) + [Pool(Last(picks))]
  }

  lemma SharedInit(picks: seq<seq<Key>>)
    requires picks != [] && forall i :: 0 <= i < |picks| ==> picks[i] != []
    ensures Last(picks) != [] && Pool(Last(picks)) != []
    ensures forall i :: 0 <= i < |Init(picks)| ==> Init(picks)[i] != []
    ensures |Pool(Last(picks))| != 1 ==> Shared(picks) != [] && Init(Shared(picks)) == Shared(Init(picks))
                                         && Last(Shared(picks)) == Pool(Last(picks))
    ensures |Pool(Last(picks))| == 1 ==> Shared(picks) == Shared(Init(picks))
  {
    assert Last(picks) == picks[|picks| - 1];
    PoolInKeys(Last(picks));
  }

  lemma {:induction false} SharedCandidates(picks: seq<seq<Key>>, g: Group, ids: seq<string>)
    requires SamePools(picks, g, ids)
    ensures SameCandidates(Shared(picks), g, ids)
  {
    if picks != [] {
      assert SamePools(Init(picks), g, ids);
      SharedCandidates(Init(picks), g, ids);
      SharedInit(picks);
      assert PoolGroup(picks[|picks| - 1]) == GroupOf(Pool(Last(picks))[0]);
    }
  }

  lemma {:induction false} SharedRotation(rr: Rotation, picks: seq<seq<Key>>)
    requires forall i :: 0 <= i < |picks| ==> picks[i] != []
    ensures RotateByPriority(rr, picks) == Rotate(rr, Shared(picks))
  {
    if picks != [] {
      SharedInit(picks);
      SharedRotation(rr, Init(picks));
    }
  }

  /** Priority picks are round-robin picks on their pools. */
  lemma {:induction false} PriorityRotates(rr: Rotation, picks: seq<seq<Key>>, g: Group, ids: seq<string>)
    requires |ids| > 1 && SamePools(picks, g, ids)
    ensures PickedByPriority(rr, picks, g) == PickedOn(rr, Shared(picks), g)
  {
    if picks != [] {
      assert SamePools(Init(picks), g, ids);
      SharedInit(picks);
      SharedRotation(rr, Init(picks));
      PriorityRotates(rr, Init(picks), g, ids);
      var ks := picks[|picks| - 1];
      assert ks == Last(picks) && PoolGroup(ks) == GroupOf(Pool(ks)[0]);
    }
  }

  /** A sole leader is always served. */
  lemma {:induction false} SoleLeader(rr: Rotation, picks: seq<seq<Key>>, g: Group, ids: seq<string>)
    requires |ids| == 1 && SamePools(picks, g, ids)
    ensures forall j :: 0 <= j < |PickedByPriority(rr, picks, g)| ==> PickedByPriority(rr, picks, g)[j] == ids[0]
  {
    if picks != [] {
      assert SamePools(Init(picks), g, ids);
      SoleLeader(rr, Init(picks), g, ids);
      var ks := Last(picks);
      assert ks == picks[|picks| - 1];
      PoolInKeys(ks);
      if PoolGroup(ks) == g {
        assert Ids(Pool(ks))[0] == Pool(ks)[0].id;
      }
    }
  }

  /**
   * Fairness of the priority strategy over whole runs: with pools of other groups interleaved
   * anyhow and less urgent candidates coming and going, no member of a group's pool leads another
   * by more than one over any stretch, and n consecutive picks serve each of its n members once.
   */
  lemma PriorityFair(rr: Rotation, picks: seq<seq<Key>>, g: Group, ids: seq<string>, a: nat, b: nat, r: nat, s: nat)
    requires ids != [] && SamePools(picks, g, ids) && r < |ids| && s < |ids|
    requires forall i, j :: 0 <= i < j < |ids| ==> ids[i] != ids[j]
    requires a <= b <= |PickedByPriority(rr, picks, g)|
    ensures var stretch := PickedByPriority(rr, picks, g)[a..b];
            && -1 <= Count(stretch, ids[r]) - Count(stretch, ids[s]) <= 1
            && (b - a == |ids| ==> Count(stretch, ids[r]) == 1)
  {
    if |ids| == 1 {
      SoleLeader(rr, picks, g, ids);
      FairStretch(PickedByPriority(rr, picks, g), ids, 0, a, b, r, s);
    } else {
      PriorityRotates(rr, picks, g, ids);
      SharedCandidates(picks, g, ids);
      RoundRobinFair(rr, Shared(picks), g, ids, a, b, r, s);
    }
  }

  /**
   * Where fairness ends, exactly: a failover retry offers the same group another list, which
   * rebuilds the cursor, so the next full list starts again at its first candidate. The turn goes
   * on as if nothing had happened if and only if the pick before the retry was the last of a turn.
   */
  lemma {:induction false} RetryRestartsRotation(rr: Rotation, full: seq<Key>, retry: seq<Key>)
    requires full != [] && retry != [] && GroupOf(full[0]) == GroupOf(retry[0]) && Ids(full) != Ids(retry)
    requires forall i, j :: 0 <= i < j < |full| ==> full[i].id != full[j].id
    ensures var c := CursorFor(rr, GroupOf(full[0]), Ids(full)) % |full|;
            var (turned, first) := RoundRobin(rr, full);
            var next := RoundRobin(RoundRobin(turned, retry).0, full).1;
            && first == full[c] && next == full[0]
            && (next.id == full[(c + 1) % |full|].id <==> c + 1 == |full|)
  {
    var c := CursorFor(rr, GroupOf(full[0]), Ids(full)) % |full|;
    var after := RoundRobin(RoundRobin(rr, full).0, retry).0;
    assert CursorFor(after, GroupOf(full[0]), Ids(full)) == 0;
    MultipleMod(0, |full|, 0);
    ModStep(c, |full|);
    MultipleMod(0, |full|, c);
  }

  /** Two requests, the first with one retry: the first candidate has two picks before the last has any. */
  lemma RetryLeadsByTwo(k: Key)
    ensures var a, b, c := k.(id := "a"), k.(id := "b"), k.(id := "c");
            var picked := PickedOn(map[], [[a, b, c], [b, c], [a, b, c]], GroupOf(k));
            picked == ["a", "b", "a"] && Count(picked, "a") == 2 && Count(picked, "c") == 0
  {
    var a, b, c := k.(id := "a"), k.(id := "b"), k.(id := "c");
    var full, retry := [a, b, c], [b, c];
    var p1, p2, p3 := [full], [full, retry], [full, retry, full];
    assert Init(p1) == [] && Init(p2) == p1 && Init(p3) == p2;
    assert Ids(full) == ["a", "b", "c"] && Ids(retry) == ["b", "c"];
    var r1 := RoundRobin(map[], full);
    assert r1.1 == a && Rotate(map[], p1) == r1.0;
    var r2 := RoundRobin(r1.0, retry);
    assert r2.1 == b && Rotate(map[], p2) == r2.0;
    assert RoundRobin(r2.0, full).1 == a;
    assert PickedOn(map[], p1, GroupOf(k)) == ["a"];
    assert PickedOn(map[], p2, GroupOf(k)) == ["a", "b"];
    CountThree("a", "b", "a", "a");
    CountThree("a", "b", "a", "c");
  }

  lemma CountThree(x: string, y: string, z: string, w: string)
    ensures Count([x, y, z], w) == (if x == w then 1 else 0) + (if y == w then 1 else 0) + (if z == w then 1 else 0)
  {
    assert Init([x, y, z]) == [x, y] && Init([x, y]) == [x] && Init([x]) == [];
    assert Count([x], w) == if x == w then 1 else 0;
    assert Count([x, y], w) == Count([x], w) + (if y == w then 1 else 0);
  }

  /**
   * An attempt starts after `report_active(+1)` and ends in the `finally` that reports -1, either for
   * good or handing its stream over to the client; the stream is closed some time later.
   */
  datatype Traffic = Begin(attempt: int, key: string) | End(attempt: int) | HandOver(attempt: int) | Close(attempt: int)

  /** The keys of the attempts in flight and of the streams still open. */
  datatype Load = Load(attempts: map<int, string>, streams: map<int, string>)

  const IDLE := Load(map[], map[])

  predicate Possible(t: Load, e: Traffic) {
    match e
    case Begin(a, _) => a !in t.attempts && a !in t.streams
    case End(a) => a in t.attempts
    case HandOver(a) => a in t.attempts
    case Close(a) => a in t.streams
  }

  function Flow(t: Load, e: Traffic): Load
    requires Possible(t, e)
  {
    match e
    case Begin(a, k) => t.(attempts := t.attempts[a := k])
    case End(a) => t.(attempts := t.attempts - {a})
    case HandOver(a) => Load(t.attempts - {a}, t.streams[a := t.attempts[a]])
    case Close(a) => t.(streams := t.streams - {a})
  }

  predicate Interleaving(es: seq<Traffic>)
    decreases |es|, 0
  {
    es == [] || (Interleaving(Init(es)) && Possible(FlowAll(Init(es)), Last(es)))
  }

  function FlowAll(es: seq<Traffic>): Load
    requires Interleaving(es)
    decreases |es|, 1
  {
    if es == [] then IDLE else Flow(FlowAll(Init(es)), Last(es))
  }

  /** The balancer's counters along the same run. */
  function ActiveAfter(es: seq<Traffic>): map<string, int>
    requires Interleaving(es)
  {
    if es == [] then map[]
    else match Last(es)
      case Begin(_, k) => ReportActive(ActiveAfter(Init(es)), k, 1)
      case End(a) => ReportActive(ActiveAfter(Init(es)), FlowAll(Init(es)).attempts[a], -1)
      case HandOver(a) => ReportActive(ActiveAfter(Init(es)), FlowAll(Init(es)).attempts[a], -1)
      case Close(_) => ActiveAfter(Init(es))
  }

  /** Those of `t` that are on key `k`. */
  ghost function UsesOf(t: map<int, string>, k: string): set<int> {
    set a | a in t && t[a] == k
  }

  lemma UsesAdd(t: map<int, string>, a: int, key: string, k: string)
    requires a !in t
    ensures |UsesOf(t[a := key], k)| == |UsesOf(t, k)| + (if key == k then 1 else 0)
  {
    assert UsesOf(t[a := key], k) == UsesOf(t, k) + (if key == k then {a} else {});
  }

  lemma UsesRemove(t: map<int, string>, a: int, k: string)
    requires a in t
    ensures |UsesOf(t - {a}, k)| == |UsesOf(t, k)| - (if t[a] == k then 1 else 0)
  {
    assert UsesOf(t - {a}, k) == UsesOf(t, k) - {a};
    assert t[a] == k <==> a in UsesOf(t, k);
  }

  /**
   * In-flight accounting: for every interleaving of attempts and streams each counter is exactly the
   * number of attempts of that key in flight, so the clamp at zero never swallows a decrement.
   */
  lemma {:induction false} ActiveCountsInFlight(es: seq<Traffic>, k: string)
    requires Interleaving(es)
    ensures ActiveCount(ActiveAfter(es), k) == |UsesOf(FlowAll(es).attempts, k)|
  {
    if es != [] {
      ActiveCountsInFlight(Init(es), k);
      var t := FlowAll(Init(es)).attempts;
      match Last(es)
      case Begin(a, key) => UsesAdd(t, a, key, k);
      case End(a) => UsesRemove(t, a, k);
      case HandOver(a) => UsesRemove(t, a, k);
      case Close(_) =>
    }
  }

  /** What the counter misses, exactly: it is everything open on the key if and only if no stream of it is open. */
  lemma CountIsLoadExactly(es: seq<Traffic>, k: string)
    requires Interleaving(es)
    ensures var t := FlowAll(es);
            ActiveCount(ActiveAfter(es), k) == |UsesOf(t.attempts, k)| + |UsesOf(t.streams, k)|
            <==> UsesOf(t.streams, k) == {}
  {
    ActiveCountsInFlight(es, k);
  }

  /** So `_least_connections` returns a key with the fewest attempts in flight, and idle reads zero. */
  lemma LeastConnectionsIsLeastBusy(es: seq<Traffic>, ks: seq<Key>, chosen: Key, other: Key)
    requires Interleaving(es) && FirstLeast(ks, ConnectionCost(ActiveAfter(es)), chosen) && other in ks
    ensures |UsesOf(FlowAll(es).attempts, chosen.id)| <= |UsesOf(FlowAll(es).attempts, other.id)|
    ensures FlowAll(es).attempts == map[] ==> ActiveCount(ActiveAfter(es), other.id) == 0
  {
    ActiveCountsInFlight(es, chosen.id);
    ActiveCountsInFlight(es, other.id);
    if FlowAll(es).attempts == map[] {
      assert UsesOf(FlowAll(es).attempts, other.id) == {};
    }
  }

  /** A key with a stream open is picked although the other candidate has nothing open at all. */
  lemma OpenStreamOverlooked(a: Key, b: Key, chosen: Key)
    requires a.id != b.id
    requires FirstLeast([a, b], ConnectionCost(ActiveAfter(Streamed(a.id))), chosen)
    ensures chosen == a
    ensures UsesOf(FlowAll(Streamed(a.id)).streams, a.id) == {0}
    ensures UsesOf(FlowAll(Streamed(a.id)).attempts, b.id) + UsesOf(FlowAll(Streamed(a.id)).streams, b.id) == {}
  {
    var es := Streamed(a.id);
    ActiveCountsInFlight(es, a.id);
    ActiveCountsInFlight(es, b.id);
    assert UsesOf(FlowAll(es).attempts, a.id) == {} && UsesOf(FlowAll(es).attempts, b.id) == {};
    var ks, cost := [a, b], ConnectionCost(ActiveAfter(es));
    var i :| 0 <= i < |ks| && ks[i] == chosen && forall j :: 0 <= j < i ==> cost(ks[j]) > cost(chosen);
    assert cost(ks[0]) == 0.0 && cost(ks[1]) == 0.0;
  }

  /** One request on the key, answered by a stream that is still being read. */
  function Streamed(k: string): (es: seq<Traffic>)
    ensures Interleaving(es) && FlowAll(es) == Load(map[], map[0 := k])
  {
    var begun, es := [Begin(0, k)], [Begin(0, k), HandOver(0)];
    assert Init(begun) == [] && Init(es) == begun;
    assert FlowAll(begun) == Load(map[0 := k], map[]);
    es
  }
}
