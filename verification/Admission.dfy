/** Whole-run properties of the rate limiter: admission bounds and the adaptive controller. */
module Admission {
  import opened Prelude
  import opened SlidingWindowSpec
  import opened RateLimiterSpec

  datatype Op =
    | CheckOp(s: Settings, ip: string, now: real, later: real)
    | KeyOp(key: string, maxRpm: int, now: real)
    | TpmOp(s: Settings, key: string, tokens: int, now: real, later: real)
  {
    function Finish(): real { if KeyOp? then now else later }
  }

  function Initial(adaptive: bool): Limiter {
    Limiter(FRESH, map[], map[], map[], map[], adaptive)
  }

  function Step(l: Limiter, op: Op): (l': Limiter)
    requires LimitsInRange(l)
    ensures LimitsInRange(l')
  {
    match op
    case CheckOp(s, ip, now, later) => Check(l, s, ip, now, later).0
    case KeyOp(key, maxRpm, now) => CheckKeyRpm(l, key, maxRpm, now).0
    case TpmOp(s, key, tokens, now, later) =>
      DownInRange(LimitFor(l, key));
      UpInRange(LimitFor(l, key));
      CheckTpm(l, s, key, tokens, now, later).0
  }

  /** Any mix of calls on a new limiter; every limit stays in [60, 100000]. */
  function RunAll(ops: seq<Op>, adaptive: bool): (l: Limiter)
    ensures LimitsInRange(l)
  {
    if ops == [] then Initial(adaptive) else Step(RunAll(Init(ops), adaptive), Last(ops))
  }

  /** The clock never runs backwards through the calls' readings, which end by `end`. */
  predicate ClockedOps(ops: seq<Op>, end: real) {
    ops == [] || (Last(ops).now <= Last(ops).Finish() <= end && ClockedOps(Init(ops), Last(ops).now))
  }

  /** What is being bounded: all requests, one client address, or one upstream key. */
  datatype Meter = Global | PerIp(address: string) | PerKey(id: string)

  predicate Concerns(op: Op, m: Meter) {
    match m
    case Global => op.CheckOp?
    case PerIp(a) => op.CheckOp? && op.ip == a
    case PerKey(k) => op.KeyOp? && op.key == k
  }

  function LimitOf(op: Op, m: Meter): int
    requires Concerns(op, m)
  {
    match m
    case Global => op.s.globalRpm
    case PerIp(_) => op.s.ipRpm
    case PerKey(_) => op.maxRpm
  }

  /** The clock reading at which a call is charged to a meter. */
  function ChargeTime(op: Op, m: Meter): real {
    if m.PerIp? then op.Finish() else op.now
  }

  /** The last call was let through. */
  ghost predicate Passed(ops: seq<Op>, adaptive: bool)
    requires ops != []
  {
    var l := RunAll(Init(ops), adaptive);
    match Last(ops)
    case CheckOp(s, ip, now, later) => Check(l, s, ip, now, later).1.allowed
    case KeyOp(key, maxRpm, now) => CheckKeyRpm(l, key, maxRpm, now).1
    case TpmOp(s, key, tokens, now, later) => CheckTpm(l, s, key, tokens, now, later).1.allowed
  }

  /** The last call was charged to meter `m`, admitted or not; addresses only after the global check. */
  ghost predicate Charged(ops: seq<Op>, adaptive: bool, m: Meter)
    requires ops != []
  {
    var op := Last(ops);
    Concerns(op, m) && LimitOf(op, m) > 0
    && (op.CheckOp? ==> op.s.rateLimitEnabled)
    && (m.PerIp? ==> Check(RunAll(Init(ops), adaptive), op.s, op.ip, op.now, op.later).1.reason != ByGlobal)
  }

  /** How many calls were charged to `m` later than `cutoff`. */
  ghost function ChargedAfter(ops: seq<Op>, adaptive: bool, m: Meter, cutoff: real): nat {
    if ops == [] then 0
    else ChargedAfter(Init(ops), adaptive, m, cutoff)
         + (if Charged(ops, adaptive, m) && ChargeTime(Last(ops), m) > cutoff then 1 else 0)
  }

  function WindowOf(l: Limiter, m: Meter): Window {
    match m
    case Global => l.global
    case PerIp(a) => At(l.ip, a, FRESH)
    case PerKey(k) => At(l.key, k, FRESH)
  }

  lemma {:induction false} StepWindow(ops: seq<Op>, adaptive: bool, m: Meter)
    requires ops != []
    ensures WindowOf(RunAll(ops, adaptive), m) ==
            if Charged(ops, adaptive, m)
            then Add(WindowOf(RunAll(Init(ops), adaptive), m), WIDTH, 1, ChargeTime(Last(ops), m))
            else WindowOf(RunAll(Init(ops), adaptive), m)
  {
  }

  /** Each window holds its meter's recent charges, however calls of all kinds interleave. */
  lemma {:induction false} WindowHistory(ops: seq<Op>, adaptive: bool, m: Meter, end: real, cutoff: real)
    requires ClockedOps(ops, end) && end - WIDTH <= cutoff
    ensures Consistent(WindowOf(RunAll(ops, adaptive), m), end)
    ensures TotalAfter(WindowOf(RunAll(ops, adaptive), m).events, cutoff) == ChargedAfter(ops, adaptive, m, cutoff)
  {
    if ops != [] {
      var op := Last(ops);
      WindowHistory(Init(ops), adaptive, m, op.now, cutoff);
      StepWindow(ops, adaptive, m);
      if Charged(ops, adaptive, m) {
        AddKeeps(WindowOf(RunAll(Init(ops), adaptive), m), WIDTH, 1, op.now, ChargeTime(op, m), cutoff);
      }
    }
  }

  /** The last call was not refused by meter `m`. */
  ghost predicate PassedMeter(ops: seq<Op>, adaptive: bool, m: Meter)
    requires ops != [] && Concerns(Last(ops), m)
  {
    var op, l := Last(ops), RunAll(Init(ops), adaptive);
    match m
    case Global => Check(l, op.s, op.ip, op.now, op.later).1.reason != ByGlobal
    case PerIp(_) => Check(l, op.s, op.ip, op.now, op.later).1.reason != ByIp
    case PerKey(_) => CheckKeyRpm(l, op.key, op.maxRpm, op.now).1
  }

  lemma {:induction false} ChargedNow(ops: seq<Op>, adaptive: bool, m: Meter, cutoff: real)
    requires ops != [] && Charged(ops, adaptive, m) && ChargeTime(Last(ops), m) > cutoff
    ensures ChargedAfter(ops, adaptive, m, cutoff) == ChargedAfter(Init(ops), adaptive, m, cutoff) + 1
  {
  }

  lemma {:induction false} ChargedSum(ops: seq<Op>, adaptive: bool, m: Meter, end: real)
    requires ops != [] && ClockedOps(ops, end) && Charged(ops, adaptive, m)
    ensures WindowOf(RunAll(ops, adaptive), m).sum
            == ChargedAfter(ops, adaptive, m, ChargeTime(Last(ops), m) - WIDTH)
  {
    var t, last := ChargeTime(Last(ops), m), Last(ops).now;
    var w := WindowOf(RunAll(Init(ops), adaptive), m);
    WindowHistory(Init(ops), adaptive, m, last, t - WIDTH);
    AddKeeps(w, WIDTH, 1, last, t, t - WIDTH);
    StepWindow(ops, adaptive, m);
    ChargedNow(ops, adaptive, m, t - WIDTH);
  }

  /**
   * Each decision, exactly: a call charged to a meter passes that meter if and only if at most
   * `limit` calls, refused ones included, were charged to it in the 60 seconds ending with it.
   */
  lemma DecisionExact(ops: seq<Op>, adaptive: bool, m: Meter, end: real)
    requires ops != [] && ClockedOps(ops, end) && Charged(ops, adaptive, m)
    ensures PassedMeter(ops, adaptive, m) <==>
            ChargedAfter(ops, adaptive, m, ChargeTime(Last(ops), m) - WIDTH) <= LimitOf(Last(ops), m)
  {
    ChargedSum(ops, adaptive, m, end);
  }

  /** A half-open stretch of 60 seconds, closed at one end. */
  datatype Span = Span(lo: real, closedLeft: bool) {
    predicate Has(t: real) {
      if closedLeft then lo <= t < lo + WIDTH else lo < t <= lo + WIDTH
    }
  }

  /** How many calls concerning `m` were let through in the span. */
  ghost function AdmittedIn(ops: seq<Op>, adaptive: bool, m: Meter, span: Span): nat {
    if ops == [] then 0
    else AdmittedIn(Init(ops), adaptive, m, span)
         + (if Concerns(Last(ops), m) && Passed(ops, adaptive) && span.Has(ChargeTime(Last(ops), m)) then 1 else 0)
  }

  /** Limiting is on and every limit offered for `m` is positive and at most `bound`. */
  predicate Governed(ops: seq<Op>, m: Meter, bound: int) {
    forall i :: 0 <= i < |ops| && Concerns(ops[i], m) ==>
      (ops[i].CheckOp? ==> ops[i].s.rateLimitEnabled) && 0 < LimitOf(ops[i], m) <= bound
  }

  lemma GovernedInit(ops: seq<Op>, m: Meter, bound: int)
    requires ops != [] && Governed(ops, m, bound)
    ensures Governed(Init(ops), m, bound)
    ensures Concerns(Last(ops), m) ==>
              (Last(ops).CheckOp? ==> Last(ops).s.rateLimitEnabled) && 0 < LimitOf(Last(ops), m) <= bound
  {
  }

  /** A call that passed was charged. */
  lemma PassedIsCharged(ops: seq<Op>, adaptive: bool, m: Meter, bound: int)
    requires ops != [] && Governed(ops, m, bound) && Concerns(Last(ops), m) && Passed(ops, adaptive)
    ensures Charged(ops, adaptive, m)
  {
    GovernedInit(ops, m, bound);
  }

  lemma {:induction false} AdmittedAreCharged(ops: seq<Op>, adaptive: bool, m: Meter, bound: int, span: Span, cutoff: real)
    requires Governed(ops, m, bound)
    requires forall t :: span.Has(t) ==> t > cutoff
    ensures AdmittedIn(ops, adaptive, m, span) <= ChargedAfter(ops, adaptive, m, cutoff)
  {
    if ops != [] {
      GovernedInit(ops, m, bound);
      AdmittedAreCharged(Init(ops), adaptive, m, bound, span, cutoff);
      if Concerns(Last(ops), m) && Passed(ops, adaptive) {
        PassedIsCharged(ops, adaptive, m, bound);
      }
    }
  }

  /**
   * The admission bound over whole runs: whatever calls are made, in whatever interleaving, every
   * half-open 60-second span admits at most `bound` calls per meter.
   */
  lemma {:induction false} AdmissionBound(ops: seq<Op>, adaptive: bool, m: Meter, bound: int, end: real, span: Span)
    requires ClockedOps(ops, end) && Governed(ops, m, bound) && bound >= 0
    ensures AdmittedIn(ops, adaptive, m, span) <= bound
  {
    if ops != [] {
      var op := Last(ops);
      GovernedInit(ops, m, bound);
      var t := ChargeTime(op, m);
      if Concerns(op, m) && Passed(ops, adaptive) && span.Has(t) {
        PassedIsCharged(ops, adaptive, m, bound);
        DecisionExact(ops, adaptive, m, end);
        AdmittedAreCharged(ops, adaptive, m, bound, span, t - WIDTH);
      } else {
        AdmissionBound(Init(ops), adaptive, m, bound, op.now, span);
      }
    }
  }

  /**
   * Refused calls count against their sender: once `limit` calls, admitted or not, were charged to a
   * meter in the minute before a call, that call is refused too.
   */
  lemma HammeringIsRefused(ops: seq<Op>, adaptive: bool, m: Meter, end: real)
    requires ops != [] && ClockedOps(ops, end) && Charged(ops, adaptive, m)
    requires ChargedAfter(Init(ops), adaptive, m, ChargeTime(Last(ops), m) - WIDTH) >= LimitOf(Last(ops), m)
    ensures !Passed(ops, adaptive)
  {
    DecisionExact(ops, adaptive, m, end);
  }

  /** The last call, if charged to `m`, finds at least its limit charged to it in the minute before. */
  ghost predicate Filled(ops: seq<Op>, adaptive: bool, m: Meter)
    requires ops != []
  {
    Charged(ops, adaptive, m) ==>
      ChargedAfter(Init(ops), adaptive, m, ChargeTime(Last(ops), m) - WIDTH) >= LimitOf(Last(ops), m)
  }

  /** The last call, if charged to `m`, is refused by it. */
  ghost predicate Refused(ops: seq<Op>, adaptive: bool, m: Meter)
    requires ops != []
  {
    Charged(ops, adaptive, m) ==> !PassedMeter(ops, adaptive, m)
  }

  ghost predicate FilledAt(ops: seq<Op>, adaptive: bool, m: Meter, i: nat)
    requires i < |ops|
  {
    Filled(ops[..i + 1], adaptive, m)
  }

  ghost predicate RefusedAt(ops: seq<Op>, adaptive: bool, m: Meter, i: nat)
    requires i < |ops|
  {
    Refused(ops[..i + 1], adaptive, m)
  }

  lemma {:induction false} ClockedPrefix(ops: seq<Op>, end: real, n: nat)
    requires ClockedOps(ops, end) && n <= |ops|
    ensures n < |ops| ==> ClockedOps(ops[..n], ops[n].now)
    ensures n == |ops| ==> ops[..n] == ops
  {
    if n < |ops| - 1 {
      ClockedPrefix(Init(ops), Last(ops).now, n);
      assert Init(ops)[..n] == ops[..n];
    } else if n < |ops| {
      assert ops[..n] == Init(ops);
    }
  }

  lemma {:induction false} RefusedExactly(ops: seq<Op>, adaptive: bool, m: Meter, end: real)
    requires ops != [] && ClockedOps(ops, end)
    ensures Refused(ops, adaptive, m) <==> Filled(ops, adaptive, m)
  {
    if Charged(ops, adaptive, m) {
      DecisionExact(ops, adaptive, m, end);
      ChargedNow(ops, adaptive, m, ChargeTime(Last(ops), m) - WIDTH);
    }
  }

  /**
   * A client that keeps asking stays out, exactly: no call from `n` on gets through if and only if
   * each finds its limit filled, be it by refused calls alone.
   */
  lemma {:induction false} ShutOutExactly(ops: seq<Op>, adaptive: bool, m: Meter, end: real, n: nat)
    requires ClockedOps(ops, end)
    ensures (forall i :: n <= i < |ops| ==> RefusedAt(ops, adaptive, m, i))
            <==> forall i :: n <= i < |ops| ==> FilledAt(ops, adaptive, m, i)
  {
    forall i | n <= i < |ops|
      ensures RefusedAt(ops, adaptive, m, i) <==> FilledAt(ops, adaptive, m, i)
    {
      ClockedPrefix(ops, end, i + 1);
      RefusedExactly(ops[..i + 1], adaptive, m, if i + 1 < |ops| then ops[i + 1].now else end);
    }
  }

  /** The `n`-th multiple of `d`. */
  function Tick(d: real, n: nat): real { if n == 0 then 0.0 else Tick(d, n - 1) + d }

  /** A client that asks `n` times, every `d` seconds. */
  function Steady(s: Settings, ip: string, d: real, n: nat): (ops: seq<Op>)
    ensures |ops| == n
  {
    if n == 0 then [] else Steady(s, ip, d, n - 1) + [CheckOp(s, ip, Tick(d, n - 1), Tick(d, n - 1))]
  }

  lemma {:induction false} TickAdds(d: real, m: nat, n: nat)
    ensures Tick(d, m + n) == Tick(d, m) + Tick(d, n)
    ensures d >= 0.0 ==> Tick(d, n) >= 0.0
    ensures Tick(d, n) == n as real * d
  {
    if n > 0 {
      TickAdds(d, m, n - 1);
      assert n as real * d == (n - 1) as real * d + d;
    }
  }

  lemma {:induction false} SteadyClocked(s: Settings, ip: string, d: real, n: nat)
    requires d >= 0.0
    ensures ClockedOps(Steady(s, ip, d, n), Tick(d, n))
  {
    if n > 0 {
      SteadyClocked(s, ip, d, n - 1);
      assert Init(Steady(s, ip, d, n)) == Steady(s, ip, d, n - 1);
    }
  }

  /** How many of the first `n` ticks are past the cutoff. */
  function TicksAfter(d: real, n: nat, cutoff: real): nat {
    if n == 0 then 0 else TicksAfter(d, n - 1, cutoff) + (if Tick(d, n - 1) > cutoff then 1 else 0)
  }

  lemma {:induction false} SteadyCharges(s: Settings, ip: string, d: real, n: nat, adaptive: bool, cutoff: real)
    requires s.rateLimitEnabled && s.globalRpm > 0
    ensures n > 0 ==> Charged(Steady(s, ip, d, n), adaptive, Global)
    ensures ChargedAfter(Steady(s, ip, d, n), adaptive, Global, cutoff) == TicksAfter(d, n, cutoff)
  {
    if n > 0 {
      SteadyCharges(s, ip, d, n - 1, adaptive, cutoff);
      assert Init(Steady(s, ip, d, n)) == Steady(s, ip, d, n - 1);
    }
  }

  lemma {:induction false} TicksAtLeast(d: real, n: nat, cutoff: real, j: nat)
    requires d >= 0.0 && j <= n && Tick(d, j) > cutoff
    ensures TicksAfter(d, n, cutoff) >= n - j
  {
    if j < n {
      TicksAtLeast(d, n - 1, cutoff, j);
      TickAdds(d, j, n - 1 - j);
    }
  }

  lemma {:induction false} TicksAtMost(d: real, n: nat, cutoff: real, j: nat)
    requires d >= 0.0 && j <= n && (j > 0 ==> Tick(d, j - 1) <= cutoff)
    ensures TicksAfter(d, n, cutoff) <= n - j
  {
    if n > 0 {
      TicksAtMost(d, n - 1, cutoff, Min(j, n - 1));
    }
  }

  lemma {:induction false} SteadyDecision(s: Settings, ip: string, d: real, n: nat, adaptive: bool)
    requires d >= 0.0 && s.rateLimitEnabled && s.globalRpm > 0
    ensures PassedMeter(Steady(s, ip, d, n + 1), adaptive, Global) <==>
            TicksAfter(d, n + 1, Tick(d, n) - WIDTH) <= s.globalRpm
  {
    var ops := Steady(s, ip, d, n + 1);
    SteadyClocked(s, ip, d, n + 1);
    SteadyCharges(s, ip, d, n + 1, adaptive, Tick(d, n) - WIDTH);
    SteadyLast(s, ip, d, n);
    DecisionExact(ops, adaptive, Global, Tick(d, n + 1));
  }

  lemma SteadyLast(s: Settings, ip: string, d: real, n: nat)
    ensures Steady(s, ip, d, n + 1) != [] && Last(Steady(s, ip, d, n + 1)) == CheckOp(s, ip, Tick(d, n), Tick(d, n))
  {
  }

  /**
   * What a steady client gets, exactly: one that asks every `d` seconds passes a limit of L a minute
   * with its first L calls, and with its later ones if and only if L of its steps take a minute. At
   * any faster pace it is shut out for good, however little it was let through.
   */
  lemma {:induction false} SteadyClient(s: Settings, ip: string, d: real, n: nat, adaptive: bool)
    requires d >= 0.0 && s.rateLimitEnabled && s.globalRpm > 0
    ensures PassedMeter(Steady(s, ip, d, n + 1), adaptive, Global) <==>
            n < s.globalRpm || s.globalRpm as real * d >= 60.0
  {
    SteadyDecision(s, ip, d, n, adaptive);
    LateTicks(d, n, s.globalRpm);
  }

  lemma {:induction false} LateTicks(d: real, n: nat, limit: nat)
    requires d >= 0.0
    ensures TicksAfter(d, n + 1, Tick(d, n) - WIDTH) <= limit <==> n < limit || limit as real * d >= WIDTH
  {
    var cutoff := Tick(d, n) - WIDTH;
    if n < limit {
      TicksAtMost(d, n + 1, cutoff, 0);
    } else {
      TickAdds(d, n - limit, limit);
      if Tick(d, limit) >= WIDTH {
        TicksAtMost(d, n + 1, cutoff, n - limit + 1);
      } else {
        TicksAtLeast(d, n + 1, cutoff, n - limit);
      }
    }
  }

  /** With one call a minute allowed, calls at 0, 50 and 100 seconds: only the first passes. */
  lemma {:induction false} ShutOutAfterAMinute(s: Settings, ip: string, adaptive: bool)
    requires s.rateLimitEnabled && s.globalRpm == 1
    ensures PassedMeter(Steady(s, ip, 50.0, 1), adaptive, Global)
    ensures !PassedMeter(Steady(s, ip, 50.0, 2), adaptive, Global)
    ensures !PassedMeter(Steady(s, ip, 50.0, 3), adaptive, Global) && Last(Steady(s, ip, 50.0, 3)).now == 100.0
  {
    SteadyClient(s, ip, 50.0, 0, adaptive);
    SteadyClient(s, ip, 50.0, 1, adaptive);
    SteadyClient(s, ip, 50.0, 2, adaptive);
  }
}

module AdaptiveTpmBounds {
  import opened Prelude
  import opened SlidingWindowSpec
  import opened RateLimiterSpec
  import opened Admission

  function Downs(limit: real, n: nat): real { if n == 0 then limit else Down(Downs(limit, n - 1)) }
  function Ups(limit: real, n: nat): real { if n == 0 then limit else Up(Ups(limit, n - 1)) }
  function Pow(x: real, n: nat): real { if n == 0 then 1.0 else x * Pow(x, n - 1) }

  lemma {:induction false} PowAdd(x: real, a: nat, b: nat)
    ensures Pow(x, a + b) == Pow(x, a) * Pow(x, b)
  {
    if a > 0 {
      PowAdd(x, a - 1, b);
      assert Pow(x, a) * Pow(x, b) == x * (Pow(x, a - 1) * Pow(x, b));
    }
  }

  lemma {:induction false} PowPositive(x: real, n: nat)
    requires x > 0.0
    ensures Pow(x, n) > 0.0
  {
    if n > 0 {
      PowPositive(x, n - 1);
    }
  }

  lemma MulMonotone(a: real, b: real, c: real)
    requires a <= b && c >= 0.0
    ensures a * c <= b * c
  {
  }

  lemma MulBounds(p: real, q: real, hp: real, hq: real)
    requires 0.0 <= p <= hp && 0.0 <= q <= hq
    ensures p * q <= hp * hq
  {
    MulMonotone(p, hp, q);
    MulMonotone(q, hq, hp);
    assert hp * q == q * hp && hp * hq == hq * hp;
  }

  lemma ProductBelow(x: real, a: nat, b: nat, ha: real, hb: real)
    requires x > 0.0 && Pow(x, a) <= ha && Pow(x, b) <= hb
    ensures Pow(x, a + b) <= ha * hb
  {
    PowAdd(x, a, b);
    PowPositive(x, a);
    PowPositive(x, b);
    var p, q := Pow(x, a), Pow(x, b);
    MulBounds(p, q, ha, hb);
  }

  lemma ProductAbove(x: real, a: nat, b: nat, la: real, lb: real)
    requires x > 0.0 && la >= 0.0 && lb >= 0.0 && Pow(x, a) >= la && Pow(x, b) >= lb
    ensures Pow(x, a + b) >= la * lb
  {
    PowAdd(x, a, b);
    var p, q := Pow(x, a), Pow(x, b);
    MulBounds(la, lb, p, q);
  }

  /** Doubling an exponent squares a bound. */
  lemma SquareBelow(x: real, n: nat, hi: real)
    requires x > 0.0 && Pow(x, n) <= hi
    ensures Pow(x, 2 * n) <= hi * hi
  {
    ProductBelow(x, n, n, hi, hi);
  }

  lemma SquareAbove(x: real, n: nat, lo: real)
    requires x > 0.0 && lo >= 0.0 && Pow(x, n) >= lo
    ensures Pow(x, 2 * n) >= lo * lo
  {
    ProductAbove(x, n, n, lo, lo);
  }

  /** 0.85 ^ 46 < 0.0006 < 0.85 ^ 45. */
  lemma DownPowers(n: nat, m: nat)
    requires n == 46 && m == 45
    ensures Pow(AIMD_DOWN, n) <= 0.0006 < Pow(AIMD_DOWN, m)
  {
    FirstPowers(AIMD_DOWN);
    DownPowerBelow(AIMD_DOWN, n);
    DownPowerAbove(AIMD_DOWN, m);
  }

  lemma FirstPowers(x: real)
    ensures Pow(x, 1) == x && Pow(x, 2) == x * x && Pow(x, 4) == x * x * (x * x)
  {
    PowAdd(x, 1, 1);
    PowAdd(x, 2, 2);
  }

  lemma DownPowerBelow(x: real, n: nat)
    requires x > 0.0 && Pow(x, 2) == 0.7225 && Pow(x, 4) == 0.52200625 && n == 46
    ensures Pow(x, n) <= 0.0006
  {
    SquareBelow(x, 4, 0.522007);
    SquareBelow(x, 8, 0.272492);
    SquareBelow(x, 16, 0.0742520);
    ProductBelow(x, 8, 4, 0.272492, 0.522007);
    ProductBelow(x, 12, 2, 0.142243, 0.7225);
    ProductBelow(x, 32, 14, 0.00551336, 0.102771);
  }

  lemma DownPowerAbove(x: real, n: nat)
    requires x > 0.0 && Pow(x, 1) == 0.85 && Pow(x, 4) == 0.52200625 && n == 45
    ensures Pow(x, n) > 0.0006
  {
    SquareAbove(x, 4, 0.522006);
    SquareAbove(x, 8, 0.272490);
    SquareAbove(x, 16, 0.0742508);
    ProductAbove(x, 8, 4, 0.272490, 0.522006);
    ProductAbove(x, 12, 1, 0.142241, 0.85);
    ProductAbove(x, 32, 13, 0.00551318, 0.120904);
  }

  /** 1.02 ^ 374 < 100000 / 60 < 1.02 ^ 375. */
  lemma UpPowers(n: nat, m: nat)
    requires n == 374 && m == 375
    ensures Pow(1.0 + AIMD_UP, n) < 1650.0
    ensures Pow(1.0 + AIMD_UP, m) > 1675.0
  {
    FirstPowers(1.0 + AIMD_UP);
    UpPowerBelow(1.0 + AIMD_UP, n);
    UpPowerAbove(1.0 + AIMD_UP, m);
  }

  lemma UpPowerBelow(x: real, n: nat)
    requires x > 0.0 && Pow(x, 2) == 1.0404 && Pow(x, 4) == 1.08243216 && n == 374
    ensures Pow(x, n) < 1650.0
  {
    UpSquaresBelow(x);
    ProductBelow(x, 256, 64, 159.093, 3.5515);
    ProductBelow(x, 320, 32, 565.02, 1.884542);
    ProductBelow(x, 352, 16, 1064.81, 1.372786);
    ProductBelow(x, 368, 4, 1461.76, 1.0824322);
    ProductBelow(x, 372, 2, 1582.26, 1.0404);
  }

  lemma UpSquaresBelow(x: real)
    requires x > 0.0 && Pow(x, 4) == 1.08243216
    ensures Pow(x, 16) <= 1.372786 && Pow(x, 32) <= 1.884542 && Pow(x, 64) <= 3.5515 && Pow(x, 256) <= 159.093
  {
    SquareBelow(x, 4, 1.0824322);
    SquareBelow(x, 8, 1.1716595);
    SquareBelow(x, 16, 1.372786);
    SquareBelow(x, 32, 1.884542);
    SquareBelow(x, 64, 3.5515);
    SquareBelow(x, 128, 12.6132);
  }

  lemma UpPowerAbove(x: real, n: nat)
    requires x > 0.0 && Pow(x, 1) == 1.02 && Pow(x, 2) == 1.0404 && Pow(x, 4) == 1.08243216 && n == 375
    ensures Pow(x, n) > 1675.0
  {
    UpSquaresAbove(x);
    ProductAbove(x, 256, 64, 159.085, 3.55147);
    ProductAbove(x, 320, 32, 564.98, 1.884535);
    ProductAbove(x, 352, 16, 1064.72, 1.372784);
    ProductAbove(x, 368, 4, 1461.63, 1.082432);
    ProductAbove(x, 372, 2, 1582.11, 1.0404);
    ProductAbove(x, 374, 1, 1646.02, 1.02);
  }

  lemma UpSquaresAbove(x: real)
    requires x > 0.0 && Pow(x, 4) == 1.08243216
    ensures Pow(x, 16) >= 1.372784 && Pow(x, 32) >= 1.884535 && Pow(x, 64) >= 3.55147 && Pow(x, 256) >= 159.085
  {
    SquareAbove(x, 4, 1.082432);
    SquareAbove(x, 8, 1.171659);
    SquareAbove(x, 16, 1.372784);
    SquareAbove(x, 32, 1.884535);
    SquareAbove(x, 64, 3.55147);
    SquareAbove(x, 128, 12.6129);
  }

  lemma {:induction false} DownsAsPower(limit: real, n: nat)
    requires MIN_TPM <= limit <= MAX_TPM
    ensures MIN_TPM <= Downs(limit, n) <= MAX_TPM
    ensures Downs(limit, n) >= limit * Pow(AIMD_DOWN, n)
    ensures Downs(limit, n) == MIN_TPM || Downs(limit, n) == limit * Pow(AIMD_DOWN, n)
  {
    if n > 0 {
      DownsAsPower(limit, n - 1);
      DownInRange(Downs(limit, n - 1));
      assert limit * Pow(AIMD_DOWN, n) == limit * Pow(AIMD_DOWN, n - 1) * AIMD_DOWN;
    }
  }

  lemma {:induction false} UpsAsPower(limit: real, n: nat)
    requires MIN_TPM <= limit <= MAX_TPM
    ensures MIN_TPM <= Ups(limit, n) <= MAX_TPM
    ensures Ups(limit, n) <= limit * Pow(1.0 + AIMD_UP, n)
    ensures Ups(limit, n) == MAX_TPM || Ups(limit, n) == limit * Pow(1.0 + AIMD_UP, n)
  {
    if n > 0 {
      UpsAsPower(limit, n - 1);
      UpInRange(Ups(limit, n - 1));
      assert limit * Pow(1.0 + AIMD_UP, n) == limit * Pow(1.0 + AIMD_UP, n - 1) * (1.0 + AIMD_UP);
    }
  }

  /** 46 consecutive refusals bring any limit to the floor, where it stays. */
  lemma {:induction false} FloorAfter46(limit: real, n: nat)
    requires MIN_TPM <= limit <= MAX_TPM && n >= 46
    ensures Downs(limit, n) == MIN_TPM
  {
    if n > 46 {
      FloorAfter46(limit, n - 1);
    } else {
      DownPowers(n, 45);
      DownsAsPower(limit, n);
      PowPositive(AIMD_DOWN, n);
      MulMonotone(limit, MAX_TPM, Pow(AIMD_DOWN, n));
      assert limit * Pow(AIMD_DOWN, n) <= 100000.0 * Pow(AIMD_DOWN, n) <= 60.0;
    }
  }

  /** From the ceiling, no fewer will do. */
  lemma {:induction false} FloorNeeds46(n: nat)
    requires n < 46
    ensures Downs(MAX_TPM, n) > MIN_TPM
    decreases 46 - n
  {
    DownsAsPower(MAX_TPM, n);
    if n < 45 {
      FloorNeeds46(n + 1);
      DownInRange(Downs(MAX_TPM, n));
    } else {
      DownPowers(46, n);
    }
  }

  /** 375 consecutive admissions bring any limit to the ceiling, where it stays. */
  lemma {:induction false} CeilingAfter375(limit: real, n: nat)
    requires MIN_TPM <= limit <= MAX_TPM && n >= 375
    ensures Ups(limit, n) == MAX_TPM
  {
    if n > 375 {
      CeilingAfter375(limit, n - 1);
    } else {
      UpPowers(374, n);
      UpsAsPower(limit, n);
      PowPositive(1.0 + AIMD_UP, n);
      MulMonotone(MIN_TPM, limit, Pow(1.0 + AIMD_UP, n));
    }
  }

  /** From the floor, no fewer will do. */
  lemma {:induction false} CeilingNeeds375(n: nat)
    requires n < 375
    ensures Ups(MIN_TPM, n) < MAX_TPM
    decreases 375 - n
  {
    UpsAsPower(MIN_TPM, n);
    if n < 374 {
      CeilingNeeds375(n + 1);
      UpInRange(Ups(MIN_TPM, n));
    } else {
      UpPowers(n, 375);
    }
  }

  /** A token window: positive weights, an exact sum, never above the largest limit. */
  predicate TokenWindow(w: Window) {
    && (forall i :: 0 <= i < |w.events| ==> w.events[i].weight >= 1)
    && w.sum == Total(w.events)
    && w.sum as real <= MAX_TPM
  }

  lemma {:induction false} TotalNonnegative(es: seq<Event>)
    requires forall i :: 0 <= i < |es| ==> es[i].weight >= 1
    ensures Total(es) >= 0
  {
    if es != [] {
      TotalNonnegative(es[1..]);
    }
  }

  lemma {:induction false} PruneTokens(w: Window, cutoff: real)
    requires TokenWindow(w)
    ensures TokenWindow(Prune(w, cutoff)) && 0 <= Prune(w, cutoff).sum <= w.sum
    decreases |w.events|
  {
    if w.events != [] && w.events[0].at <= cutoff {
      PruneTokens(Window(w.events[1..], w.sum - w.events[0].weight), cutoff);
    } else {
      TotalNonnegative(w.events);
    }
  }

  lemma ChargeAtMostTokens(tokens: int, limit: real)
    requires tokens >= 1
    ensures 1 <= ChargedWeight(tokens, limit) <= tokens
  {
    QuotientAtMost(tokens, Max(1, (limit / 60.0).Floor));
  }

  lemma IntMulMonotone(a: int, b: int, c: int)
    requires a <= b && c >= 0
    ensures a * c <= b * c
  {
  }

  lemma QuotientAtMost(n: int, d: int)
    requires n >= 0 && d >= 1
    ensures 0 <= n / d <= n
  {
    var q, r := n / d, n % d;
    assert n == q * d + r && 0 <= r < d;
    if q < 0 {
      IntMulMonotone(q, -1, d);
      assert false;
    }
    IntMulMonotone(1, d, q);
    assert q * d == d * q;
  }

  lemma AddTokens(w: Window, tokens: int, limit: real, later: real)
    requires TokenWindow(w) && tokens >= 1 && limit <= MAX_TPM
    requires (w.sum + tokens) as real <= limit
    ensures TokenWindow(Add(w, WIDTH, ChargedWeight(tokens, limit), later))
    ensures Add(w, WIDTH, ChargedWeight(tokens, limit), later).sum as real <= limit
  {
    PruneTokens(w, later - WIDTH);
    ChargeAtMostTokens(tokens, limit);
    var p := Prune(w, later - WIDTH);
    TotalAppend(p.events, Event(later, ChargedWeight(tokens, limit)), later);
  }

  /** One `check_tpm`: an admission keeps the window within the limit used, a refusal waits at most 8 s. */
  lemma {:induction false} TpmDecision(l: Limiter, s: Settings, key: string, tokens: int, now: real, later: real)
    requires LimitsInRange(l) && tokens >= 1 && s.adaptiveTpm && TokenWindow(At(l.tpm, key, FRESH))
    ensures var (l', v) := CheckTpm(l, s, key, tokens, now, later);
            && TokenWindow(l'.tpm[key])
            && MIN_TPM <= v.limit <= MAX_TPM
            && (v.allowed ==> v.waitMs == 0.0 && l'.tpm[key].sum as real <= v.limit)
            && (!v.allowed ==> 0.0 < v.waitMs <= WAIT_BUDGET_MS)
            && (v.allowed <==> (Prune(At(l.tpm, key, FRESH), now - WIDTH).sum + tokens) as real <= v.limit)
  {
    var limit := LimitFor(l, key);
    var w := Prune(At(l.tpm, key, FRESH), now - WIDTH);
    PruneTokens(At(l.tpm, key, FRESH), now - WIDTH);
    var excess := (w.sum + tokens) as real - limit;
    if excess <= 0.0 {
      AddTokens(w, tokens, limit, later);
    } else {
      QuotientPositive(excess, limit);
    }
  }

  lemma QuotientPositive(a: real, b: real)
    requires a > 0.0 && b > 0.0
    ensures a / b > 0.0
  {
  }

  /** The gateway never estimates fewer than one token. */
  predicate PositiveEstimates(ops: seq<Op>) {
    forall i :: 0 <= i < |ops| && ops[i].TpmOp? ==> ops[i].tokens >= 1
  }

  /**
   * Over whole runs, whatever the clock does: every token window stays within 100000, whichever
   * way the limits move and however calls for different keys interleave.
   */
  lemma {:induction false} TokenWindowsBounded(ops: seq<Op>, adaptive: bool, key: string)
    requires PositiveEstimates(ops)
    ensures TokenWindow(At(RunAll(ops, adaptive).tpm, key, FRESH))
  {
    if ops != [] {
      var op, l := Last(ops), RunAll(Init(ops), adaptive);
      assert PositiveEstimates(Init(ops));
      TokenWindowsBounded(Init(ops), adaptive, key);
      if op.TpmOp? && op.s.adaptiveTpm && op.key == key {
        assert op == ops[|ops| - 1];
        TpmDecision(l, op.s, key, op.tokens, op.now, op.later);
      }
    }
  }

  lemma QuotientNonpositive(n: int, d: int)
    requires n <= 0 && d >= 1
    ensures n / d <= 0
  {
    var q, r := n / d, n % d;
    assert n == q * d + r && 0 <= r < d;
    if q >= 1 {
      IntMulMonotone(1, q, d);
      assert false;
    }
  }

  lemma LeastCharge(tokens: int, limit: real)
    requires tokens <= 0
    ensures ChargedWeight(tokens, limit) == 1
  {
    QuotientNonpositive(tokens, Max(1, (limit / 60.0).Floor));
  }

  /**
   * When an admission keeps the window within the limit it was tested against, exactly: the
   * estimate is at least 1, or what the window still holds leaves room for the least charge.
   */
  lemma {:induction false} AdmittedFitsExactly(l: Limiter, s: Settings, key: string, tokens: int, now: real, later: real)
    requires LimitsInRange(l) && s.adaptiveTpm && TokenWindow(At(l.tpm, key, FRESH))
    ensures var (l', v) := CheckTpm(l, s, key, tokens, now, later);
            var held := Prune(Prune(At(l.tpm, key, FRESH), now - WIDTH), later - WIDTH).sum;
            v.allowed ==> (l'.tpm[key].sum as real <= v.limit <==> tokens >= 1 || (held + 1) as real <= v.limit)
  {
    if tokens >= 1 {
      TpmDecision(l, s, key, tokens, now, later);
    } else {
      LeastCharge(tokens, LimitFor(l, key));
    }
  }

  /** A token check that counts for `key`. */
  predicate Checks(op: Op, key: string) { op.TpmOp? && op.key == key && op.s.adaptiveTpm }

  /** The last call, a token check, was let through. */
  ghost predicate Admitted(ops: seq<Op>)
    requires ops != [] && Last(ops).TpmOp?
  {
    var op := Last(ops);
    CheckTpm(RunAll(Init(ops), true), op.s, op.key, op.tokens, op.now, op.later).1.allowed
  }

  /** After `head`, every check of `key` in `tail` had the verdict `allowed`; other calls interleave freely. */
  ghost predicate Consecutive(head: seq<Op>, tail: seq<Op>, key: string, allowed: bool) {
    tail == [] || (Consecutive(head, Init(tail), key, allowed)
                   && (Checks(Last(tail), key) ==> Admitted(head + tail) == allowed))
  }

  function ChecksOf(ops: seq<Op>, key: string): nat {
    if ops == [] then 0 else ChecksOf(Init(ops), key) + (if Checks(Last(ops), key) then 1 else 0)
  }

  function Moved(limit: real, n: nat, up: bool): real { if up then Ups(limit, n) else Downs(limit, n) }

  /** One call moves the limit of the key it checks, up or down by its verdict, and no other. */
  lemma LimitStep(l: Limiter, op: Op, key: string)
    requires LimitsInRange(l) && l.adaptive
    ensures Step(l, op).adaptive
    ensures LimitFor(Step(l, op), key) ==
            if !Checks(op, key) then LimitFor(l, key)
            else if CheckTpm(l, op.s, key, op.tokens, op.now, op.later).1.allowed then Up(LimitFor(l, key))
            else Down(LimitFor(l, key))
  {
  }

  lemma {:induction false} StaysAdaptive(ops: seq<Op>)
    ensures RunAll(ops, true).adaptive
  {
    if ops != [] {
      StaysAdaptive(Init(ops));
      LimitStep(RunAll(Init(ops), true), Last(ops), "");
    }
  }

  /** n consecutive refusals (admissions) of a key move its limit down (up) n times. */
  lemma {:induction false} ConsecutiveMoves(head: seq<Op>, tail: seq<Op>, key: string, allowed: bool)
    requires Consecutive(head, tail, key, allowed)
    ensures LimitFor(RunAll(head + tail, true), key)
            == Moved(LimitFor(RunAll(head, true), key), ChecksOf(tail, key), allowed)
  {
    if tail == [] {
      assert head + tail == head;
    } else {
      var ops := head + tail;
      assert Init(ops) == head + Init(tail) && Last(ops) == Last(tail);
      ConsecutiveMoves(head, Init(tail), key, allowed);
      StaysAdaptive(Init(ops));
      LimitStep(RunAll(Init(ops), true), Last(ops), key);
    }
  }

  /** In any run, 46 consecutive refusals of a key put its limit at 60, and 375 consecutive admissions at 100000. */
  lemma ConsecutiveEnds(head: seq<Op>, tail: seq<Op>, key: string, allowed: bool)
    requires Consecutive(head, tail, key, allowed) && ChecksOf(tail, key) >= (if allowed then 375 else 46)
    ensures LimitFor(RunAll(head + tail, true), key) == if allowed then 100000.0 else 60.0
  {
    ConsecutiveMoves(head, tail, key, allowed);
    var limit := LimitFor(RunAll(head, true), key);
    if allowed {
      CeilingAfter375(limit, ChecksOf(tail, key));
    } else {
      FloorAfter46(limit, ChecksOf(tail, key));
    }
  }

  const ON := Settings(true, 0, 0, true)

  function TooMuch(n: nat): seq<Op> { seq(n, i => TpmOp(ON, "k", 200000, 0.0, 0.0)) }

  lemma {:induction false} AllTooMuch(n: nat)
    ensures Consecutive([], TooMuch(n), "k", false) && ChecksOf(TooMuch(n), "k") == n
    ensures At(RunAll(TooMuch(n), true).tpm, "k", FRESH) == FRESH
  {
    if n > 0 {
      AllTooMuch(n - 1);
      assert Init(TooMuch(n)) == TooMuch(n - 1) && Last(TooMuch(n)) == TpmOp(ON, "k", 200000, 0.0, 0.0);
      assert [] + TooMuch(n) == TooMuch(n);
    }
  }

  /** The state of key "k": its limit and its token window. */
  ghost predicate Stands(l: Limiter, limit: real, w: Window) {
    LimitsInRange(l) && l.adaptive && LimitFor(l, "k") == limit && At(l.tpm, "k", FRESH) == w
  }

  const SIXTY := Window([Event(0.0, 60)], 60)

  lemma FillSixty(l: Limiter)
    requires Stands(l, 60.0, FRESH)
    ensures Stands(Step(l, TpmOp(ON, "k", 60, 0.0, 0.0)), 61.2, SIXTY)
  {
    assert ChargedWeight(60, 60.0) == 60;
  }

  lemma RefuseHundred(l: Limiter)
    requires Stands(l, 61.2, SIXTY)
    ensures Stands(Step(l, TpmOp(ON, "k", 100, 0.0, 0.0)), 60.0, SIXTY)
  {
    assert Prune(SIXTY, 0.0 - WIDTH) == SIXTY;
  }

  lemma AdmitZero(l: Limiter)
    requires Stands(l, 60.0, SIXTY)
    ensures CheckTpm(l, ON, "k", 0, 0.0, 0.0).1.allowed
    ensures Step(l, TpmOp(ON, "k", 0, 0.0, 0.0)).tpm["k"].sum == 61
  {
    assert Prune(SIXTY, 0.0 - WIDTH) == SIXTY;
    LeastCharge(0, 60.0);
  }

  lemma {:induction false} RunSnoc(ops: seq<Op>, op: Op)
    ensures RunAll(ops + [op], true) == Step(RunAll(ops, true), op)
  {
    assert Init(ops + [op]) == ops;
  }

  /** 46 oversized requests drive the limit to the floor and leave the window empty. */
  lemma {:induction false} FloorReached() returns (ops: seq<Op>)
    ensures Stands(RunAll(ops, true), 60.0, FRESH)
  {
    ops := TooMuch(46);
    AllTooMuch(46);
    assert [] + ops == ops;
    ConsecutiveEnds([], ops, "k", false);
    StaysAdaptive(ops);
  }

  /** Then 60 tokens fill it, and a refusal takes the limit back to the floor. */
  lemma {:induction false} FullAtFloor() returns (ops: seq<Op>)
    ensures Stands(RunAll(ops, true), 60.0, SIXTY)
  {
    ops := FloorReached();
    FillSixty(RunAll(ops, true));
    RunSnoc(ops, TpmOp(ON, "k", 60, 0.0, 0.0));
    ops := ops + [TpmOp(ON, "k", 60, 0.0, 0.0)];
    RefuseHundred(RunAll(ops, true));
    RunSnoc(ops, TpmOp(ON, "k", 100, 0.0, 0.0));
    ops := ops + [TpmOp(ON, "k", 100, 0.0, 0.0)];
  }

  /**
   * A run in which an estimate of 0 does what no estimate of 1 or more can: with the limit driven
   * down to 60 and 60 tokens in the window, it is admitted and charged to 61.
   */
  lemma {:induction false} ZeroEstimateOverflows() returns (ops: seq<Op>)
    ensures ops != [] && Last(ops) == TpmOp(ON, "k", 0, 0.0, 0.0) && Admitted(ops)
    ensures LimitFor(RunAll(Init(ops), true), "k") == 60.0 && RunAll(ops, true).tpm["k"].sum == 61
  {
    var before := FullAtFloor();
    AdmitZero(RunAll(before, true));
    ops := before + [TpmOp(ON, "k", 0, 0.0, 0.0)];
    assert Init(ops) == before;
  }
}
