/** What a caller of the rate limiter is told, exactly, in terms of the calls before. */
module Verdicts {
  import opened Prelude
  import opened SlidingWindowSpec
  import opened RateLimiterSpec
  import opened Admission

  /** `wait` seconds at a limit a minute are longer than one slot. */
  predicate LongEnough(wait: int, limit: int) { wait * limit > 60 }

  ghost predicate LeastWait(wait: int, limit: int) {
    wait >= 1 && LongEnough(wait, limit) && forall w :: LongEnough(w, limit) ==> wait <= w
  }

  lemma RetryAfterIsLeast(limit: int)
    requires limit > 0
    ensures LeastWait(RetryAfter(limit), limit)
  {
    RetryAfterLeast(limit, 1);
    forall w | LongEnough(w, limit)
      ensures RetryAfter(limit) <= w
    {
      RetryAfterLeast(limit, w);
    }
  }

  /** The meter, if there is one, has at most its limit charged to it in the minute ending with the last call. */
  ghost predicate Within(ops: seq<Op>, adaptive: bool, m: Meter)
    requires ops != [] && Concerns(Last(ops), m)
  {
    var limit := LimitOf(Last(ops), m);
    limit > 0 ==> ChargedAfter(ops, adaptive, m, ChargeTime(Last(ops), m) - WIDTH) <= limit
  }

  ghost function VerdictOn(ops: seq<Op>, adaptive: bool): Verdict
    requires ops != [] && Last(ops).CheckOp?
  {
    var op := Last(ops);
    Check(RunAll(Init(ops), adaptive), op.s, op.ip, op.now, op.later).1
  }

  /** A passing verdict is always the same; a refusal names its meter and advises the least wait for its limit. */
  lemma VerdictForms(l: Limiter, s: Settings, ip: string, now: real, later: real)
    ensures var v := Check(l, s, ip, now, later).1;
            && (v.allowed <==> v.reason == Allowed)
            && (v.allowed ==> v.retryAfter == 0)
            && (v.reason == ByGlobal ==> s.rateLimitEnabled && s.globalRpm > 0 && LeastWait(v.retryAfter, s.globalRpm))
            && (v.reason == ByIp ==> s.rateLimitEnabled && s.ipRpm > 0 && LeastWait(v.retryAfter, s.ipRpm))
  {
    if s.globalRpm > 0 {
      RetryAfterIsLeast(s.globalRpm);
    }
    if s.ipRpm > 0 {
      RetryAfterIsLeast(s.ipRpm);
    }
  }

  /**
   * `check`, exactly: with limiting off every request passes; with it on one passes if and only if
   * its address and the gateway as a whole have at most their limits charged in the minute. The
   * global limit is refused first.
   */
  lemma {:induction false} CheckExactly(ops: seq<Op>, adaptive: bool, end: real)
    requires ops != [] && ClockedOps(ops, end) && Last(ops).CheckOp?
    ensures var op, v := Last(ops), VerdictOn(ops, adaptive);
            && (Passed(ops, adaptive) <==>
                  (op.s.rateLimitEnabled ==> Within(ops, adaptive, Global) && Within(ops, adaptive, PerIp(op.ip))))
            && (Passed(ops, adaptive) ==> v == Verdict(true, 0, Allowed))
            && (!Passed(ops, adaptive) && !Within(ops, adaptive, Global) ==>
                  !v.allowed && v.reason == ByGlobal && LeastWait(v.retryAfter, op.s.globalRpm))
            && (!Passed(ops, adaptive) && Within(ops, adaptive, Global) ==>
                  !v.allowed && v.reason == ByIp && LeastWait(v.retryAfter, op.s.ipRpm))
  {
    var op := Last(ops);
    VerdictForms(RunAll(Init(ops), adaptive), op.s, op.ip, op.now, op.later);
    GlobalExactly(ops, adaptive, end);
    if VerdictOn(ops, adaptive).reason != ByGlobal {
      LocalExactly(ops, adaptive, end);
    }
  }

  lemma {:induction false} GlobalExactly(ops: seq<Op>, adaptive: bool, end: real)
    requires ops != [] && ClockedOps(ops, end) && Last(ops).CheckOp?
    ensures VerdictOn(ops, adaptive).reason == ByGlobal <==>
            Last(ops).s.rateLimitEnabled && !Within(ops, adaptive, Global)
  {
    if Charged(ops, adaptive, Global) {
      DecisionExact(ops, adaptive, Global, end);
    }
  }

  lemma {:induction false} LocalExactly(ops: seq<Op>, adaptive: bool, end: real)
    requires ops != [] && ClockedOps(ops, end) && Last(ops).CheckOp? && VerdictOn(ops, adaptive).reason != ByGlobal
    ensures VerdictOn(ops, adaptive).reason == ByIp <==>
            Last(ops).s.rateLimitEnabled && !Within(ops, adaptive, PerIp(Last(ops).ip))
  {
    var m := PerIp(Last(ops).ip);
    if Charged(ops, adaptive, m) {
      DecisionExact(ops, adaptive, m, end);
    }
  }

  /** `check_key_rpm`, exactly: a key without a limit always passes, one with it as long as the minute has room. */
  lemma {:induction false} KeyCheckExactly(ops: seq<Op>, adaptive: bool, end: real)
    requires ops != [] && ClockedOps(ops, end) && Last(ops).KeyOp?
    ensures var op := Last(ops);
            var (_, allowed, wait) := CheckKeyRpm(RunAll(Init(ops), adaptive), op.key, op.maxRpm, op.now);
            && (Passed(ops, adaptive) <==> Within(ops, adaptive, PerKey(op.key)))
            && allowed == Passed(ops, adaptive)
            && (if allowed then wait == 0 else op.maxRpm > 0 && LeastWait(wait, op.maxRpm))
  {
    var op := Last(ops);
    if op.maxRpm > 0 {
      RetryAfterIsLeast(op.maxRpm);
      DecisionExact(ops, adaptive, PerKey(op.key), end);
    }
  }

  /** A key that was never checked has the largest limit, and so has every key while the adaptation is off. */
  lemma {:induction false} UntouchedLimit(ops: seq<Op>, adaptive: bool, key: string)
    requires !adaptive || forall i :: 0 <= i < |ops| ==> !Estimates(ops[i], key)
    ensures LimitFor(RunAll(ops, adaptive), key) == 100000.0 && (RunAll(ops, adaptive).adaptive <==> adaptive)
  {
    if ops != [] {
      assert Last(ops) == ops[|ops| - 1] && forall i :: 0 <= i < |ops| - 1 ==> Init(ops)[i] == ops[i];
      UntouchedLimit(Init(ops), adaptive, key);
      LimitKept(RunAll(Init(ops), adaptive), Last(ops), key);
    }
  }

  lemma LimitKept(l: Limiter, op: Op, key: string)
    requires LimitsInRange(l) && (!l.adaptive || !Estimates(op, key))
    ensures LimitFor(Step(l, op), key) == LimitFor(l, key) && Step(l, op).adaptive == l.adaptive
  {
  }

  lemma FloorBounds(x: real)
    ensures x.Floor as real <= x < (x.Floor + 1) as real
  {
  }

  /**
   * What an admission is charged: one unit for every `d` tokens, where `d` is the whole part of a
   * sixtieth of the limit, and never less than one.
   */
  lemma ChargeExact(tokens: int, limit: real, d: int)
    requires d >= 1 && d as real <= limit / 60.0 < (d + 1) as real
    ensures var c := ChargedWeight(tokens, limit);
            && (tokens < 2 * d ==> c == 1)
            && (tokens >= d ==> c * d <= tokens < (c + 1) * d)
  {
    FloorBounds(limit / 60.0);
    assert (limit / 60.0).Floor == d;
    var q, r := tokens / d, tokens % d;
    assert tokens == q * d + r && 0 <= r < d;
    assert (q + 1) * d == q * d + d;
    if q >= 2 {
      Times(2, q, d);
    }
    if q < 1 {
      Times(q, 0, d);
    }
  }

  lemma Times(a: int, b: int, d: int)
    requires a <= b && d >= 1
    ensures a * d <= b * d
  {
  }

  /** The last call is a token check of the key that counts. */
  predicate Estimates(op: Op, key: string) { op.TpmOp? && op.key == key && op.s.adaptiveTpm }

  /** What the admitted token checks of `key` were charged later than `cutoff`. */
  ghost function TokensAfter(ops: seq<Op>, adaptive: bool, key: string, cutoff: real): int {
    if ops == [] then 0
    else
      var op := Last(ops);
      TokensAfter(Init(ops), adaptive, key, cutoff)
      + (if Estimates(op, key) && Passed(ops, adaptive) && op.later > cutoff
         then ChargedWeight(op.tokens, LimitFor(RunAll(Init(ops), adaptive), key)) else 0)
  }

  lemma {:induction false} StepTokens(l: Limiter, op: Op, key: string)
    requires LimitsInRange(l)
    ensures var w := At(l.tpm, key, FRESH);
            At(Step(l, op).tpm, key, FRESH) ==
            if !Estimates(op, key) then w
            else
              var p := Prune(w, op.now - WIDTH);
              if CheckTpm(l, op.s, key, op.tokens, op.now, op.later).1.allowed
              then Add(p, WIDTH, ChargedWeight(op.tokens, LimitFor(l, key)), op.later) else p
  {
  }

  /** What one call adds to the recent weight of the key's token window. */
  lemma {:induction false} StepTokensKeep(l: Limiter, op: Op, key: string, cutoff: real)
    requires LimitsInRange(l) && Consistent(At(l.tpm, key, FRESH), op.now)
    requires op.now <= op.Finish() && op.Finish() - WIDTH <= cutoff
    ensures var w, w' := At(l.tpm, key, FRESH), At(Step(l, op).tpm, key, FRESH);
            && Consistent(w', op.Finish())
            && TotalAfter(w'.events, cutoff) ==
               TotalAfter(w.events, cutoff)
               + (if Estimates(op, key) && CheckTpm(l, op.s, key, op.tokens, op.now, op.later).1.allowed
                     && op.later > cutoff
                  then ChargedWeight(op.tokens, LimitFor(l, key)) else 0)
  {
    StepTokens(l, op, key);
    if Estimates(op, key) {
      var w := At(l.tpm, key, FRESH);
      PruneKeeps(w, op.now, op.now - WIDTH, cutoff);
      AddKeeps(Prune(w, op.now - WIDTH), WIDTH, ChargedWeight(op.tokens, LimitFor(l, key)), op.now, op.later, cutoff);
    }
  }

  lemma ConsistentLater(w: Window, now: real, later: real)
    requires Consistent(w, now) && now <= later
    ensures Consistent(w, later)
  {
  }

  /** However calls of all kinds interleave, each token window holds exactly its key's recent charges. */
  lemma {:induction false} TokenHistory(ops: seq<Op>, adaptive: bool, key: string, end: real, cutoff: real)
    requires ClockedOps(ops, end) && end - WIDTH <= cutoff
    ensures var w := At(RunAll(ops, adaptive).tpm, key, FRESH);
            Consistent(w, end) && TotalAfter(w.events, cutoff) == TokensAfter(ops, adaptive, key, cutoff)
  {
    if ops != [] {
      TokenHistory(Init(ops), adaptive, key, Last(ops).now, cutoff);
      StepTokensKeep(RunAll(Init(ops), adaptive), Last(ops), key, cutoff);
      ConsistentLater(At(RunAll(ops, adaptive).tpm, key, FRESH), Last(ops).Finish(), end);
    }
  }

  /** The verdict on an estimate that exceeds what is left of the limit by `excess`. */
  predicate Judged(v: TpmVerdict, s: Settings, excess: real, limit: real) {
    && (v.allowed <==> (s.adaptiveTpm ==> excess <= 0.0))
    && v.limit == (if s.adaptiveTpm then limit else 0.0)
    && (v.allowed ==> v.waitMs == 0.0)
    && (!v.allowed && excess * 60000.0 >= 8000.0 * limit ==> v.waitMs == 8000.0)
    && (!v.allowed && excess * 60000.0 < 8000.0 * limit ==> v.waitMs * limit == excess * 60000.0)
  }

  /**
   * `check_tpm`, exactly: without adaptive limiting every request passes at once; with it one passes
   * if and only if its estimate fits beside what the key was charged in the last minute, and a
   * refusal waits for the excess at the limit's pace, but no longer than 8 seconds.
   */
  lemma {:induction false} TpmExactly(ops: seq<Op>, adaptive: bool, end: real)
    requires ops != [] && ClockedOps(ops, end) && Last(ops).TpmOp?
    ensures var op := Last(ops);
            var l := RunAll(Init(ops), adaptive);
            var limit := LimitFor(l, op.key);
            var excess := (TokensAfter(Init(ops), adaptive, op.key, op.now - WIDTH) + op.tokens) as real - limit;
            var v := CheckTpm(l, op.s, op.key, op.tokens, op.now, op.later).1;
            v.allowed == Passed(ops, adaptive) && Judged(v, op.s, excess, limit)
  {
    var op, l := Last(ops), RunAll(Init(ops), adaptive);
    PassedIsAllowed(ops, adaptive);
    HeldExactly(Init(ops), adaptive, op.key, op.now);
    TpmVerdictForm(l, op.s, op.key, op.tokens, op.now, op.later,
                   TokensAfter(Init(ops), adaptive, op.key, op.now - WIDTH));
  }

  lemma {:induction false} PassedIsAllowed(ops: seq<Op>, adaptive: bool)
    requires ops != [] && Last(ops).TpmOp?
    ensures var op := Last(ops);
            Passed(ops, adaptive) ==
            CheckTpm(RunAll(Init(ops), adaptive), op.s, op.key, op.tokens, op.now, op.later).1.allowed
  {
  }

  lemma {:induction false} HeldExactly(ops: seq<Op>, adaptive: bool, key: string, now: real)
    requires ClockedOps(ops, now)
    ensures Prune(At(RunAll(ops, adaptive).tpm, key, FRESH), now - WIDTH).sum
            == TokensAfter(ops, adaptive, key, now - WIDTH)
  {
    TokenHistory(ops, adaptive, key, now, now - WIDTH);
    PruneKeeps(At(RunAll(ops, adaptive).tpm, key, FRESH), now, now - WIDTH, now - WIDTH);
  }

  lemma {:induction false} TpmVerdictForm(l: Limiter, s: Settings, key: string, tokens: int, now: real, later: real,
                                          held: int)
    requires LimitsInRange(l) && held == Prune(At(l.tpm, key, FRESH), now - WIDTH).sum
    ensures var v, limit := CheckTpm(l, s, key, tokens, now, later).1, LimitFor(l, key);
            Judged(v, s, (held + tokens) as real - limit, limit)
  {
    var limit := LimitFor(l, key);
    WaitExact((held + tokens) as real - limit, limit);
  }

  lemma WaitExact(excess: real, limit: real)
    requires limit > 0.0
    ensures excess * 60000.0 >= 8000.0 * limit ==> WaitMs(excess, limit) == 8000.0
    ensures excess * 60000.0 < 8000.0 * limit ==> WaitMs(excess, limit) * limit == excess * 60000.0
  {
    var q := excess / limit;
    assert q * limit == excess;
    if q * 60000.0 < 8000.0 {
      assert q * limit * 60000.0 < 8000.0 * limit;
    } else {
      assert q * limit * 60000.0 >= 8000.0 * limit;
    }
    assert (q * 60000.0) * limit == (q * limit) * 60000.0;
  }
}
