/** Admission control of services/rate_limiter.py: IP, global and key windows, adaptive TPM. */
module RateLimiterSpec {
  import opened Prelude
  import opened SlidingWindowSpec

  const WIDTH := 60.0
  const MIN_TPM := 60.0
  const MAX_TPM := 100000.0
  const AIMD_DOWN := 0.85
  const AIMD_UP := 0.02
  const WAIT_BUDGET_MS := 8000.0

  datatype Settings = Settings(rateLimitEnabled: bool, globalRpm: int, ipRpm: int, adaptiveTpm: bool)

  /** `adaptive` is the switch `AdaptiveTPM` copied when it was built. */
  datatype Limiter = Limiter(
    global: Window,
    ip: map<string, Window>,
    key: map<string, Window>,
    tpm: map<string, Window>,
    limits: map<string, real>,
    adaptive: bool)

  datatype Reason = Allowed | ByGlobal | ByIp
  datatype Verdict = Verdict(allowed: bool, retryAfter: int, reason: Reason)

  function At<T>(m: map<string, T>, k: string, default: T): T {
    if k in m then m[k] else default
  }

  function RetryAfter(limitPerMin: int): int {
    if limitPerMin <= 0 then 1 else Max(1, 60 / limitPerMin + 1)
  }

  /** The wait is the least number of whole seconds that is longer than one slot at the limit's pace. */
  lemma RetryAfterLeast(limit: int, wait: int)
    requires limit > 0
    ensures RetryAfter(limit) >= 1 && RetryAfter(limit) * limit > 60
    ensures wait * limit > 60 ==> wait >= RetryAfter(limit)
  {
    var q := 60 / limit;
    assert q * limit <= 60 < (q + 1) * limit;
    if wait <= q {
      assert wait * limit <= q * limit;
    }
  }

  /** `check`: `now` is the global window's clock reading, `later` the IP window's. */
  function Check(l: Limiter, s: Settings, ip: string, now: real, later: real): (Limiter, Verdict) {
    if !s.rateLimitEnabled then (l, Verdict(true, 0, Allowed))
    else
      var l1 := if s.globalRpm > 0 then l.(global := Add(l.global, WIDTH, 1, now)) else l;
      if s.globalRpm > 0 && l1.global.sum > s.globalRpm then
        (l1, Verdict(false, RetryAfter(s.globalRpm), ByGlobal))
      else if s.ipRpm > 0 then
        var w := Add(At(l.ip, ip, FRESH), WIDTH, 1, later);
        (l1.(ip := l.ip[ip := w]),
         if w.sum > s.ipRpm then Verdict(false, RetryAfter(s.ipRpm), ByIp) else Verdict(true, 0, Allowed))
      else (l1, Verdict(true, 0, Allowed))
  }

  function CheckKeyRpm(l: Limiter, key: string, maxRpm: int, now: real): (Limiter, bool, int) {
    if maxRpm <= 0 then (l, true, 0)
    else
      var w := Add(At(l.key, key, FRESH), WIDTH, 1, now);
      (l.(key := l.key[key := w]), w.sum <= maxRpm, if w.sum > maxRpm then RetryAfter(maxRpm) else 0)
  }

  function LimitFor(l: Limiter, key: string): real { At(l.limits, key, MAX_TPM) }

  function Down(limit: real): real {
    if limit * AIMD_DOWN < MIN_TPM then MIN_TPM else limit * AIMD_DOWN
  }

  function Up(limit: real): real {
    if limit * (1.0 + AIMD_UP) > MAX_TPM then MAX_TPM else limit * (1.0 + AIMD_UP)
  }

  function AdjustDown(l: Limiter, key: string): Limiter {
    if l.adaptive then l.(limits := l.limits[key := Down(LimitFor(l, key))]) else l
  }

  function AdjustUp(l: Limiter, key: string): Limiter {
    if l.adaptive then l.(limits := l.limits[key := Up(LimitFor(l, key))]) else l
  }

  /** The weight an admitted request is charged: its tokens scaled down by limit / 60. */
  function ChargedWeight(tokens: int, limit: real): int {
    Max(1, tokens / Max(1, (limit / 60.0).Floor))
  }

  datatype TpmVerdict = TpmVerdict(allowed: bool, waitMs: real, limit: real)

  function WaitMs(excess: real, limit: real): real
    requires limit > 0.0
  {
    var wait := excess / limit * 60000.0;
    if wait < WAIT_BUDGET_MS then wait else WAIT_BUDGET_MS
  }

  /** `check_tpm`: `now` is the clock reading of `count`, `later` that of `add`. */
  function CheckTpm(l: Limiter, s: Settings, key: string, tokens: int, now: real, later: real): (Limiter, TpmVerdict)
    requires LimitFor(l, key) > 0.0
  {
    if !s.adaptiveTpm then (l, TpmVerdict(true, 0.0, 0.0))
    else
      var limit := LimitFor(l, key);
      var w := Prune(At(l.tpm, key, FRESH), now - WIDTH);
      var excess := (w.sum + tokens) as real - limit;
      if excess > 0.0 then
        (AdjustDown(l.(tpm := l.tpm[key := w]), key), TpmVerdict(false, WaitMs(excess, limit), limit))
      else
        var w' := Add(w, WIDTH, ChargedWeight(tokens, limit), later);
        (AdjustUp(l.(tpm := l.tpm[key := w']), key), TpmVerdict(true, 0.0, limit))
  }

  lemma TpmRefused(l: Limiter, s: Settings, key: string, tokens: int, now: real, later: real, l1: Limiter)
    requires LimitFor(l, key) > 0.0 && s.adaptiveTpm
    requires l1 == l.(tpm := l.tpm[key := Prune(At(l.tpm, key, FRESH), now - WIDTH)])
    requires (l1.tpm[key].sum + tokens) as real > LimitFor(l, key)
    ensures CheckTpm(l, s, key, tokens, now, later) ==
            (AdjustDown(l1, key),
             TpmVerdict(false, WaitMs((l1.tpm[key].sum + tokens) as real - LimitFor(l, key), LimitFor(l, key)),
                        LimitFor(l, key)))
  {
  }

  lemma TpmAdmitted(l: Limiter, s: Settings, key: string, tokens: int, now: real, later: real, l1: Limiter, l2: Limiter)
    requires LimitFor(l, key) > 0.0 && s.adaptiveTpm
    requires l1 == l.(tpm := l.tpm[key := Prune(At(l.tpm, key, FRESH), now - WIDTH)])
    requires (l1.tpm[key].sum + tokens) as real <= LimitFor(l, key)
    requires l2 == l1.(tpm :=
                         l1.tpm[key := Add(At(l1.tpm, key, FRESH), WIDTH, ChargedWeight(tokens, LimitFor(l, key)), later)])
    ensures CheckTpm(l, s, key, tokens, now, later) == (AdjustUp(l2, key), TpmVerdict(true, 0.0, LimitFor(l, key)))
  {
    assert l2.tpm == l.tpm[key := l2.tpm[key]];
  }

  predicate LimitsInRange(l: Limiter) {
    forall k :: k in l.limits ==> MIN_TPM <= l.limits[k] <= MAX_TPM
  }

  lemma DownInRange(limit: real)
    requires MIN_TPM <= limit <= MAX_TPM
    ensures MIN_TPM <= Down(limit) <= limit
  {
  }

  lemma UpInRange(limit: real)
    requires MIN_TPM <= limit <= MAX_TPM
    ensures limit <= Up(limit) <= MAX_TPM
  {
  }
}

module RateLimiter {
  import opened SlidingWindowSpec
  import Spec = RateLimiterSpec
  import opened SlidingWindow

  /** `AdaptiveTPM`: a per-key limit moved multiplicatively and clamped at both ends. */
  class AdaptiveTPM {
    const enabled: bool
    var limits: map<string, real>

    constructor (enabled: bool)
      ensures this.enabled == enabled && limits == map[]
    {
      this.enabled := enabled;
      limits := map[];
    }

    function LimitFor(key: string): real
      reads this
    {
      Spec.At(limits, key, Spec.MAX_TPM)
    }

    method AdjustDown(key: string)
      modifies this
      ensures limits == if enabled then old(limits)[key := Spec.Down(old(LimitFor(key)))] else old(limits)
    {
      if !enabled {
        return;
      }
      var lowered := LimitFor(key) * Spec.AIMD_DOWN;
      limits := limits[key := if lowered < Spec.MIN_TPM then Spec.MIN_TPM else lowered];
    }

    method AdjustUp(key: string)
      modifies this
      ensures limits == if enabled then old(limits)[key := Spec.Up(old(LimitFor(key)))] else old(limits)
    {
      if !enabled {
        return;
      }
      var raised := LimitFor(key) * (1.0 + Spec.AIMD_UP);
      limits := limits[key := if raised > Spec.MAX_TPM then Spec.MAX_TPM else raised];
    }
  }

  /** A dictionary of windows, `defaultdict(SlidingWindow)`: a missing window is created on use. */
  class WindowTable {
    var windows: map<string, SlidingWindow>

    ghost predicate Valid()
      reads this, windows.Values
    {
      && (forall a, b :: a in windows && b in windows && a != b ==> windows[a] != windows[b])
      && (forall a :: a in windows ==> windows[a].windowSec == Spec.WIDTH)
    }

    ghost function Model(): map<string, Window>
      reads this, windows.Values
    {
      map k | k in windows :: windows[k].Model()
    }

    ghost function Repr(): set<object>
      reads this
    {
      {this} + windows.Values
    }

    constructor ()
      ensures Valid() && Model() == map[] && fresh(Repr())
    {
      windows := map[];
    }

    /** The window for `k`, created empty when absent. */
    method Entry(k: string) returns (w: SlidingWindow)
      requires Valid()
      modifies this
      ensures Valid() && fresh(Repr() - old(Repr()))
      ensures k in windows && windows[k] == w
      ensures Model() == old(Model())[k := Spec.At(old(Model()), k, FRESH)]
    {
      if k in windows {
        assert Model() == Model()[k := Model()[k]];
        return windows[k];
      }
      w := new SlidingWindow(Spec.WIDTH);
      windows := windows[k := w];
    }

    /** A change to one window shows in its entry alone. */
    lemma Touched(before: map<string, Window>, k: string)
      requires k in windows && before.Keys == windows.Keys
      requires forall j :: j in windows && j != k ==> windows[j].Model() == before[j]
      ensures Model() == before[k := windows[k].Model()]
    {
    }

    method Add(k: string, weight: int, now: real) returns (r: int)
      requires Valid()
      modifies Repr()
      ensures Valid() && fresh(Repr() - old(Repr()))
      ensures Model() == old(Model())[k := SlidingWindowSpec.Add(Spec.At(old(Model()), k, FRESH), Spec.WIDTH, weight, now)]
      ensures r == Model()[k].sum
    {
      var w := Entry(k);
      ghost var before := Model();
      r := w.Add(weight, now);
      Touched(before, k);
    }

    method Count(k: string, now: real) returns (r: int)
      requires Valid()
      modifies Repr()
      ensures Valid() && fresh(Repr() - old(Repr()))
      ensures Model() == old(Model())[k := Prune(Spec.At(old(Model()), k, FRESH), now - Spec.WIDTH)]
      ensures r == Model()[k].sum
    {
      var w := Entry(k);
      ghost var before := Model();
      r := w.Count(now);
      Touched(before, k);
    }
  }

  class RateLimiter {
    var settings: Spec.Settings
    const global: SlidingWindow
    const ip: WindowTable
    const key: WindowTable
    const tpm: WindowTable
    const adaptive: AdaptiveTPM

    ghost predicate Valid()
      reads this, ip, ip.windows.Values, key, key.windows.Values, tpm, tpm.windows.Values, adaptive
    {
      && ip.Valid() && key.Valid() && tpm.Valid()
      && ip.Repr() !! key.Repr() !! tpm.Repr() !! {global, adaptive, this}
      && global.windowSec == Spec.WIDTH
      && (forall k :: k in adaptive.limits ==> Spec.MIN_TPM <= adaptive.limits[k] <= Spec.MAX_TPM)
    }

    ghost function Model(): Spec.Limiter
      reads global, ip, ip.windows.Values, key, key.windows.Values, tpm, tpm.windows.Values, adaptive
    {
      Spec.Limiter(global.Model(), ip.Model(), key.Model(), tpm.Model(), adaptive.limits, adaptive.enabled)
    }

    constructor (settings: Spec.Settings)
      ensures Valid() && this.settings == settings
      ensures Model() == Spec.Limiter(FRESH, map[], map[], map[], map[], settings.adaptiveTpm)
      ensures fresh(global) && fresh(adaptive) && fresh(ip.Repr() + key.Repr() + tpm.Repr())
    {
      this.settings := settings;
      global := new SlidingWindow(Spec.WIDTH);
      adaptive := new AdaptiveTPM(settings.adaptiveTpm);
      ip := new WindowTable();
      key := new WindowTable();
      tpm := new WindowTable();
    }

    method ChargeGlobal(now: real) returns (n: int)
      requires Valid()
      modifies global
      ensures Valid()
      ensures Model() == old(Model()).(global := SlidingWindowSpec.Add(old(Model()).global, Spec.WIDTH, 1, now))
      ensures n == Model().global.sum
    {
      n := global.Add(1, now);
    }

    method ChargeIp(clientIp: string, now: real) returns (n: int)
      requires Valid()
      modifies ip.Repr()
      ensures Valid() && fresh(ip.Repr() - old(ip.Repr()))
      ensures var w := SlidingWindowSpec.Add(Spec.At(old(Model()).ip, clientIp, FRESH), Spec.WIDTH, 1, now);
              Model() == old(Model()).(ip := old(Model()).ip[clientIp := w]) && n == w.sum
    {
      n := ip.Add(clientIp, 1, now);
    }

    method Check(clientIp: string, now: real, later: real) returns (v: Spec.Verdict)
      requires Valid()
      modifies global, ip.Repr()
      ensures Valid() && fresh(ip.Repr() - old(ip.Repr()))
      ensures (Model(), v) == Spec.Check(old(Model()), settings, clientIp, now, later)
    {
      if !settings.rateLimitEnabled {
        return Spec.Verdict(true, 0, Spec.Allowed);
      }
      if settings.globalRpm > 0 {
        var n := ChargeGlobal(now);
        if n > settings.globalRpm {
          return Spec.Verdict(false, Spec.RetryAfter(settings.globalRpm), Spec.ByGlobal);
        }
      }
      if settings.ipRpm > 0 {
        var n := ChargeIp(clientIp, later);
        if n > settings.ipRpm {
          return Spec.Verdict(false, Spec.RetryAfter(settings.ipRpm), Spec.ByIp);
        }
      }
      return Spec.Verdict(true, 0, Spec.Allowed);
    }

    method CheckKeyRpm(keyId: string, maxRpm: int, now: real) returns (allowed: bool, retryAfter: int)
      requires Valid()
      modifies key.Repr()
      ensures Valid() && fresh(key.Repr() - old(key.Repr()))
      ensures (Model(), allowed, retryAfter) == Spec.CheckKeyRpm(old(Model()), keyId, maxRpm, now)
    {
      if maxRpm <= 0 {
        return true, 0;
      }
      var n := key.Add(keyId, 1, now);
      if n > maxRpm {
        return false, Spec.RetryAfter(maxRpm);
      }
      return true, 0;
    }

    method CountTpm(keyId: string, now: real) returns (used: int)
      requires Valid()
      modifies tpm.Repr()
      ensures Valid() && fresh(tpm.Repr() - old(tpm.Repr()))
      ensures var w := Prune(Spec.At(old(Model()).tpm, keyId, FRESH), now - Spec.WIDTH);
              Model() == old(Model()).(tpm := old(Model()).tpm[keyId := w]) && used == w.sum
    {
      used := tpm.Count(keyId, now);
    }

    method ChargeTpm(keyId: string, weight: int, now: real)
      requires Valid()
      modifies tpm.Repr()
      ensures Valid() && fresh(tpm.Repr() - old(tpm.Repr()))
      ensures var w := SlidingWindowSpec.Add(Spec.At(old(Model()).tpm, keyId, FRESH), Spec.WIDTH, weight, now);
              Model() == old(Model()).(tpm := old(Model()).tpm[keyId := w])
    {
      var total := tpm.Add(keyId, weight, now);
    }

    method Adjust(keyId: string, up: bool)
      requires Valid()
      modifies adaptive
      ensures Valid()
      ensures Model() == if up then Spec.AdjustUp(old(Model()), keyId) else Spec.AdjustDown(old(Model()), keyId)
    {
      Spec.DownInRange(adaptive.LimitFor(keyId));
      Spec.UpInRange(adaptive.LimitFor(keyId));
      if up {
        adaptive.AdjustUp(keyId);
      } else {
        adaptive.AdjustDown(keyId);
      }
    }

    method CheckTpm(keyId: string, tokens: int, now: real, later: real) returns (v: Spec.TpmVerdict)
      requires Valid()
      modifies tpm.Repr(), adaptive
      ensures Valid() && fresh(tpm.Repr() - old(tpm.Repr()))
      ensures (Model(), v) == Spec.CheckTpm(old(Model()), settings, keyId, tokens, now, later)
    {
      if !settings.adaptiveTpm {
        return Spec.TpmVerdict(true, 0.0, 0.0);
      }
      ghost var l0 := Model();
      var limit := adaptive.LimitFor(keyId);
      var used := CountTpm(keyId, now);
      ghost var l1 := Model();
      if (used + tokens) as real > limit {
        Adjust(keyId, false);
        Spec.TpmRefused(l0, settings, keyId, tokens, now, later, l1);
        return Spec.TpmVerdict(false, Spec.WaitMs((used + tokens) as real - limit, limit), limit);
      }
      ChargeTpm(keyId, Spec.ChargedWeight(tokens, limit), later);
      ghost var l2 := Model();
      Adjust(keyId, true);
      Spec.TpmAdmitted(l0, settings, keyId, tokens, now, later, l1, l2);
      return Spec.TpmVerdict(true, 0.0, limit);
    }
  }
}
