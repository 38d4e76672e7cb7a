/** The weighted sliding window of services/rate_limiter.py: a deque with an incremental sum. */
module SlidingWindowSpec {
  import opened Prelude

  datatype Event = Event(at: real, weight: int)
  datatype Window = Window(events: seq<Event>, sum: int)

  const FRESH := Window([], 0)

  function Prune(w: Window, cutoff: real): Window
    decreases |w.events|
  {
    if w.events != [] && w.events[0].at <= cutoff
    then Prune(Window(w.events[1..], w.sum - w.events[0].weight), cutoff)
    else w
  }

  function Add(w: Window, width: real, weight: int, now: real): Window {
    var p := Prune(w, now - width);
    Window(p.events + [Event(now, weight)], p.sum + weight)
  }

  function Total(es: seq<Event>): int {
    if es == [] then 0 else es[0].weight + Total(es[1..])
  }

  /** The weight of the events later than `cutoff`. */
  function TotalAfter(es: seq<Event>, cutoff: real): int {
    if es == [] then 0
    else (if es[0].at > cutoff then es[0].weight else 0) + TotalAfter(es[1..], cutoff)
  }

  /** In time order, and no later than `now`. */
  predicate Ordered(es: seq<Event>, now: real) {
    && (forall i, j :: 0 <= i < j < |es| ==> es[i].at <= es[j].at)
    && (forall i :: 0 <= i < |es| ==> es[i].at <= now)
  }

  predicate Consistent(w: Window, now: real) {
    Ordered(w.events, now) && w.sum == Total(w.events)
  }

  /** In time order, everything after the first late event is late too. */
  lemma {:induction false} AllLate(es: seq<Event>, now: real, cutoff: real)
    requires Ordered(es, now) && (es != [] ==> es[0].at > cutoff)
    ensures TotalAfter(es, cutoff) == Total(es)
  {
    if es != [] {
      AllLate(es[1..], now, cutoff);
    }
  }

  /** Pruning leaves exactly the weight later than the cutoff, and no later cutoff sees the change. */
  lemma {:induction false} PruneKeeps(w: Window, now: real, cutoff: real, later: real)
    requires Consistent(w, now) && cutoff <= later
    ensures Consistent(Prune(w, cutoff), now)
    ensures Prune(w, cutoff).sum == TotalAfter(w.events, cutoff)
    ensures TotalAfter(Prune(w, cutoff).events, later) == TotalAfter(w.events, later)
    decreases |w.events|
  {
    if w.events != [] && w.events[0].at <= cutoff {
      PruneKeeps(Window(w.events[1..], w.sum - w.events[0].weight), now, cutoff, later);
    } else {
      AllLate(w.events, now, cutoff);
    }
  }

  lemma {:induction false} TotalAppend(es: seq<Event>, e: Event, cutoff: real)
    ensures Total(es + [e]) == Total(es) + e.weight
    ensures TotalAfter(es + [e], cutoff) == TotalAfter(es, cutoff) + (if e.at > cutoff then e.weight else 0)
  {
    if es == [] {
      assert es + [e] == [e];
    } else {
      assert (es + [e])[1..] == es[1..] + [e];
      TotalAppend(es[1..], e, cutoff);
    }
  }

  lemma AddKeeps(w: Window, width: real, weight: int, last: real, now: real, later: real)
    requires Consistent(w, last) && last <= now && now - width <= later
    ensures Consistent(Add(w, width, weight, now), now)
    ensures TotalAfter(Add(w, width, weight, now).events, later)
            == TotalAfter(w.events, later) + (if now > later then weight else 0)
    ensures Add(w, width, weight, now).sum == TotalAfter(w.events, now - width) + weight
  {
    PruneKeeps(w, last, now - width, later);
    TotalAppend(Prune(w, now - width).events, Event(now, weight), later);
  }

  /** A use of one window, with its clock reading. */
  datatype Use = Added(weight: int, at: real) | Counted(at: real)

  function Run(uses: seq<Use>, width: real): Window {
    if uses == [] then FRESH
    else match Last(uses)
      case Added(weight, at) => Add(Run(Init(uses), width), width, weight, at)
      case Counted(at) => Prune(Run(Init(uses), width), at - width)
  }

  /** The weight of everything ever added later than `cutoff`: no pruning, no incremental sum. */
  function AddedAfter(uses: seq<Use>, cutoff: real): int {
    if uses == [] then 0
    else AddedAfter(Init(uses), cutoff)
         + (if Last(uses).Added? && Last(uses).at > cutoff then Last(uses).weight else 0)
  }

  predicate Clocked(uses: seq<Use>, now: real) {
    uses == [] || (Last(uses).at <= now && Clocked(Init(uses), Last(uses).at))
  }

  lemma {:induction false} RunKeeps(uses: seq<Use>, width: real, now: real, cutoff: real)
    requires Clocked(uses, now) && now - width <= cutoff
    ensures Consistent(Run(uses, width), now)
    ensures TotalAfter(Run(uses, width).events, cutoff) == AddedAfter(uses, cutoff)
  {
    if uses != [] {
      var t := Last(uses).at;
      RunKeeps(Init(uses), width, t, cutoff);
      match Last(uses)
      case Added(weight, at) => AddKeeps(Run(Init(uses), width), width, weight, t, at, cutoff);
      case Counted(at) => PruneKeeps(Run(Init(uses), width), t, at - width, cutoff);
    }
  }

  /**
   * The incremental sum refines history: after any mix of weighted adds and counts under a
   * nondecreasing clock, `count` and `add` return the weight of everything ever added in the
   * last `width` seconds.
   */
  lemma {:induction false} SumRefinesHistory(uses: seq<Use>, width: real, now: real, weight: int)
    requires width > 0.0 && Clocked(uses, now)
    ensures Consistent(Run(uses, width), now)
    ensures Prune(Run(uses, width), now - width).sum == AddedAfter(uses, now - width)
    ensures Add(Run(uses, width), width, weight, now).sum == AddedAfter(uses + [Added(weight, now)], now - width)
  {
    RunKeeps(uses, width, now, now - width);
    PruneKeeps(Run(uses, width), now, now - width, now - width);
    assert Init(uses + [Added(weight, now)]) == uses;
  }
}

module SlidingWindow {
  import opened SlidingWindowSpec

  class SlidingWindow {
    const windowSec: real
    var events: seq<Event>
    var sum: int

    function Model(): Window
      reads this
    {
      Window(events, sum)
    }

    constructor (windowSec: real)
      ensures Model() == FRESH && this.windowSec == windowSec
    {
      this.windowSec := windowSec;
      events, sum := [], 0;
    }

    method Add(weight: int, now: real) returns (r: int)
      modifies this
      ensures Model() == SlidingWindowSpec.Add(old(Model()), windowSec, weight, now)
      ensures r == Model().sum
    {
      Prune(now);
      events := events + [Event(now, weight)];
      sum := sum + weight;
      return sum;
    }

    method Count(now: real) returns (r: int)
      modifies this
      ensures Model() == SlidingWindowSpec.Prune(old(Model()), now - windowSec)
      ensures r == Model().sum
    {
      Prune(now);
      return sum;
    }

    method Prune(now: real)
      modifies this
      ensures Model() == SlidingWindowSpec.Prune(old(Model()), now - windowSec)
    {
      var cutoff := now - windowSec;
      while events != [] && events[0].at <= cutoff
        invariant SlidingWindowSpec.Prune(Model(), cutoff) == SlidingWindowSpec.Prune(old(Model()), cutoff)
        decreases |events|
      {
        sum := sum - events[0].weight;
        events := events[1..];
      }
    }
  }
}
