/**
 * The background writer as a step system: any number of producers, one writer thread and one
 * `flush_now` caller interleave at every lock, event and commit of db/database.py.
 */
module WriterProtocol {
  import opened Prelude
  import opened Tables

  /** Where the writer thread is in its loop. */
  datatype Writer =
    | Waiting               // in `wait`
    | Woken                 // `wait` returned, flag not yet cleared
    | Cleared               // flag cleared, queue not yet taken
    | Holding(batch: seq<Item>)
    | Flushed               // committed, `_flush_wait` not yet read
    | Signalling            // read `_flush_wait` as true, `_flush_done` not yet set

  datatype Caller = Outside | Raised | Awaiting | Leaving

  /** `enqueued` and `committed` are the history; the code keeps neither. */
  datatype State = State(
    pending: seq<Item>,
    wake: bool,
    flushWait: bool,
    flushDone: bool,
    unset: set<int>,        // producers between their append and their `set`
    writer: Writer,
    caller: Caller,
    db: Db,
    enqueued: seq<Item>,
    committed: seq<Item>)

  datatype Step =
    | Append(producer: int, item: Item)
    | Notify(producer: int)
    | WaitReturns
    | WaitTimesOut
    | Clear
    | Take
    | Commit
    | ReadFlag
    | Signal
    | Raise
    | WakeForFlush
    | Return(timedOut: bool)
    | ClearDone

  function Start(db: Db): State {
    State([], false, false, false, {}, Waiting, Outside, db, [], [])
  }

  predicate Enabled(s: State, step: Step) {
    match step
    case Append(p, _) => p !in s.unset
    case Notify(p) => p in s.unset
    case WaitReturns => s.writer.Waiting? && s.wake
    case WaitTimesOut => s.writer.Waiting?
    case Clear => s.writer.Woken?
    case Take => s.writer.Cleared?
    case Commit => s.writer.Holding?
    case ReadFlag => s.writer.Flushed?
    case Signal => s.writer.Signalling?
    case Raise => s.caller.Outside?
    case WakeForFlush => s.caller.Raised?
    case Return(timedOut) => s.caller.Awaiting? && (timedOut || s.flushDone)
    case ClearDone => s.caller.Leaving?
  }

  function Next(s: State, step: Step): State
    requires Enabled(s, step)
  {
    match step
    case Append(p, item) =>
      s.(pending := s.pending + [item], enqueued := s.enqueued + [item], unset := s.unset + {p})
    case Notify(p) => s.(wake := true, unset := s.unset - {p})
    case WaitReturns => s.(writer := Woken)
    case WaitTimesOut => s.(writer := Woken)
    case Clear => s.(wake := false, writer := Cleared)
    case Take => if s.pending == [] then s.(writer := Flushed) else s.(writer := Holding(s.pending), pending := [])
    case Commit =>
      s.(writer := Flushed, db := Grouped(s.db, s.writer.batch), committed := s.committed + s.writer.batch)
    case ReadFlag => s.(writer := if s.flushWait then Signalling else Waiting, flushWait := false)
    case Signal => s.(writer := Waiting, flushDone := true)
    case Raise => s.(caller := Raised, flushWait := true)
    case WakeForFlush => s.(caller := Awaiting, wake := true)
    case Return(_) => s.(caller := Leaving)
    case ClearDone => s.(caller := Outside, flushDone := false)
  }

  /** Every step of the run is enabled when it is taken. */
  predicate Legal(s: State, steps: seq<Step>)
    decreases |steps|, 0
  {
    steps == [] || (Legal(s, Init(steps)) && Enabled(After(s, Init(steps)), Last(steps)))
  }

  function After(s: State, steps: seq<Step>): State
    requires Legal(s, steps)
    decreases |steps|, 1
  {
    if steps == [] then s else Next(After(s, Init(steps)), Last(steps))
  }

  function InHand(w: Writer): seq<Item> {
    if w.Holding? then w.batch else []
  }

  ghost predicate Inv(db0: Db, s: State) {
    && s.enqueued == s.committed + InHand(s.writer) + s.pending
    && s.db == DirectAll(db0, s.committed)
    && (s.pending != [] && s.unset == {} ==> s.wake || s.writer.Cleared?)
  }

  lemma InvAppend(db0: Db, s: State, p: int, item: Item)
    requires Inv(db0, s) && Enabled(s, Append(p, item))
    ensures Inv(db0, Next(s, Append(p, item)))
  {
    assert s.enqueued + [item] == s.committed + InHand(s.writer) + (s.pending + [item]);
    assert p in s.unset + {p};
  }

  lemma {:induction false} CommitDirect(db0: Db, committed: seq<Item>, batch: seq<Item>)
    ensures Grouped(DirectAll(db0, committed), batch) == DirectAll(db0, committed + batch)
  {
    GroupedIsDirect(DirectAll(db0, committed), batch);
    DirectAllConcat(db0, committed, batch);
  }

  lemma {:induction false} InvCommit(db0: Db, s: State)
    requires Inv(db0, s) && Enabled(s, Commit)
    ensures Inv(db0, Next(s, Commit))
  {
    var done := s.committed + s.writer.batch;
    CommitDirect(db0, s.committed, s.writer.batch);
    assert done + [] == done;
  }

  lemma InvStep(db0: Db, s: State, step: Step)
    requires Inv(db0, s) && Enabled(s, step)
    ensures Inv(db0, Next(s, step))
  {
    match step
    case Append(p, item) => InvAppend(db0, s, p, item);
    case Commit => InvCommit(db0, s);
    case _ =>
  }

  lemma {:induction false} InvRun(db0: Db, s: State, steps: seq<Step>)
    requires Inv(db0, s) && Legal(s, steps)
    ensures Inv(db0, After(s, steps))
  {
    if steps != [] {
      InvRun(db0, s, Init(steps));
      InvStep(db0, After(s, Init(steps)), Last(steps));
    }
  }

  /**
   * Batch path equals direct path: in every reachable state each enqueued item is committed, in
   * hand or pending, in enqueue order and exactly once, and the tables are what the synchronous
   * methods leave for the committed items; once drained, for everything ever enqueued.
   */
  lemma {:induction false} BatchEqualsDirect(db0: Db, steps: seq<Step>)
    requires Legal(Start(db0), steps)
    ensures var s := After(Start(db0), steps);
            && s.enqueued == s.committed + InHand(s.writer) + s.pending
            && s.db == DirectAll(db0, s.committed)
            && (s.pending == [] && InHand(s.writer) == [] ==> s.db == DirectAll(db0, s.enqueued))
  {
    InvRun(db0, Start(db0), steps);
    var s := After(Start(db0), steps);
    if s.pending == [] && InHand(s.writer) == [] {
      assert s.enqueued == s.committed;
    }
  }

  /**
   * No lost wake-up: when something is pending and every producer has finished its `set`, the
   * flag is up or the writer is between `clear` and taking the queue.
   */
  lemma {:induction false} NoLostWakeUp(db0: Db, steps: seq<Step>)
    requires Legal(Start(db0), steps)
    ensures var s := After(Start(db0), steps);
            s.pending != [] && s.unset == {} ==> s.wake || s.writer == Cleared
  {
    InvRun(db0, Start(db0), steps);
  }

  predicate WriterStep(step: Step) {
    step.WaitReturns? || step.Clear? || step.Take? || step.Commit? || step.ReadFlag? || step.Signal?
  }

  /** How far the writer is from its next committed batch. */
  function Distance(s: State): nat {
    if s.pending == [] && InHand(s.writer) == [] then 0
    else match s.writer
      case Holding(_) => if s.pending == [] then 1 else 8
      case Flushed => 7
      case Signalling => 6
      case Waiting => 5
      case Woken => 4
      case Cleared => 3
  }

  /** The only step the writer thread can take now, its 250 ms timeout aside. */
  function WriterNext(s: State): Step {
    match s.writer
    case Waiting => WaitReturns
    case Woken => Clear
    case Cleared => Take
    case Holding(_) => Commit
    case Flushed => ReadFlag
    case Signalling => Signal
  }

  lemma {:induction false} AfterPrepend(s: State, step: Step, rest: seq<Step>)
    requires Enabled(s, step) && Legal(Next(s, step), rest)
    ensures Legal(s, [step] + rest) && After(s, [step] + rest) == After(Next(s, step), rest)
  {
    if rest == [] {
      assert [step] + rest == [step];
      assert Init([step]) == [];
    } else {
      AfterPrepend(s, step, Init(rest));
      assert Init([step] + rest) == [step] + Init(rest);
    }
  }

  lemma WriterAdvances(db0: Db, s: State)
    requires Inv(db0, s) && s.unset == {} && Distance(s) > 0
    ensures var step := WriterNext(s);
            && WriterStep(step) && Enabled(s, step) && Inv(db0, Next(s, step))
            && Next(s, step).unset == {} && Next(s, step).enqueued == s.enqueued
            && Distance(Next(s, step)) < Distance(s)
  {
    InvStep(db0, s, WriterNext(s));
  }

  predicate WriterAlone(steps: seq<Step>) {
    forall i :: 0 <= i < |steps| ==> WriterStep(steps[i])
  }

  lemma {:induction false} WriterCommits(db0: Db, s: State) returns (steps: seq<Step>)
    requires Inv(db0, s) && s.unset == {}
    ensures Legal(s, steps) && WriterAlone(steps) && After(s, steps).committed == s.enqueued
    decreases Distance(s)
  {
    if s.pending == [] && InHand(s.writer) == [] {
      steps := [];
      assert s.enqueued == s.committed;
    } else {
      var step := WriterNext(s);
      WriterAdvances(db0, s);
      var rest := WriterCommits(db0, Next(s, step));
      AfterPrepend(s, step, rest);
      steps := [step] + rest;
    }
  }

  /**
   * Progress: once the producers are quiet the writer thread alone, without ever needing its
   * timeout, commits everything enqueued.
   */
  lemma {:induction false} WriterDrains(db0: Db, s: State) returns (steps: seq<Step>)
    requires Inv(db0, s) && s.unset == {}
    ensures Legal(s, steps) && WriterAlone(steps)
    ensures After(s, steps).committed == s.enqueued && After(s, steps).db == DirectAll(db0, s.enqueued)
  {
    steps := WriterCommits(db0, s);
    InvRun(db0, s, steps);
  }

  /** The writer has not yet taken the queue in this pass. */
  predicate BeforeTake(w: Writer) {
    w.Waiting? || w.Woken? || w.Cleared?
  }

  /**
   * When calling `flush_now` is safe: the done event is down and either the writer has not passed
   * its take or nothing is queued behind it (or there is nothing to flush at all).
   */
  predicate SafeToFlush(s: State) {
    (s.pending == [] && InHand(s.writer) == [])
    || (!s.flushDone && (BeforeTake(s.writer) || s.pending == []))
  }

  /** Everything up to `target` is committed, or the done event cannot rise before it is. */
  ghost predicate Covered(s: State, target: nat) {
    |s.committed| >= target
    || (!s.flushDone && (BeforeTake(s.writer) || (s.writer.Holding? && |s.committed| + |s.writer.batch| >= target)))
  }

  lemma CoveredStep(db0: Db, s: State, step: Step, target: nat)
    requires Inv(db0, s) && Covered(s, target) && target <= |s.enqueued| && Enabled(s, step)
    ensures Covered(Next(s, step), target) && target <= |Next(s, step).enqueued|
  {
  }

  lemma {:induction false} CoveredRun(db0: Db, s: State, steps: seq<Step>, target: nat)
    requires Inv(db0, s) && Covered(s, target) && target <= |s.enqueued| && Legal(s, steps)
    ensures Covered(After(s, steps), target) && target <= |After(s, steps).enqueued|
  {
    if steps != [] {
      CoveredRun(db0, s, Init(steps), target);
      InvRun(db0, s, Init(steps));
      CoveredStep(db0, After(s, Init(steps)), Last(steps), target);
    }
  }

  /**
   * `flush_now`, exactly: from the moment the flag is raised, the done event implies that all
   * items enqueued before are committed, whatever happens in between, if and only if the call was
   * made in a safe state. A writer already past its take acknowledges a flush it has not done.
   */
  lemma FlushExact(db0: Db, s: State)
    requires Inv(db0, s) && Enabled(s, Raise)
    ensures SafeToFlush(s) <==>
            forall steps :: Legal(Next(s, Raise), steps) && After(Next(s, Raise), steps).flushDone
                            ==> |After(Next(s, Raise), steps).committed| >= |s.enqueued|
  {
    var r := Next(s, Raise);
    InvStep(db0, s, Raise);
    if SafeToFlush(s) {
      forall steps | Legal(r, steps) && After(r, steps).flushDone
        ensures |After(r, steps).committed| >= |s.enqueued|
      {
        CoveredRun(db0, r, steps, |s.enqueued|);
      }
    } else {
      var steps := EarlySignal(r);
      assert Legal(r, steps);
    }
  }

  /** The run that breaks the promise: commit what is in hand, read the new flag, signal. */
  lemma EarlySignal(r: State) returns (steps: seq<Step>)
    requires r.flushDone || (r.flushWait && !BeforeTake(r.writer))
    ensures Legal(r, steps) && After(r, steps).flushDone
    ensures After(r, steps).committed == r.committed + (if r.flushDone then [] else InHand(r.writer))
    decreases r.writer.Holding?
  {
    if r.flushDone {
      steps := [];
    } else if r.writer.Signalling? {
      steps := [Signal];
      AfterPrepend(r, Signal, []);
    } else if r.writer.Flushed? {
      var r1 := Next(r, ReadFlag);
      AfterPrepend(r1, Signal, []);
      AfterPrepend(r, ReadFlag, [Signal] + []);
      steps := [ReadFlag] + ([Signal] + []);
    } else {
      var r1 := Next(r, Commit);
      var rest := EarlySignal(r1);
      AfterPrepend(r, Commit, rest);
      steps := [Commit] + rest;
    }
  }

  /** One more step at the end of a run. */
  lemma Extend(s: State, steps: seq<Step>, t: State, step: Step) returns (more: seq<Step>)
    requires Legal(s, steps) && After(s, steps) == t && Enabled(t, step)
    ensures more == steps + [step] && Legal(s, more) && After(s, more) == Next(t, step)
  {
    more := steps + [step];
    assert Init(more) == steps;
  }

  /** The writer holds `a` in hand and `b` is queued behind it. */
  function Behind(db: Db, a: Item, b: Item): State {
    State([b], false, false, false, {1}, Holding([a]), Outside, db, [a, b], [])
  }

  /** An unsafe state is reached from the start by two producers and one turn of the writer. */
  lemma UnsafeReached(db: Db, a: Item, b: Item) returns (steps: seq<Step>)
    ensures Legal(Start(db), steps) && After(Start(db), steps) == Behind(db, a, b)
    ensures Enabled(Behind(db, a, b), Raise) && !SafeToFlush(Behind(db, a, b))
  {
    var s0 := Start(db);
    var s1 := Next(s0, Append(0, a));
    var s2 := Next(s1, Notify(0));
    assert s1.pending == [a] && s1.enqueued == [a] && s2.unset == {};
    var s3 := Next(s2, WaitReturns);
    var s4 := Next(s3, Clear);
    var s5 := Next(s4, Take);
    steps := Extend(s0, [], s0, Append(0, a));
    steps := Extend(s0, steps, s1, Notify(0));
    steps := Extend(s0, steps, s2, WaitReturns);
    steps := Extend(s0, steps, s3, Clear);
    steps := Extend(s0, steps, s4, Take);
    steps := Extend(s0, steps, s5, Append(1, b));
    assert s5.pending + [b] == [b] && s5.enqueued + [b] == [a, b] && s5.unset + {1} == {1};
  }

  /** From there `flush_now` returns, without any timeout, while `b` is still pending. */
  lemma FlushReturnsEarly(db: Db, a: Item, b: Item) returns (steps: seq<Step>)
    ensures Legal(Start(db), steps) && steps != [] && Last(steps) == Return(false)
    ensures var s := After(Start(db), steps);
            s.caller == Leaving && s.committed == [a] && s.pending == [b]
  {
    var start, s0 := Start(db), Behind(db, a, b);
    var s1 := Next(s0, Raise);
    var s2 := Next(s1, WakeForFlush);
    var s3 := Next(s2, Commit);
    var s4 := Next(s3, ReadFlag);
    var s5 := Next(s4, Signal);
    steps := UnsafeReached(db, a, b);
    steps := Extend(start, steps, s0, Raise);
    steps := Extend(start, steps, s1, WakeForFlush);
    steps := Extend(start, steps, s2, Commit);
    steps := Extend(start, steps, s3, ReadFlag);
    steps := Extend(start, steps, s4, Signal);
    steps := Extend(start, steps, s5, Return(false));
  }
}
