/** Whole-run properties of the key lifecycle. */
module KeyTheorems {
  import opened Prelude
  import opened ApiKeys
  import opened KeyLifecycle

  /** A call on the manager; `List` is `list_active`, which may recover keys as it goes. */
  datatype Op =
    | KeyOp(id: string, event: Event)
    | List(provider: string, excludeCooldown: bool, now: int)
    | Add(key: Key)
    | Remove(id: string)

  /**
   * The manager's keys, and the deleted records that a request or a test in flight may still hold.
   * By-id calls see the keys only; a usage record or the end of a test works on the record it
   * holds, and puts it back.
   */
  datatype World = World(keys: Keys, gone: Keys)

  predicate ByRecord(e: Event) { e.Recorded? || e.Tested? }

  function Step(w: World, op: Op): World {
    match op
    case KeyOp(id, e) =>
      if Find(w.keys, id).Some? then World(Apply(w.keys, id, e), w.gone)
      else if ByRecord(e) && Find(w.gone, id).Some? then
        World(Store(w.keys, On(Find(w.gone, id).value, e)), Drop(w.gone, id))
      else w
    case List(provider, exclude, now) => World(ListActive(w.keys, provider, exclude, now).0, w.gone)
    case Add(k) =>
      if Find(w.keys, k.id).Some? || Find(w.gone, k.id).Some? then w else World(w.keys + [NewKey(k)], w.gone)
    case Remove(id) =>
      match Find(w.keys, id)
      case Some(k) => World(Drop(w.keys, id), w.gone + [k])
      case None => w
  }

  function Run(w: World, ops: seq<Op>): World {
    if ops == [] then w else Step(Run(w, Init(ops)), Last(ops))
  }

  /** What the rest of the gateway relies on: an ACTIVE key never cools and is below the threshold. */
  predicate Sound(k: Key) {
    k.status == Active ==> k.cooldownUntil == None && k.failureCount < MAX_FAILURES
  }

  predicate AllSound(ks: Keys) {
    && DistinctIds(ks)
    && forall i :: 0 <= i < |ks| ==> Sound(ks[i])
  }

  /** Every id names one record, cached or not. */
  ghost predicate Separate(w: World) {
    && DistinctIds(w.keys) && DistinctIds(w.gone)
    && forall a, b :: a in w.keys && b in w.gone ==> a.id != b.id
  }

  ghost predicate WorldSound(w: World) {
    Separate(w) && (forall k :: k in w.keys ==> Sound(k)) && (forall k :: k in w.gone ==> Sound(k))
  }

  lemma RecoveredSound(ks: Keys, now: int)
    requires AllSound(ks)
    ensures AllSound(Recovered(ks, now))
  {
    var after := Recovered(ks, now);
    forall i | 0 <= i < |after|
      ensures Sound(after[i])
    {
      assert Sound(ks[i]);
    }
  }

  /** What a step leaves: each record is one that was there before, perhaps changed by the step, or is new. */
  lemma StepMembers(w: World, op: Op)
    requires Separate(w)
    ensures var w' := Step(w, op);
            && Separate(w')
            && (forall k :: k in w'.keys + w'.gone ==>
                  (op.Add? && k == NewKey(op.key)) || Changed(w, op, k))
  {
    match op
    case KeyOp(id, e) =>
      FindMember(w.keys, id);
      FindMember(w.gone, id);
      if Find(w.keys, id).Some? {
        ApplyMembers(w, id, e);
      } else if ByRecord(e) && Find(w.gone, id).Some? {
        RestoreMembers(w, id, e);
      } else {
        Unchanged(w, op);
      }
    case List(_, _, now) => ListMembers(w, op);
    case Add(k) =>
      FindMember(w.keys, k.id);
      FindMember(w.gone, k.id);
      Unchanged(w, op);
    case Remove(id) =>
      FindMember(w.keys, id);
      DropMembers(w.keys, id);
      Unchanged(w, op);
  }

  /** `k` is a record of `w`, as it is or as the step's event or listing leaves it. */
  ghost predicate Changed(w: World, op: Op, k: Key) {
    exists x :: x in w.keys + w.gone && x.id == k.id && (k == x || k == Evolve(x, op))
  }

  lemma Unchanged(w: World, op: Op)
    ensures forall k :: k in w.keys || k in w.gone ==> Changed(w, op, k)
  {
    assert forall k :: k in w.keys || k in w.gone ==> k in w.keys + w.gone;
  }

  lemma ApplyMembers(w: World, id: string, e: Event)
    requires Separate(w)
    ensures Separate(World(Apply(w.keys, id, e), w.gone))
    ensures forall k :: k in Apply(w.keys, id, e) || k in w.gone ==> Changed(w, KeyOp(id, e), k)
  {
    var after := Apply(w.keys, id, e);
    Unchanged(w, KeyOp(id, e));
    forall k | k in after
      ensures Changed(w, KeyOp(id, e), k) && forall b :: b in w.gone ==> k.id != b.id
    {
      var i :| 0 <= i < |after| && after[i] == k;
      assert w.keys[i] in w.keys + w.gone && w.keys[i] in w.keys;
      assert k == w.keys[i] || k == Evolve(w.keys[i], KeyOp(id, e));
    }
  }

  lemma ListMembers(w: World, op: Op)
    requires Separate(w) && op.List?
    ensures Separate(Step(w, op))
    ensures forall k :: k in Step(w, op).keys || k in w.gone ==> Changed(w, op, k)
  {
    var after := Recovered(w.keys, op.now);
    Unchanged(w, op);
    forall k | k in after
      ensures Changed(w, op, k) && forall b :: b in w.gone ==> k.id != b.id
    {
      var i :| 0 <= i < |after| && after[i] == k;
      assert w.keys[i] in w.keys + w.gone && w.keys[i] in w.keys;
      assert k == Evolve(w.keys[i], op);
    }
  }

  lemma RestoreSeparate(w: World, id: string, k: Key)
    requires Separate(w) && Find(w.keys, id).None? && k.id == id
    ensures Store(w.keys, k) == w.keys + [k]
    ensures Separate(World(w.keys + [k], Drop(w.gone, id)))
  {
    FindMember(w.keys, id);
    DropMembers(w.gone, id);
    assert forall i :: 0 <= i < |w.keys| ==> w.keys[i] in w.keys;
  }

  lemma RestoreMembers(w: World, id: string, e: Event)
    requires Separate(w) && Find(w.keys, id).None? && Find(w.gone, id).Some?
    ensures var k := On(Find(w.gone, id).value, e);
            && k.id == id
            && Store(w.keys, k) == w.keys + [k]
            && Separate(World(w.keys + [k], Drop(w.gone, id)))
            && forall x :: x in w.keys + [k] || x in Drop(w.gone, id) ==> Changed(w, KeyOp(id, e), x)
  {
    var held := Find(w.gone, id).value;
    FindMember(w.gone, id);
    RestoreSeparate(w, id, On(held, e));
    DropMembers(w.gone, id);
    Unchanged(w, KeyOp(id, e));
    assert held in w.keys + w.gone && On(held, e) == Evolve(held, KeyOp(id, e));
  }

  lemma EvolveSound(k: Key, op: Op)
    requires Sound(k)
    ensures Sound(Evolve(k, op))
  {
  }

  lemma StepKeepsSound(w: World, op: Op)
    requires WorldSound(w)
    ensures WorldSound(Step(w, op))
  {
    var w' := Step(w, op);
    StepMembers(w, op);
    forall k | k in w'.keys || k in w'.gone
      ensures Sound(k)
    {
      assert k in w'.keys + w'.gone;
      if Changed(w, op, k) {
        var x :| x in w.keys + w.gone && x.id == k.id && (k == x || k == Evolve(x, op));
        EvolveSound(x, op);
      }
    }
  }

  /**
   * Over every run, deletions and late usage records and tests included, on every key, ACTIVE means
   * not cooling and fewer than three failures.
   */
  lemma {:induction false} ActiveIsSound(w: World, ops: seq<Op>)
    requires WorldSound(w)
    ensures WorldSound(Run(w, ops)) && AllSound(Run(w, ops).keys)
  {
    if ops != [] {
      ActiveIsSound(w, Init(ops));
      StepKeepsSound(Run(w, Init(ops)), Last(ops));
    }
    assert forall i :: 0 <= i < |Run(w, ops).keys| ==> Run(w, ops).keys[i] in Run(w, ops).keys;
  }

  lemma {:induction false} RunSeparate(w: World, ops: seq<Op>)
    requires Separate(w)
    ensures Separate(Run(w, ops))
  {
    if ops != [] {
      RunSeparate(w, Init(ops));
      StepMembers(Run(w, Init(ops)), Last(ops));
    }
  }

  lemma HasDrop(ks: Keys, gone: string, id: string)
    ensures HasId(Drop(ks, gone), id) <==> HasId(ks, id) && id != gone
  {
    DropMembers(ks, gone);
    if HasId(ks, id) {
      var k :| k in ks && k.id == id;
      assert id != gone ==> k in Drop(ks, gone);
    }
  }

  lemma HasAppend(ks: Keys, x: Key, id: string)
    ensures HasId(ks + [x], id) <==> HasId(ks, id) || x.id == id
  {
    if HasId(ks, id) {
      var k :| k in ks && k.id == id;
      assert k in ks + [x];
    }
    assert (ks + [x])[|ks|] == x;
  }

  /** A step leaves an id where it was, but for a removal and what puts a removed record back. */
  lemma WhereAfter(w: World, op: Op, id: string)
    requires Separate(w)
    ensures var w', there, kept := Step(w, op), HasId(w.keys, id), HasId(w.gone, id);
            && (HasId(w'.keys, id) <==>
                  (there && op != Remove(id)) || (op.Add? && op.key.id == id && !kept) || (kept && PutsBack(op, id)))
            && (HasId(w'.keys, id) || HasId(w'.gone, id) <==> there || kept || (op.Add? && op.key.id == id))
  {
    match op
    case KeyOp(k, e) =>
      Named(w.keys, k);
      Named(w.gone, k);
      if Find(w.keys, k).Some? {
        SameNames(w.keys, Apply(w.keys, k, e), id);
        Once(w, k);
      } else if ByRecord(e) && Find(w.gone, k).Some? {
        RestoreMembers(w, k, e);
        HasAppend(w.keys, On(Find(w.gone, k).value, e), id);
        HasDrop(w.gone, k, id);
      }
    case List(_, _, now) => SameNames(w.keys, Recovered(w.keys, now), id);
    case Add(k) =>
      Named(w.keys, k.id);
      Named(w.gone, k.id);
      HasAppend(w.keys, NewKey(k), id);
    case Remove(k) =>
      Named(w.keys, k);
      FindMember(w.keys, k);
      HasDrop(w.keys, k, id);
      if Find(w.keys, k).Some? {
        HasAppend(w.gone, Find(w.keys, k).value, id);
      }
  }

  lemma Named(ks: Keys, id: string)
    ensures Find(ks, id).Some? <==> HasId(ks, id)
  {
    FindMember(ks, id);
    if HasId(ks, id) {
      var k :| k in ks && k.id == id;
    }
  }

  lemma SameNames(a: Keys, b: Keys, id: string)
    requires |a| == |b| && forall i :: 0 <= i < |a| ==> a[i].id == b[i].id
    ensures HasId(a, id) <==> HasId(b, id)
  {
    if HasId(a, id) {
      var k :| k in a && k.id == id;
      var i :| 0 <= i < |a| && a[i] == k;
      assert b[i] in b;
    }
    if HasId(b, id) {
      var k :| k in b && k.id == id;
      var i :| 0 <= i < |b| && b[i] == k;
      assert a[i] in a;
    }
  }

  /** A usage record, or a test, of the key's record has finished. */
  predicate PutsBack(op: Op, id: string) { op.KeyOp? && op.id == id && ByRecord(op.event) }

  /**
   * Whether a deleted key is back, exactly: since its last deletion a usage record or a test of the
   * record has finished. Nothing that works by id, and no new key, brings it back.
   */
  lemma {:induction false} DeletedKeyReturns(w: World, id: string, ops: seq<Op>)
    requires Separate(w) && HasId(w.keys, id) && !Removes(ops, id)
    ensures var after := Run(Step(w, Remove(id)), ops);
            && (HasId(after.keys, id) <==> exists i :: 0 <= i < |ops| && PutsBack(ops[i], id))
            && (HasId(after.keys, id) || HasId(after.gone, id))
  {
    var start := Step(w, Remove(id));
    StepMembers(w, Remove(id));
    WhereAfter(w, Remove(id), id);
    Once(w, id);
    if ops != [] {
      assert !Removes(Init(ops), id);
      DeletedKeyReturns(w, id, Init(ops));
      RunSeparate(start, Init(ops));
      WhereAfter(Run(start, Init(ops)), Last(ops), id);
      assert ops[|ops| - 1] == Last(ops);
      assert forall i :: 0 <= i < |ops| - 1 ==> ops[i] == Init(ops)[i];
      Once(Run(start, Init(ops)), id);
    }
  }

  lemma Once(w: World, id: string)
    requires Separate(w)
    ensures !(HasId(w.keys, id) && HasId(w.gone, id))
  {
  }

  /** A key deleted while a request on it is in flight is back, ACTIVE as it was, when the request is recorded. */
  lemma DeletedInFlight(k: Key, usage: Usage, now: int)
    ensures var w := World([k], []);
            var deleted := Step(w, Remove(k.id));
            var recorded := Step(deleted, KeyOp(k.id, Recorded(usage, now, false)));
            deleted == World([], [k]) && recorded == World([k.(usage := usage, lastUsed := now)], [])
  {
    assert Init([k]) == [];
    assert Find([k], k.id) == Some(k) && Drop([k], k.id) == [];
    assert [] + [k] == [k];
  }

  /** What one call does to a key that is already there and stays there. */
  function Evolve(k: Key, op: Op): Key {
    match op
    case KeyOp(id, e) => if id == k.id then On(k, e) else k
    case List(_, _, now) => Recover(k, now)
    case _ => k
  }

  function KeyRun(k: Key, ops: seq<Op>): (r: Key)
    ensures r.id == k.id
  {
    if ops == [] then k else Evolve(KeyRun(k, Init(ops)), Last(ops))
  }

  predicate Removes(ops: seq<Op>, id: string) {
    exists i :: 0 <= i < |ops| && ops[i] == Remove(id)
  }

  lemma {:induction false} RunOnKey(w: World, k: Key, ops: seq<Op>)
    requires Separate(w) && k in w.keys && !Removes(ops, k.id)
    ensures KeyRun(k, ops) in Run(w, ops).keys && Separate(Run(w, ops))
  {
    if ops != [] {
      assert !Removes(Init(ops), k.id);
      RunOnKey(w, k, Init(ops));
      var before := Run(w, Init(ops));
      StepMembers(before, Last(ops));
      assert ops[|ops| - 1] == Last(ops);
      StepOnKey(before, KeyRun(k, Init(ops)), Last(ops));
    }
  }

  lemma StepOnKey(w: World, k: Key, op: Op)
    requires Separate(w) && k in w.keys && op != Remove(k.id)
    ensures Evolve(k, op) in Step(w, op).keys
  {
    var i :| 0 <= i < |w.keys| && w.keys[i] == k;
    FindAt(w.keys, i);
    match op
    case KeyOp(id, e) =>
      if Find(w.keys, id).Some? {
        assert Apply(w.keys, id, e)[i] == Evolve(k, op);
      } else if ByRecord(e) && Find(w.gone, id).Some? {
        RestoreMembers(w, id, e);
      }
    case List(_, _, now) => assert Recovered(w.keys, now)[i] == Recover(k, now);
    case Add(_) =>
    case Remove(id) =>
      FindMember(w.keys, id);
      DropMembers(w.keys, id);
  }

  /** The events that end a key's cooldown early. */
  predicate Resets(e: Event) {
    e.Success? || e == SetStatus(Active) || (e.Tested? && e.ok)
  }

  /** No reset of `id`, and every clock reading lies in `[from, to]`. */
  predicate Calm(op: Op, id: string, from: int, to: int) {
    match op
    case KeyOp(k, e) => k == id ==> !Resets(e) && (e.Failure? || e.Tested? ==> from <= e.now <= to)
    case List(_, _, now) => from <= now <= to
    case _ => true
  }

  predicate Quiet(ops: seq<Op>, id: string, from: int, to: int) {
    forall i :: 0 <= i < |ops| ==> Calm(ops[i], id, from, to)
  }

  predicate Down(k: Key, until: int) {
    k.status != Active && k.cooldownUntil.Some? && k.cooldownUntil.value >= until
  }

  /** The record of `id`, cached or not, is out of use until `until`. */
  ghost predicate Out(w: World, id: string, until: int) {
    forall k :: k in w.keys + w.gone && k.id == id ==> Down(k, until)
  }

  lemma EvolveDown(k: Key, op: Op, from: int, to: int)
    requires Down(k, from + COOLDOWN_MS) && Calm(op, k.id, from, to) && to < from + COOLDOWN_MS
    ensures Down(Evolve(k, op), from + COOLDOWN_MS)
  {
  }

  lemma StaysOut(w: World, op: Op, id: string, from: int, to: int)
    requires Separate(w) && (exists k :: k in w.keys + w.gone && k.id == id)
    requires Out(w, id, from + COOLDOWN_MS) && Calm(op, id, from, to) && to < from + COOLDOWN_MS
    ensures Out(Step(w, op), id, from + COOLDOWN_MS)
  {
    var w' := Step(w, op);
    StepMembers(w, op);
    var k0 :| k0 in w.keys + w.gone && k0.id == id;
    forall k | k in w'.keys + w'.gone && k.id == id
      ensures Down(k, from + COOLDOWN_MS)
    {
      if op.Add? && k == NewKey(op.key) {
        OnlyRecord(w, op, k, k0);
      } else {
        var x :| x in w.keys + w.gone && x.id == k.id && (k == x || k == Evolve(x, op));
        EvolveDown(x, op, from, to);
      }
    }
  }

  lemma StaysSomewhere(w: World, op: Op, id: string)
    requires Separate(w) && exists k :: k in w.keys + w.gone && k.id == id
    ensures exists k :: k in Step(w, op).keys + Step(w, op).gone && k.id == id
  {
    Somewhere(w, id);
    WhereAfter(w, op, id);
    Somewhere(Step(w, op), id);
  }

  /** A key is not added under an id that is taken, so the record found there is the old one. */
  lemma OnlyRecord(w: World, op: Op, k: Key, k0: Key)
    requires Separate(w) && op.Add? && k.id == op.key.id && k0 in w.keys + w.gone && k0.id == k.id
    requires k in Step(w, op).keys + Step(w, op).gone
    ensures k in w.keys + w.gone
  {
    Somewhere(w, k.id);
    Named(w.keys, k.id);
    Named(w.gone, k.id);
  }

  lemma Somewhere(w: World, id: string)
    ensures (exists k :: k in w.keys + w.gone && k.id == id) <==> HasId(w.keys, id) || HasId(w.gone, id)
  {
    if HasId(w.keys, id) {
      var k :| k in w.keys && k.id == id;
      assert k in w.keys + w.gone;
    }
    if HasId(w.gone, id) {
      var k :| k in w.gone && k.id == id;
      assert k in w.keys + w.gone;
    }
  }

  lemma {:induction false} RunStaysOut(w: World, ops: seq<Op>, id: string, from: int, to: int)
    requires Separate(w) && (exists k :: k in w.keys + w.gone && k.id == id)
    requires Out(w, id, from + COOLDOWN_MS) && Quiet(ops, id, from, to) && to < from + COOLDOWN_MS
    ensures Separate(Run(w, ops)) && Out(Run(w, ops), id, from + COOLDOWN_MS)
    ensures exists k :: k in Run(w, ops).keys + Run(w, ops).gone && k.id == id
  {
    if ops != [] {
      assert Quiet(Init(ops), id, from, to) && Last(ops) == ops[|ops| - 1];
      RunStaysOut(w, Init(ops), id, from, to);
      StepMembers(Run(w, Init(ops)), Last(ops));
      StaysOut(Run(w, Init(ops)), Last(ops), id, from, to);
      StaysSomewhere(Run(w, Init(ops)), Last(ops), id);
    }
  }

  lemma OutIsNotListed(w: World, id: string, until: int, provider: string, now: int)
    requires Separate(w) && Out(w, id, until) && now < until
    ensures forall x :: x in ListActive(w.keys, provider, true, now).1 ==> x.id != id
  {
    var after := Recovered(w.keys, now);
    FilterMembers(after, provider, true, now);
    forall x | x in Filter(after, provider, true, now)
      ensures x.id != id
    {
      var i :| 0 <= i < |after| && after[i] == x;
      assert w.keys[i] in w.keys + w.gone;
    }
  }

  /**
   * The cooldown is honoured: after a failure at `t` that leaves the key in ERROR or EXHAUSTED, no
   * default `list_active` before `t` + 300 s returns it, whatever else happens to any key, its own
   * deletion and return included, unless a success, an explicit activation or a passing test of
   * that key intervenes.
   */
  lemma CooldownHonoured(w: World, k: Key, category: Category, t: int, ops: seq<Op>, provider: string, now: int)
    requires Separate(w) && k in w.keys
    requires category != Other || k.failureCount + 1 >= MAX_FAILURES
    requires t <= now < t + COOLDOWN_MS && Quiet(ops, k.id, t, now)
    ensures var failed := Run(Step(w, KeyOp(k.id, Failure(category, t))), ops);
            forall x :: x in ListActive(failed.keys, provider, true, now).1 ==> x.id != k.id
  {
    var op := KeyOp(k.id, Failure(category, t));
    var hit := Step(w, op);
    StepMembers(w, op);
    StepOnKey(w, k, op);
    var k' := Evolve(k, op);
    assert k' in hit.keys + hit.gone;
    forall x | x in hit.keys + hit.gone && x.id == k.id
      ensures x == k'
    {
      SameRecord(hit, x, k');
    }
    RunStaysOut(hit, ops, k.id, t, now);
    OutIsNotListed(Run(hit, ops), k.id, t + COOLDOWN_MS, provider, now);
  }

  lemma SameRecord(w: World, a: Key, b: Key)
    requires Separate(w) && a in w.keys + w.gone && b in w.keys && a.id == b.id
    ensures a == b
  {
    var j :| 0 <= j < |w.keys| && w.keys[j] == b;
    if a in w.keys {
      var i :| 0 <= i < |w.keys| && w.keys[i] == a;
    }
  }

  /** A call that resets the failures of `k`: a success, an activation, a passing test, a recovering listing. */
  predicate ResetsKey(k: Key, op: Op) {
    match op
    case KeyOp(id, e) => id == k.id && Resets(e)
    case List(_, _, now) => k.status == Error && !InCooldown(k, now)
    case _ => false
  }

  ghost predicate ResetAt(k: Key, ops: seq<Op>, i: int) {
    0 <= i < |ops| && ResetsKey(KeyRun(k, ops[..i]), ops[i])
  }

  /** The failures of the key among some calls. */
  function FailuresIn(ops: seq<Op>, id: string): nat {
    if ops == [] then 0
    else FailuresIn(Init(ops), id) + (if Last(ops).KeyOp? && Last(ops).id == id && Last(ops).event.Failure? then 1 else 0)
  }

  lemma KeyStep(k: Key, op: Op)
    ensures Evolve(k, op).failureCount == if ResetsKey(k, op) then 0 else k.failureCount + FailuresIn([op], k.id)
  {
    assert Init([op]) == [];
  }

  lemma {:induction false} FailuresFrom(ops: seq<Op>, op: Op, r: nat, id: string)
    requires r <= |ops|
    ensures FailuresIn((ops + [op])[r..], id) == FailuresIn(ops[r..], id) + FailuresIn([op], id)
  {
    var tail := ops[r..];
    assert (ops + [op])[r..] == tail + [op];
    assert Init(tail + [op]) == tail && Init([op]) == [];
  }

  lemma ResetEarlier(k: Key, ops: seq<Op>)
    requires ops != []
    ensures forall i :: 0 <= i < |ops| - 1 ==> (ResetAt(k, ops, i) <==> ResetAt(k, Init(ops), i))
  {
    forall i | 0 <= i < |ops| - 1
      ensures ResetAt(k, ops, i) <==> ResetAt(k, Init(ops), i)
    {
      assert Init(ops)[i] == ops[i] && Init(ops)[..i] == ops[..i];
    }
  }

  /** In every run the count is the number of failures of the key after its last reset, which is call `r` - 1. */
  lemma {:induction false} FailureCountExact(k: Key, ops: seq<Op>) returns (r: nat)
    requires k.failureCount == 0
    ensures r <= |ops| && (r > 0 ==> ResetAt(k, ops, r - 1)) && forall i :: r <= i < |ops| ==> !ResetAt(k, ops, i)
    ensures KeyRun(k, ops).failureCount == FailuresIn(ops[r..], k.id)
  {
    if ops == [] {
      r := 0;
    } else {
      var n, op := |ops| - 1, Last(ops);
      assert ops[n] == op && ops[..n] == Init(ops);
      r := FailureCountExact(k, Init(ops));
      ResetEarlier(k, ops);
      KeyStep(KeyRun(k, Init(ops)), op);
      if ResetAt(k, ops, n) {
        r := |ops|;
      } else {
        assert ops == Init(ops) + [op];
        FailuresFrom(Init(ops), op, r, k.id);
      }
    }
  }

  /**
   * The documentation promises that EXHAUSTED and INACTIVE keys never recover by themselves. A
   * failure of a request still in flight breaks that, exactly when it is an authentication failure
   * or brings the count to the threshold: the key becomes an ordinary ERROR key.
   */
  lemma FailureRevivesExactly(k: Key, category: Category, t: int)
    requires k.status == Exhausted || k.status == Inactive
    ensures (exists later :: Recover(OnFailure(k, category, t), later).status == Active)
            <==> (category == AuthFailed || (category == Other && k.failureCount + 1 >= MAX_FAILURES))
  {
    var k' := OnFailure(k, category, t);
    if k'.status == Error {
      assert Recover(k', t + COOLDOWN_MS).status == Active;
    }
  }

  /** The event does not turn the key into an ERROR key, nor set or test it. */
  predicate Spares(k: Key, e: Event) {
    !Resets(e) && !e.Tested? && e != SetStatus(Error)
    && (e.Failure? ==> e.category == QuotaGone || (e.category == Other && k.failureCount + 1 < MAX_FAILURES))
  }

  ghost predicate NeverTripped(k: Key, ops: seq<Op>) {
    forall i :: 0 <= i < |ops| && ops[i].KeyOp? && ops[i].id == k.id ==> Spares(KeyRun(k, ops[..i]), ops[i].event)
  }

  /** Short of that, the promise holds over whole runs: no `list_active`, however late, brings it back. */
  lemma {:induction false} DisabledStaysDisabled(k: Key, ops: seq<Op>)
    requires k.status == Exhausted || k.status == Inactive
    requires NeverTripped(k, ops)
    ensures KeyRun(k, ops).status == Exhausted || KeyRun(k, ops).status == Inactive
  {
    if ops != [] {
      assert NeverTripped(k, Init(ops)) by {
        assert forall i :: 0 <= i < |ops| - 1 ==> Init(ops)[i] == ops[i] && Init(ops)[..i] == ops[..i];
      }
      DisabledStaysDisabled(k, Init(ops));
      assert Last(ops) == ops[|ops| - 1] && ops[..|ops| - 1] == Init(ops);
    }
  }

  predicate Off(k: Key) { k.status == Exhausted || k.status == Inactive }

  /** The record of `id`, cached or not, is switched off. */
  ghost predicate OffIn(w: World, id: string) {
    forall k :: k in w.keys + w.gone && k.id == id ==> Off(k)
  }

  /** No event of the run would bring the record of `id` back into use as it stands then. */
  ghost predicate Undisturbed(w: World, ops: seq<Op>, id: string) {
    forall i :: 0 <= i < |ops| ==> LeftAlone(Run(w, ops[..i]), ops[i], id)
  }

  ghost predicate LeftAlone(w: World, op: Op, id: string) {
    op.KeyOp? && op.id == id ==> forall k :: k in w.keys + w.gone && k.id == id ==> Spares(k, op.event)
  }

  lemma OffKept(k: Key, op: Op)
    requires Off(k) && (op.KeyOp? && op.id == k.id ==> Spares(k, op.event))
    ensures Off(Evolve(k, op))
  {
  }

  lemma StaysOff(w: World, op: Op, id: string)
    requires Separate(w) && (exists k :: k in w.keys + w.gone && k.id == id)
    requires OffIn(w, id) && LeftAlone(w, op, id)
    ensures OffIn(Step(w, op), id)
  {
    var w' := Step(w, op);
    StepMembers(w, op);
    var k0 :| k0 in w.keys + w.gone && k0.id == id;
    forall k | k in w'.keys + w'.gone && k.id == id
      ensures Off(k)
    {
      if op.Add? && k == NewKey(op.key) {
        OnlyRecord(w, op, k, k0);
      } else {
        var x :| x in w.keys + w.gone && x.id == k.id && (k == x || k == Evolve(x, op));
        OffKept(x, op);
      }
    }
  }

  lemma {:induction false} RunStaysOff(w: World, ops: seq<Op>, id: string)
    requires Separate(w) && (exists k :: k in w.keys + w.gone && k.id == id)
    requires OffIn(w, id) && Undisturbed(w, ops, id)
    ensures Separate(Run(w, ops)) && OffIn(Run(w, ops), id)
    ensures exists k :: k in Run(w, ops).keys + Run(w, ops).gone && k.id == id
  {
    if ops != [] {
      var n := |ops| - 1;
      assert Undisturbed(w, Init(ops), id) by {
        assert forall i :: 0 <= i < n ==> Init(ops)[i] == ops[i] && Init(ops)[..i] == ops[..i];
      }
      RunStaysOff(w, Init(ops), id);
      assert ops[n] == Last(ops) && ops[..n] == Init(ops) && LeftAlone(Run(w, ops[..n]), ops[n], id);
      StepMembers(Run(w, Init(ops)), Last(ops));
      StaysOff(Run(w, Init(ops)), Last(ops), id);
      StaysSomewhere(Run(w, Init(ops)), Last(ops), id);
    }
  }

  /** What a call by id does to the key it names, and that it does nothing to the others. */
  lemma CallOnKey(w: World, k: Key, e: Event)
    requires Separate(w) && k in w.keys
    ensures var after := Step(w, KeyOp(k.id, e));
            && Separate(after) && On(k, e) in after.keys && after.gone == w.gone
            && forall x :: x in w.keys && x.id != k.id ==> x in after.keys
  {
    var op := KeyOp(k.id, e);
    StepMembers(w, op);
    StepOnKey(w, k, op);
    forall x | x in w.keys && x.id != k.id
      ensures x in Step(w, op).keys
    {
      StepOnKey(w, x, op);
    }
    Named(w.keys, k.id);
  }

  /**
   * A status that is set is the status the key has, whatever it was: with ACTIVE the failures and
   * the cooldown go, with any other nothing else changes.
   */
  lemma StatusSet(w: World, k: Key, status: Status)
    requires Separate(w) && k in w.keys
    ensures var after := Step(w, KeyOp(k.id, SetStatus(status))).keys;
            && (forall x :: x in after && x.id == k.id ==> x.status == status)
            && (status != Active ==> k.(status := status) in after)
            && (status == Active ==> k.(status := Active, failureCount := 0, cooldownUntil := None) in after)
  {
    var e := SetStatus(status);
    var after := Step(w, KeyOp(k.id, e));
    CallOnKey(w, k, e);
    forall x | x in after.keys && x.id == k.id
      ensures x.status == status
    {
      SameRecord(after, x, On(k, e));
    }
  }

  /**
   * A key switched off stays off: set to INACTIVE or EXHAUSTED, and until an event that would bring
   * it back, its record is not ACTIVE, whatever else happens, its own deletion and return included,
   * and no listing of any kind returns it.
   */
  lemma SwitchedOffStaysOff(w: World, k: Key, status: Status, ops: seq<Op>, provider: string, exclude: bool, now: int)
    requires Separate(w) && k in w.keys && (status == Inactive || status == Exhausted)
    requires Undisturbed(Step(w, KeyOp(k.id, SetStatus(status))), ops, k.id)
    ensures var after := Run(Step(w, KeyOp(k.id, SetStatus(status))), ops);
            && (forall x :: x in after.keys + after.gone && x.id == k.id ==> x.status == Inactive || x.status == Exhausted)
            && (forall x :: x in ListActive(after.keys, provider, exclude, now).1 ==> x.id != k.id)
  {
    var e := SetStatus(status);
    var off := Step(w, KeyOp(k.id, e));
    CallOnKey(w, k, e);
    assert On(k, e) in off.keys + off.gone;
    forall x | x in off.keys + off.gone && x.id == k.id
      ensures Off(x)
    {
      SameRecord(off, x, On(k, e));
    }
    RunStaysOff(off, ops, k.id);
    OffIsNotListed(Run(off, ops), k.id, provider, exclude, now);
  }

  lemma OffIsNotListed(w: World, id: string, provider: string, exclude: bool, now: int)
    requires Separate(w) && OffIn(w, id)
    ensures forall x :: x in ListActive(w.keys, provider, exclude, now).1 ==> x.id != id
  {
    var after := Recovered(w.keys, now);
    FilterMembers(after, provider, exclude, now);
    forall x | x in Filter(after, provider, exclude, now)
      ensures x.id != id
    {
      var i :| 0 <= i < |after| && after[i] == x;
      assert w.keys[i] in w.keys + w.gone;
    }
  }

  /**
   * What puts a key back into use does so at once: after a success, an activation or a passing test
   * every listing of its provider returns it, with no failures.
   */
  lemma HealedIsListed(w: World, k: Key, e: Event, exclude: bool, now: int)
    requires Separate(w) && k in w.keys && Resets(e)
    ensures var after := Step(w, KeyOp(k.id, e)).keys;
            exists x :: x in ListActive(after, k.provider, exclude, now).1 && x.id == k.id && x.status == Active
                        && x.failureCount == 0
  {
    var after, k' := Step(w, KeyOp(k.id, e)).keys, On(k, e);
    CallOnKey(w, k, e);
    var i :| 0 <= i < |after| && after[i] == k';
    FilterMembers(Recovered(after, now), k.provider, exclude, now);
    assert Recovered(after, now)[i] == k';
    assert k' in ListActive(after, k.provider, exclude, now).1;
  }

  /** A test leaves its outcome on the record, whichever it is; an answer or a usage record, its time. */
  lemma OutcomeNoted(w: World, k: Key, e: Event)
    requires Separate(w) && k in w.keys
    ensures forall x :: x in Step(w, KeyOp(k.id, e)).keys && x.id == k.id ==>
              && (e.Tested? ==>
                    && x.extra.lastTested == Some(e.now)
                    && x.extra.testResult == Some(if e.ok then "ok" else "fail")
                    && x.extra.testError == Some(if e.ok then "" else e.error))
              && (!e.Tested? ==> x.extra == k.extra)
              && x.lastUsed == (if e.SetStatus? || e.Tested? then k.lastUsed else e.now)
              && x.usage == (if e.Recorded? then e.usage else k.usage)
              && (e.Recorded? ==> x.status == if e.spent then Exhausted else k.status)
  {
    var after := Step(w, KeyOp(k.id, e));
    CallOnKey(w, k, e);
    forall x | x in after.keys && x.id == k.id
      ensures x == On(k, e)
    {
      SameRecord(after, x, On(k, e));
    }
  }

  /** A new key is ACTIVE and unused, and every listing of its provider returns it at once. */
  lemma AddedIsListed(w: World, k: Key, exclude: bool, now: int, d: Date)
    requires Separate(w) && !HasId(w.keys, k.id) && !HasId(w.gone, k.id)
    ensures var after := Step(w, Add(k)).keys;
            exists x :: x in ListActive(after, k.provider, exclude, now).1 && x.id == k.id && x.status == Active
                        && x.failureCount == 0 && TodayUsed(x.usage, d) == 0 && TodayRequests(x.usage, d) == 0
                        && x == k.(status := Active, failureCount := 0, cooldownUntil := None, usage := x.usage)
  {
    Named(w.keys, k.id);
    Named(w.gone, k.id);
    var after, k' := Step(w, Add(k)).keys, NewKey(k);
    assert after == w.keys + [k'];
    var i := |w.keys|;
    FilterMembers(Recovered(after, now), k.provider, exclude, now);
    assert after[i] == k' && Recovered(after, now)[i] == k';
    assert k' in ListActive(after, k.provider, exclude, now).1;
  }

  /** A failing test takes a key out of use for 300 s, like a failure that trips it. */
  lemma FailedTestHonoured(w: World, k: Key, error: string, t: int, ops: seq<Op>, provider: string, now: int)
    requires Separate(w) && k in w.keys
    requires t <= now < t + 300000 && Quiet(ops, k.id, t, now)
    ensures var tested := Step(w, KeyOp(k.id, Tested(false, error, t)));
            && (forall x :: x in tested.keys && x.id == k.id ==> x.status == Error && x.cooldownUntil == Some(t + 300000))
            && (forall x :: x in ListActive(Run(tested, ops).keys, provider, true, now).1 ==> x.id != k.id)
  {
    var e := Tested(false, error, t);
    var hit := Step(w, KeyOp(k.id, e));
    CallOnKey(w, k, e);
    assert On(k, e) in hit.keys + hit.gone;
    forall x | x in hit.keys + hit.gone && x.id == k.id
      ensures x == On(k, e)
    {
      SameRecord(hit, x, On(k, e));
    }
    RunStaysOut(hit, ops, k.id, t, now);
    OutIsNotListed(Run(hit, ops), k.id, t + COOLDOWN_MS, provider, now);
  }

  /**
   * A concrete run: a key whose quota is gone at time 0, for 30 minutes, takes two in-flight
   * upstream failures and is ACTIVE again five minutes later.
   */
  lemma ExhaustedKeyComesBack(k: Key)
    requires k.status == Active && k.failureCount == 0
    ensures var run := [KeyOp(k.id, Failure(QuotaGone, 0)), KeyOp(k.id, Failure(Other, 1)),
                        KeyOp(k.id, Failure(Other, 2)), List("", true, 300002)];
            && KeyRun(k, run[..1]).status == Exhausted
            && KeyRun(k, run[..1]).cooldownUntil == Some(1800000)
            && KeyRun(k, run).status == Active
  {
    var run := [KeyOp(k.id, Failure(QuotaGone, 0)), KeyOp(k.id, Failure(Other, 1)),
                KeyOp(k.id, Failure(Other, 2)), List("", true, 300002)];
    assert Init(run[..1]) == [] && Init(run[..2]) == run[..1] && Init(run[..3]) == run[..2] && Init(run) == run[..3];
    assert KeyRun(k, run[..1]) == OnFailure(k, QuotaGone, 0);
    assert KeyRun(k, run[..2]) == OnFailure(KeyRun(k, run[..1]), Other, 1);
    assert KeyRun(k, run[..3]) == OnFailure(KeyRun(k, run[..2]), Other, 2);
    assert KeyRun(k, run[..3]).cooldownUntil == Some(300002);
  }
}
