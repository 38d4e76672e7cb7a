/** Memory and key table: snapshots that are queued, rows that are written at once, and a restart. */
module Persistence {
  import opened Prelude
  import opened ApiKeys
  import opened Tables
  import opened KeyLifecycle
  import opened KeyRows
  import opened KeyTheorems

  /** The keys in memory, the writer's queue and the tables. */
  datatype Site = Site(world: World, queue: seq<Item>, tables: Db)

  /** A call on the key manager, or a flush by the writer. */
  datatype Act = Call(op: Op) | Flush

  /** Management calls write at once, by way of `_persist`; the hot paths queue a snapshot. */
  predicate AtOnce(op: Op) { op.Add? || op.Remove? || (op.KeyOp? && (op.event.SetStatus? || op.event.Tested?)) }

  function OwnId(op: Op): string
    requires !op.List?
  {
    match op
    case KeyOp(id, _) => id
    case Add(k) => k.id
    case Remove(id) => id
  }

  /** What a call has written: the snapshots of the keys it changed, as they are afterwards. */
  function Snapshots(w: World, op: Op, today: Date): seq<Item> {
    match op
    case List(_, _, now) => RevivedTo(w.keys, |w.keys|, now, today)
    case KeyOp(id, _) => Snapshot(Step(w, op).keys, id, today)
    case Add(k) => if Step(w, op) == w then [] else Snapshot(Step(w, op).keys, k.id, today)
    case Remove(_) => []
  }

  function Do(s: Site, act: Act, today: Date): Site {
    match act
    case Flush => Site(s.world, [], DirectAll(s.tables, s.queue))
    case Call(op) =>
      var rows := Snapshots(s.world, op, today);
      var tables := if op.Remove? then DeleteKey(s.tables, op.id) else s.tables;
      if AtOnce(op) then Site(Step(s.world, op), s.queue, DirectAll(tables, rows))
      else Site(Step(s.world, op), s.queue + rows, tables)
  }

  function DoAll(s: Site, acts: seq<Act>, today: Date): Site {
    if acts == [] then s else Do(DoAll(s, Init(acts), today), Last(acts), today)
  }

  /** The tables once the queue is written. */
  function Drained(s: Site): Db { DirectAll(s.tables, s.queue) }

  /** The row of `id` is the key's as it is in memory, and there is none without the key. */
  ghost predicate RowRight(ks: Keys, t: Db, id: string, today: Date) {
    match Find(ks, id)
    case Some(k) => id in t.keys && t.keys[id].cols == RowOf(k, today).cols
    case None => id !in t.keys
  }

  /** Once the queue is written, the key table holds what is in memory, neither more nor less. */
  ghost predicate Agree(s: Site, today: Date) {
    forall id :: RowRight(s.world.keys, Drained(s), id, today)
  }

  /** No snapshot of the key is waiting. */
  predicate Clear(queue: seq<Item>, id: string) {
    forall i :: 0 <= i < |queue| && queue[i].KeyItem? ==> queue[i].id != id
  }

  predicate SameRow(a: Db, b: Db, id: string) {
    (id in a.keys <==> id in b.keys) && (id in a.keys ==> a.keys[id].cols == b.keys[id].cols)
  }

  lemma {:induction false} RowOwn(a: Db, b: Db, items: seq<Item>, id: string)
    requires SameRow(a, b, id)
    ensures SameRow(DirectAll(a, items), DirectAll(b, items), id)
  {
    if items != [] {
      RowOwn(a, b, Init(items), id);
    }
  }

  lemma {:induction false} ClearLeaves(t: Db, items: seq<Item>, id: string)
    requires Clear(items, id)
    ensures SameRow(DirectAll(t, items), t, id)
  {
    if items != [] {
      assert Last(items) == items[|items| - 1] && forall i :: 0 <= i < |items| - 1 ==> Init(items)[i] == items[i];
      ClearLeaves(t, Init(items), id);
    }
  }

  /** What one snapshot does to the table. */
  lemma SnapshotWrites(t: Db, ks: Keys, id: string, x: string, today: Date)
    ensures var after := DirectAll(t, Snapshot(ks, id, today));
            && (x != id ==> SameRow(after, t, x))
            && (Find(ks, id).Some? ==> id in after.keys && after.keys[id].cols == RowOf(Find(ks, id).value, today).cols)
            && (Find(ks, id).None? ==> after == t)
  {
    var rows := Snapshot(ks, id, today);
    if Find(ks, id).Some? {
      FindMember(ks, id);
      assert Init(rows) == [] && DirectAll(t, rows) == Direct(t, rows[0]);
    }
  }

  /** The snapshot of a revived key, if it is one. */
  lemma RevivalWrites(t: Db, k: Key, now: int, today: Date, x: string)
    ensures var after := DirectAll(t, Revival(k, now, today));
            if x == k.id && Recover(k, now) != k
            then x in after.keys && after.keys[x].cols == RowOf(Recover(k, now), today).cols else SameRow(after, t, x)
  {
    var rows := Revival(k, now, today);
    if rows != [] {
      assert Init(rows) == [] && DirectAll(t, rows) == Direct(t, rows[0]);
    }
  }

  /** From `t` to `after` the row of `x` has become that of the recovered `k`, or nothing without it. */
  ghost predicate RevivedRow(t: Db, after: Db, k: Option<Key>, now: int, today: Date, x: string) {
    match k
    case Some(k) => x in after.keys && after.keys[x].cols == RowOf(Recover(k, now), today).cols
    case None => SameRow(after, t, x)
  }

  /** The turn of key `n` in a listing. */
  lemma RevivedTurn(t: Db, mid: Db, ks: Keys, n: nat, now: int, today: Date, x: string)
    requires DistinctIds(ks) && n < |ks| && RowRight(ks, t, x, today)
    requires RevivedRow(t, mid, Find(ks[..n], x), now, today, x)
    ensures RevivedRow(t, DirectAll(mid, Revival(ks[n], now, today)), Find(ks[..n + 1], x), now, today, x)
  {
    var k := ks[n];
    assert Init(ks[..n + 1]) == ks[..n] && Last(ks[..n + 1]) == k;
    if k.id == x {
      FindAt(ks, n);
      NotFound(ks[..n], x);
      OwnRevival(t, mid, k, now, today);
    } else {
      RevivalWrites(mid, k, now, today, x);
    }
  }

  /** What a listing queues makes every row that of the recovered key. */
  lemma {:induction false} RevivedWrite(t: Db, ks: Keys, n: nat, now: int, today: Date, x: string)
    requires DistinctIds(ks) && n <= |ks| && RowRight(ks, t, x, today)
    ensures RevivedRow(t, DirectAll(t, RevivedTo(ks, n, now, today)), Find(ks[..n], x), now, today, x)
  {
    if n == 0 {
      NothingRevived(t, ks, now, today, x);
    } else {
      RevivedWrite(t, ks, n - 1, now, today, x);
      RevivedTurn(t, DirectAll(t, RevivedTo(ks, n - 1, now, today)), ks, n - 1, now, today, x);
      NextRevival(t, ks, n, now, today);
    }
  }

  lemma NothingRevived(t: Db, ks: Keys, now: int, today: Date, x: string)
    ensures RevivedRow(t, DirectAll(t, RevivedTo(ks, 0, now, today)), Find(ks[..0], x), now, today, x)
  {
    assert DirectAll(t, []) == t;
  }

  lemma NextRevival(t: Db, ks: Keys, n: nat, now: int, today: Date)
    requires 0 < n <= |ks|
    ensures DirectAll(t, RevivedTo(ks, n, now, today))
            == DirectAll(DirectAll(t, RevivedTo(ks, n - 1, now, today)), Revival(ks[n - 1], now, today))
  {
    DirectAllConcat(t, RevivedTo(ks, n - 1, now, today), Revival(ks[n - 1], now, today));
  }

  /** The key's own turn, its row untouched so far. */
  lemma OwnRevival(t: Db, before: Db, k: Key, now: int, today: Date)
    requires SameRow(before, t, k.id) && k.id in t.keys && t.keys[k.id].cols == RowOf(k, today).cols
    ensures var after := DirectAll(before, Revival(k, now, today));
            k.id in after.keys && after.keys[k.id].cols == RowOf(Recover(k, now), today).cols
  {
    RevivalWrites(before, k, now, today, k.id);
  }

  lemma {:induction false} RecoveredFind(ks: Keys, now: int, id: string)
    ensures Find(Recovered(ks, now), id) ==
            match Find(ks, id)
            case Some(k) => Some(Recover(k, now))
            case None => None
  {
    if ks != [] {
      RecoveredFind(Init(ks), now, id);
      assert Init(Recovered(ks, now)) == Recovered(Init(ks), now);
    }
  }

  lemma OthersOnCall(w: World, id: string, e: Event, x: string)
    requires Separate(w) && x != id
    ensures Find(Step(w, KeyOp(id, e)).keys, x) == Find(w.keys, x)
  {
    if Find(w.keys, id).Some? {
      ApplyFind(w.keys, id, e, x);
    } else if ByRecord(e) && Find(w.gone, id).Some? {
      FindMember(w.gone, id);
      StoreKeeps(w.keys, On(Find(w.gone, id).value, e));
    }
  }

  /** A call leaves every key but its own as it was. */
  lemma OthersKept(w: World, op: Op, x: string)
    requires Separate(w) && !op.List? && x != OwnId(op)
    ensures Find(Step(w, op).keys, x) == Find(w.keys, x)
  {
    match op
    case KeyOp(id, e) => OthersOnCall(w, id, e, x);
    case Add(k) => assert Init(w.keys + [NewKey(k)]) == w.keys;
    case Remove(id) => DropFind(w.keys, id, x);
  }

  lemma FlushAgrees(s: Site, today: Date)
    requires Agree(s, today)
    ensures Agree(Do(s, Flush, today), today)
  {
    assert Drained(Do(s, Flush, today)) == Drained(s);
  }

  lemma ListAgrees(s: Site, op: Op, today: Date)
    requires Separate(s.world) && Agree(s, today) && op.List?
    ensures Agree(Do(s, Call(op), today), today)
  {
    var ks, after := s.world.keys, Do(s, Call(op), today);
    DirectAllConcat(s.tables, s.queue, RevivedTo(ks, |ks|, op.now, today));
    forall x
      ensures RowRight(after.world.keys, Drained(after), x, today)
    {
      assert RowRight(ks, Drained(s), x, today);
      RecoveredRow(Drained(s), ks, op.now, today, x);
    }
  }

  lemma RecoveredRow(t: Db, ks: Keys, now: int, today: Date, x: string)
    requires DistinctIds(ks) && RowRight(ks, t, x, today)
    ensures RowRight(Recovered(ks, now), DirectAll(t, RevivedTo(ks, |ks|, now, today)), x, today)
  {
    RecoveredFind(ks, now, x);
    RevivedWrite(t, ks, |ks|, now, today, x);
    assert ks[..|ks|] == ks;
  }

  /** A call by id that queues its snapshot keeps the agreement. */
  lemma QueuedAgrees(s: Site, id: string, e: Event, today: Date)
    requires Separate(s.world) && Agree(s, today) && !e.SetStatus? && !e.Tested?
    ensures Agree(Do(s, Call(KeyOp(id, e)), today), today)
  {
    var op := KeyOp(id, e);
    var after := Do(s, Call(op), today);
    var ks' := after.world.keys;
    DirectAllConcat(s.tables, s.queue, Snapshot(ks', id, today));
    forall x
      ensures RowRight(ks', Drained(after), x, today)
    {
      assert RowRight(s.world.keys, Drained(s), x, today);
      SnapshotWrites(Drained(s), ks', id, x, today);
      if x != id {
        OthersKept(s.world, op, x);
      } else {
        Unnamed(s.world, id, e);
      }
    }
  }

  /** A call for an id that is not in memory afterwards was for none before. */
  lemma Unnamed(w: World, id: string, e: Event)
    requires Separate(w)
    ensures Find(Step(w, KeyOp(id, e)).keys, id).None? ==> Find(w.keys, id).None?
  {
    ApplyFind(w.keys, id, e, id);
  }

  lemma OtherRowsKept(s: Site, op: Op, today: Date, x: string)
    requires Separate(s.world) && AtOnce(op) && x != OwnId(op)
    ensures SameRow(Drained(Do(s, Call(op), today)), Drained(s), x)
    ensures Find(Step(s.world, op).keys, x) == Find(s.world.keys, x)
  {
    OthersKept(s.world, op, x);
    var tables := if op.Remove? then DeleteKey(s.tables, op.id) else s.tables;
    SnapshotWrites(tables, Step(s.world, op).keys, OwnId(op), x, today);
    RowOwn(Do(s, Call(op), today).tables, s.tables, s.queue, x);
  }

  /** A row written at once is right at once; it is only right for good if no older snapshot is waiting. */
  lemma OwnRowWritten(s: Site, op: Op, today: Date)
    requires Separate(s.world) && Agree(s, today) && AtOnce(op) && Clear(s.queue, OwnId(op))
    ensures RowRight(Step(s.world, op).keys, Drained(Do(s, Call(op), today)), OwnId(op), today)
  {
    var id, after := OwnId(op), Do(s, Call(op), today);
    assert RowRight(s.world.keys, Drained(s), id, today);
    ClearLeaves(s.tables, s.queue, id);
    ClearLeaves(after.tables, s.queue, id);
    SnapshotWrites(s.tables, Step(s.world, op).keys, id, id, today);
    match op
    case KeyOp(_, e) => Unnamed(s.world, id, e);
    case Add(k) =>
    case Remove(_) =>
      DropFind(s.world.keys, id, id);
  }

  lemma ClearAgrees(s: Site, op: Op, today: Date)
    requires Separate(s.world) && Agree(s, today) && AtOnce(op) && Clear(s.queue, OwnId(op))
    ensures Agree(Do(s, Call(op), today), today)
  {
    var after := Do(s, Call(op), today);
    forall x
      ensures RowRight(after.world.keys, Drained(after), x, today)
    {
      assert RowRight(s.world.keys, Drained(s), x, today);
      if x == OwnId(op) {
        OwnRowWritten(s, op, today);
      } else {
        OtherRowsKept(s, op, today, x);
      }
    }
  }

  /** No management call of the run finds a snapshot of its key waiting. */
  ghost predicate NeverBehind(s: Site, acts: seq<Act>, today: Date) {
    forall i :: 0 <= i < |acts| ==> NotBehind(DoAll(s, acts[..i], today), acts[i])
  }

  predicate NotBehind(s: Site, act: Act) {
    act.Call? && AtOnce(act.op) ==> Clear(s.queue, OwnId(act.op))
  }

  lemma StepAgrees(s: Site, act: Act, today: Date)
    requires Separate(s.world) && Agree(s, today) && NotBehind(s, act)
    ensures Separate(Do(s, act, today).world) && Agree(Do(s, act, today), today)
  {
    match act
    case Flush => FlushAgrees(s, today);
    case Call(op) =>
      StepMembers(s.world, op);
      if AtOnce(op) {
        ClearAgrees(s, op, today);
      } else if op.List? {
        ListAgrees(s, op, today);
      } else {
        QueuedAgrees(s, op.id, op.event, today);
      }
  }

  /**
   * Memory and table agree: over every run of a day, whatever calls and flushes interleave, the key
   * table holds, once the queue is written, exactly the keys in memory, each as it is, provided no
   * management call finds an older snapshot of its key still waiting.
   */
  lemma {:induction false} TableFollowsMemory(s: Site, acts: seq<Act>, today: Date)
    requires Separate(s.world) && Agree(s, today) && NeverBehind(s, acts, today)
    ensures Separate(DoAll(s, acts, today).world) && Agree(DoAll(s, acts, today), today)
  {
    if acts != [] {
      var n := |acts| - 1;
      assert NeverBehind(s, Init(acts), today) by {
        assert forall i :: 0 <= i < n ==> Init(acts)[i] == acts[i] && Init(acts)[..i] == acts[..i];
      }
      TableFollowsMemory(s, Init(acts), today);
      assert acts[n] == Last(acts) && acts[..n] == Init(acts) && NotBehind(DoAll(s, acts[..n], today), acts[n]);
      StepAgrees(DoAll(s, Init(acts), today), Last(acts), today);
    }
  }

  /** With a snapshot waiting, the drained row is that of the last one, whatever is written at once. */
  lemma {:induction false} WaitingDecides(a: Db, b: Db, queue: seq<Item>, id: string)
    requires !Clear(queue, id)
    ensures SameRow(DirectAll(a, queue), DirectAll(b, queue), id) && id in DirectAll(a, queue).keys
  {
    var last := Last(queue);
    assert last == queue[|queue| - 1] && forall i :: 0 <= i < |queue| - 1 ==> Init(queue)[i] == queue[i];
    if !(last.KeyItem? && last.id == id) {
      assert !Clear(Init(queue), id);
      WaitingDecides(a, b, Init(queue), id);
    }
  }

  /**
   * When a row that is written at once stays, exactly: nothing of its key is waiting in the queue, or
   * the call changed no column of it. A new key's always does, a deletion in the first case only.
   */
  lemma AgreesExactly(s: Site, op: Op, today: Date)
    requires Separate(s.world) && Agree(s, today) && AtOnce(op)
    ensures Agree(Do(s, Call(op), today), today) <==>
            || Clear(s.queue, OwnId(op)) || op.Add?
            || (op.KeyOp? && Find(s.world.keys, op.id).Some?
                && RowOf(On(Find(s.world.keys, op.id).value, op.event), today).cols
                   == RowOf(Find(s.world.keys, op.id).value, today).cols)
  {
    var id, after := OwnId(op), Do(s, Call(op), today);
    assert RowRight(s.world.keys, Drained(s), id, today);
    if Clear(s.queue, id) {
      ClearAgrees(s, op, today);
    } else {
      WaitingDecides(s.tables, after.tables, s.queue, id);
      OwnAfter(s.world, op);
      forall x | x != id
        ensures RowRight(after.world.keys, Drained(after), x, today)
      {
        assert RowRight(s.world.keys, Drained(s), x, today);
        OtherRowsKept(s, op, today, x);
      }
      assert Agree(after, today) <==> RowRight(after.world.keys, Drained(after), id, today);
    }
  }

  /** A management call on a key in memory, as far as its own record goes. */
  lemma OwnAfter(w: World, op: Op)
    requires Separate(w) && AtOnce(op)
    ensures Find(w.keys, OwnId(op)).Some? ==>
              Find(Step(w, op).keys, OwnId(op)) ==
              match op
              case KeyOp(_, e) => Some(On(Find(w.keys, OwnId(op)).value, e))
              case Remove(_) => None
              case _ => Find(w.keys, OwnId(op))
  {
    match op
    case KeyOp(id, e) => ApplyFind(w.keys, id, e, id);
    case Remove(id) => DropFind(w.keys, id, id);
    case _ =>
  }

  /** The tables of a gateway that has one key and nothing waiting. */
  function OneKey(k: Key, db: Db, today: Date): Site {
    Site(World([k], []), [], db.(keys := map[k.id := RowOf(k, today)]))
  }

  lemma OneKeyAgrees(k: Key, db: Db, today: Date)
    ensures Separate(OneKey(k, db, today).world) && Agree(OneKey(k, db, today), today)
  {
    var s := OneKey(k, db, today);
    forall id
      ensures RowRight(s.world.keys, Drained(s), id, today)
    {
      assert Init([k]) == [] && Find([], id) == None;
    }
  }

  /** A success leaves the key as it then is in memory, and its snapshot in the queue. */
  lemma SuccessQueued(k: Key, db: Db, today: Date, now: int)
    ensures var k1 := OnSuccess(k, now);
            Do(OneKey(k, db, today), Call(KeyOp(k.id, Success(now))), today)
            == Site(World([k1], []), [ItemOf(k1, today)], OneKey(k, db, today).tables)
  {
    var k1 := OnSuccess(k, now);
    assert Init([k]) == [] && Init([k1]) == [];
    assert Find([k], k.id) == Some(k) && Apply([k], k.id, Success(now)) == [k1];
  }

  /** With its snapshot in the queue, the row of a key is that snapshot once the queue is written. */
  lemma OneWaiting(tables: Db, k: Key, today: Date)
    ensures var after := DirectAll(tables, [ItemOf(k, today)]);
            k.id in after.keys && after.keys[k.id].cols == RowOf(k, today).cols
  {
    assert Init([ItemOf(k, today)]) == [];
  }

  /**
   * A key that is switched off while its last success is still in the queue is INACTIVE in memory, but
   * "active" in the table once the queue is written, and ACTIVE again after a restart.
   */
  lemma SwitchedOffReturns(k: Key, db: Db, today: Date, now: int)
    ensures var s1 := Do(OneKey(k, db, today), Call(KeyOp(k.id, Success(now))), today);
            var s2 := Do(Do(s1, Call(KeyOp(k.id, SetStatus(Inactive))), today), Flush, today);
            && Find(s2.world.keys, k.id).Some? && Find(s2.world.keys, k.id).value.status == Inactive
            && k.id in s2.tables.keys && KeyIn(k.id, s2.tables.keys[k.id], now).status == Active
  {
    SuccessQueued(k, db, today, now);
    var k1 := OnSuccess(k, now);
    var off := Do(Site(World([k1], []), [ItemOf(k1, today)], OneKey(k, db, today).tables),
                  Call(KeyOp(k.id, SetStatus(Inactive))), today);
    SetOff(k1);
    OneWaiting(off.tables, k1, today);
  }

  lemma SetOff(k: Key)
    ensures var off := k.(status := Inactive);
            Step(World([k], []), KeyOp(k.id, SetStatus(Inactive))) == World([off], []) && Find([off], k.id) == Some(off)
  {
    var off := k.(status := Inactive);
    assert Init([k]) == [] && Init([off]) == [];
    assert Find([k], k.id) == Some(k) && Apply([k], k.id, SetStatus(Inactive)) == [off];
  }

  /** A key that is deleted while its last success is still in the queue has its row back once that is written. */
  lemma DeletedRowReturns(k: Key, db: Db, today: Date, now: int)
    ensures var s1 := Do(OneKey(k, db, today), Call(KeyOp(k.id, Success(now))), today);
            var s2 := Do(Do(s1, Call(Remove(k.id)), today), Flush, today);
            s2.world.keys == [] && k.id in s2.tables.keys
  {
    SuccessQueued(k, db, today, now);
    var k1 := OnSuccess(k, now);
    assert Init([k1]) == [];
    assert Find([k1], k.id) == Some(k1) && Drop([k1], k.id) == [];
    OneWaiting(DeleteKey(OneKey(k, db, today).tables, k.id), k1, today);
  }
}

/** The rows a request queues keep memory and table in step. */
module RequestPersistence {
  import opened Prelude
  import opened ApiKeys
  import opened Tables
  import opened KeyLifecycle
  import opened KeyRows
  import opened QuotaSpec
  import opened FailoverSpec
  import opened Persistence

  /** A usage record of `k`, the row it counts in and the snapshot, on keys `ks` that hold `k` or have lost it. */
  lemma BookedRowsRight(m: Monitor, ks: Keys, t: Db, k: Key, e: Event, rec: Rec, now: int, x: string)
    requires DistinctIds(ks) && (Find(ks, k.id).Some? ==> Find(ks, k.id).value == k) && RowRight(ks, t, x, rec.date)
    ensures var (after, rows) := Booked(m, ks, k, e, rec, now); RowRight(after, DirectAll(t, rows), x, rec.date)
  {
    var k2, rows := BookedRows(m, ks, k, e, rec, now);
    var ks1 := Apply(ks, k.id, e);
    BookedAs(ks, k.id, e, k2);
    ApplyFind(ks, k.id, e, x);
    LastSnapshotRight(t, Snapshot(ks1, k.id, rec.date), StatsOf(k.provider, k.id, rec), k.id, rows, x);
    SnapshotWrites(t, ks1, k.id, x, rec.date);
  }

  lemma BookedRows(m: Monitor, ks: Keys, k: Key, e: Event, rec: Rec, now: int) returns (k2: Key, rows: seq<Item>)
    ensures Booked(m, ks, k, e, rec, now) == (Store(Apply(ks, k.id, e), k2), rows)
    ensures rows == Snapshot(Apply(ks, k.id, e), k.id, rec.date)
                    + [StatsOf(k.provider, k.id, rec), KeyItem(k.id, RowOf(k2, rec.date))]
    ensures k2.id == k.id
  {
    k2 := Record(m, if Find(ks, k.id).Some? then On(k, e) else k, rec, now);
    rows := Booked(m, ks, k, e, rec, now).1;
  }

  lemma LastSnapshotRight(t: Db, first: seq<Item>, stats: Item, id: string, rows: seq<Item>, x: string)
    requires stats.StatsItem? && |rows| >= 2 && rows == first + [stats, Last(rows)]
    requires Last(rows).KeyItem? && Last(rows).id == id
    ensures x != id ==> SameRow(DirectAll(t, rows), DirectAll(t, first), x)
    ensures id in DirectAll(t, rows).keys && DirectAll(t, rows).keys[id].cols == Last(rows).row.cols
  {
    assert Init(rows) == first + [stats] && Init(first + [stats]) == first;
  }

  /**
   * Whatever an attempt comes to, and whether or not its key was deleted meanwhile: if the key table,
   * once the queue is written, held what is in memory, it does so with the attempt's rows as well.
   */
  lemma AttemptKeepsTable(m: Monitor, ks: Keys, t: Db, k: Key, ev: Ev, today: Date, x: string)
    requires DistinctIds(ks) && k.id == ev.id && (Find(ks, k.id).Some? ==> Find(ks, k.id).value == k)
    requires (ev.Failed? || ev.Undecryptable? ==> ev.today == today) && (ev.Done? ==> ev.rec.date == today)
    requires RowRight(ks, t, x, today)
    ensures var (after, rows) := Effect(m, ks, k, ev); RowRight(after, DirectAll(t, rows), x, today)
  {
    match ev
    case Undecryptable(_, _, now) =>
      SnapshotWrites(t, Apply(ks, k.id, Failure(AuthFailed, now)), k.id, x, today);
      ApplyFind(ks, k.id, Failure(AuthFailed, now), x);
    case Failed(_, _, category, _, now) =>
      BookedRowsRight(m, ks, t, k, Failure(category, now), ErrorRec(category, today), now, x);
    case Done(_, rec, _, now) => BookedRowsRight(m, ks, t, k, Success(now), rec, now, x);
    case _ =>
  }

  /** A booked attempt, and no other, adds a row to the statistics, with its tokens, its cost and at most one error. */
  lemma AttemptCounts(m: Monitor, ks: Keys, k: Key, ev: Ev, rows: seq<Item>)
    requires k.id == ev.id && rows == Effect(m, ks, k, ev).1
    ensures forall row :: row in rows && row.StatsItem? ==>
              && (ev.Failed? || ev.Done?) && row.pk.keyId == k.id && row.pk.provider == k.provider
              && (ev.Failed? ==> row.pk.date == ev.today && row.delta == Stat(1, 1, 0, 0, 0.0))
              && (ev.Done? ==>
                    row.pk.date == ev.rec.date
                    && row.delta == Stat(1, if ev.rec.statusCode >= 400 then 1 else 0, ev.rec.prompt,
                                         ev.rec.completion, ev.rec.cost))
    ensures (ev.Failed? || ev.Done?) ==> exists row :: row in rows && row.StatsItem?
  {
    if ev.Failed? || ev.Done? {
      assert rows[|rows| - 2].StatsItem? && rows[|rows| - 2] in rows;
    }
  }
}
