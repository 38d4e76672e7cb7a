/** The three tables of db/database.py that the background writer feeds, and the direct writes. */
module Tables {
  import opened Prelude

  datatype LogRow = LogRow(
    ts: int, path: string, httpMethod: string, status: int, provider: string, keyId: string,
    model: string, latencyMs: int, promptTokens: int, completionTokens: int, totalTokens: int,
    cached: bool, error: string)

  datatype StatKey = StatKey(date: Date, provider: string, keyId: string)
  datatype Stat = Stat(requests: int, errors: int, prompt: int, completion: int, cost: real)

  /** The columns of `api_keys` that an upsert overwrites: all but the id and `created_at`. */
  datatype KeyCols = KeyCols(
    provider: string, encryptedKey: string, name: string, providerId: string, note: string,
    baseUrl: Option<string>, grp: string, priority: int, weight: int, maxRpm: int, dailyQuota: int,
    usedToday: int, usedMonth: int, requestsToday: int, requestsMonth: int, errorsToday: int,
    dayStamp: Option<Date>, monthStamp: Option<Month>, status: string, lastTested: Option<int>,
    testResult: Option<string>, testError: Option<string>, lastUsed: int, failureCount: int,
    cooldownUntil: Option<int>, metadataJson: string)

  datatype KeyRow = KeyRow(createdAt: int, cols: KeyCols)

  /** `logs` is in insertion order, the order of its automatic ids. */
  datatype Db = Db(logs: seq<LogRow>, stats: map<StatKey, Stat>, keys: map<string, KeyRow>)

  /** A queued write, tagged with its kind. */
  datatype Item =
    | LogItem(log: LogRow)
    | StatsItem(pk: StatKey, delta: Stat)
    | KeyItem(id: string, row: KeyRow)

  datatype Kind = Logs | Stats | Keys

  function KindOf(item: Item): Kind {
    match item
    case LogItem(_) => Logs
    case StatsItem(_, _) => Stats
    case KeyItem(_, _) => Keys
  }

  function PlusStat(a: Stat, b: Stat): Stat {
    Stat(a.requests + b.requests, a.errors + b.errors, a.prompt + b.prompt, a.completion + b.completion, a.cost + b.cost)
  }

  function InsertLog(db: Db, row: LogRow): Db {
    db.(logs := db.logs + [row])
  }

  /** Insert, or add to the row with the same primary key. */
  function UpsertStats(db: Db, pk: StatKey, delta: Stat): Db {
    db.(stats := db.stats[pk := if pk in db.stats then PlusStat(db.stats[pk], delta) else delta])
  }

  /** The statistics row, zero if there is none. */
  function StatAt(db: Db, pk: StatKey): Stat {
    if pk in db.stats then db.stats[pk] else Stat(0, 0, 0, 0, 0.0)
  }

  /** Insert, or overwrite every column but `created_at`. */
  function UpsertKey(db: Db, id: string, row: KeyRow): Db {
    db.(keys := db.keys[id := if id in db.keys then db.keys[id].(cols := row.cols) else row])
  }

  function DeleteKey(db: Db, id: string): Db {
    db.(keys := db.keys - {id})
  }

  /** The synchronous method for one item. */
  function Direct(db: Db, item: Item): Db {
    match item
    case LogItem(row) => InsertLog(db, row)
    case StatsItem(pk, delta) => UpsertStats(db, pk, delta)
    case KeyItem(id, row) => UpsertKey(db, id, row)
  }

  /** The synchronous methods run one by one, in order. */
  function DirectAll(db: Db, items: seq<Item>): Db {
    if items == [] then db else Direct(DirectAll(db, Init(items)), Last(items))
  }

  /** The items of one kind, in order. */
  function Pick(items: seq<Item>, kind: Kind): seq<Item> {
    if items == [] then []
    else if KindOf(Last(items)) == kind then Pick(Init(items), kind) + [Last(items)]
    else Pick(Init(items), kind)
  }

  /** What a flush does: all logs, then all statistics, then all keys. */
  function Grouped(db: Db, items: seq<Item>): Db {
    DirectAll(DirectAll(DirectAll(db, Pick(items, Logs)), Pick(items, Stats)), Pick(items, Keys))
  }

  ghost predicate SameTable(a: Db, b: Db, kind: Kind) {
    match kind
    case Logs => a.logs == b.logs
    case Stats => a.stats == b.stats
    case Keys => a.keys == b.keys
  }

  lemma OneWrite(a: Db, b: Db, item: Item, kind: Kind)
    requires SameTable(a, b, kind)
    ensures KindOf(item) == kind ==> SameTable(Direct(a, item), Direct(b, item), kind)
    ensures KindOf(item) != kind ==> SameTable(Direct(a, item), b, kind)
  {
  }

  /** A table sees only the items of its own kind. */
  lemma {:induction false} OwnKindOnly(a: Db, b: Db, items: seq<Item>, kind: Kind)
    requires SameTable(a, b, kind)
    ensures SameTable(DirectAll(a, items), DirectAll(b, Pick(items, kind)), kind)
  {
    if items != [] {
      OwnKindOnly(a, b, Init(items), kind);
      OneWrite(DirectAll(a, Init(items)), DirectAll(b, Pick(Init(items), kind)), Last(items), kind);
      if KindOf(Last(items)) == kind {
        assert Init(Pick(items, kind)) == Pick(Init(items), kind) && Last(Pick(items, kind)) == Last(items);
      }
    }
  }

  lemma {:induction false} OtherKindsUntouched(db: Db, items: seq<Item>, kind: Kind)
    requires Pick(items, kind) == []
    ensures SameTable(DirectAll(db, items), db, kind)
  {
    OwnKindOnly(db, db, items, kind);
  }

  lemma {:induction false} PickTwice(items: seq<Item>, kind: Kind, other: Kind)
    ensures Pick(Pick(items, kind), other) == if kind == other then Pick(items, kind) else []
  {
    if items != [] {
      PickTwice(Init(items), kind, other);
      if KindOf(Last(items)) == kind {
        assert Init(Pick(items, kind)) == Pick(Init(items), kind) && Last(Pick(items, kind)) == Last(items);
      }
    }
  }

  /** Regrouping by kind changes nothing. */
  lemma {:induction false} GroupedIsDirect(db: Db, items: seq<Item>)
    ensures Grouped(db, items) == DirectAll(db, items)
  {
    var logs, stats, keys := Pick(items, Logs), Pick(items, Stats), Pick(items, Keys);
    var d1 := DirectAll(db, logs);
    var d2 := DirectAll(d1, stats);
    var d3 := DirectAll(d2, keys);
    PickTwice(items, Logs, Stats);
    PickTwice(items, Logs, Keys);
    PickTwice(items, Stats, Logs);
    PickTwice(items, Stats, Keys);
    PickTwice(items, Keys, Logs);
    PickTwice(items, Keys, Stats);
    OtherKindsUntouched(db, logs, Stats);
    OtherKindsUntouched(db, logs, Keys);
    OtherKindsUntouched(d1, stats, Logs);
    OtherKindsUntouched(d1, stats, Keys);
    OtherKindsUntouched(d2, keys, Logs);
    OtherKindsUntouched(d2, keys, Stats);
    OwnKindOnly(db, db, items, Logs);
    OwnKindOnly(db, d1, items, Stats);
    OwnKindOnly(db, d2, items, Keys);
  }

  /** A key has a row after some writes exactly if it had one before or one of them is its snapshot. */
  lemma {:induction false} RowThere(db: Db, items: seq<Item>, id: string)
    ensures id in DirectAll(db, items).keys <==>
            id in db.keys || exists i :: 0 <= i < |items| && items[i].KeyItem? && items[i].id == id
  {
    if items != [] {
      RowThere(db, Init(items), id);
      assert items[|items| - 1] == Last(items);
      assert forall i :: 0 <= i < |items| - 1 ==> items[i] == Init(items)[i];
    }
  }

  lemma {:induction false} DirectAllConcat(db: Db, a: seq<Item>, b: seq<Item>)
    ensures DirectAll(db, a + b) == DirectAll(DirectAll(db, a), b)
  {
    if b == [] {
      assert a + b == a;
    } else {
      assert Init(a + b) == a + Init(b);
      DirectAllConcat(db, a, Init(b));
    }
  }
}

module BatchDatabase {
  import opened Prelude
  import opened Tables

  /** The writer's queue and events, and the tables; each locked section is one assignment group. */
  class Database {
    var tables: Db
    var pending: seq<Item>
    var wake: bool
    var flushWait: bool
    var flushDone: bool

    constructor (tables: Db)
      ensures this.tables == tables && pending == [] && !wake && !flushWait && !flushDone
    {
      this.tables := tables;
      pending, wake, flushWait, flushDone := [], false, false, false;
    }

    method InsertLog(row: LogRow)
      modifies this`tables
      ensures tables == Tables.InsertLog(old(tables), row)
    {
      tables := tables.(logs := tables.logs + [row]);
    }

    method UpsertStats(pk: StatKey, delta: Stat)
      modifies this`tables
      ensures tables == Tables.UpsertStats(old(tables), pk, delta)
    {
      var row := delta;
      if pk in tables.stats {
        row := PlusStat(tables.stats[pk], delta);
      }
      tables := tables.(stats := tables.stats[pk := row]);
    }

    method UpsertKey(id: string, row: KeyRow)
      modifies this`tables
      ensures tables == Tables.UpsertKey(old(tables), id, row)
    {
      var stored := row;
      if id in tables.keys {
        stored := KeyRow(tables.keys[id].createdAt, row.cols);
      }
      tables := tables.(keys := tables.keys[id := stored]);
    }

    method DeleteKey(id: string)
      modifies this`tables
      ensures tables == Tables.DeleteKey(old(tables), id)
    {
      tables := tables.(keys := map k | k in tables.keys && k != id :: tables.keys[k]);
    }

    /** `enqueue_log`, `enqueue_stats` and `enqueue_key`: append under the lock, then wake the writer. */
    method Enqueue(item: Item)
      modifies this`pending, this`wake
      ensures pending == old(pending) + [item] && wake
    {
      pending := pending + [item];
      wake := true;
    }

    method ExecuteMany(rows: seq<Item>)
      modifies this`tables
      ensures tables == DirectAll(old(tables), rows)
    {
      var i := 0;
      while i < |rows|
        invariant 0 <= i <= |rows|
        invariant tables == DirectAll(old(tables), rows[..i])
      {
        assert Init(rows[..i + 1]) == rows[..i];
        match rows[i] {
          case LogItem(row) => InsertLog(row);
          case StatsItem(pk, delta) => UpsertStats(pk, delta);
          case KeyItem(id, row) => UpsertKey(id, row);
        }
        i := i + 1;
      }
      assert rows[..i] == rows;
    }

    /** `_write_flush`: take the whole queue, split it by kind, write each kind, commit. */
    method WriteFlush()
      modifies this`pending, this`tables
      ensures pending == []
      ensures tables == Grouped(old(tables), old(pending)) == DirectAll(old(tables), old(pending))
    {
      GroupedIsDirect(tables, pending);
      if pending == [] {
        return;
      }
      var items := pending;
      pending := [];
      var logs, stats, keys: seq<Item> := [], [], [];
      var i := 0;
      while i < |items|
        invariant 0 <= i <= |items|
        invariant logs == Pick(items[..i], Logs)
        invariant stats == Pick(items[..i], Stats)
        invariant keys == Pick(items[..i], Keys)
      {
        assert Init(items[..i + 1]) == items[..i];
        match KindOf(items[i]) {
          case Logs => logs := logs + [items[i]];
          case Stats => stats := stats + [items[i]];
          case Keys => keys := keys + [items[i]];
        }
        i := i + 1;
      }
      assert items[..i] == items;
      ExecuteMany(logs);
      ExecuteMany(stats);
      ExecuteMany(keys);
    }

    /** One pass of `_batch_writer_loop` after `wait` returns, with nobody interleaving. */
    method WriterPass()
      modifies this
      ensures pending == [] && tables == DirectAll(old(tables), old(pending))
      ensures !wake && !flushWait && flushDone == (old(flushDone) || old(flushWait))
    {
      wake := false;
      WriteFlush();
      var wait := flushWait;
      flushWait := false;
      if wait {
        flushDone := true;
      }
    }
  }
}
