/** What the tables hold after any sequence of writes and deletions, by position in the sequence. */
module TableContents {
  import opened Prelude
  import opened Tables

  /** A write, queued or direct, or the deletion of a key. */
  datatype Change = Write(item: Item) | Erase(id: string)

  function Changed(db: Db, changes: seq<Change>): Db {
    if changes == [] then db
    else match Last(changes)
      case Write(item) => Direct(Changed(db, Init(changes)), item)
      case Erase(id) => DeleteKey(Changed(db, Init(changes)), id)
  }

  predicate Snaps(change: Change, id: string) {
    change.Write? && change.item.KeyItem? && change.item.id == id
  }

  predicate Touches(change: Change, id: string) { Snaps(change, id) || change == Erase(id) }

  /** No change from `from` on has to do with the key. */
  predicate Quiet(changes: seq<Change>, from: nat, id: string) {
    forall j :: from <= j < |changes| ==> !Touches(changes[j], id)
  }

  lemma QuietInit(changes: seq<Change>, from: nat, id: string)
    requires from < |changes| && Quiet(changes, from, id)
    ensures Quiet(Init(changes), from, id) && !Touches(Last(changes), id)
  {
    assert forall j :: 0 <= j < |changes| - 1 ==> Init(changes)[j] == changes[j];
    assert Last(changes) == changes[|changes| - 1];
  }

  lemma OtherChange(db: Db, change: Change, id: string)
    requires !Touches(change, id)
    ensures var after := Changed(db, [change]);
            (id in after.keys <==> id in db.keys) && (id in db.keys ==> after.keys[id] == db.keys[id])
  {
    assert Init([change]) == [];
  }

  /** A key's row is as its last change left it. */
  lemma {:induction false} QuietKeeps(db: Db, changes: seq<Change>, n: nat, id: string)
    requires n <= |changes| && Quiet(changes, n, id)
    ensures var was, now := Changed(db, changes[..n]), Changed(db, changes);
            (id in now.keys <==> id in was.keys) && (id in now.keys ==> now.keys[id] == was.keys[id])
  {
    if n == |changes| {
      assert changes[..n] == changes;
    } else {
      QuietInit(changes, n, id);
      QuietKeeps(db, Init(changes), n, id);
      assert Init(changes)[..n] == changes[..n];
      OtherChange(Changed(db, Init(changes)), Last(changes), id);
      assert Init([Last(changes)]) == [];
    }
  }

  /**
   * The row of a key whose last change is a snapshot, exactly: every column but the creation time
   * is the snapshot's.
   */
  lemma {:induction false} RowIsLastSnapshot(db: Db, changes: seq<Change>, id: string, i: nat)
    requires i < |changes| && Snaps(changes[i], id) && Quiet(changes, i + 1, id)
    ensures id in Changed(db, changes).keys && Changed(db, changes).keys[id].cols == changes[i].item.row.cols
  {
    QuietKeeps(db, changes, i + 1, id);
    assert Init(changes[..i + 1]) == changes[..i];
  }

  /** A deleted key, or one never saved, has no row until a snapshot of it is written. */
  lemma {:induction false} NoRow(db: Db, changes: seq<Change>, id: string, n: nat)
    requires n <= |changes| && Quiet(changes, n, id)
    requires if n == 0 then id !in db.keys else changes[n - 1] == Erase(id)
    ensures id !in Changed(db, changes).keys
  {
    QuietKeeps(db, changes, n, id);
    if n > 0 {
      assert Init(changes[..n]) == changes[..n - 1];
    } else {
      assert changes[..0] == [];
    }
  }

  predicate Unerased(changes: seq<Change>, from: nat, id: string) {
    forall j :: from <= j < |changes| ==> changes[j] != Erase(id)
  }

  lemma {:induction false} BirthKept(db: Db, changes: seq<Change>, id: string, n: nat)
    requires n <= |changes| && Unerased(changes, n, id) && id in Changed(db, changes[..n]).keys
    ensures id in Changed(db, changes).keys
    ensures Changed(db, changes).keys[id].createdAt == Changed(db, changes[..n]).keys[id].createdAt
  {
    if n == |changes| {
      assert changes[..n] == changes;
    } else {
      assert forall j :: 0 <= j < |changes| - 1 ==> Init(changes)[j] == changes[j];
      assert Last(changes) == changes[|changes| - 1];
      assert Init(changes)[..n] == changes[..n];
      BirthKept(db, Init(changes), id, n);
    }
  }

  /** The creation time of a row that was there is never overwritten. */
  lemma {:induction false} BirthOfOld(db: Db, changes: seq<Change>, id: string)
    requires id in db.keys && Unerased(changes, 0, id)
    ensures id in Changed(db, changes).keys && Changed(db, changes).keys[id].createdAt == db.keys[id].createdAt
  {
    assert changes[..0] == [];
    BirthKept(db, changes, id, 0);
  }

  /** Otherwise it is that of the first snapshot since the deletion, or of the first at all. */
  lemma {:induction false} BirthIsFirstSnapshot(db: Db, changes: seq<Change>, id: string, n: nat, f: nat)
    requires n <= f < |changes| && Snaps(changes[f], id)
    requires if n == 0 then id !in db.keys else changes[n - 1] == Erase(id)
    requires forall j :: n <= j < f ==> !Touches(changes[j], id)
    requires Unerased(changes, f + 1, id)
    ensures id in Changed(db, changes).keys
    ensures Changed(db, changes).keys[id].createdAt == changes[f].item.row.createdAt
  {
    NoRow(db, changes[..f], id, n);
    assert Init(changes[..f + 1]) == changes[..f];
    BirthKept(db, changes, id, f + 1);
  }

  function Writes(items: seq<Item>): (r: seq<Change>)
    ensures |r| == |items| && forall i :: 0 <= i < |items| ==> r[i] == Write(items[i])
  {
    seq(|items|, i requires 0 <= i < |items| => Write(items[i]))
  }

  lemma {:induction false} DirectIsChanged(db: Db, items: seq<Item>)
    ensures DirectAll(db, items) == Changed(db, Writes(items))
  {
    if items != [] {
      DirectIsChanged(db, Init(items));
      assert Init(Writes(items)) == Writes(Init(items));
    }
  }

  /** So of a queue's snapshots of a key the last decides its columns, and the first at most its creation time. */
  lemma {:induction false} QueuedRowExactly(db: Db, items: seq<Item>, id: string, first: nat, last: nat)
    requires first <= last < |items|
    requires items[first].KeyItem? && items[first].id == id && items[last].KeyItem? && items[last].id == id
    requires forall j :: 0 <= j < |items| && (j < first || last < j) && items[j].KeyItem? ==> items[j].id != id
    ensures id in DirectAll(db, items).keys
    ensures DirectAll(db, items).keys[id]
            == KeyRow(if id in db.keys then db.keys[id].createdAt else items[first].row.createdAt, items[last].row.cols)
  {
    var changes := Writes(items);
    DirectIsChanged(db, items);
    RowIsLastSnapshot(db, changes, id, last);
    if id in db.keys {
      BirthOfOld(db, changes, id);
    } else {
      BirthIsFirstSnapshot(db, changes, id, 0, first);
    }
  }

  function LogRows(items: seq<Item>): seq<LogRow> {
    if items == [] then []
    else LogRows(Init(items)) + (match Last(items) case LogItem(row) => [row] case _ => [])
  }

  /** The log is what it was, followed by the queued rows in order. */
  lemma {:induction false} LogsExactly(db: Db, items: seq<Item>)
    ensures DirectAll(db, items).logs == db.logs + LogRows(items)
  {
    if items != [] {
      LogsExactly(db, Init(items));
    }
  }

  /** What the queue adds to one whole-numbered column of a statistics row, and to its cost. */
  function Added(items: seq<Item>, pk: StatKey, column: Stat -> int): int {
    if items == [] then 0
    else
      Added(Init(items), pk, column)
      + (if Last(items).StatsItem? && Last(items).pk == pk then column(Last(items).delta) else 0)
  }

  function CostAdded(items: seq<Item>, pk: StatKey): real {
    if items == [] then 0.0
    else
      CostAdded(Init(items), pk)
      + (if Last(items).StatsItem? && Last(items).pk == pk then Last(items).delta.cost else 0.0)
  }

  /** Each of the five columns of a statistics row is what it was, plus that column of the queued rows. */
  lemma {:induction false} StatsExactly(db: Db, items: seq<Item>, pk: StatKey)
    ensures StatAt(DirectAll(db, items), pk) ==
            var was := StatAt(db, pk);
            Stat(was.requests + Added(items, pk, (s: Stat) => s.requests),
                 was.errors + Added(items, pk, (s: Stat) => s.errors),
                 was.prompt + Added(items, pk, (s: Stat) => s.prompt),
                 was.completion + Added(items, pk, (s: Stat) => s.completion),
                 was.cost + CostAdded(items, pk))
  {
    if items != [] {
      StatsExactly(db, Init(items), pk);
    }
  }
}
