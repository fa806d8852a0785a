/** Migration 000002 (migrations/000002_target_seen.{up,down}.sql) as statements that alter seen_items in
    place inside a transaction. */
module Migration {
  import opened Calendar
  import opened Lists
  import opened StoreModel

  /** A row; target is absent while the column is. */
  datatype Column = NoColumn | Value(text: string)
  datatype Row = Row(sync: string, target: Column, hash: string, watchedAt: Instant)

  datatype Pk = NoPk | SyncHash | SyncTargetHash

  predicate SameKey(pk: Pk, a: Row, b: Row) {
    match pk
    case NoPk => false
    case SyncHash => a.sync == b.sync && a.hash == b.hash
    case SyncTargetHash => a.sync == b.sync && a.target == b.target && a.hash == b.hash
  }

  ghost predicate Unique(rows: seq<Row>, pk: Pk) {
    forall i, j :: 0 <= i < j < |rows| ==> !SameKey(pk, rows[i], rows[j])
  }

  /** The table before and after the migration. */
  ghost predicate IsV1(rows: seq<Row>, pk: Pk) {
    pk == SyncHash && Unique(rows, pk) && forall i :: 0 <= i < |rows| ==> rows[i].target.NoColumn?
  }

  ghost predicate IsV2(rows: seq<Row>, pk: Pk) {
    pk == SyncTargetHash && Unique(rows, pk) && forall i :: 0 <= i < |rows| ==> rows[i].target.Value?
  }

  function WithTarget(rows: seq<Row>, target: Column): seq<Row> {
    if rows == [] then [] else WithTarget(Init(rows), target) + [Last(rows).(target := target)]
  }

  lemma {:induction false} WithTargetAt(rows: seq<Row>, target: Column)
    ensures |WithTarget(rows, target)| == |rows|
    ensures forall i :: 0 <= i < |rows| ==> WithTarget(rows, target)[i] == rows[i].(target := target)
  {
    if rows != [] {
      WithTargetAt(Init(rows), target);
    }
  }

  class SeenItems {
    var rows: seq<Row>
    var pk: Pk

    /** ADD COLUMN target with a default, or DROP COLUMN. */
    method SetColumn(target: Column)
      modifies this`rows
      ensures rows == WithTarget(old(rows), target)
    {
      var done: seq<Row> := [];
      assert rows[..|rows|] == rows;
      for i := 0 to |rows|
        invariant rows == old(rows) && done == WithTarget(rows[..i], target)
      {
        assert Init(rows[..i + 1]) == rows[..i];
        done := done + [rows[i].(target := target)];
      }
      rows := done;
    }

    method DropPk()
      modifies this`pk
      ensures pk == NoPk
    {
      pk := NoPk;
    }

    /** ADD PRIMARY KEY fails, and leaves the table without one, when two rows share the key. */
    method AddPk(k: Pk) returns (ok: bool)
      modifies this`pk
      ensures ok <==> Unique(rows, k)
      ensures pk == if ok then k else old(pk)
    {
      for i := 0 to |rows|
        invariant forall a, b :: 0 <= a < b < |rows| && a < i ==> !SameKey(k, rows[a], rows[b])
        invariant pk == old(pk)
      {
        for j := i + 1 to |rows|
          invariant forall b :: i < b < j ==> !SameKey(k, rows[i], rows[b])
        {
          if SameKey(k, rows[i], rows[j]) {
            return false;
          }
        }
      }
      pk := k;
      ok := true;
    }

    /** The up migration: it cannot fail on a table that satisfied its old key, keeps every row with its sync,
        hash and date in place, and gives each the empty target. */
    method Up() returns (ok: bool)
      requires IsV1(rows, pk)
      modifies this
      ensures ok && IsV2(rows, pk) && rows == WithTarget(old(rows), Value(""))
    {
      SetColumn(Value(""));
      WithTargetAt(old(rows), Value(""));
      DropPk();
      ok := AddPk(SyncTargetHash);
    }

    /** The down migration succeeds exactly when no two rows share sync and hash, and then drops no row; when it
        fails the transaction restores the table. */
    method Down() returns (ok: bool)
      requires IsV2(rows, pk)
      modifies this
      ensures ok <==> Unique(old(rows), SyncHash)
      ensures ok ==> IsV1(rows, pk) && rows == WithTarget(old(rows), NoColumn)
      ensures !ok ==> rows == old(rows) && pk == old(pk)
    {
      var savedRows, savedPk := rows, pk;
      DropPk();
      SetColumn(NoColumn);
      WithTargetAt(old(rows), NoColumn);
      ok := AddPk(SyncHash);
      if !ok {
        rows, pk := savedRows, savedPk;
      }
    }
  }

  /** Down after up is the identity on every old table, and always succeeds. */
  lemma {:induction false} UpThenDown(rows: seq<Row>)
    requires IsV1(rows, SyncHash)
    ensures WithTarget(WithTarget(rows, Value("")), NoColumn) == rows
    ensures Unique(WithTarget(rows, Value("")), SyncHash)
  {
    WithTargetAt(rows, Value(""));
    WithTargetAt(WithTarget(rows, Value("")), NoColumn);
  }

  /** The table as the store's lookups see it. */
  ghost predicate Holds(rows: seq<Row>, k: RowKey) {
    exists i :: 0 <= i < |rows| && rows[i].sync == k.sync && rows[i].target == Value(k.target) && rows[i].hash == k.hash
  }

  /** A backfilled row answers a lookup exactly for the empty connection name: upgrading makes nothing seen for any
      other. */
  lemma UpMarksExactly(rows: seq<Row>, k: RowKey)
    ensures Holds(WithTarget(rows, Value("")), k)
            <==> k.target == "" && exists i :: 0 <= i < |rows| && rows[i].sync == k.sync && rows[i].hash == k.hash
  {
    WithTargetAt(rows, Value(""));
    var up := WithTarget(rows, Value(""));
    if i :| k.target == "" && 0 <= i < |rows| && rows[i].sync == k.sync && rows[i].hash == k.hash {
      assert up[i].sync == k.sync && up[i].target == Value(k.target) && up[i].hash == k.hash;
    }
  }
}
