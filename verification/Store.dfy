/** Cursors and per-target seen rows (internal/store/store.go). */
module StoreModel {
  import opened Calendar
  import opened Model
  import opened Lists

  /** Primary key of seen_items after migration 000002. */
  datatype RowKey = RowKey(sync: string, target: string, hash: string)

  /** The contents of sync_state and seen_items. */
  datatype Db = Db(cursors: map<string, Instant>, rows: map<RowKey, Instant>)

  /** How a write answers: an error says nothing about whether the write was applied. */
  datatype WriteAnswer = Ack | ErrApplied | ErrDropped

  datatype Answer<T> = Ok(value: T) | Err

  /** The cursor of a sync; a sync that never ran has the zero time. */
  function CursorOf(db: Db, sync: string): Instant {
    if sync in db.cursors then db.cursors[sync] else 0
  }

  /** Where one target's delivery state for one sync lives. The theorems hold of every hash function;
      the program's is the digest of Model.Key. */
  datatype Lane = Lane(sync: string, target: string, hash: WatchItem -> string) {
    function RowOf(it: WatchItem): RowKey {
      RowKey(sync, target, hash(it))
    }
  }

  ghost predicate Marked(db: Db, lane: Lane, it: WatchItem) {
    lane.RowOf(it) in db.rows
  }

  function WithCursor(db: Db, sync: string, t: Instant, a: WriteAnswer): Db {
    if a.ErrDropped? then db else db.(cursors := db.cursors[sync := t])
  }

  /** ON CONFLICT DO NOTHING: an existing row keeps its watched_at. */
  function WithRow(db: Db, k: RowKey, at: Instant, a: WriteAnswer): Db {
    if a.ErrDropped? || k in db.rows then db else db.(rows := db.rows[k := at])
  }

  /** The items of a window that target has no row for, in window order. */
  ghost function Fresh(db: Db, lane: Lane, items: seq<WatchItem>): seq<WatchItem> {
    if items == [] then []
    else
      var earlier := Fresh(db, lane, Init(items));
      if Marked(db, lane, Last(items)) then earlier else earlier + [Last(items)]
  }

  lemma {:induction false} FreshIsSubseq(db: Db, lane: Lane, items: seq<WatchItem>)
    ensures Subseq(Fresh(db, lane, items), items)
  {
    if items != [] {
      FreshIsSubseq(db, lane, Init(items));
      SubseqSnoc(Fresh(db, lane, Init(items)), Init(items), Last(items));
      assert Init(items) + [Last(items)] == items;
    }
  }

  lemma {:induction false} FreshMember(db: Db, lane: Lane, items: seq<WatchItem>, it: WatchItem)
    ensures it in Fresh(db, lane, items) <==> it in items && !Marked(db, lane, it)
  {
    if items != [] {
      FreshMember(db, lane, Init(items), it);
      assert items == Init(items) + [Last(items)];
    }
  }

  /** Every occurrence of an unmarked item is kept, so a window may repeat a hash. */
  lemma {:induction false} FreshOccurrences(db: Db, lane: Lane, items: seq<WatchItem>, it: WatchItem)
    ensures multiset(Fresh(db, lane, items))[it] == if Marked(db, lane, it) then 0 else multiset(items)[it]
  {
    if items != [] {
      FreshOccurrences(db, lane, Init(items), it);
      assert items == Init(items) + [Last(items)];
    }
  }

  class Store {
    var cursors: map<string, Instant>
    var rows: map<RowKey, Instant>

    constructor ()
      ensures View() == Db(map[], map[])
    {
      cursors, rows := map[], map[];
    }

    ghost function View(): Db
      reads this
    {
      Db(cursors, rows)
    }

    method LastRun(sync: string, up: bool) returns (r: Answer<Instant>)
      ensures r == if up then Ok(CursorOf(View(), sync)) else Err
    {
      if !up {
        return Err;
      }
      if sync in cursors {
        return Ok(cursors[sync]);
      }
      return Ok(0);
    }

    method SetLastRun(sync: string, t: Instant, a: WriteAnswer) returns (ok: bool)
      modifies this
      ensures View() == WithCursor(old(View()), sync, t, a) && ok == a.Ack?
    {
      if !a.ErrDropped? {
        cursors := cursors[sync := t];
      }
      ok := a.Ack?;
    }

    method Seen(sync: string, target: string, hash: string, up: bool) returns (r: Answer<bool>)
      ensures r == if up then Ok(RowKey(sync, target, hash) in View().rows) else Err
    {
      r := if up then Ok(RowKey(sync, target, hash) in rows) else Err;
    }

    method MarkSeen(sync: string, target: string, hash: string, at: Instant, a: WriteAnswer) returns (ok: bool)
      modifies this
      ensures View() == WithRow(old(View()), RowKey(sync, target, hash), at, a) && ok == a.Ack?
    {
      var k := RowKey(sync, target, hash);
      if !a.ErrDropped? && k !in rows {
        rows := rows[k := at];
      }
      ok := a.Ack?;
    }
  }
}
