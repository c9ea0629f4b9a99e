/**
 * The behavior-session upload queue: one table keyed by behavior session id,
 * whose rows record when the id was added and two flags, `processing` and
 * `uploaded`, each unset (NULL), 0 or 1.
 *
 * The table is the `queue` field of an `UploadQueue` object, a map from id to
 * row; each SQL statement is one atomic step on it, described by a function
 * of the map below.
 */
module MtrainUpload {
  import opened Wrappers

  /** One row of the table; `None` is a NULL flag. */
  datatype Row = Row(added: int, processing: Option<int>, uploaded: Option<int>)

  type Table = map<int, Row>

  /** The row a new id gets: the current timestamp and both flags NULL, so
      the id is outstanding. */
  function NewRow(now: int): (row: Row)
    ensures row.added == now && row.processing.None? && row.uploaded.None?
    ensures IsOutstanding(row)
  {
    Row(now, None, None)
  }

  /** A flag that is 0 or NULL. */
  predicate Unset(flag: Option<int>)
  {
    flag == None || flag == Some(0)
  }

  /** The `where` clause of the outstanding query: a row marked as
      processing or as uploaded is not outstanding. */
  predicate IsOutstanding(row: Row)
    ensures IsOutstanding(row) ==> row.processing != Some(1) && row.uploaded != Some(1)
  {
    Unset(row.processing) && Unset(row.uploaded)
  }

  /** The ids the outstanding query selects: only stored ids, every id
      whose row is still as inserted, and no id marked as uploaded. */
  function Outstanding(t: Table): (r: set<int>)
    ensures r <= t.Keys
    ensures forall id :: id in t && t[id] == NewRow(t[id].added) ==> id in r
    ensures forall id :: id in t && t[id].uploaded == Some(1) ==> id !in r
  {
    set id | id in t && IsOutstanding(t[id])
  }

  // ---------------------------------------------------------------------------
  // The statements, as functions of the table

  /** `INSERT OR IGNORE`: a new id gets a fresh row; a stored id keeps its row. */
  function Inserted(t: Table, id: int, now: int): (r: Table)
    ensures r.Keys == t.Keys + {id}
    ensures forall k :: k in t ==> r[k] == t[k]
    ensures id !in t ==> r[id] == Row(now, None, None)
  {
    if id in t then t else t[id := NewRow(now)]
  }

  /** `DELETE ... WHERE behavior_session_id = id`. */
  function Removed(t: Table, id: int): (r: Table)
    ensures r.Keys == t.Keys - {id}
    ensures forall k :: k in r ==> r[k] == t[k]
  {
    t - {id}
  }

  /** `UPDATE ... SET processing = 1 WHERE behavior_session_id = id`: no row
      changes when the id is absent. */
  function ProcessingSet(t: Table, id: int): (r: Table)
    ensures r.Keys == t.Keys
    ensures forall k :: k in t && k != id ==> r[k] == t[k]
    ensures id in t ==> r[id] == Row(t[id].added, Some(1), t[id].uploaded)
  {
    if id in t then t[id := t[id].(processing := Some(1))] else t
  }

  /** `UPDATE ... SET processing = 0, uploaded = 1 WHERE behavior_session_id = id`:
      no row changes when the id is absent. */
  function UploadedSet(t: Table, id: int): (r: Table)
    ensures r.Keys == t.Keys
    ensures forall k :: k in t && k != id ==> r[k] == t[k]
    ensures id in t ==> r[id] == Row(t[id].added, Some(0), Some(1))
  {
    if id in t then t[id := t[id].(processing := Some(0), uploaded := Some(1))] else t
  }

  // ---------------------------------------------------------------------------
  // Properties of the statements

  /** Adding an id twice is the same as adding it once, whatever the clock says
      the second time. */
  lemma InsertIdempotent(t: Table, id: int, now: int, later: int)
    ensures Inserted(Inserted(t, id, now), id, later) == Inserted(t, id, now)
  {
  }

  /** Adding a new id makes it outstanding and leaves every other id as it was. */
  lemma InsertedIsOutstanding(t: Table, id: int, now: int)
    requires id !in t
    ensures Outstanding(Inserted(t, id, now)) == Outstanding(t) + {id}
  {
  }

  /** Removing an id drops it and nothing else; removing an absent id changes nothing. */
  lemma RemovedDropsOnlyId(t: Table, id: int)
    ensures id !in Removed(t, id)
    ensures id !in t ==> Removed(t, id) == t
    ensures Outstanding(Removed(t, id)) == Outstanding(t) - {id}
  {
  }

  /** Marking as processing: the id is stored (added now if it was missing),
      its `processing` flag is 1, its `uploaded` flag and `added` time are kept,
      other rows are untouched, and it is no longer outstanding. */
  lemma MarkedProcessing(t: Table, id: int, now: int)
    ensures var r := ProcessingSet(Inserted(t, id, now), id);
            && r.Keys == t.Keys + {id}
            && r[id].processing == Some(1)
            && r[id].uploaded == (if id in t then t[id].uploaded else None)
            && r[id].added == (if id in t then t[id].added else now)
            && (forall k :: k in t && k != id ==> r[k] == t[k])
            && Outstanding(r) == Outstanding(t) - {id}
  {
  }

  /** Marking as uploaded: the id is stored (added now if it was missing), its
      flags are (0, 1), its `added` time is kept, other rows are untouched, and
      it is no longer outstanding. */
  lemma MarkedUploaded(t: Table, id: int, now: int)
    ensures var r := UploadedSet(Inserted(t, id, now), id);
            && r.Keys == t.Keys + {id}
            && r[id].processing == Some(0) && r[id].uploaded == Some(1)
            && r[id].added == (if id in t then t[id].added else now)
            && (forall k :: k in t && k != id ==> r[k] == t[k])
            && Outstanding(r) == Outstanding(t) - {id}
  {
  }

  /** Marking the same id again changes nothing. */
  lemma MarksIdempotent(t: Table, id: int, now: int, later: int)
    ensures var r := ProcessingSet(Inserted(t, id, now), id);
            ProcessingSet(Inserted(r, id, later), id) == r
    ensures var r := UploadedSet(Inserted(t, id, now), id);
            UploadedSet(Inserted(r, id, later), id) == r
  {
  }

  /** A set that is not empty has an element to pick. This is a verifier
      helper for the element choice in `GetOutstanding`, not a property of
      the table. */
  lemma NonEmptyHasElement(s: set<int>)
    requires s != {}
    ensures exists x :: x in s
  {
    if forall x :: x !in s {
      assert false;
    }
  }

  // ---------------------------------------------------------------------------
  // The table

  class UploadQueue {
    /** The rows, by behavior session id (the primary key). */
    var queue: Table

    /** An empty table. */
    constructor ()
      ensures queue == map[]
    {
      queue := map[];
    }

    /** Adds `id` with a fresh row unless it is already stored; never fails. */
    method Add(id: int, now: int)
      modifies this
      ensures queue == Inserted(old(queue), id, now)
      ensures id in queue
      ensures id in old(queue) ==> queue == old(queue)
      ensures id !in old(queue) ==> queue == old(queue)[id := Row(now, None, None)]
    {
      if id !in queue {
        queue := queue[id := NewRow(now)];
      }
    }

    /** Deletes the row of `id` if there is one; never fails. */
    method Remove(id: int)
      modifies this
      ensures queue == Removed(old(queue), id)
      ensures id !in queue
      ensures forall k :: k in old(queue) && k != id ==> k in queue && queue[k] == old(queue)[k]
    {
      queue := queue - {id};
    }

    /** The ids whose `processing` and `uploaded` flags are each 0 or NULL,
        each once, in no promised order. */
    method GetOutstanding() returns (ids: seq<int>)
      ensures forall id :: id in ids <==> id in queue && IsOutstanding(queue[id])
      ensures forall i, k :: 0 <= i < k < |ids| ==> ids[i] != ids[k]
    {
      var pending := Outstanding(queue);
      ids := [];
      while pending != {}
        invariant pending <= Outstanding(queue)
        invariant forall id :: id in ids <==> id in Outstanding(queue) && id !in pending
        invariant forall i, k :: 0 <= i < k < |ids| ==> ids[i] != ids[k]
        decreases pending
      {
        NonEmptyHasElement(pending);
        var next :| next in pending;
        ids := ids + [next];
        pending := pending - {next};
      }
    }

    /** Re-adds `id` if it was removed, then sets its `processing` flag to 1. */
    method MarkProcessing(id: int, now: int)
      modifies this
      ensures queue == ProcessingSet(Inserted(old(queue), id, now), id)
      ensures id in queue && queue[id].processing == Some(1)
      ensures queue[id].uploaded == (if id in old(queue) then old(queue)[id].uploaded else None)
      ensures forall k :: k in old(queue) && k != id ==> k in queue && queue[k] == old(queue)[k]
      ensures Outstanding(queue) == Outstanding(old(queue)) - {id}
    {
      Add(id, now);
      queue := ProcessingSet(queue, id);
      MarkedProcessing(old(queue), id, now);
    }

    /** Re-adds `id` if it was removed, then sets its flags to processing 0
        and uploaded 1. */
    method MarkUploaded(id: int, now: int)
      modifies this
      ensures queue == UploadedSet(Inserted(old(queue), id, now), id)
      ensures id in queue && queue[id].processing == Some(0) && queue[id].uploaded == Some(1)
      ensures forall k :: k in old(queue) && k != id ==> k in queue && queue[k] == old(queue)[k]
      ensures Outstanding(queue) == Outstanding(old(queue)) - {id}
    {
      Add(id, now);
      queue := UploadedSet(queue, id);
      MarkedUploaded(old(queue), id, now);
    }
  }
}
