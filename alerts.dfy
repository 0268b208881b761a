/**
 * The `alerts` table and the three statements the bot issues against it:
 *   INSERT ... ON CONFLICT (source_message_id) DO NOTHING
 *   SELECT id, channel_id FROM alerts WHERE fired_at IS NULL AND run_at <= $1
 *   UPDATE alerts SET fired_at = $1 WHERE id = $2
 */
module Alerts {
  import opened Wrappers

  /** A row of `alerts`; the table is keyed by `source_message_id`. */
  datatype Alert = Alert(id: nat, channelId: string, runAt: int, createdAt: int, firedAt: Option<int>)

  /** A row the worker's SELECT returns: `id, channel_id`. */
  datatype DueRow = DueRow(id: nat, channelId: string)

  /** Not yet sent: `fired_at IS NULL`. */
  predicate IsPending(a: Alert) {
    a.firedAt.None?
  }

  /** The worker's WHERE clause: `fired_at IS NULL AND run_at <= now`. */
  predicate IsDue(a: Alert, now: int) {
    IsPending(a) && a.runAt <= now
  }

  function Selected(a: Alert): DueRow {
    DueRow(a.id, a.channelId)
  }

  /** What the SELECT returns at time `now`, as a set. */
  ghost function DueRows(rows: map<string, Alert>, now: int): set<DueRow> {
    set k | k in rows && IsDue(rows[k], now) :: Selected(rows[k])
  }

  /** Source message ids of the pending rows. */
  ghost function PendingKeys(rows: map<string, Alert>): set<string> {
    set k | k in rows && IsPending(rows[k])
  }

  /** `id SERIAL PRIMARY KEY`: no two rows share an id. */
  ghost predicate UniqueIds(rows: map<string, Alert>) {
    forall k1, k2 :: k1 in rows && k2 in rows && rows[k1].id == rows[k2].id ==> k1 == k2
  }

  /** No two entries of a result set share an id. */
  predicate DistinctIds(rs: seq<DueRow>) {
    forall a, b :: 0 <= a < b < |rs| ==> rs[a].id != rs[b].id
  }

  /** `UPDATE alerts SET fired_at = t WHERE id = id`: every row with that id is stamped. */
  function Stamped(rows: map<string, Alert>, id: nat, t: int): (r: map<string, Alert>)
    ensures r.Keys == rows.Keys
  {
    map k | k in rows :: if rows[k].id == id then rows[k].(firedAt := Some(t)) else rows[k]
  }

  /** With unique ids, stamping changes at most one row, and only its `fired_at`. */
  lemma StampedChangesOneRow(rows: map<string, Alert>, id: nat, t: int, k: string)
    requires UniqueIds(rows) && k in rows && rows[k].id == id
    ensures Stamped(rows, id, t)[k] == rows[k].(firedAt := Some(t))
    ensures forall k' :: k' in rows && k' != k ==> Stamped(rows, id, t)[k'] == rows[k']
  {
  }

  class AlertTable {
    /** The rows, keyed by `source_message_id` (`UNIQUE NOT NULL`). */
    var rows: map<string, Alert>
    /** The next value of the `SERIAL` sequence behind `id`. */
    var nextId: nat

    ghost predicate Valid()
      reads this
    {
      && 1 <= nextId
      && (forall k :: k in rows ==> 1 <= rows[k].id < nextId)
      && UniqueIds(rows)
    }

    /** `CREATE TABLE IF NOT EXISTS alerts (...)` on an empty database. */
    constructor ()
      ensures Valid() && rows == map[] && nextId == 1
    {
      rows := map[];
      nextId := 1;
    }

    /**
     * `INSERT ... ON CONFLICT (source_message_id) DO NOTHING`: a new row,
     * pending, unless one with that source message id exists, in which case no
     * row changes. The sequence advances either way, as PostgreSQL draws the
     * default before it detects the conflict.
     */
    method InsertIfAbsent(sourceMessageId: string, channelId: string, runAt: int, createdAt: int)
      returns (inserted: bool)
      requires Valid()
      modifies this
      ensures Valid()
      ensures inserted <==> sourceMessageId !in old(rows)
      ensures inserted ==> rows == old(rows)[sourceMessageId := Alert(old(nextId), channelId, runAt, createdAt, None)]
      ensures !inserted ==> rows == old(rows)
      ensures nextId == old(nextId) + 1
    {
      inserted := sourceMessageId !in rows;
      if inserted {
        rows := rows[sourceMessageId := Alert(nextId, channelId, runAt, createdAt, None)];
      }
      nextId := nextId + 1;
    }

    /**
     * `SELECT id, channel_id FROM alerts WHERE fired_at IS NULL AND run_at <= now`:
     * every due row once, in no particular order, and nothing else.
     */
    method Due(now: int) returns (due: seq<DueRow>)
      requires Valid()
      ensures forall r :: r in due <==> r in DueRows(rows, now)
      ensures DistinctIds(due)
    {
      due := [];
      var todo := rows.Keys;
      ghost var keys: seq<string> := [];  // the key of each row of `due`
      while todo != {}
        invariant todo <= rows.Keys
        invariant |keys| == |due|
        invariant forall a :: 0 <= a < |due| ==> keys[a] in rows && keys[a] !in todo && due[a] == Selected(rows[keys[a]])
        invariant forall k :: k in rows && k !in todo && IsDue(rows[k], now) ==> Selected(rows[k]) in due
        invariant forall r :: r in due ==> r in DueRows(rows, now)
        invariant DistinctIds(due)
        decreases todo
      {
        var k :| k in todo;
        if IsDue(rows[k], now) {
          due, keys := due + [Selected(rows[k])], keys + [k];
        }
        todo := todo - {k};
      }
    }

    /** `UPDATE alerts SET fired_at = t WHERE id = id`. */
    method MarkFired(id: nat, t: int)
      requires Valid()
      modifies this
      ensures Valid()
      ensures rows == Stamped(old(rows), id, t) && nextId == old(nextId)
    {
      rows := Stamped(rows, id, t);
    }
  }
}
