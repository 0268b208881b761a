/**
 * The worker that `startWorker` runs every `CHECK_INTERVAL_SECONDS` (10 seconds),
 * modelled as sequential calls that take the clock as a parameter. A tick
 * selects the due rows, then for each of them fetches its channel, sends the
 * reminder and stamps `fired_at`, where a failure of any of these steps is caught for that row
 * alone and the loop goes on with the next one.
 */
module Worker {
  import opened Wrappers
  import opened Alerts

  /**
   * How handling one selected row ends: the channel fetch or the send threw;
   * the reminder went out and the UPDATE stamped `fired_at` with the clock
   * reading `firedAt`; or the reminder went out and the UPDATE threw.
   */
  datatype Attempt = SendFailed | Sent(firedAt: int) | SentNotStamped

  /** Whether a reminder reached the channel. */
  predicate Notifies(x: Attempt) {
    !x.SendFailed?
  }

  /** What a tick at `now` does to one row. */
  function Settle(a: Alert, now: int, attempt: DueRow -> Attempt): (b: Alert)
    ensures b.id == a.id && b.channelId == a.channelId && b.runAt == a.runAt && b.createdAt == a.createdAt
    ensures b != a ==> IsDue(a, now) && attempt(Selected(a)).Sent? && b.firedAt == Some(attempt(Selected(a)).firedAt)
  {
    if IsDue(a, now) && attempt(Selected(a)).Sent? then a.(firedAt := Some(attempt(Selected(a)).firedAt)) else a
  }

  /**
   * The table after a tick at `now`, where `attempt` says how handling each
   * selected row ends: each due row whose reminder was sent and stamped carries
   * the stamp; every other row is as it was.
   */
  ghost function AfterTick(rows: map<string, Alert>, now: int, attempt: DueRow -> Attempt): map<string, Alert> {
    map k | k in rows :: Settle(rows[k], now, attempt)
  }

  /** The reminders a tick at `now` sends: one per due row whose send succeeded. */
  ghost function Notified(rows: map<string, Alert>, now: int, attempt: DueRow -> Attempt): set<DueRow> {
    set r | r in DueRows(rows, now) && Notifies(attempt(r))
  }

  /**
   * Loop invariant of a tick: the rows whose ids are in `done` have been
   * settled, the others are untouched.
   */
  ghost predicate Handled(rows: map<string, Alert>, rows0: map<string, Alert>, now: int,
                          attempt: DueRow -> Attempt, done: set<nat>)
  {
    && rows.Keys == rows0.Keys
    && forall k :: k in rows0 ==>
         rows[k] == if rows0[k].id in done then Settle(rows0[k], now, attempt) else rows0[k]
  }

  /** Handling the due row `k0`: stamping it when its send succeeded settles it. */
  lemma HandleStep(rows: map<string, Alert>, rows0: map<string, Alert>, now: int,
                   attempt: DueRow -> Attempt, done: set<nat>, k0: string)
    requires UniqueIds(rows0) && Handled(rows, rows0, now, attempt, done)
    requires k0 in rows0 && IsDue(rows0[k0], now) && rows0[k0].id !in done
    ensures attempt(Selected(rows0[k0])).Sent? ==>
      Handled(Stamped(rows, rows0[k0].id, attempt(Selected(rows0[k0])).firedAt), rows0, now, attempt, done + {rows0[k0].id})
    ensures !attempt(Selected(rows0[k0])).Sent? ==> Handled(rows, rows0, now, attempt, done + {rows0[k0].id})
  {
  }

  /** One tick of the worker. */
  method Tick(table: AlertTable, now: int, attempt: DueRow -> Attempt) returns (notified: seq<DueRow>)
    requires table.Valid()
    modifies table
    ensures table.Valid() && table.nextId == old(table.nextId)
    ensures table.rows == AfterTick(old(table.rows), now, attempt)
    ensures forall r :: r in notified <==> r in Notified(old(table.rows), now, attempt)
    ensures DistinctIds(notified)
  {
    ghost var rows0 := table.rows;
    var due := table.Due(now);
    notified := [];
    ghost var done: set<nat> := {};  // ids of the rows handled so far
    var i := 0;
    while i < |due|
      invariant 0 <= i <= |due|
      invariant table.Valid() && table.nextId == old(table.nextId)
      invariant Handled(table.rows, rows0, now, attempt, done)
      invariant forall a :: 0 <= a < i ==> due[a].id in done
      invariant forall a :: i <= a < |due| ==> due[a].id !in done
      invariant forall x :: x in done ==> exists k :: k in rows0 && IsDue(rows0[k], now) && rows0[k].id == x
      invariant forall r :: r in notified <==> r in due[..i] && Notifies(attempt(r))
      invariant forall r :: r in notified ==> r.id in done
      invariant DistinctIds(notified)
    {
      var row := due[i];
      assert row in DueRows(rows0, now);
      ghost var k0 :| k0 in rows0 && IsDue(rows0[k0], now) && row == Selected(rows0[k0]);
      HandleStep(table.rows, rows0, now, attempt, done, k0);
      match attempt(row) {
        case SendFailed =>
        case Sent(t) =>
          table.MarkFired(row.id, t);
          notified := notified + [row];
        case SentNotStamped =>
          notified := notified + [row];
      }
      assert due[..i + 1] == due[..i] + [row];
      done := done + {row.id};
      i := i + 1;
    }
    assert due[..i] == due;
    forall k | k in rows0 ensures table.rows[k] == Settle(rows0[k], now, attempt) {
      if IsDue(rows0[k], now) {
        assert Selected(rows0[k]) in DueRows(rows0, now);
      }
    }
  }
}

module WorkerProperties {
  import opened Wrappers
  import opened Alerts
  import opened Worker

  /** Ids, channels, due times and creation times never change; only `fired_at` may. */
  lemma {:induction false} AfterTickKeepsRows(rows: map<string, Alert>, now: int, attempt: DueRow -> Attempt)
    requires UniqueIds(rows)
    ensures AfterTick(rows, now, attempt).Keys == rows.Keys
    ensures UniqueIds(AfterTick(rows, now, attempt))
    ensures forall k :: k in rows ==>
      AfterTick(rows, now, attempt)[k] == rows[k].(firedAt := AfterTick(rows, now, attempt)[k].firedAt)
  {
    var after := AfterTick(rows, now, attempt);
    forall k | k in rows ensures after[k].id == rows[k].id {
      assert after[k] == Settle(rows[k], now, attempt);
    }
  }

  /**
   * A tick stamps exactly the due rows whose reminder was sent and stamped;
   * a row that is not due, or whose fetch, send or update failed, is unchanged.
   */
  lemma TickStampsExactlySentRows(rows: map<string, Alert>, now: int, attempt: DueRow -> Attempt, k: string)
    requires k in rows
    ensures var after := AfterTick(rows, now, attempt);
      && (IsDue(rows[k], now) && attempt(Selected(rows[k])).Sent? ==>
            after[k].firedAt == Some(attempt(Selected(rows[k])).firedAt))
      && (!IsDue(rows[k], now) || !attempt(Selected(rows[k])).Sent? ==> after[k] == rows[k])
  {
  }

  /** A row that was already fired keeps its `fired_at`: the stamp is never overwritten. */
  lemma FiredRowUnchanged(rows: map<string, Alert>, now: int, attempt: DueRow -> Attempt, k: string)
    requires k in rows && !IsPending(rows[k])
    ensures AfterTick(rows, now, attempt)[k] == rows[k]
  {
  }

  /**
   * Release on failure: a due row whose fetch, send or update failed stays
   * pending and is selected by the next tick, whatever its clock reading.
   */
  lemma FailedRowStaysDue(rows: map<string, Alert>, now: int, attempt: DueRow -> Attempt, k: string, later: int)
    requires k in rows && IsDue(rows[k], now) && !attempt(Selected(rows[k])).Sent?
    requires now <= later
    ensures IsDue(AfterTick(rows, now, attempt)[k], later)
    ensures Selected(rows[k]) in DueRows(AfterTick(rows, now, attempt), later)
  {
    var after := AfterTick(rows, now, attempt);
    assert after[k] == rows[k];
  }

  /** A tick never adds pending rows: the pending set after it is a subset of the one before. */
  lemma {:induction false} PendingNeverGrows(rows: map<string, Alert>, now: int, attempt: DueRow -> Attempt)
    ensures PendingKeys(AfterTick(rows, now, attempt)) <= PendingKeys(rows)
    ensures |PendingKeys(AfterTick(rows, now, attempt))| <= |PendingKeys(rows)|
  {
    var after := AfterTick(rows, now, attempt);
    forall k | k in PendingKeys(after) ensures k in PendingKeys(rows) {
      assert after[k] == Settle(rows[k], now, attempt);
    }
    SubsetCardinality(PendingKeys(after), PendingKeys(rows));
  }

  lemma {:induction false} SubsetCardinality<T>(a: set<T>, b: set<T>)
    requires a <= b
    ensures |a| <= |b|
    decreases |b|
  {
    if a != {} {
      var x :| x in a;
      SubsetCardinality(a - {x}, b - {x});
    }
  }

  /** The input of one tick: its clock reading and how each selected row ends. */
  datatype TickInput = TickInput(now: int, attempt: DueRow -> Attempt)

  /** The table after a sequence of ticks, one after another. */
  ghost function Run(rows: map<string, Alert>, ticks: seq<TickInput>): map<string, Alert>
    decreases |ticks|
  {
    if ticks == [] then rows
    else Run(AfterTick(rows, ticks[0].now, ticks[0].attempt), ticks[1..])
  }

  /** Sequential ticks keep the rows and their ids and never unstamp a fired row. */
  lemma {:induction false} RunKeepsFired(rows: map<string, Alert>, ticks: seq<TickInput>, k: string)
    requires UniqueIds(rows) && k in rows
    ensures Run(rows, ticks).Keys == rows.Keys && UniqueIds(Run(rows, ticks))
    ensures Run(rows, ticks)[k].id == rows[k].id
    ensures !IsPending(rows[k]) ==> Run(rows, ticks)[k] == rows[k]
    decreases |ticks|
  {
    if ticks != [] {
      AfterTickKeepsRows(rows, ticks[0].now, ticks[0].attempt);
      RunKeepsFired(AfterTick(rows, ticks[0].now, ticks[0].attempt), ticks[1..], k);
    }
  }

  /**
   * A fired alert is never selected, so never sent, again: in every later
   * tick no due row carries its id.
   */
  lemma NeverResent(rows: map<string, Alert>, ticks: seq<TickInput>, k: string, n: nat)
    requires UniqueIds(rows) && k in rows && !IsPending(rows[k])
    requires n < |ticks|
    ensures forall r :: r in DueRows(Run(rows, ticks[..n]), ticks[n].now) ==> r.id != rows[k].id
  {
    var before := Run(rows, ticks[..n]);
    RunKeepsFired(rows, ticks[..n], k);
    forall r | r in DueRows(before, ticks[n].now) ensures r.id != rows[k].id {
      var k' :| k' in before && IsDue(before[k'], ticks[n].now) && r == Selected(before[k']);
    }
  }

  /**
   * Sent once, never again: a due row whose reminder is sent and stamped in
   * one tick is not selected by any tick after it.
   */
  lemma SentOnce(rows: map<string, Alert>, now: int, attempt: DueRow -> Attempt, k: string,
                 later: seq<TickInput>, n: nat)
    requires UniqueIds(rows) && k in rows && IsDue(rows[k], now) && attempt(Selected(rows[k])).Sent?
    requires n < |later|
    ensures Selected(rows[k]) in Notified(rows, now, attempt)
    ensures forall r :: r in DueRows(Run(AfterTick(rows, now, attempt), later[..n]), later[n].now) ==> r.id != rows[k].id
  {
    assert Selected(rows[k]) in DueRows(rows, now);
    var after := AfterTick(rows, now, attempt);
    AfterTickKeepsRows(rows, now, attempt);
    assert after[k] == Settle(rows[k], now, attempt);
    NeverResent(after, later, k, n);
  }

  /** Over any sequence of ticks the pending rows only shrink. */
  lemma {:induction false} RunPendingNeverGrows(rows: map<string, Alert>, ticks: seq<TickInput>)
    ensures PendingKeys(Run(rows, ticks)) <= PendingKeys(rows)
    decreases |ticks|
  {
    if ticks != [] {
      PendingNeverGrows(rows, ticks[0].now, ticks[0].attempt);
      RunPendingNeverGrows(AfterTick(rows, ticks[0].now, ticks[0].attempt), ticks[1..]);
    }
  }
}
