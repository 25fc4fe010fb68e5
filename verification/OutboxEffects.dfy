/**
 * What the steps of OutboxProtocol leave behind, said of the fields they
 * write: which step may give a row its status, what a settle makes of the
 * head, what an operator action does for the line behind a dead row.
 */
module OutboxEffects {
  import opened Wrappers
  import opened OutboxRows
  import opened OutboxProtocol
  import opened OutboxInvariants

  // ------------------------------------------------------------------- Rows

  /** How a row got from `before` to the status it has after the step `a`. */
  predicate Explains(g: Aggregate, a: Action, r: nat, before: Row, after: Row) {
    && after.event == before.event
    && match after.status
       case DISPATCHED =>
         && a.MarkDispatched? && a.written && a.k in g.sessions && g.sessions[a.k].Published? && g.sessions[a.k].row == r
         && before.status in {PENDING, FAILED} && after.nextAttemptAt == None && after.attempts == before.attempts
       case SKIPPED =>
         a.Skip? && (a.at == None || a.at == Some(r)) && before.status == DEAD && after.attempts == before.attempts
       case PENDING =>
         && a.Redrive? && (a.at == None || a.at == Some(r)) && before.status == DEAD
         && after.attempts == 0 && after.nextAttemptAt == None
       case FAILED =>
         && a.MarkFailed? && a.written && a.k in g.sessions && g.sessions[a.k].Rejected? && g.sessions[a.k].row == r
         && before.status in {PENDING, FAILED} && after.attempts == g.sessions[a.k].seen.attempts + 1 < 5
       case DEAD =>
         || (a.MarkFailed? && a.written && a.k in g.sessions && g.sessions[a.k].Rejected? && g.sessions[a.k].row == r
             && before.status in {PENDING, FAILED} && after.attempts == g.sessions[a.k].seen.attempts + 1 >= 5
             && after.nextAttemptAt == None)
         || (a.SweepRow? && before.status == FAILED && before.attempts >= 5)
  }

  /** A row changes only as its new status says it must have. */
  lemma EveryChangeExplained(c: Timing, g: Aggregate, now: nat, a: Action, r: nat)
    requires Enabled(c, g, now, a) && r < |g.rows|
    ensures r < |Apply(g, now, a).rows|
    ensures Apply(g, now, a).rows[r] != g.rows[r] ==> Explains(g, a, r, g.rows[r], Apply(g, now, a).rows[r])
  {
    StepEvolves(c, g, now, a);
    if Quiet(a) {
      QuietFrame(g, now, a);
    } else if a.MarkDispatched? || a.MarkFailed? {
      MarkExplained(c, g, now, a, r);
    } else if a.Redrive? || a.Skip? {
      OperatorExplained(g, now, a, r);
    }
  }

  lemma MarkExplained(c: Timing, g: Aggregate, now: nat, a: Action, r: nat)
    requires Enabled(c, g, now, a) && r < |g.rows| && (a.MarkDispatched? || a.MarkFailed?)
    ensures r < |Apply(g, now, a).rows|
    ensures Apply(g, now, a).rows[r] != g.rows[r] ==> Explains(g, a, r, g.rows[r], Apply(g, now, a).rows[r])
  {
  }

  lemma OperatorExplained(g: Aggregate, now: nat, a: Action, r: nat)
    requires r < |g.rows| && (a.Redrive? || a.Skip?)
    ensures r < |Apply(g, now, a).rows|
    ensures Apply(g, now, a).rows[r] != g.rows[r] ==> Explains(g, a, r, g.rows[r], Apply(g, now, a).rows[r])
  {
  }

  /** A mark of a resolved publish that is written makes its row DISPATCHED if the row is still to be marked, and no other. */
  lemma MarkDispatches(c: Timing, g: Aggregate, now: nat, k: nat, written: bool, answered: bool)
    requires Enabled(c, g, now, MarkDispatched(k, written, answered))
    ensures var g', r := Apply(g, now, MarkDispatched(k, written, answered)), g.sessions[k].row;
            && |g'.rows| == |g.rows|
            && (r < |g.rows| && written && g.rows[r].status in {PENDING, FAILED} ==>
                  g'.rows[r] == Row(g.rows[r].event, DISPATCHED, g.rows[r].attempts, None))
            && (r < |g.rows| && !(written && g.rows[r].status in {PENDING, FAILED}) ==> g'.rows[r] == g.rows[r])
            && (forall i | 0 <= i < |g.rows| && i != r :: g'.rows[i] == g.rows[i])
            && g'.head == g.head && g'.lease == g.lease
  {
  }

  /** A failure that is written counts on from the copy read, with twice the delay each time, and is the last at five. */
  lemma MarkFails(c: Timing, g: Aggregate, now: nat, k: nat, time: nat)
    requires Enabled(c, g, now, MarkFailed(k, true, time))
    requires var r := g.sessions[k].row; r < |g.rows| == |g.failures| && g.rows[r].status in {PENDING, FAILED}
    ensures var g', r, n := Apply(g, now, MarkFailed(k, true, time)), g.sessions[k].row, g.sessions[k].seen.attempts + 1;
            && |g'.rows| == |g.rows| && (forall i | 0 <= i < |g.rows| && i != r :: g'.rows[i] == g.rows[i])
            && g'.rows[r].event == g.rows[r].event && g'.rows[r].attempts == n
            && (n >= 5 ==> g'.rows[r].status == DEAD && g'.rows[r].nextAttemptAt == None)
            && (n < 5 ==> g'.rows[r].status == FAILED
                          && g'.rows[r].nextAttemptAt == Some(time + [0, 5_000, 10_000, 20_000, 40_000][n]))
            && g'.failures[r] == g.failures[r] + [time]
  {
    var n := g.sessions[k].seen.attempts + 1;
    assert Backoff(1) == 5_000 && Backoff(2) == 10_000 && Backoff(3) == 20_000 && Backoff(4) == 40_000;
  }

  lemma NewRowsArePending(c: Timing, g: Aggregate, now: nat, a: Action, r: nat)
    requires Enabled(c, g, now, a) && |g.rows| <= r < |Apply(g, now, a).rows|
    ensures a.Write? && Apply(g, now, a).rows[r] == Row(a.event, PENDING, 0, None)
  {
    if Quiet(a) {
      QuietFrame(g, now, a);
    }
  }

  // -------------------------------------------------------------- Operators

  /** The rows an operator action changes: DEAD ones, all of them or the one it names. */
  predicate Meant(rows: seq<Row>, at: Option<nat>, i: nat) {
    i < |rows| && rows[i].status == DEAD && (at == None || at == Some(i))
  }

  /** A redrive gives exactly the DEAD rows it means a fresh budget and leaves every other row alone. */
  lemma RedriveExactly(g: Aggregate, now: nat, at: Option<nat>, listed: bool)
    ensures var g' := Apply(g, now, Redrive(at, listed));
            && |g'.rows| == |g.rows|
            && (forall i: nat | i < |g.rows| && Meant(g.rows, at, i) :: g'.rows[i] == Row(g.rows[i].event, PENDING, 0, None))
            && (forall i: nat | i < |g.rows| && !Meant(g.rows, at, i) :: g'.rows[i] == g.rows[i])
            && g'.head == g.head && g'.owed == g.owed + (if listed then 1 else 0)
            && g'.listing == if listed then g.listing - multiset{at} else g.listing
  {
  }

  /** A skip gives exactly the DEAD rows it means up and leaves every other row alone. */
  lemma SkipExactly(g: Aggregate, now: nat, at: Option<nat>, listed: bool)
    ensures var g' := Apply(g, now, Skip(at, listed));
            && |g'.rows| == |g.rows|
            && (forall i: nat | i < |g.rows| && Meant(g.rows, at, i) ::
                  g'.rows[i].status == SKIPPED && g'.rows[i].event == g.rows[i].event && g'.rows[i].attempts == g.rows[i].attempts)
            && (forall i: nat | i < |g.rows| && !Meant(g.rows, at, i) :: g'.rows[i] == g.rows[i])
            && g'.head == g.head && g'.owed == g.owed + (if listed then 1 else 0)
            && g'.listing == if listed then g.listing - multiset{at} else g.listing
  {
  }

  /** Row `j` is the first one after `r` that is not done yet. */
  predicate NextInLine(rows: seq<Row>, r: nat, j: nat) {
    && r < j < |rows| && rows[j].status in {PENDING, FAILED, DEAD}
    && forall i | r < i < j :: rows[i].status in {DISPATCHED, SKIPPED}
  }

  /** Skipping the dead row at the head of the line makes the next open row the oldest, if there is one. */
  lemma SkipUnblocks(g: Aggregate, now: nat, r: nat, listed: bool, j: nat)
    requires HeadOf(g.rows) == Some(r) && g.rows[r].status == DEAD
    ensures HeadOf(Apply(g, now, Skip(Some(r), listed)).rows) == Some(j) <==> NextInLine(g.rows, r, j)
  {
    var rows' := Apply(g, now, Skip(Some(r), listed)).rows;
    SkipExactly(g, now, Some(r), listed);
    HeadRowExactly(g.rows, r);
    HeadRowExactly(rows', j);
    assert Meant(g.rows, Some(r), r);
    assert forall i: nat | i < |g.rows| && i != r :: rows'[i] == g.rows[i];
    if NextInLine(g.rows, r, j) {
      forall i | 0 <= i < j
        ensures rows'[i].status in {DISPATCHED, SKIPPED}
      {
        assert i < r || i == r || r < i < j;
      }
    }
  }

  /** Redriving it makes it the oldest open row and due at once. */
  lemma RedriveUnblocks(g: Aggregate, now: nat, r: nat, listed: bool, at: nat)
    requires HeadOf(g.rows) == Some(r) && g.rows[r].status == DEAD
    ensures var rows' := Apply(g, now, Redrive(Some(r), listed)).rows; HeadOf(rows') == Some(r) && IsDue(rows'[r], at)
  {
    RedriveExactly(g, now, Some(r), listed);
    HeadRowExactly(g.rows, r);
    HeadRowExactly(Apply(g, now, Redrive(Some(r), listed)).rows, r);
    assert Meant(g.rows, Some(r), r);
  }

  // ------------------------------------------------------------ Head, lease

  /** A settle that found no row open deletes the head exactly if its version is the one read first. */
  lemma RetireExactly(c: Timing, g: Aggregate, now: nat, k: nat, time: nat)
    requires Enabled(c, g, now, SettleWrite(k, time)) && g.sessions[k].Retiring?
    ensures var g', v := Apply(g, now, SettleWrite(k, time)), g.sessions[k].v;
            && (g.head.Some? && v == Some(g.head.value.v) ==> g'.head == None)
            && (!(g.head.Some? && v == Some(g.head.value.v)) ==> g'.head == g.head)
            && g'.rows == g.rows && g'.lease == g.lease
  {
  }

  /** One that found a row open makes the head due when that row is, and keeps the version. */
  lemma DueExactly(c: Timing, g: Aggregate, now: nat, k: nat, time: nat)
    requires Enabled(c, g, now, SettleWrite(k, time)) && g.sessions[k].Requeuing?
    ensures var head', row := Apply(g, now, SettleWrite(k, time)).head, g.sessions[k].headRow;
            && head'.Some? && head'.value.v == (if g.head.Some? then g.head.value.v else 0)
            && (row.status == PENDING ==> head'.value.dueAt == Some(time))
            && (row.status == FAILED && row.nextAttemptAt.Some? ==> head'.value.dueAt == row.nextAttemptAt)
            && (row.status == FAILED && row.nextAttemptAt.None? ==> head'.value.dueAt == Some(time))
            && (row.status == DEAD ==> head'.value.dueAt == None)
  {
  }

  /** The settle reads: the head's version, then the oldest open row. */
  lemma SettleReads(c: Timing, g: Aggregate, now: nat, k: nat)
    ensures Enabled(c, g, now, SettleReadHead(k)) ==>
              var s := Apply(g, now, SettleReadHead(k)).sessions[k];
              s.HeadRead? && (g.head.None? ==> s.v == None) && (g.head.Some? ==> s.v == Some(g.head.value.v))
    ensures Enabled(c, g, now, SettleReadRow(k)) ==>
              var s := Apply(g, now, SettleReadRow(k)).sessions[k];
              if HeadOf(g.rows).None? then s == Retiring(g.sessions[k].v) else s == Requeuing(g.rows[HeadOf(g.rows).value])
  {
  }

  /** A write inserts the head due now or raises its version and leaves its time; a requeue does both. */
  lemma HeadWrites(g: Aggregate, now: nat, event: EventId, time: nat)
    ensures var g' := Apply(g, now, Write(event, time));
            && g'.rows == g.rows + [Row(event, PENDING, 0, None)] && g'.head.Some?
            && (g.head.None? ==> g'.head.value.dueAt == Some(time) && g'.head.value.v == 1)
            && (g.head.Some? ==> g'.head.value.dueAt == g.head.value.dueAt && g'.head.value.v == g.head.value.v + 1)
    ensures var g' := Apply(g, now, Requeue(time));
            && g'.rows == g.rows && g'.head.Some? && g'.head.value.dueAt == Some(time)
            && g'.head.value.v == (if g.head.Some? then g.head.value.v + 1 else 1)
  {
  }

  /** A row that was read is kept only if it may be published: PENDING, or FAILED with its time come. */
  lemma DueChecked(c: Timing, g: Aggregate, now: nat, k: nat)
    requires Enabled(c, g, now, CheckDue(k))
    ensures var seen, s := g.sessions[k].seen, Apply(g, now, CheckDue(k)).sessions[k];
            if seen.status == PENDING || (seen.status == FAILED && (seen.nextAttemptAt == None || seen.nextAttemptAt.value <= now))
            then s.Holding? && s.row == g.sessions[k].row && s.seen == seen
            else s == Closing
  {
  }

  /** A free lease is taken for 45 s; a renew extends it from now exactly if it is still the session's, a release ends it exactly then. */
  lemma LeaseExactly(c: Timing, g: Aggregate, now: nat, k: nat, got: bool)
    ensures Enabled(c, g, now, Acquire(got)) ==>
              && (g.lease.None? || g.lease.value.expiresAt <= now)
              && Apply(g, now, Acquire(got)).lease == Some(Lease(g.nextToken, now + 45_000))
    ensures Enabled(c, g, now, Renew(k, got)) ==>
              var mine := g.lease.Some? && g.lease.value.token == k && now < g.lease.value.expiresAt;
              && Apply(g, now, Renew(k, got)).lease == (if mine then Some(Lease(k, now + 45_000)) else g.lease)
              && (Apply(g, now, Renew(k, got)).sessions[k].Renewed? <==> mine && got)
    ensures Enabled(c, g, now, Release(k, got)) ==>
              var mine := g.lease.Some? && g.lease.value.token == k && now < g.lease.value.expiresAt;
              && Apply(g, now, Release(k, got)).lease == (if mine && got then None else g.lease)
              && k !in Apply(g, now, Release(k, got)).sessions
  {
  }

  /** A heartbeat renews exactly a lease that is still its session's; a late delivery reaches the broker once more. */
  lemma LateArrivals(g: Aggregate, now: nat, k: nat, row: nat)
    ensures var mine := g.lease.Some? && g.lease.value.token == k && now < g.lease.value.expiresAt;
            Apply(g, now, Heartbeat(k)) == g.(lease := if mine then Some(Lease(k, now + 45_000)) else g.lease)
    ensures Apply(g, now, Deliver(row)) == g.(log := g.log + [row])
  {
  }

  /** The sweep inserts a missing head and makes a present one due, its version as it was. */
  lemma SweepExactly(g: Aggregate, now: nat, time: nat)
    ensures g.head.None? ==> Apply(g, now, RepairInsert(time)).head == Some(Head(Some(time), 0))
    ensures g.head.Some? ==> Apply(g, now, RepairDue(time)).head == Some(Head(Some(time), g.head.value.v))
  {
  }
}
