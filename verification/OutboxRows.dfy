/** The rows of one aggregate: statuses, the head row and how a row changes. */
module OutboxRows {
  import opened Wrappers
  import opened Doubling

  const PUBLISH_TIMEOUT_MS := 30_000
  const LEASE_TTL_MS := 45_000
  const ROWS_PER_AGGREGATE := 20
  const MAX_ATTEMPTS := 5
  const RETRY_BACKOFF_BASE_MS := 5_000

  type EventId = string

  datatype Status = PENDING | DISPATCHED | FAILED | DEAD | SKIPPED

  /** A row, in insertion order with the others of its aggregate. Times are milliseconds. */
  datatype Row = Row(event: EventId, status: Status, attempts: nat, nextAttemptAt: Option<nat>)

  /** The row still holds its aggregate's place in line. */
  predicate Open(row: Row) {
    row.status in {PENDING, FAILED, DEAD}
  }

  /** The statuses markDispatched and markFailed act on. */
  predicate Markable(row: Row) {
    row.status in {PENDING, FAILED}
  }

  /** What the code's own writes make of a row; PENDING rows are untouched. */
  predicate WellFormed(row: Row) {
    match row.status
    case PENDING => row.attempts == 0 && row.nextAttemptAt == None
    case FAILED => 1 <= row.attempts < MAX_ATTEMPTS && row.nextAttemptAt.Some?
    case DEAD => row.attempts == MAX_ATTEMPTS
    case _ => row.attempts <= MAX_ATTEMPTS
  }

  function NewRow(event: EventId): Row {
    Row(event, PENDING, 0, None)
  }

  /** Whether the relay publishes the row now. */
  predicate IsDue(row: Row, now: nat) {
    match row.status
    case PENDING => true
    case FAILED => row.nextAttemptAt.None? || row.nextAttemptAt.value <= now
    case _ => false
  }

  /** When a head row is next due, read at `now`; None while it is DEAD. */
  function DueAtOf(row: Row, now: nat): Option<nat> {
    match row.status
    case PENDING => Some(now)
    case FAILED => if row.nextAttemptAt.Some? then row.nextAttemptAt else Some(now)
    case _ => None
  }

  /** The oldest open row. */
  function HeadOf(rows: seq<Row>): (r: Option<nat>)
    ensures r.None? <==> forall i | 0 <= i < |rows| :: !Open(rows[i])
    ensures r.Some? ==>
              && r.value < |rows| && Open(rows[r.value])
              && forall i | 0 <= i < r.value :: !Open(rows[i])
  {
    if |rows| == 0 then None
    else
      var earlier := HeadOf(rows[..|rows| - 1]);
      assert forall i | 0 <= i < |rows| - 1 :: rows[..|rows| - 1][i] == rows[i];
      if earlier.Some? then earlier
      else if Open(rows[|rows| - 1]) then Some(|rows| - 1)
      else None
  }

  /** Every row has left the line. */
  predicate AllDone(rows: seq<Row>) {
    forall i | 0 <= i < |rows| :: rows[i].status in {DISPATCHED, SKIPPED}
  }

  /** The first row that has not. */
  predicate OldestOpen(rows: seq<Row>, r: nat) {
    && r < |rows| && rows[r].status in {PENDING, FAILED, DEAD}
    && forall i | 0 <= i < r :: rows[i].status in {DISPATCHED, SKIPPED}
  }

  lemma HeadRowExactly(rows: seq<Row>, r: nat)
    ensures HeadOf(rows) == Some(r) <==> OldestOpen(rows, r)
    ensures HeadOf(rows) == None <==> AllDone(rows)
  {
    forall i | 0 <= i < |rows|
      ensures Open(rows[i]) <==> rows[i].status !in {DISPATCHED, SKIPPED}
    {
      assert rows[i].status.PENDING? || rows[i].status.FAILED? || rows[i].status.DEAD?
             || rows[i].status.DISPATCHED? || rows[i].status.SKIPPED?;
    }
    if OldestOpen(rows, r) {
      var head := HeadOf(rows).value;
      assert !(head < r) && !(r < head);
    }
  }

  /** Delay after failure number `attempts`: base * 2^(attempts - 1). */
  function Backoff(attempts: nat): nat
    requires 1 <= attempts
  {
    Doubled(RETRY_BACKOFF_BASE_MS, attempts - 1)
  }

  function DispatchedRow(row: Row): Row {
    row.(status := DISPATCHED, nextAttemptAt := None)
  }

  /** The row after a failed publish of the copy `seen`, recorded at `now`. */
  function FailedRow(row: Row, seen: Row, now: nat): Row {
    var attempts := seen.attempts + 1;
    if attempts >= MAX_ATTEMPTS then row.(status := DEAD, attempts := attempts, nextAttemptAt := None)
    else row.(status := FAILED, attempts := attempts, nextAttemptAt := Some(now + Backoff(attempts)))
  }

  function RedrivenRow(row: Row): Row {
    row.(status := PENDING, attempts := 0, nextAttemptAt := None)
  }

  function SkippedRow(row: Row): Row {
    row.(status := SKIPPED)
  }

  /** Row `at`, or every row when `at` is None. */
  predicate Selected(at: Option<nat>, i: nat) {
    at.None? || at.value == i
  }
}
