/**
 * The outbox collections and the operations on them: the rows of every
 * aggregate, the due index of heads, and a clock that may move on between any
 * two reads of it. Each operation is proved against the row and head functions
 * the protocol steps are made of.
 */
module OutboxService {
  import opened Wrappers
  import opened OutboxRows
  import opened OutboxProtocol
  import opened OutboxWakeUp
  import opened OutboxRaces
  import opened OutboxEffects

  datatype RowFilter = OfRow(aggregate: string, row: nat) | OfAggregate(aggregate: string) | MalformedId
  {
    function Row(): Option<nat> {
      if OfRow? then Some(row) else None
    }
  }

  datatype OperatorError = InvalidRowId | StoreError

  /** Which call of an operator action fails, if one does; it may have taken effect all the same. */
  datatype OperatorRun = COMPLETES | LISTING_FAILS | UPDATE_FAILS(taken: bool) | REQUEUE_FAILS(taken: bool)
  {
    predicate Updates() {
      COMPLETES? || REQUEUE_FAILS? || (UPDATE_FAILS? && taken)
    }

    predicate Requeues() {
      COMPLETES? || (REQUEUE_FAILS? && taken)
    }
  }

  function HeadIn(heads: map<string, Head>, a: string): Option<Head> {
    if a in heads then Some(heads[a]) else None
  }

  function RowsIn(rows: map<string, seq<Row>>, a: string): seq<Row> {
    if a in rows then rows[a] else []
  }

  /** The aggregate has a row the relay may publish now or later. */
  predicate HasWork(rows: seq<Row>) {
    exists i | 0 <= i < |rows| :: Markable(rows[i])
  }

  /** The DEAD rows of one aggregate that a filter selects. */
  function DeadRows(rows: seq<Row>, at: Option<nat>): set<nat> {
    set i: nat | i < |rows| && Selected(at, i) && rows[i].status == DEAD
  }

  function Matched(rows: map<string, seq<Row>>, filter: RowFilter): set<nat> {
    if filter.MalformedId? then {} else DeadRows(RowsIn(rows, filter.aggregate), filter.Row())
  }

  /** A FAILED row at or past the retry ceiling. */
  predicate Spent(row: Row, maxAttempts: nat) {
    row.status == FAILED && row.attempts >= maxAttempts
  }

  function SpentRows(rows: map<string, seq<Row>>, maxAttempts: nat): set<(string, nat)> {
    set a, i: nat | a in rows && i < |rows[a]| && Spent(rows[a][i], maxAttempts) :: (a, i)
  }

  /** The rows that are not what they were. */
  ghost function ChangedRows(before: map<string, seq<Row>>, after: map<string, seq<Row>>): set<(string, nat)> {
    set a, i: nat | a in before && i < |before[a]| && (a !in after || i >= |after[a]| || after[a][i] != before[a][i]) :: (a, i)
  }

  function BuriedRow(row: Row, maxAttempts: nat): Row {
    if Spent(row, maxAttempts) then row.(status := DEAD, nextAttemptAt := None) else row
  }

  function BuriedRows(rows: seq<Row>, maxAttempts: nat): seq<Row> {
    seq(|rows|, i requires 0 <= i < |rows| => BuriedRow(rows[i], maxAttempts))
  }

  /** Not due at `now`: blocked, or due later. */
  predicate Waiting(head: Head, now: nat) {
    head.dueAt.None? || head.dueAt.value > now
  }

  /** When repairHeads, started at `now`, finds the head row of an aggregate due, reading it at `at`. */
  function FoundDue(rows: seq<Row>, now: nat, at: nat): Option<nat> {
    var r := HeadOf(rows);
    if r.Some? then DueAtOf(rows[r.value], at) else Some(now)
  }

  predicate Overdue(rows: seq<Row>, now: nat, at: nat) {
    FoundDue(rows, now, at).Some? && FoundDue(rows, now, at).value <= now
  }

  function RepairedHead(head: Head, rows: seq<Row>, now: nat, at: nat): Head {
    if Overdue(rows, now, at) then head.(dueAt := FoundDue(rows, now, at)) else head
  }

  /** The aggregates with a PENDING or FAILED row. */
  function WithWork(rows: map<string, seq<Row>>): set<string> {
    set a | a in rows && HasWork(rows[a])
  }

  function WaitingIn(heads: map<string, Head>, now: nat): set<string> {
    set a | a in heads && Waiting(heads[a], now)
  }

  /** The heads after the upsert of the missing ones. */
  function WithHeads(heads: map<string, Head>, open: set<string>, now: nat): (r: map<string, Head>)
    ensures forall a | a in heads :: a in r && r[a] == heads[a]
    ensures forall a | a in open :: a in r
    ensures forall a | a in r && a !in heads :: a in open && r[a] == Head(Some(now), 0)
  {
    heads + map a | a in open && a !in heads :: Head(Some(now), 0)
  }

  /** What one read of both collections would see. */
  datatype Snapshot = Snapshot(rows: map<string, seq<Row>>, heads: map<string, Head>)

  /** One turn of the repair loop: the read of the row, the clock reading after it, and the write. */
  datatype Repair = Repair(atRow: Snapshot, rowAt: nat, before: Snapshot, after: Snapshot)

  /** The turn for `a` writes what it found due by `now`, into a head that is still there, and nothing else. */
  predicate RepairedBy(r: Repair, a: string, now: nat, fixed: bool) {
    && now <= r.rowAt
    && fixed == Overdue(RowsIn(r.atRow.rows, a), now, r.rowAt)
    && r.after == if fixed && a in r.before.heads
                  then r.before.(heads := r.before.heads[a := RepairedHead(r.before.heads[a], RowsIn(r.atRow.rows, a), now, r.rowAt)])
                  else r.before
  }

  /** `after` is what a repair nobody interrupts makes of `head`. */
  predicate RepairedAs(head: Head, after: Head, rows: seq<Row>, now: nat, repairs: map<string, Repair>, a: string) {
    if Waiting(head, now)
    then a in repairs && now <= repairs[a].rowAt && after == RepairedHead(head, rows, now, repairs[a].rowAt)
    else after == head
  }

  /** The heads of `start` outside `waiting`, repaired with nobody else writing. */
  predicate RepairedAlone(start: Snapshot, now: nat, end: Snapshot, waiting: set<string>, repairs: map<string, Repair>, fixed: set<string>) {
    && end.rows == start.rows && end.heads.Keys == start.heads.Keys
    && (forall a | a in waiting && a in start.heads :: end.heads[a] == start.heads[a])
    && (forall a | a in start.heads && a !in waiting ::
          && RepairedAs(start.heads[a], end.heads[a], RowsIn(start.rows, a), now, repairs, a)
          && (a in fixed <==> end.heads[a] != start.heads[a]))
  }

  lemma RepairedOneMore(start: Snapshot, now: nat, end: Snapshot, waiting: set<string>, repairs: map<string, Repair>,
                        fixed: set<string>, a: string, r: Repair, changed: bool)
    requires RepairedAlone(start, now, end, waiting, repairs, fixed)
    requires a in waiting && a in start.heads && Waiting(start.heads[a], now) && a !in fixed
    requires RepairedBy(r, a, now, changed) && r.atRow == end && r.before == end
    ensures RepairedAlone(start, now, r.after, waiting - {a}, repairs[a := r], if changed then fixed + {a} else fixed)
  {
    var fixed' := if changed then fixed + {a} else fixed;
    forall b | b in start.heads && b !in waiting - {a}
      ensures RepairedAs(start.heads[b], r.after.heads[b], RowsIn(start.rows, b), now, repairs[a := r], b)
      ensures b in fixed' <==> r.after.heads[b] != start.heads[b]
    {
      if b != a {
        assert RepairedAs(start.heads[b], end.heads[b], RowsIn(start.rows, b), now, repairs, b);
      }
    }
  }

  /** The rows once an operator's update has changed the DEAD rows a filter selects. */
  function RedrivenIn(rows: map<string, seq<Row>>, filter: RowFilter): map<string, seq<Row>> {
    if Matched(rows, filter) == {} then rows
    else rows[filter.aggregate := RedriveRows(RowsIn(rows, filter.aggregate), filter.Row())]
  }

  function SkippedIn(rows: map<string, seq<Row>>, filter: RowFilter): map<string, seq<Row>> {
    if Matched(rows, filter) == {} then rows
    else rows[filter.aggregate := SkipRows(RowsIn(rows, filter.aggregate), filter.Row())]
  }

  /** The three calls of an operator action, with anyone writing in between. */
  datatype Operation = Operation(atUpdate: Snapshot, updated: Snapshot, atRequeue: Snapshot)

  /** The heads after a settle that read the head `seen` and the oldest open row `headRow`. */
  function SettledHeads(heads: map<string, Head>, a: string, seen: Option<Head>, headRow: Option<Row>, time: nat): map<string, Head> {
    if headRow.Some? then heads[a := SetDue(HeadIn(heads, a), DueAtOf(headRow.value, time))]
    else if seen.Some? && RetireHead(HeadIn(heads, a), Some(seen.value.v)).None? then heads - {a}
    else heads
  }

  /** A DEAD row of the aggregate, the one the filter names if it names one. */
  predicate Names(filter: RowFilter, rows: seq<Row>, i: nat) {
    && !filter.MalformedId? && i < |rows| && rows[i].status == DEAD
    && (filter.OfRow? ==> i == filter.row)
  }

  ghost predicate AnyNamed(filter: RowFilter, rows: seq<Row>) {
    exists i: nat :: Names(filter, rows, i)
  }

  /** Only rows of the filter's aggregate change, and only those it names. */
  ghost predicate OnlyNamed(before: map<string, seq<Row>>, after: map<string, seq<Row>>, filter: RowFilter) {
    && !filter.MalformedId? && after.Keys == before.Keys
    && (forall a | a in before && a != filter.aggregate :: after[a] == before[a])
    && |RowsIn(after, filter.aggregate)| == |RowsIn(before, filter.aggregate)|
    && forall i: nat | i < |RowsIn(before, filter.aggregate)| && !Names(filter, RowsIn(before, filter.aggregate), i) ::
         RowsIn(after, filter.aggregate)[i] == RowsIn(before, filter.aggregate)[i]
  }

  /** Exactly the named rows are PENDING again, as if they had never failed. */
  ghost predicate FreshBudget(before: map<string, seq<Row>>, after: map<string, seq<Row>>, filter: RowFilter) {
    && OnlyNamed(before, after, filter)
    && forall i: nat | Names(filter, RowsIn(before, filter.aggregate), i) ::
         RowsIn(after, filter.aggregate)[i] == Row(RowsIn(before, filter.aggregate)[i].event, PENDING, 0, None)
  }

  /** Exactly the named rows are SKIPPED, their event and attempts kept. */
  ghost predicate GivenUpIn(before: map<string, seq<Row>>, after: map<string, seq<Row>>, filter: RowFilter) {
    && OnlyNamed(before, after, filter)
    && forall i: nat | Names(filter, RowsIn(before, filter.aggregate), i) ::
         var was, row := RowsIn(before, filter.aggregate)[i], RowsIn(after, filter.aggregate)[i];
         row.status == SKIPPED && row.event == was.event && row.attempts == was.attempts
  }

  /** The head of the aggregate is due now with its version raised, unless the call did not get through. */
  ghost predicate RequeuedAs(before: map<string, Head>, after: map<string, Head>, a: string, run: OperatorRun, time: nat) {
    after == if run == COMPLETES || run == REQUEUE_FAILS(true)
             then before[a := Head(Some(time), if a in before then before[a].v + 1 else 1)] else before
  }

  /** The rows an operator's listing and update match are those the filter names. */
  lemma MatchedExactly(rows: map<string, seq<Row>>, filter: RowFilter)
    requires !filter.MalformedId?
    ensures forall i: nat :: i in Matched(rows, filter) <==> Names(filter, RowsIn(rows, filter.aggregate), i)
  {
  }

  lemma RedrivenExactly(rows: map<string, seq<Row>>, filter: RowFilter)
    requires !filter.MalformedId?
    ensures FreshBudget(rows, RedrivenIn(rows, filter), filter)
    ensures |ChangedRows(rows, RedrivenIn(rows, filter))| == |Matched(rows, filter)|
  {
    MatchedExactly(rows, filter);
    CountChanged(rows, RedrivenIn(rows, filter), filter);
  }

  lemma SkippedExactly(rows: map<string, seq<Row>>, filter: RowFilter)
    requires !filter.MalformedId?
    ensures GivenUpIn(rows, SkippedIn(rows, filter), filter)
    ensures |ChangedRows(rows, SkippedIn(rows, filter))| == |Matched(rows, filter)|
  {
    MatchedExactly(rows, filter);
    CountChanged(rows, SkippedIn(rows, filter), filter);
  }

  /** Every row that is named changes status, so the changed rows are as many as the matched ones. */
  lemma CountChanged(before: map<string, seq<Row>>, after: map<string, seq<Row>>, filter: RowFilter)
    requires OnlyNamed(before, after, filter)
    requires forall i: nat | Names(filter, RowsIn(before, filter.aggregate), i) :: RowsIn(after, filter.aggregate)[i].status != DEAD
    ensures |ChangedRows(before, after)| == |Matched(before, filter)|
  {
    MatchedExactly(before, filter);
    var a, matched := filter.aggregate, Matched(before, filter);
    assert ChangedRows(before, after) == Pairs(a, matched);
    PairsCount(a, matched);
  }

  function Pairs(a: string, s: set<nat>): set<(string, nat)> {
    set i | i in s :: (a, i)
  }

  lemma {:induction false} PairsCount(a: string, s: set<nat>)
    ensures |Pairs(a, s)| == |s|
  {
    if s == {} {
      assert Pairs(a, s) == {};
    } else {
      var x :| x in s;
      PairsCount(a, s - {x});
      assert Pairs(a, s) == Pairs(a, s - {x}) + {(a, x)};
      assert (a, x) !in Pairs(a, s - {x});
    }
  }

  function HeadRowOf(rows: seq<Row>): Option<Row> {
    var r := HeadOf(rows);
    if r.Some? then Some(rows[r.value]) else None
  }

  /** A head that comes due when its row does: now for PENDING, at its own time for FAILED, never for DEAD. */
  predicate DueLike(dueAt: Option<nat>, row: Row, now: nat) {
    && (row.status == PENDING ==> dueAt == Some(now))
    && (row.status == FAILED && row.nextAttemptAt.None? ==> dueAt == Some(now))
    && (row.status == FAILED && row.nextAttemptAt.Some? ==> dueAt == row.nextAttemptAt)
    && (row.status == DEAD ==> dueAt == None)
  }

  /**
   * The compare-and-delete, and the write of the due time. With no row open the
   * head goes exactly if its version is the one read first; with one open the
   * version stays and the head comes due when the row does.
   */
  lemma SettledExactly(heads: map<string, Head>, a: string, seen: Option<Head>, rows: seq<Row>, time: nat)
    ensures var heads' := SettledHeads(heads, a, seen, HeadRowOf(rows), time);
            && (forall b | b != a :: HeadIn(heads', b) == HeadIn(heads, b))
            && (AllDone(rows) ==>
                  if a in heads && seen.Some? && heads[a].v == seen.value.v then a !in heads' else HeadIn(heads', a) == HeadIn(heads, a))
            && forall i: nat | OldestOpen(rows, i) ::
                 && a in heads' && heads'[a].v == (if a in heads then heads[a].v else 0)
                 && DueLike(heads'[a].dueAt, rows[i], time)
  {
    HeadRowExactly(rows, 0);
    forall i: nat | OldestOpen(rows, i)
      ensures HeadRowOf(rows) == Some(rows[i])
    {
      HeadRowExactly(rows, i);
    }
  }

  /** The write of a settle is the protocol's step on that aggregate's head. */
  lemma SettleIsItsStep(c: Timing, g: Aggregate, now: nat, k: nat, time: nat,
                        heads: map<string, Head>, a: string, seen: Option<Head>, headRow: Option<Row>)
    requires Enabled(c, g, now, SettleWrite(k, time)) && g.head == HeadIn(heads, a)
    requires g.sessions[k] == if headRow.Some? then Requeuing(headRow.value)
                              else Retiring(if seen.Some? then Some(seen.value.v) else None)
    ensures Apply(g, now, SettleWrite(k, time)).head == HeadIn(SettledHeads(heads, a, seen, headRow, time), a)
  {
  }

  /** A settle nobody interrupts leaves a head exactly if a row is open. */
  lemma SettleAloneExactly(heads: map<string, Head>, a: string, rows: seq<Row>, time: nat)
    ensures a in SettledHeads(heads, a, HeadIn(heads, a), HeadRowOf(rows), time) <==> exists i | 0 <= i < |rows| :: Open(rows[i])
  {
  }

  class OutboxService {
    var rows: map<string, seq<Row>>
    var heads: map<string, Head>
    var clock: nat

    constructor ()
      ensures rows == map[] && heads == map[] && clock == 0
    {
      rows, heads, clock := map[], map[], 0;
    }

    /** Reads the clock; any time may have passed since the last read. */
    method Now() returns (now: nat)
      modifies `clock
      ensures old(clock) <= now == clock
    {
      var passed: int := *;
      if passed > 0 {
        clock := clock + passed;
      }
      now := clock;
    }

    method Write(a: string, event: EventId) returns (time: nat)
      modifies this
      ensures old(clock) <= time == clock
      ensures rows == old(rows)[a := RowsIn(old(rows), a) + [Row(event, PENDING, 0, None)]]
      ensures heads == old(heads)[a := if a in old(heads) then Head(old(heads)[a].dueAt, old(heads)[a].v + 1)
                                       else Head(Some(time), 1)]
    {
      time := Now();
      heads := heads[a := WriteHead(HeadIn(heads, a), time)];
      rows := rows[a := RowsIn(rows, a) + [NewRow(event)]];
    }

    ghost function View(): Snapshot
      reads this
    {
      Snapshot(rows, heads)
    }

    /** An await inside an operation: anyone else may write, unless nobody else is there. */
    method Meanwhile(alone: bool)
      modifies this
      ensures old(clock) <= clock && (alone ==> View() == old(View()))
    {
    }

    /**
     * Retires the head when no row is open and its version is the one read
     * first, otherwise makes it due when its row is. `atRow` is what the read of
     * the row saw, `atWrite` what the write found.
     */
    method SettleHead(a: string) returns (time: nat, ghost atRow: Snapshot, ghost atWrite: Snapshot)
      modifies this
      ensures old(clock) <= time <= clock
      ensures rows == atWrite.rows
      ensures heads == SettledHeads(atWrite.heads, a, HeadIn(old(heads), a), HeadRowOf(RowsIn(atRow.rows, a)), time)
      ensures forall b | b != a :: HeadIn(heads, b) == HeadIn(atWrite.heads, b)
      ensures AllDone(RowsIn(atRow.rows, a)) ==>
                if a in atWrite.heads && a in old(heads) && atWrite.heads[a].v == old(heads)[a].v then a !in heads
                else HeadIn(heads, a) == HeadIn(atWrite.heads, a)
      ensures forall i: nat | OldestOpen(RowsIn(atRow.rows, a), i) ::
                && a in heads && heads[a].v == (if a in atWrite.heads then atWrite.heads[a].v else 0)
                && DueLike(heads[a].dueAt, RowsIn(atRow.rows, a)[i], time)
    {
      ghost var was := HeadIn(heads, a);
      var head := HeadIn(heads, a);
      Meanwhile(false);
      atRow := View();
      var row := HeadRowOf(RowsIn(rows, a));
      Meanwhile(false);
      time := Now();
      Meanwhile(false);
      atWrite := View();
      SettledExactly(heads, a, was, RowsIn(atRow.rows, a), time);
      if row.None? {
        if head.Some? && RetireHead(HeadIn(heads, a), Some(head.value.v)).None? {
          heads := heads - {a};
        }
        return;
      }
      heads := heads[a := SetDue(HeadIn(heads, a), DueAtOf(row.value, time))];
    }

    method MarkDispatched(a: string, r: nat)
      modifies `rows
      ensures var was := RowsIn(old(rows), a);
              rows == if r < |was| && was[r].status in {PENDING, FAILED}
                      then old(rows)[a := was[r := Row(was[r].event, DISPATCHED, was[r].attempts, None)]]
                      else old(rows)
    {
      if r < |RowsIn(rows, a)| && Markable(RowsIn(rows, a)[r]) {
        rows := rows[a := RowsIn(rows, a)[r := DispatchedRow(RowsIn(rows, a)[r])]];
      }
    }

    /** The status written, or None when the row had already left PENDING and FAILED. */
    method MarkFailed(a: string, r: nat, seen: Row) returns (status: Option<Status>)
      modifies `rows, `clock
      ensures old(clock) <= clock
      ensures status.Some? <==> r < |RowsIn(old(rows), a)| && RowsIn(old(rows), a)[r].status in {PENDING, FAILED}
      ensures status.None? ==> rows == old(rows)
      ensures status.Some? ==>
                var was, n := RowsIn(old(rows), a), seen.attempts + 1;
                && status.value == (if n >= 5 then DEAD else FAILED)
                && rows == old(rows)[a := was[r := Row(was[r].event, status.value, n,
                                                       if n >= 5 then None else Some(clock + [0, 5_000, 10_000, 20_000, 40_000][n]))]]
    {
      assert Backoff(1) == 5_000 && Backoff(2) == 10_000 && Backoff(3) == 20_000 && Backoff(4) == 40_000;
      var now := Now();
      if !(r < |RowsIn(rows, a)| && Markable(RowsIn(rows, a)[r])) {
        return None;
      }
      var row := FailedRow(RowsIn(rows, a)[r], seen, now);
      rows := rows[a := RowsIn(rows, a)[r := row]];
      status := Some(row.status);
    }

    /** No FAILED row stays at or past the ceiling: each becomes DEAD, nothing else changes; how many did. */
    method DeadLetterExhausted(maxAttempts: nat) returns (modified: nat)
      modifies `rows
      ensures modified == |ChangedRows(old(rows), rows)|
      ensures rows.Keys == old(rows).Keys && forall a | a in rows :: |rows[a]| == |old(rows)[a]|
      ensures forall a, i: nat | a in rows && i < |rows[a]| ::
                var was := old(rows)[a][i];
                rows[a][i] == if was.status == FAILED && was.attempts >= maxAttempts then Row(was.event, DEAD, was.attempts, None)
                              else was
    {
      modified := |SpentRows(rows, maxAttempts)|;
      ghost var was := rows;
      rows := map a | a in rows :: BuriedRows(rows[a], maxAttempts);
      assert ChangedRows(was, rows) == SpentRows(was, maxAttempts);
    }

    /** Puts the head of an aggregate an operator acted on in line now. */
    method Requeue(a: string) returns (time: nat)
      modifies `heads, `clock
      ensures old(clock) <= time == clock
      ensures heads == old(heads)[a := Head(Some(time), if a in old(heads) then old(heads)[a].v + 1 else 1)]
    {
      time := Now();
      heads := heads[a := RequeueHead(HeadIn(heads, a), time)];
    }

    /** The aggregates an operator's filter matches: its own, if it has a DEAD row that is meant. */
    method Lists(filter: RowFilter) returns (listed: bool)
      requires !filter.MalformedId?
      ensures listed == AnyNamed(filter, RowsIn(rows, filter.aggregate))
    {
      MatchedExactly(rows, filter);
      listed := DeadRows(RowsIn(rows, filter.aggregate), filter.Row()) != {};
      if listed {
        var i :| i in Matched(rows, filter);
        assert Names(filter, RowsIn(rows, filter.aggregate), i);
      }
    }

    /** The requeue after an update, if the aggregate was listed; whether the call failed. */
    method RequeueListed(a: string, listed: bool, run: OperatorRun) returns (failed: bool, ghost atRequeue: Snapshot)
      requires run.COMPLETES? || run.REQUEUE_FAILS?
      modifies this
      ensures !listed ==> !failed && View() == old(View())
      ensures listed ==> failed == run.REQUEUE_FAILS? && rows == atRequeue.rows && RequeuedAs(atRequeue.heads, heads, a, run, clock)
    {
      failed, atRequeue := false, View();
      if listed {
        Meanwhile(false);
        atRequeue := View();
        if run.Requeues() {
          var time := Requeue(a);
        }
        failed := run.REQUEUE_FAILS?;
      }
    }

    /** One update: the named rows get a fresh budget; how many did. */
    method UpdateRedriven(filter: RowFilter, run: OperatorRun) returns (modified: nat)
      requires !filter.MalformedId?
      modifies `rows
      ensures if run.Updates() then FreshBudget(old(rows), rows, filter) && modified == |ChangedRows(old(rows), rows)|
              else rows == old(rows)
    {
      var dead := DeadRows(RowsIn(rows, filter.aggregate), filter.Row());
      modified := |dead|;
      RedrivenExactly(rows, filter);
      if dead != {} && run.Updates() {
        rows := rows[filter.aggregate := RedriveRows(RowsIn(rows, filter.aggregate), filter.Row())];
      }
    }

    /** One update: the named rows are given up; how many were. */
    method UpdateSkipped(filter: RowFilter, run: OperatorRun) returns (modified: nat)
      requires !filter.MalformedId?
      modifies `rows
      ensures if run.Updates() then GivenUpIn(old(rows), rows, filter) && modified == |ChangedRows(old(rows), rows)|
              else rows == old(rows)
    {
      var dead := DeadRows(RowsIn(rows, filter.aggregate), filter.Row());
      modified := |dead|;
      SkippedExactly(rows, filter);
      if dead != {} && run.Updates() {
        rows := rows[filter.aggregate := SkipRows(RowsIn(rows, filter.aggregate), filter.Row())];
      }
    }

    /**
     * DEAD rows selected by `filter` go back to PENDING; how many did. The
     * aggregate's head is requeued only if it was listed before the update and
     * the call gets through: an action that fails there has changed the rows.
     */
    method Redrive(filter: RowFilter, run: OperatorRun) returns (result: Result<nat, OperatorError>, ghost o: Operation)
      modifies this
      ensures filter.MalformedId? ==> result == Err(InvalidRowId) && View() == old(View())
      ensures !filter.MalformedId? && run.LISTING_FAILS? ==> result == Err(StoreError) && View() == old(View())
      ensures !filter.MalformedId? && !run.LISTING_FAILS? ==>
                var listed := AnyNamed(filter, RowsIn(old(rows), filter.aggregate));
                && o.updated.heads == o.atUpdate.heads
                && (if run.Updates() then FreshBudget(o.atUpdate.rows, o.updated.rows, filter) else o.updated.rows == o.atUpdate.rows)
                && (run.UPDATE_FAILS? || !listed ==> View() == o.updated)
                && (!run.UPDATE_FAILS? && listed ==> rows == o.atRequeue.rows && RequeuedAs(o.atRequeue.heads, heads, filter.aggregate, run, clock))
                && (run.UPDATE_FAILS? || (run.REQUEUE_FAILS? && listed) ==> result == Err(StoreError))
                && (!run.UPDATE_FAILS? && !(run.REQUEUE_FAILS? && listed) ==>
                      result == Ok(|ChangedRows(o.atUpdate.rows, o.updated.rows)|))
    {
      o := Operation(View(), View(), View());
      if filter.MalformedId? {
        result := Err(InvalidRowId);
        return;
      }
      if run.LISTING_FAILS? {
        result := Err(StoreError);
        return;
      }
      var listed := Lists(filter);
      Meanwhile(false);
      o := o.(atUpdate := View());
      var modified := UpdateRedriven(filter, run);
      o := o.(updated := View());
      if run.UPDATE_FAILS? {
        result := Err(StoreError);
        return;
      }
      var failed;
      ghost var atRequeue;
      failed, atRequeue := RequeueListed(filter.aggregate, listed, run);
      o := o.(atRequeue := atRequeue);
      result := if failed then Err(StoreError) else Ok(modified);
    }

    /**
     * DEAD rows selected by `filter` are given up; how many were. The
     * aggregate's head is requeued only if it was listed before the update and
     * the call gets through: an action that fails there has changed the rows.
     */
    method Skip(filter: RowFilter, run: OperatorRun) returns (result: Result<nat, OperatorError>, ghost o: Operation)
      modifies this
      ensures filter.MalformedId? ==> result == Err(InvalidRowId) && View() == old(View())
      ensures !filter.MalformedId? && run.LISTING_FAILS? ==> result == Err(StoreError) && View() == old(View())
      ensures !filter.MalformedId? && !run.LISTING_FAILS? ==>
                var listed := AnyNamed(filter, RowsIn(old(rows), filter.aggregate));
                && o.updated.heads == o.atUpdate.heads
                && (if run.Updates() then GivenUpIn(o.atUpdate.rows, o.updated.rows, filter) else o.updated.rows == o.atUpdate.rows)
                && (run.UPDATE_FAILS? || !listed ==> View() == o.updated)
                && (!run.UPDATE_FAILS? && listed ==> rows == o.atRequeue.rows && RequeuedAs(o.atRequeue.heads, heads, filter.aggregate, run, clock))
                && (run.UPDATE_FAILS? || (run.REQUEUE_FAILS? && listed) ==> result == Err(StoreError))
                && (!run.UPDATE_FAILS? && !(run.REQUEUE_FAILS? && listed) ==>
                      result == Ok(|ChangedRows(o.atUpdate.rows, o.updated.rows)|))
    {
      o := Operation(View(), View(), View());
      if filter.MalformedId? {
        result := Err(InvalidRowId);
        return;
      }
      if run.LISTING_FAILS? {
        result := Err(StoreError);
        return;
      }
      var listed := Lists(filter);
      Meanwhile(false);
      o := o.(atUpdate := View());
      var modified := UpdateSkipped(filter, run);
      o := o.(updated := View());
      if run.UPDATE_FAILS? {
        result := Err(StoreError);
        return;
      }
      var failed;
      ghost var atRequeue;
      failed, atRequeue := RequeueListed(filter.aggregate, listed, run);
      o := o.(atRequeue := atRequeue);
      result := if failed then Err(StoreError) else Ok(modified);
    }

    /** Re-derives one head that was waiting; whether its row was found due, and the turn's reads and write. */
    method RepairOne(a: string, now: nat, alone: bool) returns (fixed: bool, ghost r: Repair)
      requires now <= clock
      modifies this
      ensures old(clock) <= clock && RepairedBy(r, a, now, fixed) && View() == r.after && r.rowAt <= clock
      ensures alone ==> r.atRow == r.before == old(View())
    {
      ghost var atRow := View();
      var row := HeadRowOf(RowsIn(rows, a));
      Meanwhile(alone);
      var at := Now();
      var dueAt := if row.Some? then DueAtOf(row.value, at) else Some(now);
      fixed := dueAt.Some? && dueAt.value <= now;
      Meanwhile(alone);
      ghost var before := View();
      if fixed && a in heads {
        heads := heads[a := heads[a].(dueAt := dueAt)];
      }
      r := Repair(atRow, at, before, View());
    }

    /** Re-derives the heads that wait when it starts, one after the other. */
    method RepairWaiting(now: nat, alone: bool)
      returns (repaired: nat, ghost repairs: map<string, Repair>, ghost fixed: set<string>)
      requires now <= clock
      modifies this
      ensures old(clock) <= clock && repairs.Keys == WaitingIn(old(heads), now)
      ensures forall a :: a in repairs <==>
                a in old(heads) && (old(heads)[a].dueAt == None || old(heads)[a].dueAt.value > now)
      ensures forall a | a in repairs :: RepairedBy(repairs[a], a, now, a in fixed) && repairs[a].rowAt <= clock
      ensures fixed <= repairs.Keys && repaired == |fixed|
      ensures alone ==> RepairedAlone(old(View()), now, View(), {}, repairs, fixed)
    {
      repaired, repairs, fixed := 0, map[], {};
      var waiting := WaitingIn(heads, now);
      while waiting != {}
        invariant old(clock) <= clock && waiting <= WaitingIn(old(heads), now)
        invariant repairs.Keys == WaitingIn(old(heads), now) - waiting && fixed <= repairs.Keys
        invariant forall a | a in repairs :: RepairedBy(repairs[a], a, now, a in fixed) && repairs[a].rowAt <= clock
        invariant repaired == |fixed|
        invariant alone ==> RepairedAlone(old(View()), now, View(), waiting, repairs, fixed)
        decreases waiting
      {
        var a :| a in waiting;
        ghost var was := View();
        var changed, r := RepairOne(a, now, alone);
        if alone {
          RepairedOneMore(old(View()), now, was, waiting, repairs, fixed, a, r, changed);
        }
        repairs := repairs[a := r];
        if changed {
          repaired := repaired + 1;
          fixed := fixed + {a};
        }
        waiting := waiting - {a};
      }
    }

    /**
     * Gives every aggregate with a PENDING or FAILED row a head, then re-derives
     * the heads that are not due. Anyone may write between its calls, unless it
     * is alone: `atInsert` and `inserted` are around the upsert, `repairs` are
     * the turns of the loop, `fixed` those that found their row due.
     */
    method RepairHeads(alone: bool)
      returns (repaired: nat, now: nat, ghost atInsert: Snapshot, ghost inserted: Snapshot, ghost repairs: map<string, Repair>, ghost fixed: set<string>)
      modifies this
      ensures old(clock) <= now <= clock
      ensures inserted == atInsert.(heads := WithHeads(atInsert.heads, WithWork(old(rows)), now))
      ensures forall a, i | a in old(rows) && 0 <= i < |old(rows)[a]| && old(rows)[a][i].status in {PENDING, FAILED} ::
                a in inserted.heads
      ensures forall a | a in inserted.heads && a !in atInsert.heads ::
                && inserted.heads[a] == Head(Some(now), 0) && a in old(rows)
                && exists i | 0 <= i < |old(rows)[a]| :: old(rows)[a][i].status in {PENDING, FAILED}
      ensures forall a | a in repairs :: RepairedBy(repairs[a], a, now, a in fixed) && repairs[a].rowAt <= clock
      ensures fixed <= repairs.Keys && repaired == |inserted.heads.Keys - atInsert.heads.Keys| + |fixed|
      ensures alone ==>
                && atInsert == old(View()) && repairs.Keys == WaitingIn(inserted.heads, now)
                && RepairedAlone(inserted, now, View(), {}, repairs, fixed)
    {
      now := Now();
      var open := WithWork(rows);
      Meanwhile(alone);
      atInsert := View();
      var upserted := WithHeads(heads, open, now);
      var missing := |upserted.Keys - heads.Keys|;
      heads := upserted;
      inserted := View();
      Meanwhile(alone);
      var rederived;
      rederived, repairs, fixed := RepairWaiting(now, alone);
      repaired := missing + rederived;
    }
  }

  // ------------------------------------------------- What a repair achieves

  /**
   * What a turn of the loop does: it finds its row due, read by its own clock,
   * and then makes a head that is still there come due when the row does.
   */
  lemma TurnExactly(r: Repair, a: string, now: nat, fixed: bool)
    requires RepairedBy(r, a, now, fixed)
    ensures r.after.rows == r.before.rows && forall b | b != a :: HeadIn(r.after.heads, b) == HeadIn(r.before.heads, b)
    ensures !fixed || a !in r.before.heads ==> r.after == r.before
    ensures fixed && a in r.before.heads ==> a in r.after.heads && r.after.heads[a].v == r.before.heads[a].v
    ensures AllDone(RowsIn(r.atRow.rows, a)) ==>
              fixed && (a in r.before.heads ==> r.after.heads[a].dueAt == Some(now))
    ensures forall i: nat | OldestOpen(RowsIn(r.atRow.rows, a), i) ::
              var row := RowsIn(r.atRow.rows, a)[i];
              && (fixed <==> || ((row.status == PENDING || (row.status == FAILED && row.nextAttemptAt == None)) && r.rowAt <= now)
                             || (row.status == FAILED && row.nextAttemptAt.Some? && row.nextAttemptAt.value <= now))
              && (fixed && a in r.before.heads ==> DueLike(r.after.heads[a].dueAt, row, r.rowAt))
  {
    var rows := RowsIn(r.atRow.rows, a);
    HeadRowExactly(rows, 0);
    forall i: nat | OldestOpen(rows, i)
      ensures HeadOf(rows) == Some(i)
    {
      HeadRowExactly(rows, i);
    }
  }

  /** A repaired head makes its aggregate findable, as far as the row lets it. */
  predicate Findable(rows: seq<Row>, head: Head, now: nat) {
    var r := HeadOf(rows);
    r.Some? && IsDue(rows[r.value], now) ==> DueBy(Some(head), now)
  }

  /**
   * A waiting head is repaired for work due at `now` exactly when its head row
   * is a FAILED one with a time of its own, or the clock had not moved on from
   * `now` when the row was read.
   */
  lemma RepairExactly(head: Head, rows: seq<Row>, now: nat, at: nat)
    requires Waiting(head, now) && now <= at
    requires var r := HeadOf(rows); r.Some? && IsDue(rows[r.value], now)
    ensures var row := rows[HeadOf(rows).value];
            Findable(rows, RepairedHead(head, rows, now, at), now) <==>
            (row.status == FAILED && row.nextAttemptAt.Some?) || at == now
  {
  }

  /** One millisecond is enough for the sweep to leave a blocked PENDING head blocked. */
  lemma RepairMissesPendingHead()
    ensures !Findable([NewRow("a")], RepairedHead(Head(None, 1), [NewRow("a")], 0, 1), 0)
    ensures Findable([NewRow("a")], RepairedHead(Head(None, 1), [NewRow("a")], 0, 0), 0)
  {
    assert HeadOf([NewRow("a")]) == Some(0);
  }

  /** A repair never puts a head later, and never touches its version. */
  lemma RepairOnlyHelps(head: Head, rows: seq<Row>, now: nat, at: nat)
    requires Waiting(head, now)
    ensures var head' := RepairedHead(head, rows, now, at);
            head'.v == head.v && (head' != head ==> DueBy(Some(head'), now))
  {
  }

  /**
   * What a turn of the loop still achieves among other writers: a head that is
   * there for its write ends due by `now`, exactly if the row it read was due
   * then and is a FAILED one with a time of its own, or the clock stood still.
   */
  lemma TurnReachesExactly(r: Repair, a: string, now: nat, fixed: bool)
    requires RepairedBy(r, a, now, fixed) && a in r.before.heads && Waiting(r.before.heads[a], now)
    requires var i := HeadOf(RowsIn(r.atRow.rows, a)); i.Some? && IsDue(RowsIn(r.atRow.rows, a)[i.value], now)
    ensures a in r.after.heads
    ensures var row := RowsIn(r.atRow.rows, a)[HeadOf(RowsIn(r.atRow.rows, a)).value];
            DueBy(Some(r.after.heads[a]), now) <==> (row.status == FAILED && row.nextAttemptAt.Some?) || r.rowAt == now
  {
    RepairExactly(r.before.heads[a], RowsIn(r.atRow.rows, a), now, r.rowAt);
  }

  /**
   * A redrive whose requeue fails leaves a PENDING row asleep, and the sweep
   * does not wake it once its clock has moved on: its turn changes nothing.
   */
  lemma FailedRequeueOutlivesSweep(c: Timing, now: nat, at: nat) returns (s: State)
    requires !c.requeues && now < at
    ensures Reachable(c, s) && s.g.owed == 0 && !Woken(s.g, s.now) && s.g.head.Some?
    ensures RepairedHead(s.g.head.value, s.g.rows, now, at) == s.g.head.value
  {
    s := FailedRequeueSleeps(c);
    assert Open(s.g.rows[0]) && HeadOf(s.g.rows) == Some(0);
  }
}
