/**
 * The due index. The relay finds work only through the heads, so an aggregate
 * whose oldest open row may be published must have a head that comes due no
 * later than that row.
 */
module OutboxWakeUp {
  import opened Wrappers
  import opened OutboxRows
  import opened OutboxProtocol
  import opened OutboxInvariants
  import opened OutboxLease
  import opened OutboxBudget

  /** A head that comes due by `time`. */
  predicate DueBy(head: Option<Head>, time: nat) {
    head.Some? && head.value.dueAt.Some? && head.value.dueAt.value <= time
  }

  /** When the head row may be published, not before `now`. */
  function DueTime(row: Row, now: nat): nat {
    if row.status == FAILED && row.nextAttemptAt.Some? && row.nextAttemptAt.value > now
    then row.nextAttemptAt.value else now
  }

  /** The oldest open row, unless DEAD, has a head due by the row's own time. */
  predicate Woken(g: Aggregate, now: nat) {
    var r := HeadOf(g.rows);
    r.Some? && g.rows[r.value].status != DEAD ==> DueBy(g.head, DueTime(g.rows[r.value], now))
  }

  /** And a head left over after the last open row cannot put the next write to sleep. */
  predicate Covered(g: Aggregate, now: nat) {
    Woken(g, now) && (HeadOf(g.rows).None? ==> g.head.None? || DueBy(g.head, now))
  }

  /** What a settle has read still justifies the write it is about to make. */
  predicate SettleJustified(g: Aggregate, now: nat, s: Stage) {
    match s
    case HeadRead(v) => v.Some? ==> g.head.Some? && v.value <= g.head.value.v
    case Retiring(v) =>
      v.Some? ==> g.head.Some? && v.value <= g.head.value.v && (g.head.value.v == v.value ==> HeadOf(g.rows).None?)
    case Requeuing(row) =>
      var r := HeadOf(g.rows);
      && (row.status == DEAD ==> r.Some? && g.rows[r.value].status == DEAD)
      && (row.status == FAILED ==>
            || (row.nextAttemptAt.Some? && row.nextAttemptAt.value <= now)
            || (r.Some? && g.rows[r.value].status == FAILED && g.rows[r.value].nextAttemptAt == row.nextAttemptAt))
    case _ => true
  }

  /** Every settle is over before the lease it was made under can have passed on. */
  predicate SettlesInLease(c: Timing) {
    c.settle.Some? && c.settle.value < LEASE_TTL_MS
  }

  /** A session whose settle may still write: if settles fit in the lease, one the lease still names. */
  predicate MayWrite(c: Timing, g: Aggregate, k: nat) {
    SettlesInLease(c) ==> Named(g, k)
  }

  lemma SettlerMayWrite(c: Timing, g: Aggregate, now: nat, k: nat)
    requires AllOnTime(c, g, now) && k in g.sessions && InTime(c, g, now, k)
    ensures MayWrite(c, g, k)
  {
    assert OnTime(c, g, now, k, g.sessions[k]);
  }

  /** No two sessions that may write are between their settle's first read and its write. */
  predicate OneSettles(c: Timing, g: Aggregate) {
    forall j, k | j in g.sessions && k in g.sessions && MayWrite(c, g, j) && MayWrite(c, g, k)
                  && g.sessions[j].Settling() && g.sessions[k].Settling() :: j == k
  }

  predicate Awake(c: Timing, g: Aggregate, now: nat) {
    && (g.owed == 0 ==> Covered(g, now))
    && OneSettles(c, g)
    && (forall k | k in g.sessions && MayWrite(c, g, k) :: SettleJustified(g, now, g.sessions[k]))
  }

  /** Settles wait for each other, or fit in the lease. */
  predicate SettlesApart(c: Timing) {
    c.serialSettles || SettlesInLease(c)
  }

  predicate SettlesSafely(c: Timing) {
    MarksInLease(c) && SettlesApart(c) && c.operatorsWait && c.listsCover && c.requeues
  }

  /** A session that may write could write before the step, or has just been opened. */
  lemma MayWriteBefore(c: Timing, g: Aggregate, now: nat, a: Action, k: nat)
    requires Enabled(c, g, now, a) && MayWrite(c, Apply(g, now, a), k)
    ensures MayWrite(c, g, k) || (a.Acquire? && k == g.nextToken)
  {
    if SettlesInLease(c) {
      NamedStays(c, g, now, a, k);
    }
  }

  /** The head row is the one a session marks, or that row is already terminal. */
  lemma HeadIs(rows: seq<Row>, r: nat)
    requires Reached(rows, r)
    ensures Open(rows[r]) ==> HeadOf(rows) == Some(r)
    ensures HeadOf(rows).Some? ==> r <= HeadOf(rows).value
  {
  }

  lemma MarkCovers(c: Timing, g: Aggregate, now: nat, a: Action)
    requires MarksInLease(c) && AllOnTime(c, g, now) && Sound(g) && Accounted(g, now)
    requires a.MarkDispatched? || a.MarkFailed?
    requires Enabled(c, g, now, a) && Covered(g, now)
    ensures Covered(Apply(g, now, a), now)
  {
    MarkerNamed(c, g, now, a.k);
    var r := g.sessions[a.k].row;
    assert Current(g, now, g.sessions[a.k]);
    HeadIs(g.rows, r);
    var g' := Apply(g, now, a);
    assert Woken(g, now);
    assert DueBy(g.head, now);
    var r' := HeadOf(g'.rows);
    if r'.Some? && r'.value != r {
      assert g'.rows[r'.value] == g.rows[r'.value];
      assert g.rows[r'.value].status == PENDING;
    }
  }

  lemma AppendHead(rows: seq<Row>, row: Row)
    requires Open(row)
    ensures HeadOf(rows + [row]) == if HeadOf(rows).Some? then HeadOf(rows) else Some(|rows|)
  {
    assert (rows + [row])[..|rows|] == rows;
  }

  lemma SettleCovers(c: Timing, g: Aggregate, now: nat, k: nat, time: nat)
    requires Sound(g) && Enabled(c, g, now, SettleWrite(k, time))
    requires Covered(g, now) && SettleJustified(g, now, g.sessions[k])
    ensures Covered(Apply(g, now, SettleWrite(k, time)), now)
  {
    assert StageOk(g, g.sessions[k]);
  }

  lemma OperatorCovers(c: Timing, g: Aggregate, now: nat, a: Action)
    requires Enabled(c, g, now, a) && Awake(c, g, now)
    requires c.listsCover && c.requeues && (a.Redrive? || a.Skip? || a.Requeue? || a.RepairInsert? || a.RepairDue?)
    ensures var g' := Apply(g, now, a); g'.owed == 0 ==> Covered(g', now)
  {
  }

  lemma WriteCovers(g: Aggregate, now: nat, event: EventId, time: nat)
    requires Covered(g, now) && time <= now
    ensures Covered(Apply(g, now, Write(event, time)), now)
  {
    AppendHead(g.rows, NewRow(event));
  }

  /** Neither depends on anything but the rows and the head. */
  lemma SameRowsSameHead(g: Aggregate, g': Aggregate, now: nat, s: Stage)
    requires g'.rows == g.rows && g'.head == g.head
    ensures Covered(g', now) == Covered(g, now) && SettleJustified(g', now, s) == SettleJustified(g, now, s)
  {
  }

  lemma CoveredStep(c: Timing, g: Aggregate, now: nat, a: Action)
    requires SettlesSafely(c) && AllOnTime(c, g, now) && Sound(g) && Accounted(g, now)
    requires Enabled(c, g, now, a) && Awake(c, g, now)
    ensures var g' := Apply(g, now, a); g'.owed == 0 ==> Covered(g', now)
  {
    if Quiet(a) {
      QuietFrame(g, now, a);
      SameRowsSameHead(g, Apply(g, now, a), now, Closing);
    } else {
      LoudCovers(c, g, now, a);
    }
  }

  lemma LoudCovers(c: Timing, g: Aggregate, now: nat, a: Action)
    requires SettlesSafely(c) && AllOnTime(c, g, now) && Sound(g) && Accounted(g, now)
    requires Enabled(c, g, now, a) && Awake(c, g, now) && !Quiet(a)
    ensures var g' := Apply(g, now, a); g'.owed == 0 ==> Covered(g', now)
  {
    if a.MarkDispatched? || a.MarkFailed? || a.Write? || a.SettleWrite? {
      LineCovers(c, g, now, a);
    } else if !a.SweepRow? && !a.RequeueFails? {
      OperatorCovers(c, g, now, a);
    }
  }

  /** The steps of relays and writers leave the operators alone. */
  lemma OwedFrame(g: Aggregate, now: nat, a: Action)
    requires a.MarkDispatched? || a.MarkFailed? || a.Write? || a.SettleWrite?
    ensures Apply(g, now, a).owed == g.owed
  {
  }

  lemma LineCovers(c: Timing, g: Aggregate, now: nat, a: Action)
    requires SettlesSafely(c) && AllOnTime(c, g, now) && Sound(g) && Accounted(g, now)
    requires Enabled(c, g, now, a) && Awake(c, g, now)
    requires a.MarkDispatched? || a.MarkFailed? || a.Write? || a.SettleWrite?
    ensures var g' := Apply(g, now, a); g'.owed == 0 ==> Covered(g', now)
  {
    OwedFrame(g, now, a);
    if g.owed == 0 {
      if a.Write? {
        WriteCovers(g, now, a.event, a.time);
      } else if a.SettleWrite? {
        SettlerMayWrite(c, g, now, a.k);
        SettleCovers(c, g, now, a.k, a.time);
      } else {
        MarkCovers(c, g, now, a);
      }
    }
  }

  /** A step of another session, a write, an operator or the sweep leaves a settle justified. */
  lemma JustifiedStays(c: Timing, g: Aggregate, now: nat, a: Action, k: nat)
    requires SettlesSafely(c) && AllOnTime(c, g, now) && Sound(g) && Accounted(g, now)
    requires Enabled(c, g, now, a) && Awake(c, g, now)
    requires k in g.sessions && MayWrite(c, g, k) && g.sessions[k].Settling() && Actor(g, a) != Some(k)
    ensures SettleJustified(Apply(g, now, a), now, g.sessions[k])
  {
    assert SettleJustified(g, now, g.sessions[k]);
    if Quiet(a) {
      QuietFrame(g, now, a);
      SameRowsSameHead(g, Apply(g, now, a), now, g.sessions[k]);
    } else if a.MarkDispatched? || a.MarkFailed? {
      MarkJustified(c, g, now, a, k);
    } else {
      OutsideJustified(c, g, now, a, k);
    }
  }

  /** Writes, operators and the sweep only raise the version and wait for a settle's row. */
  lemma OutsideJustified(c: Timing, g: Aggregate, now: nat, a: Action, k: nat)
    requires c.operatorsWait && Sound(g) && AllOnTime(c, g, now) && Enabled(c, g, now, a) && Awake(c, g, now)
    requires k in g.sessions && MayWrite(c, g, k) && g.sessions[k].Settling() && Actor(g, a) != Some(k)
    requires !Quiet(a) && !a.MarkDispatched? && !a.MarkFailed?
    ensures SettleJustified(Apply(g, now, a), now, g.sessions[k])
  {
    if Operates(a) {
      OperatorJustified(c, g, now, a, k);
    } else {
      assert SettleJustified(g, now, g.sessions[k]);
      match a
      case Write(event, _) => AppendHead(g.rows, NewRow(event));
      case SettleWrite(j, _) => SettlerMayWrite(c, g, now, j);
      case _ =>
    }
  }

  lemma OperatorJustified(c: Timing, g: Aggregate, now: nat, a: Action, k: nat)
    requires c.operatorsWait && Enabled(c, g, now, a) && Awake(c, g, now) && Operates(a)
    requires k in g.sessions && MayWrite(c, g, k) && g.sessions[k].Settling()
    ensures SettleJustified(Apply(g, now, a), now, g.sessions[k])
  {
    if a.Redrive? {
      RedriveJustified(c, g, now, a.at, a.listed, k);
    } else if a.Skip? {
      SkipJustified(c, g, now, a.at, a.listed, k);
    } else {
      assert SettleJustified(g, now, g.sessions[k]);
    }
  }

  lemma RedriveJustified(c: Timing, g: Aggregate, now: nat, at: Option<nat>, listed: bool, k: nat)
    requires c.operatorsWait && Enabled(c, g, now, Redrive(at, listed)) && Awake(c, g, now)
    requires k in g.sessions && MayWrite(c, g, k) && g.sessions[k].Settling()
    ensures SettleJustified(Apply(g, now, Redrive(at, listed)), now, g.sessions[k])
  {
    assert SettleJustified(g, now, g.sessions[k]);
    RedriveHead(g.rows, at);
  }

  /** A skip closes rows and opens none. */
  lemma SkipJustified(c: Timing, g: Aggregate, now: nat, at: Option<nat>, listed: bool, k: nat)
    requires c.operatorsWait && Enabled(c, g, now, Skip(at, listed)) && Awake(c, g, now)
    requires k in g.sessions && MayWrite(c, g, k) && g.sessions[k].Settling()
    ensures SettleJustified(Apply(g, now, Skip(at, listed)), now, g.sessions[k])
  {
    assert SettleJustified(g, now, g.sessions[k]);
  }

  lemma MarkJustified(c: Timing, g: Aggregate, now: nat, a: Action, k: nat)
    requires SettlesSafely(c) && AllOnTime(c, g, now) && Sound(g) && Accounted(g, now)
    requires a.MarkDispatched? || a.MarkFailed?
    requires Enabled(c, g, now, a) && k in g.sessions && SettleJustified(g, now, g.sessions[k])
    ensures SettleJustified(Apply(g, now, a), now, g.sessions[k])
  {
    MarkerNamed(c, g, now, a.k);
    assert Current(g, now, g.sessions[a.k]);
    HeadIs(g.rows, g.sessions[a.k].row);
  }

  /** A redrive reopens nothing: DEAD rows are open already. */
  lemma RedriveHead(rows: seq<Row>, at: Option<nat>)
    ensures HeadOf(RedriveRows(rows, at)) == HeadOf(rows)
  {
    var rows' := RedriveRows(rows, at);
    assert forall i | 0 <= i < |rows| :: Open(rows'[i]) <==> Open(rows[i]);
  }

  // ------------------------------------------------------------- Retirement

  /** Only what a settle knows about the head's version and the rows it found closed. */
  predicate RetireJustified(g: Aggregate, s: Stage) {
    match s
    case HeadRead(v) => v.Some? ==> g.head.Some? && v.value <= g.head.value.v
    case Retiring(v) =>
      v.Some? ==> g.head.Some? && v.value <= g.head.value.v && (g.head.value.v == v.value ==> HeadOf(g.rows).None?)
    case _ => true
  }

  /** An aggregate with an open row, DEAD or not, has a head. */
  predicate HeadKept(g: Aggregate) {
    HeadOf(g.rows).Some? ==> g.head.Some?
  }

  predicate RetiresSafely(c: Timing, g: Aggregate) {
    && HeadKept(g)
    && OneSettles(c, g)
    && (forall k | k in g.sessions && MayWrite(c, g, k) :: RetireJustified(g, g.sessions[k]))
  }

  /** No step but a write reopens a closed line. */
  lemma LineStaysClosed(c: Timing, g: Aggregate, now: nat, a: Action)
    requires Enabled(c, g, now, a) && !a.Write?
    ensures HeadOf(g.rows).None? ==> HeadOf(Apply(g, now, a).rows).None?
  {
    StepEvolves(c, g, now, a);
    if Quiet(a) {
      QuietFrame(g, now, a);
    }
  }

  /** The head is gone after a step only if it was gone or its version was the one a settle read. */
  lemma HeadGoes(c: Timing, g: Aggregate, now: nat, a: Action)
    requires Enabled(c, g, now, a)
    ensures var g' := Apply(g, now, a);
            && (g.head.Some? && g'.head.None? ==> a.SettleWrite? && g.sessions[a.k] == Retiring(Some(g.head.value.v)))
            && (g.head.Some? && g'.head.Some? ==> g.head.value.v <= g'.head.value.v)
            && (a.Write? ==> g'.head.Some? && (g.head.Some? ==> g.head.value.v < g'.head.value.v))
  {
    if Quiet(a) {
      QuietFrame(g, now, a);
    }
  }

  /** What the actor of a step has read: the head's version, or that no row is open. */
  lemma ActorRetireJustified(c: Timing, g: Aggregate, now: nat, a: Action, k: nat)
    requires Enabled(c, g, now, a) && Actor(g, a) == Some(k) && k in Apply(g, now, a).sessions
    requires k in g.sessions ==> RetireJustified(g, g.sessions[k])
    ensures RetireJustified(Apply(g, now, a), Apply(g, now, a).sessions[k])
  {
    if Settles(a) {
      SettlerRetireJustified(c, g, now, a, k);
    }
  }

  lemma SettlerRetireJustified(c: Timing, g: Aggregate, now: nat, a: Action, k: nat)
    requires Enabled(c, g, now, a) && Settles(a) && Actor(g, a) == Some(k) && k in Apply(g, now, a).sessions
    requires RetireJustified(g, g.sessions[k])
    ensures RetireJustified(Apply(g, now, a), Apply(g, now, a).sessions[k])
  {
  }

  /** A head that stays or is only raised, and a line that stays closed, leave a settle justified. */
  lemma RetireJustifiedFrame(g: Aggregate, g': Aggregate, s: Stage)
    requires RetireJustified(g, s)
    requires g.head.Some? ==> g'.head.Some? && g.head.value.v <= g'.head.value.v
    requires g.head.Some? && g'.head.Some? && g.head.value.v == g'.head.value.v && HeadOf(g.rows).None? ==> HeadOf(g'.rows).None?
    ensures RetireJustified(g', s)
  {
  }

  lemma OtherRetireJustified(c: Timing, g: Aggregate, now: nat, a: Action, k: nat)
    requires Enabled(c, g, now, a) && RetiresSafely(c, g) && AllOnTime(c, g, now)
    requires Actor(g, a) != Some(k) && k in g.sessions && MayWrite(c, g, k) && g.sessions[k].Settling()
    ensures RetireJustified(Apply(g, now, a), g.sessions[k])
  {
    HeadGoes(c, g, now, a);
    if !a.Write? {
      LineStaysClosed(c, g, now, a);
    }
    if a.SettleWrite? {
      SettlerMayWrite(c, g, now, a.k);
    }
    RetireJustifiedFrame(g, Apply(g, now, a), g.sessions[k]);
  }

  lemma RetireJustifiedStays(c: Timing, g: Aggregate, now: nat, a: Action, k: nat)
    requires SettlesApart(c) && Sound(g) && AllOnTime(c, g, now) && Enabled(c, g, now, a) && RetiresSafely(c, g)
    requires k in Apply(g, now, a).sessions && MayWrite(c, Apply(g, now, a), k)
    ensures RetireJustified(Apply(g, now, a), Apply(g, now, a).sessions[k])
  {
    MayWriteBefore(c, g, now, a, k);
    assert k in g.sessions ==> k < g.nextToken;
    if Actor(g, a) == Some(k) {
      ActorRetireJustified(c, g, now, a, k);
    } else {
      OthersStay(c, g, now, a);
      if g.sessions[k].Settling() {
        OtherRetireJustified(c, g, now, a, k);
      }
    }
  }

  /** A settle is begun by its first read and by nothing else. */
  lemma SettlingBefore(c: Timing, g: Aggregate, now: nat, a: Action, k: nat)
    requires Enabled(c, g, now, a) && k in Apply(g, now, a).sessions && Apply(g, now, a).sessions[k].Settling()
    ensures (k in g.sessions && g.sessions[k].Settling()) || a == SettleReadHead(k)
  {
    OthersStay(c, g, now, a);
  }

  /** At most one settle at a time may write: each one waits for the other, or the lease names one. */
  lemma SettlesStayApart(c: Timing, g: Aggregate, now: nat, a: Action)
    requires SettlesApart(c) && Enabled(c, g, now, a) && OneSettles(c, g)
    ensures OneSettles(c, Apply(g, now, a))
  {
    if !SettlesInLease(c) {
      forall k | k in Apply(g, now, a).sessions && Apply(g, now, a).sessions[k].Settling()
        ensures (k in g.sessions && g.sessions[k].Settling()) || a == SettleReadHead(k)
      {
        SettlingBefore(c, g, now, a, k);
      }
    }
  }

  lemma RetiresSafelyStep(c: Timing, g: Aggregate, now: nat, a: Action)
    requires SettlesApart(c) && Sound(g) && AllOnTime(c, g, now) && Enabled(c, g, now, a) && RetiresSafely(c, g)
    ensures RetiresSafely(c, Apply(g, now, a))
  {
    SettlesStayApart(c, g, now, a);
    HeadGoes(c, g, now, a);
    if !a.Write? {
      LineStaysClosed(c, g, now, a);
    }
    if a.SettleWrite? {
      SettlerMayWrite(c, g, now, a.k);
      assert RetireJustified(g, g.sessions[a.k]);
    }
    forall k | k in Apply(g, now, a).sessions && MayWrite(c, Apply(g, now, a), k)
      ensures RetireJustified(Apply(g, now, a), Apply(g, now, a).sessions[k])
    {
      RetireJustifiedStays(c, g, now, a, k);
    }
  }

  lemma {:induction false} RetiresSafelyRun(c: Timing, s: State, events: seq<Event>)
    requires SettlesApart(c) && Legal(c, s, events) && Sound(s.g) && AllOnTime(c, s.g, s.now) && RetiresSafely(c, s.g)
    ensures RetiresSafely(c, Run(s, events).g)
    decreases |events|
  {
    if |events| > 0 {
      SoundStep(c, s, events[0]);
      OnTimeStep(c, s, events[0]);
      if events[0].Do? {
        RetiresSafelyStep(c, s.g, s.now, events[0].a);
      }
      RetiresSafelyRun(c, Next(s, events[0]), events[1..]);
    }
  }

  /** The version check protects every open row, as long as settles are kept apart. */
  lemma NoOpenRowLosesItsHead(c: Timing, s: State)
    requires SettlesApart(c) && Reachable(c, s)
    ensures HeadKept(s.g)
  {
    var events :| Legal(c, START, events) && Run(START, events) == s;
    RetiresSafelyRun(c, START, events);
  }

  // ------------------------------------------------- The lease and settles

  /** A session the lease does not name is not named after a step. */
  lemma StaysUnnamed(c: Timing, s: State, e: Event, k: nat)
    requires Allowed(c, s, e) && k < s.g.nextToken && !Named(s.g, k)
    ensures k < Next(s, e).g.nextToken && !Named(Next(s, e).g, k)
  {
    if e.Do? {
      NamedStays(c, s.g, s.now, e.a, k);
      OthersStay(c, s.g, s.now, e.a);
    }
  }

  lemma {:induction false} NotNamedAgain(c: Timing, s: State, events: seq<Event>, k: nat)
    requires Legal(c, s, events) && k < s.g.nextToken && !Named(s.g, k)
    ensures !Named(Run(s, events).g, k)
    decreases |events|
  {
    if |events| > 0 {
      StaysUnnamed(c, s, events[0], k);
      NotNamedAgain(c, Next(s, events[0]), events[1..], k);
    }
  }

  /**
   * Settles over within 45 s of their session's last acquire or renew do not
   * overlap: once another session's settle has read or written, a settle begun
   * earlier never writes.
   */
  lemma LeaseKeepsSettlesApart(c: Timing, s: State, a: Action, j: nat, events: seq<Event>, k: nat, time: nat)
    requires SettlesInLease(c) && Reachable(c, s) && k in s.g.sessions && j != k
    requires Enabled(c, s.g, s.now, a) && (a == SettleReadHead(j) || (a.SettleWrite? && a.k == j))
    requires Legal(c, Next(s, Do(a)), events)
    ensures var s' := Run(Next(s, Do(a)), events); !Enabled(c, s'.g, s'.now, SettleWrite(k, time))
  {
    AlwaysSound(c, s);
    AlwaysOnTime(c, s);
    SettlerMayWrite(c, s.g, s.now, j);
    SoundStep(c, s, Do(a));
    OnTimeStep(c, s, Do(a));
    OnTimeRun(c, Next(s, Do(a)), events);
    NotNamedAgain(c, Next(s, Do(a)), events, k);
    var s' := Run(Next(s, Do(a)), events);
    if Enabled(c, s'.g, s'.now, SettleWrite(k, time)) {
      SettlerMayWrite(c, s'.g, s'.now, k);
    }
  }

  // ----------------------------------------------------------------- Runs

  /** What the actor of a step has read: the head's version, then that no row is open or which one is the oldest. */
  lemma ActorJustified(c: Timing, g: Aggregate, now: nat, a: Action, k: nat)
    requires Enabled(c, g, now, a) && Actor(g, a) == Some(k) && k in g.sessions && k in Apply(g, now, a).sessions
    requires SettleJustified(g, now, g.sessions[k])
    ensures SettleJustified(Apply(g, now, a), now, Apply(g, now, a).sessions[k])
  {
    if Settles(a) {
      SettlerJustified(c, g, now, a, k);
    }
  }

  lemma SettlerJustified(c: Timing, g: Aggregate, now: nat, a: Action, k: nat)
    requires Enabled(c, g, now, a) && Settles(a) && Actor(g, a) == Some(k) && k in g.sessions && k in Apply(g, now, a).sessions
    requires SettleJustified(g, now, g.sessions[k])
    ensures SettleJustified(Apply(g, now, a), now, Apply(g, now, a).sessions[k])
  {
  }

  lemma JustifiedAfter(c: Timing, g: Aggregate, now: nat, a: Action, k: nat)
    requires SettlesSafely(c) && AllOnTime(c, g, now) && Sound(g) && Accounted(g, now)
    requires Enabled(c, g, now, a) && Awake(c, g, now)
    requires k in Apply(g, now, a).sessions && MayWrite(c, Apply(g, now, a), k)
    ensures SettleJustified(Apply(g, now, a), now, Apply(g, now, a).sessions[k])
  {
    MayWriteBefore(c, g, now, a, k);
    if Actor(g, a) != Some(k) {
      OthersStay(c, g, now, a);
      if g.sessions[k].Settling() {
        JustifiedStays(c, g, now, a, k);
      }
    } else if k in g.sessions {
      assert k < g.nextToken;
      ActorJustified(c, g, now, a, k);
    }
  }

  lemma AwakeStep(c: Timing, s: State, e: Event)
    requires SettlesSafely(c) && Allowed(c, s, e)
    requires Sound(s.g) && AllOnTime(c, s.g, s.now) && Accounted(s.g, s.now) && Awake(c, s.g, s.now)
    ensures Awake(c, Next(s, e).g, Next(s, e).now)
  {
    if e.Do? {
      var g' := Next(s, e).g;
      CoveredStep(c, s.g, s.now, e.a);
      SettlesStayApart(c, s.g, s.now, e.a);
      forall k | k in g'.sessions && MayWrite(c, g', k)
        ensures SettleJustified(g', s.now, g'.sessions[k])
      {
        JustifiedAfter(c, s.g, s.now, e.a, k);
      }
    } else {
      forall k | k in s.g.sessions && MayWrite(c, s.g, k)
        ensures SettleJustified(s.g, s.now + e.ms, s.g.sessions[k])
      {
        assert SettleJustified(s.g, s.now, s.g.sessions[k]);
      }
    }
  }

  lemma {:induction false} AwakeRun(c: Timing, s: State, events: seq<Event>)
    requires SettlesSafely(c) && Legal(c, s, events)
    requires Sound(s.g) && AllOnTime(c, s.g, s.now) && Accounted(s.g, s.now) && Awake(c, s.g, s.now)
    ensures Awake(c, Run(s, events).g, Run(s, events).now)
    decreases |events|
  {
    if |events| > 0 {
      SoundStep(c, s, events[0]);
      OnTimeStep(c, s, events[0]);
      AccountedStep(c, s, events[0]);
      AwakeStep(c, s, events[0]);
      AwakeRun(c, Next(s, events[0]), events[1..]);
    }
  }

  /** No operator action half done: an aggregate with work to publish is in the index in time. */
  lemma NoLostWakeUp(c: Timing, s: State)
    requires SettlesSafely(c) && Reachable(c, s) && s.g.owed == 0
    ensures Woken(s.g, s.now)
  {
    var events :| Legal(c, START, events) && Run(START, events) == s;
    AwakeRun(c, START, events);
  }

  /** The index read of dueAggregates finds every aggregate a scan of the rows would. */
  lemma IndexFindsWhatAScanFinds(c: Timing, s: State)
    requires SettlesSafely(c) && Reachable(c, s) && s.g.owed == 0
    requires var r := HeadOf(s.g.rows); r.Some? && IsDue(s.g.rows[r.value], s.now)
    ensures DueBy(s.g.head, s.now)
  {
    NoLostWakeUp(c, s);
  }
}
