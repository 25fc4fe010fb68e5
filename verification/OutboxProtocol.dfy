/**
 * The outbox of one aggregate as a timed state machine: its rows, its head in
 * the due index, its lease, every relay session working on it, the operator
 * actions and the sweep. A session is one run of relayAggregate, named by its
 * lease token; any number run at once and every `await` is a point where the
 * others may act. One clock serves all of them.
 */
module OutboxProtocol {
  import opened Wrappers
  import opened OutboxRows

  datatype Head = Head(dueAt: Option<nat>, v: nat)

  datatype Lease = Lease(token: nat, expiresAt: nat)

  /** Where a session stands: what it read and when, up to its next await. */
  datatype Stage =
    | Looping(i: nat)
    | Found(i: nat, row: nat, seen: Row)
    | Holding(i: nat, row: nat, seen: Row)
    | Renewed(i: nat, row: nat, seen: Row, renewedAt: nat)
    | Publishing(i: nat, row: nat, seen: Row, renewedAt: nat, startedAt: nat)
    | Published(i: nat, row: nat, seen: Row, renewedAt: nat, settledAt: nat)
    | Rejected(i: nat, row: nat, seen: Row, renewedAt: nat, settledAt: nat)
    | Closing
    | HeadRead(v: Option<nat>)
    | Retiring(v: Option<nat>)
    | Requeuing(headRow: Row)
    | Releasing
  {
    predicate HasRow() {
      Found? || Holding? || Renewed? || Publishing? || Published? || Rejected?
    }

    predicate IsRenewed() {
      Renewed? || Publishing? || Published? || Rejected?
    }

    predicate Settling() {
      HeadRead? || Retiring? || Requeuing?
    }
  }

  /**
   * `listing` are the filters of operator actions that listed this aggregate
   * and have not changed its rows yet; `owed` counts those that have and have
   * not requeued the head yet. `leasedAt` is when each session last took or
   * renewed its lease. `log` is what the broker received, by row.
   * `starts` and `resolved` (publishes started and resolved, by row) and
   * `failures` (the times recorded with a row's failures since it was written
   * or redriven) are history the code does not keep.
   */
  datatype Aggregate = Aggregate(
    rows: seq<Row>,
    head: Option<Head>,
    lease: Option<Lease>,
    leasedAt: map<nat, nat>,
    nextToken: nat,
    sessions: map<nat, Stage>,
    listing: multiset<Option<nat>>,
    owed: nat,
    log: seq<nat>,
    starts: seq<nat>,
    resolved: seq<nat>,
    failures: seq<seq<nat>>)

  const NO_EVENTS := Aggregate([], None, None, map[], 0, map[], multiset{}, 0, [], [], [], [])

  /**
   * The scheduling the environment grants. A relay starts a publish at most
   * `begin` ms after its renew took effect and issues the mark of a settled
   * publish at most `mark` ms later; `serialSettles`: no settle starts between
   * another's reads and its write; `settle`, if given, is the most ms from a
   * session's last acquire or renew to its settle's first read and its write;
   * `operatorsWait`: no operator changes rows between a settle's row read and
   * its write; `listsCover`: no row dies between an operator's listing of the
   * aggregates and its update of the rows; `requeues`: an operator that changed
   * rows gets its requeue through.
   */
  datatype Timing = Timing(
    begin: nat, mark: nat, serialSettles: bool, settle: Option<nat>, operatorsWait: bool, listsCover: bool, requeues: bool)

  datatype Action =
    | Write(event: EventId, time: nat)
    | Acquire(answered: bool)
    | ReadHead(k: nat)
    | CheckDue(k: nat)
    | GiveUp(k: nat)
    | Renew(k: nat, answered: bool)
    | Begin(k: nat)
    | Heartbeat(k: nat)
    | Deliver(row: nat)
    | Resolve(k: nat)
    | Reject(k: nat)
    | Disabled(k: nat)
    | MarkDispatched(k: nat, written: bool, answered: bool)
    | MarkFailed(k: nat, written: bool, time: nat)
    | SettleReadHead(k: nat)
    | SettleReadRow(k: nat)
    | SettleWrite(k: nat, time: nat)
    | SettleFail(k: nat)
    | Release(k: nat, reached: bool)
    | Crash(k: nat)
    | OperatorLists(at: Option<nat>)
    | Redrive(at: Option<nat>, listed: bool)
    | Skip(at: Option<nat>, listed: bool)
    | Requeue(time: nat)
    | RequeueFails
    | SweepRow(row: nat)
    | RepairInsert(time: nat)
    | RepairDue(time: nat)

  /** The lease store still answers `k` as the owner. */
  predicate Holds(g: Aggregate, now: nat, k: nat) {
    g.lease.Some? && g.lease.value.token == k && now < g.lease.value.expiresAt
  }

  predicate Free(g: Aggregate, now: nat) {
    g.lease.None? || g.lease.value.expiresAt <= now
  }

  predicate At(g: Aggregate, k: nat) {
    k in g.sessions
  }

  predicate AnySettling(g: Aggregate) {
    exists k | k in g.sessions :: g.sessions[k].Settling()
  }

  predicate AnyRequeuing(g: Aggregate) {
    exists k | k in g.sessions :: g.sessions[k].Requeuing?
  }

  predicate HasDead(g: Aggregate, at: Option<nat>) {
    exists i | 0 <= i < |g.rows| :: Selected(at, i) && g.rows[i].status == DEAD
  }

  /** The session's settle may still take effect. */
  predicate InTime(c: Timing, g: Aggregate, now: nat, k: nat) {
    c.settle.Some? ==> k in g.leasedAt && now <= g.leasedAt[k] + c.settle.value
  }

  /**
   * An operator changes rows here after listing the aggregate. One whose
   * listing found no DEAD row changes rows too if some have died since.
   */
  predicate MayOperate(c: Timing, g: Aggregate, at: Option<nat>, listed: bool) {
    && (if listed then at in g.listing else !c.listsCover && HasDead(g, at))
    && (c.operatorsWait ==> !AnyRequeuing(g))
  }

  predicate Enabled(c: Timing, g: Aggregate, now: nat, a: Action) {
    match a
    case Write(_, time) => time <= now
    case Acquire(_) => Free(g, now)
    case ReadHead(k) => At(g, k) && g.sessions[k].Looping?
    case CheckDue(k) => At(g, k) && g.sessions[k].Found?
    case GiveUp(k) => At(g, k) && g.sessions[k].Looping?
    case Renew(k, answered) => At(g, k) && g.sessions[k].Holding?
    case Begin(k) => At(g, k) && g.sessions[k].Renewed?
    case Heartbeat(_) => true
    case Deliver(row) => row in g.starts
    case Resolve(k) => At(g, k) && g.sessions[k].Publishing?
    case Reject(k) => At(g, k) && g.sessions[k].Publishing?
    case Disabled(k) => At(g, k) && g.sessions[k].Publishing?
    case MarkDispatched(k, written, answered) => At(g, k) && g.sessions[k].Published? && (answered ==> written)
    case MarkFailed(k, _, time) => At(g, k) && g.sessions[k].Rejected? && g.sessions[k].settledAt <= time <= now
    case SettleReadHead(k) => At(g, k) && g.sessions[k].Closing? && (c.serialSettles ==> !AnySettling(g))
                              && InTime(c, g, now, k)
    case SettleReadRow(k) => At(g, k) && g.sessions[k].HeadRead?
    case SettleWrite(k, time) => At(g, k) && (g.sessions[k].Retiring? || g.sessions[k].Requeuing?) && time <= now
                                 && InTime(c, g, now, k)
    case SettleFail(k) => At(g, k) && (g.sessions[k].Closing? || g.sessions[k].Settling())
    case Release(k, _) => At(g, k) && g.sessions[k].Releasing?
    case Crash(k) => At(g, k)
    case OperatorLists(at) => HasDead(g, at)
    case Redrive(at, listed) => MayOperate(c, g, at, listed)
    case Skip(at, listed) => MayOperate(c, g, at, listed)
    case Requeue(time) => g.owed > 0 && time <= now
    case RequeueFails => g.owed > 0 && !c.requeues
    case SweepRow(row) => row < |g.rows| && g.rows[row].status == FAILED && g.rows[row].attempts >= MAX_ATTEMPTS
    case RepairInsert(time) => g.head.None? && time <= now
    case RepairDue(time) => g.head.Some? && time <= now
  }

  function Move(g: Aggregate, k: nat, stage: Stage): Aggregate {
    g.(sessions := g.sessions[k := stage])
  }

  /** The next row, or `finally` once ROWS_PER_AGGREGATE rows went out. */
  function AfterRow(i: nat): Stage {
    if i + 1 < ROWS_PER_AGGREGATE then Looping(i + 1) else Closing
  }

  function MarkRow(g: Aggregate, r: nat, row: Row): Aggregate {
    if r < |g.rows| && Markable(g.rows[r]) then g.(rows := g.rows[r := row]) else g
  }

  function RedriveRows(rows: seq<Row>, at: Option<nat>): seq<Row> {
    seq(|rows|, i requires 0 <= i < |rows| =>
      if Selected(at, i) && rows[i].status == DEAD then RedrivenRow(rows[i]) else rows[i])
  }

  /** A redriven row starts a new count of failures. */
  function RedrivenFailures(failures: seq<seq<nat>>, rows: seq<Row>, at: Option<nat>): seq<seq<nat>> {
    seq(|failures|, i requires 0 <= i < |failures| =>
      if i < |rows| && Selected(at, i) && rows[i].status == DEAD then [] else failures[i])
  }

  function SkipRows(rows: seq<Row>, at: Option<nat>): seq<Row> {
    seq(|rows|, i requires 0 <= i < |rows| =>
      if Selected(at, i) && rows[i].status == DEAD then SkippedRow(rows[i]) else rows[i])
  }

  /** Only an operator that listed the aggregate will requeue its head. */
  function Operated(g: Aggregate, at: Option<nat>, listed: bool): Aggregate {
    if listed then g.(listing := g.listing - multiset{at}, owed := g.owed + 1) else g
  }

  /** The update is an upsert: a missing head starts at version 0 (1 when incremented). */
  function RequeueHead(head: Option<Head>, time: nat): Head {
    Head(Some(time), if head.Some? then head.value.v + 1 else 1)
  }

  function WriteHead(head: Option<Head>, time: nat): Head {
    if head.Some? then head.value.(v := head.value.v + 1) else Head(Some(time), 1)
  }

  function SetDue(head: Option<Head>, dueAt: Option<nat>): Head {
    Head(dueAt, if head.Some? then head.value.v else 0)
  }

  /** The compare-and-delete: only the version that was read is deleted. */
  function RetireHead(head: Option<Head>, v: Option<nat>): Option<Head> {
    if head.Some? && v.Some? && head.value.v == v.value then None else head
  }

  /** The step `a` takes at time `now`; actions that are not enabled change nothing. */
  function Apply(g: Aggregate, now: nat, a: Action): Aggregate {
    match a
    case Write(event, time) =>
      g.(head := Some(WriteHead(g.head, time)), rows := g.rows + [NewRow(event)], failures := g.failures + [[]])
    case Acquire(answered) =>
      g.(lease := Some(Lease(g.nextToken, now + LEASE_TTL_MS)), nextToken := g.nextToken + 1,
         sessions := if answered then g.sessions[g.nextToken := Looping(0)] else g.sessions,
         leasedAt := if answered then g.leasedAt[g.nextToken := now] else g.leasedAt)
    case ReadHead(k) =>
      if At(g, k) && g.sessions[k].Looping? then
        var head := HeadOf(g.rows);
        Move(g, k, if head.None? then Closing else Found(g.sessions[k].i, head.value, g.rows[head.value]))
      else g
    case CheckDue(k) =>
      if At(g, k) && g.sessions[k].Found? then
        var s := g.sessions[k];
        Move(g, k, if IsDue(s.seen, now) then Holding(s.i, s.row, s.seen) else Closing)
      else g
    case GiveUp(k) => Move(g, k, Closing)
    case Renew(k, answered) =>
      if At(g, k) && g.sessions[k].Holding? then
        var s := g.sessions[k];
        var g' :=
          if Holds(g, now, k) then g.(lease := Some(Lease(k, now + LEASE_TTL_MS)), leasedAt := g.leasedAt[k := now]) else g;
        Move(g', k, if Holds(g, now, k) && answered then Renewed(s.i, s.row, s.seen, now) else Closing)
      else g
    case Begin(k) =>
      if At(g, k) && g.sessions[k].Renewed? then
        var s := g.sessions[k];
        Move(g, k, Publishing(s.i, s.row, s.seen, s.renewedAt, now)).(starts := g.starts + [s.row])
      else g
    case Heartbeat(k) =>
      if Holds(g, now, k) then g.(lease := Some(Lease(k, now + LEASE_TTL_MS))) else g
    case Deliver(row) => g.(log := g.log + [row])
    case Resolve(k) =>
      if At(g, k) && g.sessions[k].Publishing? then
        var s := g.sessions[k];
        Move(g, k, Published(s.i, s.row, s.seen, s.renewedAt, now)).(log := g.log + [s.row], resolved := g.resolved + [s.row])
      else g
    case Reject(k) =>
      if At(g, k) && g.sessions[k].Publishing? then
        var s := g.sessions[k];
        Move(g, k, Rejected(s.i, s.row, s.seen, s.renewedAt, now))
      else g
    case Disabled(k) => Move(g, k, Closing)
    case MarkDispatched(k, written, answered) =>
      if At(g, k) && g.sessions[k].Published? then
        var s := g.sessions[k];
        var g' := if written && s.row < |g.rows| then MarkRow(g, s.row, DispatchedRow(g.rows[s.row])) else g;
        Move(g', k, if answered then AfterRow(s.i) else Closing)
      else g
    case MarkFailed(k, written, time) =>
      if At(g, k) && g.sessions[k].Rejected? then
        var s := g.sessions[k];
        var g' :=
          if written && s.row < |g.rows| && s.row < |g.failures| && Markable(g.rows[s.row]) then
            MarkRow(g, s.row, FailedRow(g.rows[s.row], s.seen, time))
              .(failures := g.failures[s.row := g.failures[s.row] + [time]])
          else g;
        Move(g', k, Closing)
      else g
    case SettleReadHead(k) =>
      Move(g, k, HeadRead(if g.head.Some? then Some(g.head.value.v) else None))
    case SettleReadRow(k) =>
      if At(g, k) && g.sessions[k].HeadRead? then
        var row := HeadOf(g.rows);
        Move(g, k, if row.None? then Retiring(g.sessions[k].v) else Requeuing(g.rows[row.value]))
      else g
    case SettleWrite(k, time) =>
      if At(g, k) && g.sessions[k].Retiring? then
        Move(g, k, Releasing).(head := RetireHead(g.head, g.sessions[k].v))
      else if At(g, k) && g.sessions[k].Requeuing? then
        Move(g, k, Releasing).(head := Some(SetDue(g.head, DueAtOf(g.sessions[k].headRow, time))))
      else g
    case SettleFail(k) => Move(g, k, Releasing)
    case Release(k, reached) =>
      g.(sessions := g.sessions - {k}, lease := if reached && Holds(g, now, k) then None else g.lease)
    case Crash(k) => g.(sessions := g.sessions - {k})
    case OperatorLists(at) => g.(listing := g.listing + multiset{at})
    case Redrive(at, listed) =>
      Operated(g, at, listed).(rows := RedriveRows(g.rows, at), failures := RedrivenFailures(g.failures, g.rows, at))
    case Skip(at, listed) => Operated(g, at, listed).(rows := SkipRows(g.rows, at))
    case Requeue(time) =>
      g.(head := Some(RequeueHead(g.head, time)), owed := if g.owed > 0 then g.owed - 1 else 0)
    case RequeueFails => g.(owed := if g.owed > 0 then g.owed - 1 else 0)
    case SweepRow(row) =>
      if row < |g.rows| then g.(rows := g.rows[row := g.rows[row].(status := DEAD, nextAttemptAt := None)]) else g
    case RepairInsert(time) => g.(head := Some(Head(Some(time), 0)))
    case RepairDue(time) => g.(head := Some(SetDue(g.head, Some(time))))
  }

  /** Latest time the session lets pass before its next step. */
  predicate Patient(c: Timing, s: Stage, now: nat) {
    match s
    case Renewed(_, _, _, at) => now <= at + c.begin
    case Publishing(_, _, _, _, at) => now <= at + PUBLISH_TIMEOUT_MS
    case Published(_, _, _, _, at) => now <= at + c.mark
    case Rejected(_, _, _, _, at) => now <= at + c.mark
    case _ => true
  }

  predicate CanWait(c: Timing, g: Aggregate, now: nat) {
    forall k | k in g.sessions :: Patient(c, g.sessions[k], now)
  }

  // ------------------------------------------------------------------- Runs

  datatype State = State(now: nat, g: Aggregate)

  datatype Event = Tick(ms: nat) | Do(a: Action)

  const START := State(0, NO_EVENTS)

  predicate Allowed(c: Timing, s: State, e: Event) {
    match e
    case Tick(ms) => CanWait(c, s.g, s.now + ms)
    case Do(a) => Enabled(c, s.g, s.now, a)
  }

  function Next(s: State, e: Event): State {
    match e
    case Tick(ms) => s.(now := s.now + ms)
    case Do(a) => s.(g := Apply(s.g, s.now, a))
  }

  predicate Legal(c: Timing, s: State, events: seq<Event>)
    decreases |events|
  {
    |events| == 0 || (Allowed(c, s, events[0]) && Legal(c, Next(s, events[0]), events[1..]))
  }

  function Run(s: State, events: seq<Event>): State
    decreases |events|
  {
    if |events| == 0 then s else Run(Next(s, events[0]), events[1..])
  }

  ghost predicate Reachable(c: Timing, s: State) {
    exists events :: Legal(c, START, events) && Run(START, events) == s
  }

  lemma {:induction false} RunThen(c: Timing, s: State, events: seq<Event>, e: Event)
    requires Legal(c, s, events) && Allowed(c, Run(s, events), e)
    ensures Legal(c, s, events + [e]) && Run(s, events + [e]) == Next(Run(s, events), e)
    decreases |events|
  {
    if |events| == 0 {
      assert (events + [e])[1..] == [];
    } else {
      assert (events + [e])[1..] == events[1..] + [e];
      RunThen(c, Next(s, events[0]), events[1..], e);
    }
  }

  lemma Start(c: Timing)
    ensures Reachable(c, START)
  {
    assert Legal(c, START, []) && Run(START, []) == START;
  }

  lemma Step(c: Timing, s: State, e: Event) returns (s': State)
    requires Reachable(c, s) && Allowed(c, s, e)
    ensures s' == Next(s, e) && Reachable(c, s')
  {
    var events :| Legal(c, START, events) && Run(START, events) == s;
    RunThen(c, START, events, e);
    s' := Next(s, e);
  }
}
