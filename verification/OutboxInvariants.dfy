/** What every run of the outbox keeps, whatever the scheduling. */
module OutboxInvariants {
  import opened Wrappers
  import opened OutboxRows
  import opened OutboxProtocol

  /** Every row before `r` has left the line. */
  predicate Reached(rows: seq<Row>, r: nat) {
    r < |rows| && forall j | 0 <= j < r :: !Open(rows[j])
  }

  /** Everything behind an open row is PENDING. */
  predicate LineOk(rows: seq<Row>) {
    && (forall i | 0 <= i < |rows| :: WellFormed(rows[i]))
    && (forall i, j | 0 <= i < j < |rows| && Open(rows[i]) :: rows[j].status == PENDING)
  }

  predicate RowsOk(g: Aggregate) {
    |g.failures| == |g.rows| && LineOk(g.rows)
  }

  predicate StageOk(g: Aggregate, s: Stage) {
    && (s.Looping? ==> s.i < ROWS_PER_AGGREGATE)
    && (s.HasRow() ==>
          && s.i < ROWS_PER_AGGREGATE && Reached(g.rows, s.row)
          && WellFormed(s.seen) && Open(s.seen) && (!s.Found? ==> Markable(s.seen)))
    && (s.Publishing? || s.Published? || s.Rejected? ==> s.row in g.starts)
    && (s.Published? ==> s.row in g.resolved)
    && (s.Requeuing? ==> WellFormed(s.headRow) && Open(s.headRow))
  }

  predicate SessionsOk(g: Aggregate) {
    && (g.lease.Some? ==> g.lease.value.token < g.nextToken)
    && (forall k | k in g.sessions :: k < g.nextToken && StageOk(g, g.sessions[k]))
  }

  predicate HistoryOk(g: Aggregate) {
    && (forall r | r in g.starts :: Reached(g.rows, r))
    && (forall r | r in g.log :: r in g.starts)
    && (forall r | 0 <= r < |g.rows| && g.rows[r].status == DISPATCHED :: r in g.resolved)
    && (forall r | r in g.resolved :: r in g.log)
  }

  predicate Sound(g: Aggregate) {
    RowsOk(g) && SessionsOk(g) && HistoryOk(g)
  }

  // ------------------------------------------------- How one step changes rows

  /** Rows are only appended, keep their event, and never leave a terminal status. */
  predicate Evolves(g: Aggregate, g': Aggregate) {
    && |g.rows| <= |g'.rows|
    && (forall i | 0 <= i < |g.rows| :: g'.rows[i].event == g.rows[i].event)
    && (forall i | 0 <= i < |g.rows| && !Open(g.rows[i]) :: g'.rows[i] == g.rows[i])
    && (forall r | r in g.starts :: r in g'.starts)
    && (forall r | r in g.log :: r in g'.log)
    && (forall r | r in g.resolved :: r in g'.resolved)
  }

  /** Actions that leave the rows, their failures, the head and the operators alone. */
  predicate Quiet(a: Action) {
    match a
    case Write(_, _) => false
    case MarkDispatched(_, _, _) => false
    case MarkFailed(_, _, _) => false
    case SettleWrite(_, _) => false
    case Redrive(_, _) => false
    case Skip(_, _) => false
    case Requeue(_) => false
    case RequeueFails => false
    case SweepRow(_) => false
    case RepairInsert(_) => false
    case RepairDue(_) => false
    case _ => true
  }

  lemma QuietFrame(g: Aggregate, now: nat, a: Action)
    requires Quiet(a)
    ensures var g' := Apply(g, now, a);
            g'.rows == g.rows && g'.failures == g.failures && g'.head == g.head && g'.owed == g.owed
  {
  }

  /** The history of publishes grows at its end, in three kinds of steps only. */
  lemma HistoryFrame(g: Aggregate, now: nat, a: Action)
    requires !a.Begin? && !a.Resolve? && !a.Deliver?
    ensures var g' := Apply(g, now, a); g'.starts == g.starts && g'.log == g.log && g'.resolved == g.resolved
  {
  }

  lemma HistoryGrows(g: Aggregate, now: nat, a: Action)
    ensures var g' := Apply(g, now, a); g.starts <= g'.starts && g.log <= g'.log && g.resolved <= g'.resolved
    ensures var g' := Apply(g, now, a);
            && (forall r | r in g.starts :: r in g'.starts)
            && (forall r | r in g.log :: r in g'.log)
            && (forall r | r in g.resolved :: r in g'.resolved)
  {
    if !a.Begin? && !a.Resolve? && !a.Deliver? {
      HistoryFrame(g, now, a);
    }
  }

  lemma OperatorEvolves(g: Aggregate, now: nat, a: Action)
    requires a.Redrive? || a.Skip?
    ensures var g' := Apply(g, now, a);
            |g'.rows| == |g.rows|
            && (forall i | 0 <= i < |g.rows| :: g'.rows[i].event == g.rows[i].event)
            && (forall i | 0 <= i < |g.rows| && !Open(g.rows[i]) :: g'.rows[i] == g.rows[i])
            && (forall i | 0 <= i < |g.rows| && g'.rows[i].status == DISPATCHED :: g.rows[i].status == DISPATCHED)
  {
  }

  lemma StepEvolves(c: Timing, g: Aggregate, now: nat, a: Action)
    requires Enabled(c, g, now, a)
    ensures Evolves(g, Apply(g, now, a))
  {
    HistoryGrows(g, now, a);
    if Quiet(a) {
      QuietFrame(g, now, a);
    } else if a.Redrive? || a.Skip? {
      OperatorEvolves(g, now, a);
    }
  }

  lemma RowsStayOk(c: Timing, g: Aggregate, now: nat, a: Action)
    requires Sound(g) && Enabled(c, g, now, a)
    ensures RowsOk(Apply(g, now, a))
  {
    if Quiet(a) {
      QuietFrame(g, now, a);
    } else if a.MarkDispatched? || a.MarkFailed? {
      MarkStaysOk(c, g, now, a);
    } else if a.Redrive? || a.Skip? {
      OperatorStaysOk(c, g, now, a);
    }
  }

  lemma MarkStaysOk(c: Timing, g: Aggregate, now: nat, a: Action)
    requires Sound(g) && Enabled(c, g, now, a) && (a.MarkDispatched? || a.MarkFailed?)
    ensures RowsOk(Apply(g, now, a))
  {
    assert StageOk(g, g.sessions[a.k]);
  }

  lemma LineAfterRedrive(rows: seq<Row>, at: Option<nat>)
    requires LineOk(rows)
    ensures LineOk(RedriveRows(rows, at))
  {
    var rows' := RedriveRows(rows, at);
    forall i | 0 <= i < |rows'|
      ensures WellFormed(rows'[i])
    {
      assert WellFormed(rows[i]);
    }
  }

  lemma LineAfterSkip(rows: seq<Row>, at: Option<nat>)
    requires LineOk(rows)
    ensures LineOk(SkipRows(rows, at))
  {
    var rows' := SkipRows(rows, at);
    forall i | 0 <= i < |rows'|
      ensures WellFormed(rows'[i])
    {
      assert WellFormed(rows[i]);
    }
  }

  lemma OperatorStaysOk(c: Timing, g: Aggregate, now: nat, a: Action)
    requires Sound(g) && Enabled(c, g, now, a) && (a.Redrive? || a.Skip?)
    ensures RowsOk(Apply(g, now, a))
  {
    LineAfterRedrive(g.rows, a.at);
    LineAfterSkip(g.rows, a.at);
  }

  lemma HistoryStaysOk(c: Timing, g: Aggregate, now: nat, a: Action)
    requires Sound(g) && Enabled(c, g, now, a)
    ensures HistoryOk(Apply(g, now, a))
  {
    StepEvolves(c, g, now, a);
    var g' := Apply(g, now, a);
    forall r | r in g'.starts
      ensures Reached(g'.rows, r)
    {
      NewStart(c, g, now, a, r);
    }
    forall r | r in g'.log
      ensures r in g'.starts
    {
      NewInLog(c, g, now, a, r);
    }
    forall r | 0 <= r < |g'.rows| && g'.rows[r].status == DISPATCHED
      ensures r in g'.resolved
    {
      NewlyDispatched(c, g, now, a, r);
    }
  }

  lemma NewStart(c: Timing, g: Aggregate, now: nat, a: Action, r: nat)
    requires Sound(g) && Enabled(c, g, now, a) && r in Apply(g, now, a).starts
    ensures r in g.starts || Reached(g.rows, r)
  {
    if a.Begin? {
      assert StageOk(g, g.sessions[a.k]);
    } else if !a.Resolve? && !a.Deliver? {
      HistoryFrame(g, now, a);
    }
  }

  lemma NewInLog(c: Timing, g: Aggregate, now: nat, a: Action, r: nat)
    requires Sound(g) && Enabled(c, g, now, a) && r in Apply(g, now, a).log
    ensures r in g.log || r in g.starts
  {
    if a.Resolve? {
      assert StageOk(g, g.sessions[a.k]);
    } else if !a.Begin? && !a.Deliver? {
      HistoryFrame(g, now, a);
    }
  }

  /** Only the mark of a publish that resolved makes a row DISPATCHED. */
  lemma NewlyDispatched(c: Timing, g: Aggregate, now: nat, a: Action, r: nat)
    requires Sound(g) && Enabled(c, g, now, a)
    requires var rows := Apply(g, now, a).rows; r < |rows| && rows[r].status == DISPATCHED
    ensures r in g.resolved
  {
    if Quiet(a) {
      QuietFrame(g, now, a);
    } else if a.Redrive? || a.Skip? {
      OperatorEvolves(g, now, a);
    } else if a.MarkDispatched? {
      assert StageOk(g, g.sessions[a.k]);
    }
  }

  /** What a session read stays true of the rows, however they evolve. */
  lemma StageStaysOk(g: Aggregate, g': Aggregate, s: Stage)
    requires StageOk(g, s) && Evolves(g, g')
    ensures StageOk(g', s)
  {
  }

  /** The session an action moves; an Acquire opens the one named by the next token. */
  function Actor(g: Aggregate, a: Action): Option<nat> {
    match a
    case Acquire(_) => Some(g.nextToken)
    case ReadHead(k) => Some(k)
    case CheckDue(k) => Some(k)
    case GiveUp(k) => Some(k)
    case Renew(k, _) => Some(k)
    case Begin(k) => Some(k)
    case Resolve(k) => Some(k)
    case Reject(k) => Some(k)
    case Disabled(k) => Some(k)
    case MarkDispatched(k, _, _) => Some(k)
    case MarkFailed(k, _, _) => Some(k)
    case SettleReadHead(k) => Some(k)
    case SettleReadRow(k) => Some(k)
    case SettleWrite(k, _) => Some(k)
    case SettleFail(k) => Some(k)
    case Release(k, _) => Some(k)
    case Crash(k) => Some(k)
    case _ => None
  }

  /** The steps of a session up to a row it may publish. */
  predicate Takes(a: Action) {
    a.Acquire? || a.ReadHead? || a.CheckDue? || a.GiveUp? || a.Renew?
  }

  /** Those that publish the row and mark the outcome. */
  predicate Publishes(a: Action) {
    a.Begin? || a.Resolve? || a.Reject? || a.Disabled? || a.MarkDispatched? || a.MarkFailed?
  }

  /** Those that settle the head and end the session. */
  predicate Settles(a: Action) {
    a.SettleReadHead? || a.SettleReadRow? || a.SettleWrite? || a.SettleFail? || a.Release? || a.Crash?
  }

  ghost predicate OthersKept(g: Aggregate, g': Aggregate, actor: Option<nat>) {
    && (forall k | actor != Some(k) :: (k in g'.sessions <==> k in g.sessions))
    && (forall k | actor != Some(k) && k in g.sessions :: g'.sessions[k] == g.sessions[k])
    && (forall k | actor != Some(k) && k in g.leasedAt :: k in g'.leasedAt && g'.leasedAt[k] == g.leasedAt[k])
    && g.nextToken <= g'.nextToken
  }

  /** The lease record and what sessions remember of it. */
  predicate LeaseKept(g: Aggregate, g': Aggregate) {
    g'.lease == g.lease && g'.leasedAt == g.leasedAt && g'.nextToken == g.nextToken
  }

  /** Session `k` is opened, moved or closed, or nothing happens to it. */
  predicate Touches(g: Aggregate, g': Aggregate, k: nat) {
    || g'.sessions == g.sessions
    || g'.sessions == g.sessions - {k}
    || (k in g'.sessions && g'.sessions == g.sessions[k := g'.sessions[k]])
  }

  lemma TouchingKeepsOthers(g: Aggregate, g': Aggregate, k: nat)
    requires Touches(g, g', k) && g.nextToken <= g'.nextToken
    requires g'.leasedAt == g.leasedAt || (k in g'.leasedAt && g'.leasedAt == g.leasedAt[k := g'.leasedAt[k]])
    ensures OthersKept(g, g', Some(k))
  {
  }

  lemma TakingTouches(g: Aggregate, now: nat, a: Action)
    requires Takes(a)
    ensures var g', k := Apply(g, now, a), Actor(g, a).value;
            && Touches(g, g', k) && g.nextToken <= g'.nextToken
            && (g'.leasedAt == g.leasedAt || (k in g'.leasedAt && g'.leasedAt == g.leasedAt[k := g'.leasedAt[k]]))
            && (!a.Acquire? && !a.Renew? ==> LeaseKept(g, g'))
  {
  }

  lemma PublishingTouches(g: Aggregate, now: nat, a: Action)
    requires Publishes(a)
    ensures Touches(g, Apply(g, now, a), a.k) && LeaseKept(g, Apply(g, now, a))
  {
    if a.MarkDispatched? || a.MarkFailed? {
      MarkingTouches(g, now, a);
    }
  }

  lemma MarkingTouches(g: Aggregate, now: nat, a: Action)
    requires a.MarkDispatched? || a.MarkFailed?
    ensures Touches(g, Apply(g, now, a), a.k) && LeaseKept(g, Apply(g, now, a))
  {
  }

  lemma SettlingTouches(g: Aggregate, now: nat, a: Action)
    requires Settles(a)
    ensures var g' := Apply(g, now, a);
            && Touches(g, g', a.k) && g'.leasedAt == g.leasedAt && g'.nextToken == g.nextToken
            && (!a.Release? ==> LeaseKept(g, g'))
  {
    if a.Release? || a.Crash? {
      EndingTouches(g, now, a);
    } else if a.SettleWrite? {
      SettleWriteTouches(g, now, a.k, a.time);
    }
  }

  lemma EndingTouches(g: Aggregate, now: nat, a: Action)
    requires a.Release? || a.Crash?
    ensures var g' := Apply(g, now, a);
            && g'.sessions == g.sessions - {a.k} && g'.leasedAt == g.leasedAt && g'.nextToken == g.nextToken
            && (!a.Release? ==> LeaseKept(g, g'))
  {
  }

  lemma SettleWriteTouches(g: Aggregate, now: nat, k: nat, time: nat)
    ensures var g' := Apply(g, now, SettleWrite(k, time)); Touches(g, g', k) && LeaseKept(g, g')
  {
  }

  /** What operators do, in and out of the collections. */
  predicate Operates(a: Action) {
    a.OperatorLists? || a.Redrive? || a.Skip? || a.Requeue? || a.RequeueFails?
  }

  lemma OperatorKeepsSessions(g: Aggregate, at: Option<nat>, listed: bool)
    ensures var g' := Operated(g, at, listed); g'.sessions == g.sessions && LeaseKept(g, g')
  {
  }

  lemma OperatingKeepsSessions(g: Aggregate, now: nat, a: Action)
    requires Operates(a)
    ensures var g' := Apply(g, now, a); g'.sessions == g.sessions && LeaseKept(g, g')
  {
    var g' := Apply(g, now, a);
    match a
    case OperatorLists(at) => assert g' == g.(listing := g.listing + multiset{at});
    case Redrive(at, listed) =>
      OperatorKeepsSessions(g, at, listed);
      assert g' == Operated(g, at, listed).(rows := g'.rows, failures := g'.failures);
    case Skip(at, listed) =>
      OperatorKeepsSessions(g, at, listed);
      assert g' == Operated(g, at, listed).(rows := g'.rows);
    case Requeue(time) => assert g' == g.(head := g'.head, owed := g'.owed);
    case RequeueFails => assert g' == g.(owed := g'.owed);
  }

  lemma ElsewhereKeepsSessions(g: Aggregate, now: nat, a: Action)
    requires a.Write? || a.Deliver? || a.SweepRow? || a.RepairInsert? || a.RepairDue?
    ensures var g' := Apply(g, now, a); g'.sessions == g.sessions && LeaseKept(g, g')
  {
  }

  lemma HeartbeatKeepsSessions(g: Aggregate, now: nat, k: nat)
    ensures var g' := Apply(g, now, Heartbeat(k));
            g'.sessions == g.sessions && g'.leasedAt == g.leasedAt && g'.nextToken == g.nextToken
  {
  }

  lemma OutsideKeepsSessions(g: Aggregate, now: nat, a: Action)
    requires Actor(g, a).None?
    ensures var g' := Apply(g, now, a);
            && g'.sessions == g.sessions && g'.leasedAt == g.leasedAt && g'.nextToken == g.nextToken
            && (!a.Heartbeat? ==> LeaseKept(g, g'))
  {
    if Operates(a) {
      OperatingKeepsSessions(g, now, a);
    } else if a.Heartbeat? {
      HeartbeatKeepsSessions(g, now, a.k);
    } else {
      ElsewhereKeepsSessions(g, now, a);
    }
  }

  /** A step moves its actor's session and no other. */
  lemma OthersStay(c: Timing, g: Aggregate, now: nat, a: Action)
    requires Enabled(c, g, now, a)
    ensures OthersKept(g, Apply(g, now, a), Actor(g, a))
  {
    if Actor(g, a).None? {
      OutsideKeepsSessions(g, now, a);
    } else {
      if Takes(a) {
        TakingTouches(g, now, a);
      } else if Publishes(a) {
        PublishingTouches(g, now, a);
      } else {
        SettlingTouches(g, now, a);
      }
      TouchingKeepsOthers(g, Apply(g, now, a), Actor(g, a).value);
    }
  }

  lemma TakerStaysOk(c: Timing, g: Aggregate, now: nat, a: Action, k: nat)
    requires Sound(g) && Enabled(c, g, now, a) && Takes(a)
    requires Actor(g, a) == Some(k) && k in Apply(g, now, a).sessions
    ensures StageOk(Apply(g, now, a), Apply(g, now, a).sessions[k])
  {
    if k in g.sessions {
      assert StageOk(g, g.sessions[k]);
    }
  }

  lemma PublisherStaysOk(c: Timing, g: Aggregate, now: nat, a: Action, k: nat)
    requires Sound(g) && Enabled(c, g, now, a) && Publishes(a)
    requires Actor(g, a) == Some(k) && k in Apply(g, now, a).sessions
    ensures StageOk(Apply(g, now, a), Apply(g, now, a).sessions[k])
  {
    assert StageOk(g, g.sessions[k]);
  }

  lemma SettlerStaysOk(c: Timing, g: Aggregate, now: nat, a: Action, k: nat)
    requires Sound(g) && Enabled(c, g, now, a) && Settles(a)
    requires Actor(g, a) == Some(k) && k in Apply(g, now, a).sessions
    ensures StageOk(Apply(g, now, a), Apply(g, now, a).sessions[k])
  {
    assert StageOk(g, g.sessions[k]);
  }

  lemma ActorStaysOk(c: Timing, g: Aggregate, now: nat, a: Action, k: nat)
    requires Sound(g) && Enabled(c, g, now, a)
    requires Actor(g, a) == Some(k) && k in Apply(g, now, a).sessions
    ensures StageOk(Apply(g, now, a), Apply(g, now, a).sessions[k])
  {
    if Takes(a) {
      TakerStaysOk(c, g, now, a, k);
    } else if Publishes(a) {
      PublisherStaysOk(c, g, now, a, k);
    } else {
      SettlerStaysOk(c, g, now, a, k);
    }
  }

  lemma SessionsStayOk(c: Timing, g: Aggregate, now: nat, a: Action)
    requires Sound(g) && Enabled(c, g, now, a)
    ensures SessionsOk(Apply(g, now, a))
  {
    StepEvolves(c, g, now, a);
    OthersStay(c, g, now, a);
    var g' := Apply(g, now, a);
    forall k | k in g'.sessions
      ensures k < g'.nextToken && StageOk(g', g'.sessions[k])
    {
      if Actor(g, a) == Some(k) {
        ActorStaysOk(c, g, now, a, k);
      } else {
        StageStaysOk(g, g', g.sessions[k]);
      }
    }
  }

  lemma SoundStep(c: Timing, s: State, e: Event)
    requires Sound(s.g) && Allowed(c, s, e)
    ensures Sound(Next(s, e).g)
  {
    if e.Do? {
      RowsStayOk(c, s.g, s.now, e.a);
      HistoryStaysOk(c, s.g, s.now, e.a);
      SessionsStayOk(c, s.g, s.now, e.a);
    }
  }

  lemma {:induction false} SoundRun(c: Timing, s: State, events: seq<Event>)
    requires Sound(s.g) && Legal(c, s, events)
    ensures Sound(Run(s, events).g)
    decreases |events|
  {
    if |events| > 0 {
      SoundStep(c, s, events[0]);
      SoundRun(c, Next(s, events[0]), events[1..]);
    }
  }

  lemma AlwaysSound(c: Timing, s: State)
    requires Reachable(c, s)
    ensures Sound(s.g)
  {
    var events :| Legal(c, START, events) && Run(START, events) == s;
    SoundRun(c, START, events);
  }

  // --------------------------------------------------------- Main statements

  /**
   * At most one row of an aggregate is FAILED or DEAD, and it is the oldest
   * open one; every other open row is PENDING with no attempt behind it.
   */
  lemma OneRowInTrouble(c: Timing, s: State, i: nat)
    requires Reachable(c, s) && i < |s.g.rows| && Open(s.g.rows[i])
    ensures HeadOf(s.g.rows) == Some(i) || s.g.rows[i] == NewRow(s.g.rows[i].event)
    ensures s.g.rows[i].status == FAILED ==> 1 <= s.g.rows[i].attempts < MAX_ATTEMPTS
  {
    AlwaysSound(c, s);
    assert WellFormed(s.g.rows[i]);
    var r := HeadOf(s.g.rows).value;
    assert r <= i;
  }

  /** A row that left the line never comes back into it. */
  lemma {:induction false} TerminalForever(c: Timing, s: State, events: seq<Event>)
    requires Legal(c, s, events)
    ensures var rows := Run(s, events).g.rows;
            |s.g.rows| <= |rows| && forall i | 0 <= i < |s.g.rows| && !Open(s.g.rows[i]) :: rows[i] == s.g.rows[i]
    decreases |events|
  {
    if |events| > 0 {
      if events[0].Do? {
        StepEvolves(c, s.g, s.now, events[0].a);
      }
      TerminalForever(c, Next(s, events[0]), events[1..]);
    }
  }

  /**
   * When a publish of row `r` starts, every earlier row is DISPATCHED or
   * SKIPPED and stays so: nothing behind a DEAD row leaves before it.
   */
  lemma EarlierRowsAreDone(c: Timing, s: State, k: nat, events: seq<Event>)
    requires Reachable(c, s) && Enabled(c, s.g, s.now, Begin(k)) && Legal(c, s, events)
    ensures var r := s.g.sessions[k].row;
            r < |s.g.rows| && |s.g.rows| <= |Run(s, events).g.rows|
            && forall j | 0 <= j < r :: Run(s, events).g.rows[j].status in {DISPATCHED, SKIPPED}
  {
    AlwaysSound(c, s);
    assert StageOk(s.g, s.g.sessions[k]);
    TerminalForever(c, s, events);
  }

  /**
   * A DISPATCHED row had a publish resolve, a resolved publish reached the
   * broker, and the broker got nothing but started publishes of written rows.
   */
  lemma BrokerGotWhatWasWritten(c: Timing, s: State, r: nat)
    requires Reachable(c, s)
    ensures r < |s.g.rows| && s.g.rows[r].status == DISPATCHED ==> r in s.g.resolved
    ensures r in s.g.resolved ==> r in s.g.log
    ensures r in s.g.log ==> r in s.g.starts && r < |s.g.rows|
  {
    AlwaysSound(c, s);
    if r in s.g.starts {
      assert Reached(s.g.rows, r);
    }
  }
}
