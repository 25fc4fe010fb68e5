/**
 * The outbox of every aggregate and the inbox of every event under one clock:
 * a message the broker receives from a relay arrives at the event's consumer.
 */
module EndToEnd {
  import opened Wrappers
  import opened OutboxRows
  import P = OutboxProtocol
  import I = OutboxInvariants
  import C = ConsumerProtocol
  import D = ConsumerDelivery
  import O = ConsumerOnce
  import F = OutboxEffects

  datatype System = System(now: nat, outboxes: map<string, P.Aggregate>, inboxes: map<EventId, C.Inbox>)

  datatype Event =
    | Tick(ms: nat)
    | Relay(aggregate: string, a: P.Action)
    | Consume(event: EventId, b: C.Action)

  const START := System(0, map[], map[])

  function OutboxOf(s: System, aggregate: string): P.Aggregate {
    if aggregate in s.outboxes then s.outboxes[aggregate] else P.NO_EVENTS
  }

  function InboxOf(s: System, event: EventId): C.Inbox {
    if event in s.inboxes then s.inboxes[event] else C.EMPTY
  }

  /** The row whose message the broker receives in this step. */
  function Received(g: P.Aggregate, a: P.Action): Option<nat> {
    match a
    case Resolve(k) => if k in g.sessions && g.sessions[k].Publishing? then Some(g.sessions[k].row) else None
    case Deliver(row) => Some(row)
    case _ => None
  }

  ghost predicate Allowed(c: P.Timing, h: C.Handling, s: System, e: Event) {
    match e
    case Tick(ms) =>
      && (forall aggregate :: P.CanWait(c, OutboxOf(s, aggregate), s.now + ms))
      && (forall event :: C.CanWait(h, InboxOf(s, event), s.now + ms))
    case Relay(aggregate, a) => P.Enabled(c, OutboxOf(s, aggregate), s.now, a)
    case Consume(event, b) => !b.Arrive? && C.Enabled(h, InboxOf(s, event), s.now, b)
  }

  function Arrived(h: C.Handling, s: System, g: P.Aggregate, row: Option<nat>): map<EventId, C.Inbox> {
    if row.Some? && row.value < |g.rows| then
      var event := g.rows[row.value].event;
      s.inboxes[event := C.Apply(h, InboxOf(s, event), s.now, C.Arrive)]
    else s.inboxes
  }

  function Next(h: C.Handling, s: System, e: Event): System {
    match e
    case Tick(ms) => s.(now := s.now + ms)
    case Relay(aggregate, a) =>
      var g := OutboxOf(s, aggregate);
      s.(outboxes := s.outboxes[aggregate := P.Apply(g, s.now, a)], inboxes := Arrived(h, s, g, Received(g, a)))
    case Consume(event, b) => s.(inboxes := s.inboxes[event := C.Apply(h, InboxOf(s, event), s.now, b)])
  }

  ghost predicate Legal(c: P.Timing, h: C.Handling, s: System, events: seq<Event>)
    decreases |events|
  {
    |events| == 0 || (Allowed(c, h, s, events[0]) && Legal(c, h, Next(h, s, events[0]), events[1..]))
  }

  function Run(h: C.Handling, s: System, events: seq<Event>): System
    decreases |events|
  {
    if |events| == 0 then s else Run(h, Next(h, s, events[0]), events[1..])
  }

  ghost predicate Reachable(c: P.Timing, h: C.Handling, s: System) {
    exists events :: Legal(c, h, START, events) && Run(h, START, events) == s
  }

  /** Each outbox and each inbox, seen alone, is a run of its own machine. */
  ghost predicate PartsReachable(c: P.Timing, h: C.Handling, s: System) {
    && (forall aggregate :: P.Reachable(c, P.State(s.now, OutboxOf(s, aggregate))))
    && (forall event :: C.Reachable(h, C.State(s.now, InboxOf(s, event))))
  }

  predicate Logged(g: P.Aggregate, event: EventId, r: nat) {
    r in g.log && r < |g.rows| && g.rows[r].event == event
  }

  /** An inbox holds a message exactly when some outbox had a row of that event reach the broker. */
  ghost predicate Coupled(s: System) {
    && (forall aggregate, event, r | Logged(OutboxOf(s, aggregate), event, r) :: |InboxOf(s, event).messages| > 0)
    && (forall event | |InboxOf(s, event).messages| > 0 ::
          exists aggregate, r :: Logged(OutboxOf(s, aggregate), event, r))
  }

  lemma PartsStep(c: P.Timing, h: C.Handling, s: System, e: Event)
    requires PartsReachable(c, h, s) && Allowed(c, h, s, e)
    ensures PartsReachable(c, h, Next(h, s, e))
  {
    var s' := Next(h, s, e);
    forall aggregate
      ensures P.Reachable(c, P.State(s'.now, OutboxOf(s', aggregate)))
    {
      var part := P.State(s.now, OutboxOf(s, aggregate));
      if e.Tick? {
        var part' := P.Step(c, part, P.Tick(e.ms));
      } else if e.Relay? && e.aggregate == aggregate {
        var part' := P.Step(c, part, P.Do(e.a));
      }
    }
    forall event
      ensures C.Reachable(h, C.State(s'.now, InboxOf(s', event)))
    {
      var part := C.State(s.now, InboxOf(s, event));
      if e.Tick? {
        var part' := C.Step(h, part, C.Tick(e.ms));
      } else if e.Consume? && e.event == event {
        var part' := C.Step(h, part, C.Do(e.b));
      } else if InboxOf(s', event) != InboxOf(s, event) {
        var part' := C.Step(h, part, C.Do(C.Arrive));
      }
    }
  }

  /** A relay step adds to the log what it hands to the broker, and nothing else. */
  lemma LogStep(c: P.Timing, g: P.Aggregate, now: nat, a: P.Action)
    requires P.Enabled(c, g, now, a)
    ensures P.Apply(g, now, a).log == if Received(g, a).Some? then g.log + [Received(g, a).value] else g.log
  {
  }

  lemma MessagesStay(h: C.Handling, b: C.Inbox, now: nat, a: C.Action)
    requires C.Enabled(h, b, now, a)
    ensures |C.Apply(h, b, now, a).messages| == if a.Arrive? then |b.messages| + 1 else |b.messages|
  {
  }

  /** A row written under an event keeps it, so what was logged for an event stays logged for it. */
  lemma LoggedAfterRelay(c: P.Timing, g: P.Aggregate, now: nat, a: P.Action, event: EventId, r: nat)
    requires I.Sound(g) && P.Enabled(c, g, now, a)
    ensures Logged(P.Apply(g, now, a), event, r) <==>
            Logged(g, event, r) || (Received(g, a) == Some(r) && r < |g.rows| && g.rows[r].event == event)
  {
    LogStep(c, g, now, a);
    I.StepEvolves(c, g, now, a);
  }

  /** What the broker receives is a row that was written: its publish had started. */
  lemma ReceivedIsWritten(c: P.Timing, g: P.Aggregate, now: nat, a: P.Action)
    requires I.Sound(g) && P.Enabled(c, g, now, a) && Received(g, a).Some?
    ensures Received(g, a).value < |g.rows|
  {
    if a.Resolve? {
      assert I.StageOk(g, g.sessions[a.k]);
    } else {
      assert I.Reached(g.rows, a.row);
    }
  }

  lemma LoggedHasMessage(c: P.Timing, h: C.Handling, s: System, aggregate: string, a: P.Action,
                         other: string, event: EventId, r: nat)
    requires PartsReachable(c, h, s) && Coupled(s) && P.Enabled(c, OutboxOf(s, aggregate), s.now, a)
    requires Logged(OutboxOf(Next(h, s, Relay(aggregate, a)), other), event, r)
    ensures |InboxOf(Next(h, s, Relay(aggregate, a)), event).messages| > 0
  {
    var g := OutboxOf(s, aggregate);
    OutboxSound(c, h, s, aggregate);
    LoggedAfterRelay(c, g, s.now, a, event, r);
    assert Logged(OutboxOf(s, other), event, r) || (other == aggregate && Received(g, a) == Some(r));
  }

  lemma MessageWasLogged(c: P.Timing, h: C.Handling, s: System, aggregate: string, a: P.Action, event: EventId)
    requires PartsReachable(c, h, s) && Coupled(s) && P.Enabled(c, OutboxOf(s, aggregate), s.now, a)
    requires |InboxOf(Next(h, s, Relay(aggregate, a)), event).messages| > 0
    ensures exists other, r :: Logged(OutboxOf(Next(h, s, Relay(aggregate, a)), other), event, r)
  {
    if |InboxOf(s, event).messages| > 0 {
      var other, r :| Logged(OutboxOf(s, other), event, r);
      StaysLogged(c, h, s, aggregate, a, other, event, r);
    } else {
      var r := NewlyLogged(c, h, s, aggregate, a, event);
    }
  }

  lemma StaysLogged(c: P.Timing, h: C.Handling, s: System, aggregate: string, a: P.Action,
                    other: string, event: EventId, r: nat)
    requires PartsReachable(c, h, s) && P.Enabled(c, OutboxOf(s, aggregate), s.now, a)
    requires Logged(OutboxOf(s, other), event, r)
    ensures Logged(OutboxOf(Next(h, s, Relay(aggregate, a)), other), event, r)
  {
    if other == aggregate {
      OutboxSound(c, h, s, aggregate);
      LoggedAfterRelay(c, OutboxOf(s, aggregate), s.now, a, event, r);
    }
  }

  lemma NewlyLogged(c: P.Timing, h: C.Handling, s: System, aggregate: string, a: P.Action, event: EventId) returns (r: nat)
    requires PartsReachable(c, h, s) && P.Enabled(c, OutboxOf(s, aggregate), s.now, a)
    requires |InboxOf(Next(h, s, Relay(aggregate, a)), event).messages| > 0 && |InboxOf(s, event).messages| == 0
    ensures Logged(OutboxOf(Next(h, s, Relay(aggregate, a)), aggregate), event, r)
  {
    var g := OutboxOf(s, aggregate);
    OutboxSound(c, h, s, aggregate);
    ReceivedIsWritten(c, g, s.now, a);
    r := Received(g, a).value;
    LoggedAfterRelay(c, g, s.now, a, event, r);
  }

  lemma RelayCoupled(c: P.Timing, h: C.Handling, s: System, aggregate: string, a: P.Action)
    requires PartsReachable(c, h, s) && Coupled(s) && P.Enabled(c, OutboxOf(s, aggregate), s.now, a)
    ensures Coupled(Next(h, s, Relay(aggregate, a)))
  {
    var s' := Next(h, s, Relay(aggregate, a));
    forall other, event, r: nat | Logged(OutboxOf(s', other), event, r)
      ensures |InboxOf(s', event).messages| > 0
    {
      LoggedHasMessage(c, h, s, aggregate, a, other, event, r);
    }
    forall event | |InboxOf(s', event).messages| > 0
      ensures exists other, r :: Logged(OutboxOf(s', other), event, r)
    {
      MessageWasLogged(c, h, s, aggregate, a, event);
    }
  }

  lemma OutboxSound(c: P.Timing, h: C.Handling, s: System, aggregate: string)
    requires PartsReachable(c, h, s)
    ensures I.Sound(OutboxOf(s, aggregate))
  {
    I.AlwaysSound(c, P.State(s.now, OutboxOf(s, aggregate)));
  }

  lemma CoupledStep(c: P.Timing, h: C.Handling, s: System, e: Event)
    requires PartsReachable(c, h, s) && Coupled(s) && Allowed(c, h, s, e)
    ensures Coupled(Next(h, s, e))
  {
    var s' := Next(h, s, e);
    match e
    case Relay(aggregate, a) => RelayCoupled(c, h, s, aggregate, a);
    case Consume(event, b) =>
      MessagesStay(h, InboxOf(s, event), s.now, b);
      assert forall aggregate :: OutboxOf(s', aggregate) == OutboxOf(s, aggregate);
      assert forall e' :: |InboxOf(s', e').messages| == |InboxOf(s, e').messages|;
    case Tick(_) =>
      assert forall aggregate :: OutboxOf(s', aggregate) == OutboxOf(s, aggregate);
      assert forall event :: InboxOf(s', event) == InboxOf(s, event);
  }

  lemma {:induction false} SystemRun(c: P.Timing, h: C.Handling, s: System, events: seq<Event>)
    requires PartsReachable(c, h, s) && Coupled(s) && Legal(c, h, s, events)
    ensures PartsReachable(c, h, Run(h, s, events)) && Coupled(Run(h, s, events))
    decreases |events|
  {
    if |events| > 0 {
      PartsStep(c, h, s, events[0]);
      CoupledStep(c, h, s, events[0]);
      SystemRun(c, h, Next(h, s, events[0]), events[1..]);
    }
  }

  lemma AlwaysCoupled(c: P.Timing, h: C.Handling, s: System)
    requires Reachable(c, h, s)
    ensures PartsReachable(c, h, s) && Coupled(s)
  {
    var events :| Legal(c, h, START, events) && Run(h, START, events) == s;
    P.Start(c);
    C.Start(h);
    SystemRun(c, h, START, events);
  }

  /** Nothing of the event is still with the broker: every message of it was acked. */
  predicate Drained(b: C.Inbox) {
    forall m | 0 <= m < |b.messages| :: b.messages[m].Acked?
  }

  /**
   * When an aggregate has no open row and the broker holds nothing of its
   * events, each row was skipped by an operator or its event was handled.
   */
  lemma EveryEventHandled(c: P.Timing, h: C.Handling, s: System, aggregate: string, r: nat)
    requires Reachable(c, h, s) && D.LossFree(h)
    requires var g := OutboxOf(s, aggregate);
             r < |g.rows| && !Open(g.rows[r]) && Drained(InboxOf(s, g.rows[r].event))
    ensures var g := OutboxOf(s, aggregate);
            g.rows[r].status == SKIPPED || |InboxOf(s, g.rows[r].event).works| > 0
  {
    AlwaysCoupled(c, h, s);
    var g := OutboxOf(s, aggregate);
    var event := g.rows[r].event;
    OutboxSound(c, h, s, aggregate);
    if g.rows[r].status == DISPATCHED {
      assert Logged(g, event, r);
      D.NoEventIsLost(h, C.State(s.now, InboxOf(s, event)));
    }
  }

  lemma {:induction false} LegalFront(c: P.Timing, h: C.Handling, s: System, front: seq<Event>, e: Event)
    requires Legal(c, h, s, front + [e])
    ensures Legal(c, h, s, front) && Allowed(c, h, Run(h, s, front), e)
    ensures Run(h, s, front + [e]) == Next(h, Run(h, s, front), e)
    decreases |front|
  {
    if |front| == 0 {
      assert (front + [e])[1..] == [];
    } else {
      assert (front + [e])[1..] == front[1..] + [e];
      LegalFront(c, h, Next(h, s, front[0]), front[1..], e);
    }
  }

  /** The step is an operator's skip of row `r`, which is DEAD. */
  predicate SkipsDeadRow(s: System, e: Event, aggregate: string, r: nat) {
    && e.Relay? && e.aggregate == aggregate && e.a.Skip? && (e.a.at == None || e.a.at == Some(r))
    && r < |OutboxOf(s, aggregate).rows| && OutboxOf(s, aggregate).rows[r].status == DEAD
  }

  /** One step of the system makes a row SKIPPED only by skipping it. */
  lemma BecomesSkipped(c: P.Timing, h: C.Handling, s: System, e: Event, aggregate: string, r: nat)
    requires Allowed(c, h, s, e)
    requires var rows := OutboxOf(Next(h, s, e), aggregate).rows; r < |rows| && rows[r].status == SKIPPED
    requires var rows := OutboxOf(s, aggregate).rows; r < |rows| ==> rows[r].status != SKIPPED
    ensures SkipsDeadRow(s, e, aggregate, r)
  {
    if e.Relay? && e.aggregate == aggregate {
      var g := OutboxOf(s, aggregate);
      if r < |g.rows| {
        F.EveryChangeExplained(c, g, s.now, e.a, r);
      } else {
        F.NewRowsArePending(c, g, s.now, e.a, r);
      }
    }
  }

  /** So a SKIPPED row, in any run of the whole system, is one an operator gave up while it was DEAD. */
  lemma {:induction false} SkippedByOperator(c: P.Timing, h: C.Handling, events: seq<Event>, aggregate: string, r: nat) returns (i: nat)
    requires Legal(c, h, START, events)
    requires var rows := OutboxOf(Run(h, START, events), aggregate).rows; r < |rows| && rows[r].status == SKIPPED
    ensures i < |events| && SkipsDeadRow(Run(h, START, events[..i]), events[i], aggregate, r)
    decreases |events|
  {
    var n := |events| - 1;
    var front := events[..n];
    assert events == front + [events[n]];
    LegalFront(c, h, START, front, events[n]);
    var s := Run(h, START, front);
    var rows := OutboxOf(s, aggregate).rows;
    if r < |rows| && rows[r].status == SKIPPED {
      i := SkippedByOperator(c, h, front, aggregate, r);
      assert front[..i] == events[..i];
    } else {
      BecomesSkipped(c, h, s, events[n], aggregate, r);
      i := n;
    }
  }

  /** And exactly once, until a seen window has passed since it was first handled. */
  lemma EveryEventHandledOnce(c: P.Timing, h: C.Handling, s: System, aggregate: string, r: nat)
    requires Reachable(c, h, s) && D.LossFree(h) && O.OnceEnough(h)
    requires var g := OutboxOf(s, aggregate);
             r < |g.rows| && g.rows[r].status == DISPATCHED && Drained(InboxOf(s, g.rows[r].event))
    ensures var works := InboxOf(s, OutboxOf(s, aggregate).rows[r].event).works;
            |works| > 0 && (s.now < works[0].doneAt + h.seenTtl ==> |works| == 1)
  {
    AlwaysCoupled(c, h, s);
    EveryEventHandled(c, h, s, aggregate, r);
    var inbox := InboxOf(s, OutboxOf(s, aggregate).rows[r].event);
    if |inbox.works| > 1 {
      O.SecondWorkIsLater(h, C.State(s.now, inbox));
    }
  }

  /** A handler only ever runs for an event some row was written for. */
  lemma OnlyWrittenEventsArrive(c: P.Timing, h: C.Handling, s: System, event: EventId)
    requires Reachable(c, h, s) && |InboxOf(s, event).messages| > 0
    ensures exists aggregate, r :: Logged(OutboxOf(s, aggregate), event, r)
  {
    AlwaysCoupled(c, h, s);
  }
}
