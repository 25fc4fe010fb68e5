/**
 * One event at one subscription as a timed state machine: the messages that
 * carry it (the relay may publish an event more than once), the broker's
 * redeliveries, the handler attempts, and the event's dedup marker. An attempt
 * is one delivery being handled through onceEach; its index is its owner token.
 */
module ConsumerProtocol {
  import opened Wrappers
  import opened Doubling

  const CLAIM_TTL_MS := 30_000
  const ACK_TIMEOUT_MS := 60_000
  const SEEN_TTL_MS := 86_400_000
  const MAX_REDELIVERIES := 10
  const REDELIVERY_DELAY_MS := 1_000
  const MAX_REDELIVERY_DELAY_MS := 30_000

  /** Delay before redelivery number `n` (0 is the first). */
  function RedeliveryDelay(n: nat): nat {
    var delay := Doubled(REDELIVERY_DELAY_MS, n);
    if delay < MAX_REDELIVERY_DELAY_MS then delay else MAX_REDELIVERY_DELAY_MS
  }

  datatype Message =
    | Queued(readyAt: nat, redeliveries: nat)
    | Outstanding(attempt: nat, since: nat, redeliveries: nat)
    | Acked
    | DeadLettered

  datatype Stage =
    | Received
    | Duplicate
    | Working(claimedAt: nat)
    | Succeeded(claimedAt: nat, doneAt: nat)
    | Thrown(claimedAt: nat)
    | Handled
    | Refused(failedAt: nat)
    | Gone
  {
    predicate Claiming() {
      Working? || Succeeded? || Thrown?
    }
  }

  /** `redeliveries` of the delivery it handles; they set the delay after its nack. */
  datatype Attempt = Attempt(message: nat, deliveredAt: nat, redeliveries: nat, stage: Stage)

  datatype Marker = Marker(owner: nat, expiresAt: nat)

  /** A handler run that succeeded; `extendedAt` once its marker was extended. History. */
  datatype Work = Work(owner: nat, claimedAt: nat, doneAt: nat, extendedAt: Option<nat>)

  datatype Inbox = Inbox(messages: seq<Message>, attempts: seq<Attempt>, marker: Option<Marker>, works: seq<Work>)

  const EMPTY := Inbox([], [], None, [])

  /**
   * The scheduling the environment grants. A message that is neither acked nor
   * nacked is handed out again `redelivery` ms after its delivery or later: the
   * ack timeout, or less where a lost process's messages go straight to another.
   * A claim is made at most `claim` ms after its delivery; an attempt told the
   * event is a duplicate acks at most `ack` ms after its delivery. The nack of a
   * delivery whose message was handed out again since takes the message from
   * its present holder, if at all, at most `lateNack` ms after that delivery.
   * `releases`: releases reach the store; `answers`: a claim whose call failed
   * was not made. Work that succeeds ends
   * at most `work` ms after its claim and its marker is extended at most
   * `settle` ms later; `reaches`: extends reach the store; `survives`: no
   * attempt crashes between the two.
   */
  datatype Handling = Handling(
    redelivery: nat, claim: nat, ack: nat, lateNack: Option<nat>, releases: bool, answers: bool,
    work: nat, settle: nat, reaches: bool, survives: bool, seenTtl: nat)

  datatype Action =
    | Arrive
    | Deliver(m: nat)
    | DeadLetter(m: nat)
    | Claim(x: nat)
    | ClaimError(x: nat, taken: bool)
    | Finish(x: nat)
    | Throw(x: nat)
    | Extend(x: nat, reached: bool)
    | Release(x: nat, reached: bool)
    | Ack(x: nat)
    | Nack(x: nat, late: bool)
    | Crash(x: nat)

  predicate Live(b: Inbox, now: nat) {
    b.marker.Some? && now < b.marker.value.expiresAt
  }

  /** The message may be handed out: it waits for (re)delivery or has gone unanswered long enough. */
  predicate Ready(h: Handling, m: Message, now: nat) {
    (m.Queued? && m.readyAt <= now) || (m.Outstanding? && m.since + h.redelivery <= now)
  }

  predicate In(b: Inbox, x: nat) {
    x < |b.attempts| && b.attempts[x].message < |b.messages|
  }

  /** `x` is the current delivery of its message. */
  predicate Delivers(b: Inbox, x: nat) {
    && In(b, x)
    && b.messages[b.attempts[x].message].Outstanding?
    && b.messages[b.attempts[x].message].attempt == x
  }

  predicate Enabled(h: Handling, b: Inbox, now: nat, a: Action) {
    match a
    case Arrive => true
    case Deliver(m) => m < |b.messages| && Ready(h, b.messages[m], now)
                       && (b.messages[m].Outstanding? ==> b.messages[m].redeliveries < MAX_REDELIVERIES)
    case DeadLetter(m) => m < |b.messages| && b.messages[m].Outstanding? && Ready(h, b.messages[m], now)
                          && b.messages[m].redeliveries >= MAX_REDELIVERIES
    case Claim(x) => In(b, x) && b.attempts[x].stage.Received?
    case ClaimError(x, taken) => In(b, x) && b.attempts[x].stage.Received? && (h.answers ==> !taken)
    case Finish(x) => In(b, x) && b.attempts[x].stage.Working? && now <= b.attempts[x].stage.claimedAt + h.work
    case Throw(x) => In(b, x) && b.attempts[x].stage.Working?
    case Extend(x, reached) => In(b, x) && b.attempts[x].stage.Succeeded? && (h.reaches ==> reached)
    case Release(x, reached) => In(b, x) && b.attempts[x].stage.Thrown? && (h.releases ==> reached)
    case Ack(x) => In(b, x) && (b.attempts[x].stage.Handled? || b.attempts[x].stage.Duplicate?)
    case Nack(x, late) => In(b, x) && b.attempts[x].stage.Refused?
                          && (late ==> h.lateNack.Some? && now <= b.attempts[x].deliveredAt + h.lateNack.value)
    case Crash(x) => In(b, x) && (h.survives ==> !b.attempts[x].stage.Succeeded?)
  }

  function Move(b: Inbox, x: nat, stage: Stage): Inbox {
    if x < |b.attempts| then b.(attempts := b.attempts[x := b.attempts[x].(stage := stage)]) else b
  }

  function SetMessage(b: Inbox, m: nat, message: Message): Inbox {
    if m < |b.messages| then b.(messages := b.messages[m := message]) else b
  }

  /**
   * After a nack: a later delivery, or the dead-letter topic after the last one.
   * The delay counts from the failure; an adapter may hold the nack for part of it.
   */
  function Requeued(failedAt: nat, earlier: nat, redeliveries: nat): Message {
    if redeliveries < MAX_REDELIVERIES then Queued(failedAt + RedeliveryDelay(earlier), redeliveries + 1)
    else DeadLettered
  }

  function Claimed(b: Inbox, now: nat, x: nat): Inbox {
    if Live(b, now) then Move(b, x, Duplicate)
    else Move(b, x, Working(now)).(marker := Some(Marker(x, now + CLAIM_TTL_MS)))
  }

  /** The marker after an owner-checked extend of `ttl`. */
  function Extended(b: Inbox, now: nat, x: nat, ttl: nat): Option<Marker> {
    if Live(b, now) && b.marker.value.owner == x then Some(Marker(x, now + ttl)) else b.marker
  }

  /** The marker after an owner-checked release. */
  function Released(b: Inbox, now: nat, x: nat): Option<Marker> {
    if Live(b, now) && b.marker.value.owner == x then None else b.marker
  }

  function MarkExtended(works: seq<Work>, x: nat, now: nat): seq<Work> {
    seq(|works|, i requires 0 <= i < |works| =>
      if works[i].owner == x then works[i].(extendedAt := Some(now)) else works[i])
  }

  function Apply(h: Handling, b: Inbox, now: nat, a: Action): Inbox {
    match a
    case Arrive => b.(messages := b.messages + [Queued(now, 0)])
    case Deliver(m) =>
      if m < |b.messages| && !b.messages[m].Acked? && !b.messages[m].DeadLettered? then
        var n := if b.messages[m].Queued? then b.messages[m].redeliveries else b.messages[m].redeliveries + 1;
        SetMessage(b, m, Outstanding(|b.attempts|, now, n)).(attempts := b.attempts + [Attempt(m, now, n, Received)])
      else b
    case DeadLetter(m) => SetMessage(b, m, DeadLettered)
    case Claim(x) => Claimed(b, now, x)
    case ClaimError(x, taken) => Move(if taken then Claimed(b, now, x) else b, x, Refused(now))
    case Finish(x) =>
      if x < |b.attempts| && b.attempts[x].stage.Working? then
        var claimedAt := b.attempts[x].stage.claimedAt;
        Move(b, x, Succeeded(claimedAt, now)).(works := b.works + [Work(x, claimedAt, now, None)])
      else b
    case Throw(x) =>
      if x < |b.attempts| && b.attempts[x].stage.Working? then Move(b, x, Thrown(b.attempts[x].stage.claimedAt)) else b
    case Extend(x, reached) =>
      var b' := Move(b, x, Handled);
      if reached then
        b'.(marker := Extended(b, now, x, h.seenTtl),
            works := if Live(b, now) && b.marker.value.owner == x then MarkExtended(b.works, x, now) else b.works)
      else b'
    case Release(x, reached) => Move(b, x, Refused(now)).(marker := if reached then Released(b, now, x) else b.marker)
    case Ack(x) =>
      if In(b, x) && !b.messages[b.attempts[x].message].DeadLettered?
      then SetMessage(Move(b, x, Gone), b.attempts[x].message, Acked)
      else Move(b, x, Gone)
    case Nack(x, late) =>
      if In(b, x) && b.attempts[x].stage.Refused? && (Delivers(b, x) || (late && b.messages[b.attempts[x].message].Outstanding?))
      then
        var m, t := b.attempts[x].message, b.attempts[x];
        SetMessage(Move(b, x, Gone), m, Requeued(t.stage.failedAt, t.redeliveries, b.messages[m].redeliveries))
      else Move(b, x, Gone)
    case Crash(x) => Move(b, x, Gone)
  }

  predicate Patient(h: Handling, t: Attempt, now: nat) {
    match t.stage
    case Received => now <= t.deliveredAt + h.claim
    case Duplicate => now <= t.deliveredAt + h.ack
    case Succeeded(_, at) => now <= at + h.settle
    case _ => true
  }

  predicate CanWait(h: Handling, b: Inbox, now: nat) {
    forall x | 0 <= x < |b.attempts| :: Patient(h, b.attempts[x], now)
  }

  // ------------------------------------------------------------------- Runs

  datatype State = State(now: nat, b: Inbox)

  datatype Event = Tick(ms: nat) | Do(a: Action)

  const START := State(0, EMPTY)

  predicate Allowed(h: Handling, s: State, e: Event) {
    match e
    case Tick(ms) => CanWait(h, s.b, s.now + ms)
    case Do(a) => Enabled(h, s.b, s.now, a)
  }

  function Next(h: Handling, s: State, e: Event): State {
    match e
    case Tick(ms) => s.(now := s.now + ms)
    case Do(a) => s.(b := Apply(h, s.b, s.now, a))
  }

  predicate Legal(h: Handling, s: State, events: seq<Event>)
    decreases |events|
  {
    |events| == 0 || (Allowed(h, s, events[0]) && Legal(h, Next(h, s, events[0]), events[1..]))
  }

  function Run(h: Handling, s: State, events: seq<Event>): State
    decreases |events|
  {
    if |events| == 0 then s else Run(h, Next(h, s, events[0]), events[1..])
  }

  ghost predicate Reachable(h: Handling, s: State) {
    exists events :: Legal(h, START, events) && Run(h, START, events) == s
  }

  lemma {:induction false} RunThen(h: Handling, s: State, events: seq<Event>, e: Event)
    requires Legal(h, s, events) && Allowed(h, Run(h, s, events), e)
    ensures Legal(h, s, events + [e]) && Run(h, s, events + [e]) == Next(h, Run(h, s, events), e)
    decreases |events|
  {
    if |events| == 0 {
      assert (events + [e])[1..] == [];
    } else {
      assert (events + [e])[1..] == events[1..] + [e];
      RunThen(h, Next(h, s, events[0]), events[1..], e);
    }
  }

  lemma Start(h: Handling)
    ensures Reachable(h, START)
  {
    assert Legal(h, START, []) && Run(h, START, []) == START;
  }

  lemma Step(h: Handling, s: State, e: Event) returns (s': State)
    requires Reachable(h, s) && Allowed(h, s, e)
    ensures s' == Next(h, s, e) && Reachable(h, s')
  {
    var events :| Legal(h, START, events) && Run(h, START, events) == s;
    RunThen(h, START, events, e);
    s' := Next(h, s, e);
  }
}
