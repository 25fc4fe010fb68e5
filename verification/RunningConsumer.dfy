/**
 * One started consumer: it subscribes, resubscribes with backoff when that
 * fails or the subscription stops, and stops for good when closed. The class
 * holds the fields and the callbacks; the state machine below runs them in
 * every order the event loop may.
 */
module RunningConsumer {
  import opened Wrappers
  import opened Doubling

  const RESUBSCRIBE_BASE_MS := 1_000
  const RESUBSCRIBE_MAX_MS := 30_000

  type SubId = nat

  datatype ConsumerState = STARTING | RUNNING | RETRYING | DISABLED

  /** The promise in `attempt`: settled, waiting for subscribe, or closing a subscription that came too late. */
  datatype Attempt = Idle | Subscribing | ClosingLate(sub: SubId)

  /** `timer` is the delay the pending timer was set with. */
  datatype Fields = Fields(
    state: ConsumerState, failures: nat, subscription: Option<SubId>,
    timer: Option<nat>, closed: bool, attempt: Attempt)

  function Delay(failures: nat): nat {
    var doubled := Doubled(RESUBSCRIBE_BASE_MS, if failures == 0 then 0 else failures - 1);
    if doubled < RESUBSCRIBE_MAX_MS then doubled else RESUBSCRIBE_MAX_MS
  }

  const FRESH := Fields(STARTING, 0, None, None, false, Idle)

  function RetryAfter(f: Fields): Fields {
    if f.closed then f else f.(timer := Some(Delay(f.failures)))
  }

  function Begun(f: Fields): Fields {
    if f.closed then f else f.(attempt := Subscribing)
  }

  function SubscribeFailed(f: Fields, disabled: bool): Fields {
    if disabled then f.(state := DISABLED, attempt := Idle)
    else RetryAfter(f.(failures := f.failures + 1, state := RETRYING)).(attempt := Idle)
  }

  function Subscribed(f: Fields, sub: SubId): Fields {
    if f.closed then f.(attempt := ClosingLate(sub))
    else f.(subscription := Some(sub), failures := 0, state := RUNNING, attempt := Idle)
  }

  function Stopped(f: Fields, sub: SubId): Fields {
    if f.closed || f.subscription != Some(sub) then f
    else RetryAfter(f.(subscription := None, state := RETRYING, failures := f.failures + 1))
  }

  function TimerFired(f: Fields): Fields {
    Begun(f.(timer := None))
  }

  function CloseCalled(f: Fields): Fields {
    f.(closed := true, timer := None)
  }

  class RunningConsumer {
    var state: ConsumerState
    var failures: nat
    var subscription: Option<SubId>
    var timer: Option<nat>
    var closed: bool
    var attempt: Attempt

    function View(): Fields
      reads this
    {
      Fields(state, failures, subscription, timer, closed, attempt)
    }

    constructor ()
      ensures View() == FRESH
    {
      state, failures, subscription, timer, closed, attempt := STARTING, 0, None, None, false, Idle;
    }

    method Begin()
      modifies this
      ensures View() == Begun(old(View()))
    {
      if closed {
        return;
      }
      attempt := Subscribing;
    }

    method Retry()
      modifies this
      ensures View() == RetryAfter(old(View()))
      ensures timer == if closed then old(timer) else Some(Delay(failures))
    {
      if closed {
        return;
      }
      timer := Some(Delay(failures));
    }

    method OnSubscribeFailed(disabled: bool)
      modifies this
      ensures View() == SubscribeFailed(old(View()), disabled)
      ensures attempt == Idle && closed == old(closed) && subscription == old(subscription)
      ensures disabled ==> state == DISABLED && failures == old(failures) && timer == old(timer)
      ensures !disabled ==> state == RETRYING && failures == old(failures) + 1
                            && timer == if closed then old(timer) else Some(Delay(failures))
    {
      attempt := Idle;
      if disabled {
        state := DISABLED;
        return;
      }
      failures := failures + 1;
      state := RETRYING;
      Retry();
    }

    method OnSubscribed(sub: SubId)
      modifies this
      ensures View() == Subscribed(old(View()), sub)
      ensures closed == old(closed) && timer == old(timer)
      ensures closed ==> attempt == ClosingLate(sub) && subscription == old(subscription)
                         && state == old(state) && failures == old(failures)
      ensures !closed ==> attempt == Idle && subscription == Some(sub) && state == RUNNING && failures == 0
    {
      if closed {
        attempt := ClosingLate(sub);
        return;
      }
      attempt := Idle;
      subscription := Some(sub);
      failures := 0;
      state := RUNNING;
    }

    method OnStopped(sub: SubId)
      modifies this
      ensures View() == Stopped(old(View()), sub)
      ensures closed == old(closed) && attempt == old(attempt)
      ensures closed || old(subscription) != Some(sub) ==> View() == old(View())
      ensures !closed && old(subscription) == Some(sub) ==>
                subscription == None && state == RETRYING && failures == old(failures) + 1 && timer == Some(Delay(failures))
    {
      if closed || subscription != Some(sub) {
        return;
      }
      subscription := None;
      state := RETRYING;
      failures := failures + 1;
      Retry();
    }

    method OnTimer()
      modifies this
      ensures View() == TimerFired(old(View()))
      ensures timer == None && state == old(state) && failures == old(failures)
      ensures closed == old(closed) && subscription == old(subscription)
      ensures attempt == if closed then old(attempt) else Subscribing
    {
      timer := None;
      Begin();
    }

    method Close()
      modifies this
      ensures View() == CloseCalled(old(View()))
      ensures closed && timer == None && state == old(state) && failures == old(failures)
      ensures subscription == old(subscription) && attempt == old(attempt)
    {
      closed := true;
      timer := None;
    }

    /** The rest of close() once the attempt has settled: takes the subscription to close, if any. */
    method TakeSubscription() returns (sub: Option<SubId>)
      modifies this
      ensures View() == old(View()).(subscription := None) && sub == old(subscription)
    {
      sub := subscription;
      subscription := None;
    }
  }

  // ------------------------------------------------------- Every interleaving

  /** A call of close(): waiting for the attempt, for its subscription to close, or done. */
  datatype Closer = AwaitsAttempt | AwaitsSub(sub: SubId) | Resolved

  /** The `openCount` subscriptions opened so far are numbered in order; `ended` ones were closed or had stopped. */
  datatype World = World(f: Fields, openCount: nat, ended: set<SubId>, closers: map<nat, Closer>)

  datatype Event =
    | SubscribeResolves
    | SubscribeRejects(disabled: bool)
    | LateSubCloses
    | SubStops(sub: SubId)
    | TimerFires
    | CloseIsCalled(call: nat)
    | AttemptAwaited(call: nat)
    | SubCloses(call: nat)

  const STARTED := World(Begun(FRESH), 0, {}, map[])

  /** Some close() has asked this subscription to close. */
  predicate BeingClosed(w: World, sub: SubId) {
    w.f.attempt == ClosingLate(sub) || exists call | call in w.closers :: w.closers[call] == AwaitsSub(sub)
  }

  predicate Allowed(w: World, e: Event) {
    match e
    case SubscribeResolves => w.f.attempt.Subscribing?
    case SubscribeRejects(_) => w.f.attempt.Subscribing?
    case LateSubCloses => w.f.attempt.ClosingLate?
    case SubStops(sub) => sub < w.openCount && sub !in w.ended && !BeingClosed(w, sub)
    case TimerFires => w.f.timer.Some?
    case CloseIsCalled(call) => call !in w.closers
    case AttemptAwaited(call) => call in w.closers && w.closers[call].AwaitsAttempt? && w.f.attempt.Idle?
    case SubCloses(call) => call in w.closers && w.closers[call].AwaitsSub?
  }

  function Next(w: World, e: Event): World {
    match e
    case SubscribeResolves => w.(f := Subscribed(w.f, w.openCount), openCount := w.openCount + 1)
    case SubscribeRejects(disabled) => w.(f := SubscribeFailed(w.f, disabled))
    case LateSubCloses =>
      if w.f.attempt.ClosingLate? then w.(f := w.f.(attempt := Idle), ended := w.ended + {w.f.attempt.sub}) else w
    case SubStops(sub) => w.(f := Stopped(w.f, sub), ended := w.ended + {sub})
    case TimerFires => w.(f := TimerFired(w.f))
    case CloseIsCalled(call) => w.(f := CloseCalled(w.f), closers := w.closers[call := AwaitsAttempt])
    case AttemptAwaited(call) =>
      w.(f := w.f.(subscription := None),
         closers := w.closers[call := if w.f.subscription.Some? then AwaitsSub(w.f.subscription.value) else Resolved])
    case SubCloses(call) =>
      if call in w.closers && w.closers[call].AwaitsSub? then
        w.(ended := w.ended + {w.closers[call].sub}, closers := w.closers[call := Resolved])
      else w
  }

  predicate Legal(w: World, events: seq<Event>)
    decreases |events|
  {
    |events| == 0 || (Allowed(w, events[0]) && Legal(Next(w, events[0]), events[1..]))
  }

  function Run(w: World, events: seq<Event>): World
    decreases |events|
  {
    if |events| == 0 then w else Run(Next(w, events[0]), events[1..])
  }

  /** Exactly one of connecting, subscribed, waiting on the one timer and disabled; or closed. */
  predicate OnePhase(f: Fields) {
    if f.closed then f.timer.None?
    else
      || (f.attempt.Subscribing? && f.subscription.None? && f.timer.None? && f.state in {STARTING, RETRYING})
      || (f.attempt.Idle? && f.subscription.Some? && f.timer.None? && f.state == RUNNING && f.failures == 0)
      || (f.attempt.Idle? && f.subscription.None? && f.state == RETRYING
          && f.failures > 0 && f.timer == Some(Delay(f.failures)))
      || (f.attempt.Idle? && f.subscription.None? && f.timer.None? && f.state == DISABLED)
  }

  /** The subscription the consumer, its late attempt or a close() still answers for. */
  predicate Held(w: World, sub: SubId) {
    w.f.subscription == Some(sub) || BeingClosed(w, sub)
  }

  ghost predicate Consistent(w: World) {
    && OnePhase(w.f)
    && (w.closers == map[] <==> !w.f.closed)
    && (w.f.subscription.Some? ==> w.f.attempt.Idle?)
    && (forall sub: SubId | Held(w, sub) :: sub < w.openCount)
    && (forall sub: SubId | sub < w.openCount :: sub in w.ended || Held(w, sub))
    && (forall sub: SubId, other: SubId | Held(w, sub) && Held(w, other) :: sub == other)
    && (forall call | call in w.closers && !w.closers[call].AwaitsAttempt? :: w.f.attempt.Idle? && w.f.subscription.None?)
    && (forall call, other | call in w.closers && other in w.closers
                             && w.closers[call].AwaitsSub? && w.closers[other].AwaitsSub? :: call == other)
  }

  lemma HeldBefore(w: World, e: Event, sub: SubId)
    requires Consistent(w) && Allowed(w, e) && Held(Next(w, e), sub)
    ensures Held(w, sub) || (e.SubscribeResolves? && sub == w.openCount && forall other: SubId :: !Held(w, other))
  {
    if e.SubscribeResolves? {
      assert w.f.subscription.None?;
    }
  }

  lemma EndedOrHeld(w: World, e: Event, sub: SubId)
    requires Consistent(w) && Allowed(w, e) && sub < Next(w, e).openCount
    ensures sub in Next(w, e).ended || Held(Next(w, e), sub)
  {
    var w' := Next(w, e);
    forall c | c in w.closers && w.closers[c] == AwaitsSub(sub) && e != SubCloses(c)
      ensures c in w'.closers && w'.closers[c] == AwaitsSub(sub)
    {
    }
    if e.AttemptAwaited? && w.f.subscription == Some(sub) {
      assert w'.closers[e.call] == AwaitsSub(sub);
    }
  }

  lemma ConsistentStep(w: World, e: Event)
    requires Consistent(w) && Allowed(w, e)
    ensures Consistent(Next(w, e))
  {
    var w' := Next(w, e);
    forall sub: SubId | Held(w', sub)
      ensures sub < w'.openCount
    {
      HeldBefore(w, e, sub);
    }
    forall sub: SubId | sub < w'.openCount
      ensures sub in w'.ended || Held(w', sub)
    {
      EndedOrHeld(w, e, sub);
    }
    forall sub: SubId, other: SubId | Held(w', sub) && Held(w', other)
      ensures sub == other
    {
      HeldBefore(w, e, sub);
      HeldBefore(w, e, other);
    }
  }

  lemma {:induction false} ConsistentRun(w: World, events: seq<Event>)
    requires Consistent(w) && Legal(w, events)
    ensures Consistent(Run(w, events))
    decreases |events|
  {
    if |events| > 0 {
      ConsistentStep(w, events[0]);
      ConsistentRun(Next(w, events[0]), events[1..]);
    }
  }

  /** In every interleaving: one phase at a time, and never two subscriptions. */
  lemma OnePhaseOneSubscription(events: seq<Event>)
    requires Legal(STARTED, events)
    ensures var w := Run(STARTED, events);
            OnePhase(w.f) && forall sub: SubId, other: SubId | Held(w, sub) && Held(w, other) :: sub == other
  {
    ConsistentRun(STARTED, events);
  }

  predicate AnyResolved(w: World) {
    exists call | call in w.closers :: w.closers[call].Resolved?
  }

  lemma ResolvedStaysShut(w: World, e: Event)
    requires Consistent(w) && Allowed(w, e) && AnyResolved(w)
    ensures AnyResolved(Next(w, e)) && Next(w, e).openCount == w.openCount
  {
    var call :| call in w.closers && w.closers[call].Resolved?;
    assert call in Next(w, e).closers && Next(w, e).closers[call].Resolved?;
  }

  /** Once a close() has resolved, no run opens another subscription. */
  lemma {:induction false} NothingOpensAfterClose(w: World, events: seq<Event>)
    requires Consistent(w) && Legal(w, events) && AnyResolved(w)
    ensures Run(w, events).openCount == w.openCount
    decreases |events|
  {
    if |events| > 0 {
      ConsistentStep(w, events[0]);
      ResolvedStaysShut(w, events[0]);
      NothingOpensAfterClose(Next(w, events[0]), events[1..]);
    }
  }

  /**
   * Once a close() has resolved, each subscription ever opened was closed or
   * had stopped, except one that another close() is still closing; none opens later.
   */
  lemma ClosedForGood(events: seq<Event>, later: seq<Event>)
    requires Legal(STARTED, events) && AnyResolved(Run(STARTED, events)) && Legal(Run(STARTED, events), later)
    ensures var w := Run(STARTED, events);
            && (forall sub: SubId | sub < w.openCount ::
                  sub in w.ended || exists call | call in w.closers :: w.closers[call] == AwaitsSub(sub))
            && Run(w, later).openCount == w.openCount
  {
    ConsistentRun(STARTED, events);
    NothingOpensAfterClose(Run(STARTED, events), later);
  }

  /** With every close() resolved, nothing is left open. */
  lemma AllClosedNothingOpen(events: seq<Event>)
    requires Legal(STARTED, events) && AnyResolved(Run(STARTED, events))
    requires forall call | call in Run(STARTED, events).closers :: Run(STARTED, events).closers[call].Resolved?
    ensures forall sub: SubId | sub < Run(STARTED, events).openCount :: sub in Run(STARTED, events).ended
  {
    ClosedForGood(events, []);
  }

  /** Health is down exactly while an open consumer is connecting or waiting to. */
  predicate Waiting(f: Fields) {
    f.state != RUNNING && f.state != DISABLED
  }

  lemma HealthTellsThePhase(events: seq<Event>)
    requires Legal(STARTED, events) && !Run(STARTED, events).f.closed
    ensures var f := Run(STARTED, events).f;
            && (!Waiting(f) <==> f.subscription.Some? || f.state == DISABLED)
            && (Waiting(f) <==> f.attempt.Subscribing? || f.timer.Some?)
  {
    ConsistentRun(STARTED, events);
  }

  /** The delay doubles with every failure up to its cap, and never exceeds it. */
  lemma {:induction false} DelayGrows(failures: nat)
    requires failures > 0
    ensures Delay(1) == 1_000 && RESUBSCRIBE_MAX_MS == 30_000
    ensures RESUBSCRIBE_BASE_MS <= Delay(failures) <= Delay(failures + 1) <= RESUBSCRIBE_MAX_MS
    ensures Delay(failures + 1) == (if 2 * Delay(failures) < RESUBSCRIBE_MAX_MS then 2 * Delay(failures) else RESUBSCRIBE_MAX_MS)
  {
    assert Doubled(RESUBSCRIBE_BASE_MS, failures) == 2 * Doubled(RESUBSCRIBE_BASE_MS, failures - 1);
  }
}
