/**
 * The circuit breaker with overlapping calls: each call is a start, which the
 * breaker admits or rejects, and a settle that may come at any later time.
 */
module CircuitBreaker {
  import opened Wrappers

  datatype BreakerState = CLOSED | OPEN | HALF_OPEN

  datatype Fields = Fields(state: BreakerState, failures: nat, openedAt: nat, probing: bool)

  datatype Options = Options(failureThreshold: nat, resetTimeoutMs: nat)

  datatype Admission = Rejected | Call | Probe

  const CLOSED_FIELDS := Fields(CLOSED, 0, 0, false)

  /** OPEN becomes HALF_OPEN once the reset timeout has passed. */
  function Woken(o: Options, f: Fields, now: nat): Fields {
    if f.state == OPEN && now - f.openedAt >= o.resetTimeoutMs then f.(state := HALF_OPEN) else f
  }

  function Admitted(o: Options, f: Fields, now: nat): Admission {
    match Woken(o, f, now).state
    case OPEN => Rejected
    case HALF_OPEN => if f.probing then Rejected else Probe
    case CLOSED => Call
  }

  function Started(o: Options, f: Fields, now: nat): Fields {
    Woken(o, f, now).(probing := f.probing || Admitted(o, f, now) == Probe)
  }

  function Settled(o: Options, f: Fields, now: nat, succeeded: bool, probe: bool): Fields {
    var probing := f.probing && !probe;
    if succeeded then Fields(CLOSED, 0, f.openedAt, probing)
    else if f.state == HALF_OPEN || f.failures + 1 >= o.failureThreshold then Fields(OPEN, f.failures + 1, now, probing)
    else Fields(f.state, f.failures + 1, f.openedAt, probing)
  }

  class CircuitBreaker {
    const options: Options
    var state: BreakerState
    var failures: nat
    var openedAt: nat
    var probing: bool

    function View(): Fields
      reads this
    {
      Fields(state, failures, openedAt, probing)
    }

    constructor (options: Options)
      ensures View() == CLOSED_FIELDS && this.options == options
    {
      this.options := options;
      state, failures, openedAt, probing := CLOSED, 0, 0, false;
    }

    /** fire() up to the call of `fn`. */
    method Start(now: nat) returns (admission: Admission)
      modifies this
      ensures admission == Admitted(options, old(View()), now) && View() == Started(options, old(View()), now)
      ensures var woken := old(state) == HALF_OPEN || (old(state) == OPEN && now - old(openedAt) >= options.resetTimeoutMs);
              && (admission == Call <==> old(state) == CLOSED)
              && (admission == Probe <==> woken && !old(probing))
              && state == (if woken then HALF_OPEN else old(state))
              && (probing <==> old(probing) || admission == Probe)
      ensures failures == old(failures) && openedAt == old(openedAt)
    {
      if state == OPEN {
        if now - openedAt >= options.resetTimeoutMs {
          state := HALF_OPEN;
        } else {
          return Rejected;
        }
      }
      if state == HALF_OPEN {
        if probing {
          return Rejected;
        }
        probing := true;
        return Probe;
      }
      admission := Call;
    }

    /** fire() from the moment `fn` settles. */
    method Settle(now: nat, succeeded: bool, probe: bool)
      modifies this
      ensures View() == Settled(options, old(View()), now, succeeded, probe)
      ensures succeeded ==> state == CLOSED && failures == 0 && openedAt == old(openedAt)
      ensures !succeeded ==>
                var opens := old(state) == HALF_OPEN || old(failures) + 1 >= options.failureThreshold;
                && failures == old(failures) + 1 && state == (if opens then OPEN else old(state))
                && openedAt == (if opens then now else old(openedAt))
      ensures probing <==> old(probing) && !probe
    {
      if succeeded {
        failures := 0;
        state := CLOSED;
      } else {
        failures := failures + 1;
        if state == HALF_OPEN || failures >= options.failureThreshold {
          state := OPEN;
          openedAt := now;
        }
      }
      if probe {
        probing := false;
      }
    }
  }

  // ------------------------------------------------------- Every interleaving

  /** `calls` are in flight, true for a probe; `lastFailure` is history. */
  datatype World = World(f: Fields, now: nat, calls: map<nat, bool>, lastFailure: Option<nat>)

  datatype Event = Tick(ms: nat) | Fire(call: nat) | CallSettles(call: nat, succeeded: bool)

  const IDLE := World(CLOSED_FIELDS, 0, map[], None)

  predicate Allowed(w: World, e: Event) {
    match e
    case Tick(_) => true
    case Fire(call) => call !in w.calls
    case CallSettles(call, _) => call in w.calls
  }

  function Next(o: Options, w: World, e: Event): World {
    match e
    case Tick(ms) => w.(now := w.now + ms)
    case Fire(call) =>
      var admission := Admitted(o, w.f, w.now);
      w.(f := Started(o, w.f, w.now),
         calls := if admission == Rejected then w.calls else w.calls[call := admission == Probe])
    case CallSettles(call, succeeded) =>
      if call in w.calls then
        w.(f := Settled(o, w.f, w.now, succeeded, w.calls[call]), calls := w.calls - {call},
           lastFailure := if succeeded then w.lastFailure else Some(w.now))
      else w
  }

  predicate Legal(o: Options, w: World, events: seq<Event>)
    decreases |events|
  {
    |events| == 0 || (Allowed(w, events[0]) && Legal(o, Next(o, w, events[0]), events[1..]))
  }

  function Run(o: Options, w: World, events: seq<Event>): World
    decreases |events|
  {
    if |events| == 0 then w else Run(o, Next(o, w, events[0]), events[1..])
  }

  predicate IsProbe(w: World, call: nat) {
    call in w.calls && w.calls[call]
  }

  ghost predicate Consistent(o: Options, w: World) {
    && (o.failureThreshold > 0 ==> (w.f.state == CLOSED <==> w.f.failures < o.failureThreshold))
    && (w.f.state == HALF_OPEN ==> w.f.probing)
    && (w.f.probing <==> exists call :: IsProbe(w, call))
    && (forall call, other | IsProbe(w, call) && IsProbe(w, other) :: call == other)
    && (w.f.state == OPEN ==> w.lastFailure == Some(w.f.openedAt))
  }

  lemma ConsistentStep(o: Options, w: World, e: Event)
    requires Consistent(o, w) && Allowed(w, e)
    ensures Consistent(o, Next(o, w, e))
  {
    var w' := Next(o, w, e);
    match e
    case Tick(_) =>
      assert forall call :: IsProbe(w', call) <==> IsProbe(w, call);
    case Fire(call) =>
      assert forall other | other != call :: IsProbe(w', other) <==> IsProbe(w, other);
      assert IsProbe(w', call) <==> Admitted(o, w.f, w.now) == Probe;
    case CallSettles(call, succeeded) =>
      assert forall other | other != call :: IsProbe(w', other) <==> IsProbe(w, other);
      assert !IsProbe(w', call);
      assert w.calls[call] ==> IsProbe(w, call);
      if w'.f.probing {
        var probe :| IsProbe(w, probe);
        assert IsProbe(w', probe);
      }
  }

  lemma {:induction false} ConsistentRun(o: Options, w: World, events: seq<Event>)
    requires Consistent(o, w) && Legal(o, w, events)
    ensures Consistent(o, Run(o, w, events))
    decreases |events|
  {
    if |events| > 0 {
      ConsistentStep(o, w, events[0]);
      ConsistentRun(o, Next(o, w, events[0]), events[1..]);
    }
  }

  ghost predicate Reachable(o: Options, w: World) {
    exists events :: Legal(o, IDLE, events) && Run(o, IDLE, events) == w
  }

  lemma AlwaysConsistent(o: Options, w: World)
    requires Reachable(o, w)
    ensures Consistent(o, w)
  {
    var events :| Legal(o, IDLE, events) && Run(o, IDLE, events) == w;
    assert Consistent(o, IDLE);
    ConsistentRun(o, IDLE, events);
  }

  /** While HALF_OPEN exactly one probe is in flight, whatever else still is. */
  lemma HalfOpenHasOneProbe(o: Options, w: World)
    requires Reachable(o, w)
    ensures w.f.state == HALF_OPEN ==> exists call :: IsProbe(w, call)
    ensures forall call, other | IsProbe(w, call) && IsProbe(w, other) :: call == other
  {
    AlwaysConsistent(o, w);
  }

  /** A probe starts only when the reset timeout has passed since the last recorded failure of any call. */
  lemma ProbeWaitsForReset(o: Options, w: World)
    requires Reachable(o, w) && Admitted(o, w.f, w.now) == Probe
    ensures w.lastFailure.Some? && w.lastFailure.value + o.resetTimeoutMs <= w.now
  {
    AlwaysConsistent(o, w);
  }

  predicate ClosedIffBelow(o: Options, f: Fields) {
    f.state == CLOSED <==> f.failures < o.failureThreshold
  }

  /** CLOSED means fewer failures than the threshold, in every run, exactly when the threshold is positive. */
  lemma ClosedBelowThreshold(o: Options)
    ensures (forall w | Reachable(o, w) :: ClosedIffBelow(o, w.f)) <==> o.failureThreshold > 0
  {
    if o.failureThreshold > 0 {
      forall w | Reachable(o, w)
        ensures ClosedIffBelow(o, w.f)
      {
        AlwaysConsistent(o, w);
      }
    } else {
      assert Legal(o, IDLE, []) && Run(o, IDLE, []) == IDLE;
      assert Reachable(o, IDLE) && !ClosedIffBelow(o, IDLE.f);
    }
  }
}
