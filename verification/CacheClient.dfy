/**
 * getOrLoad with single-flight: callers that arrive while a load of their key
 * runs join it. The class is one load and the in-flight map; the state machine
 * runs any number of loads and callers in every order.
 */
module CacheClient {
  import opened Wrappers

  type Key = string

  /** A decoded value; only its identity matters. */
  type Value = string

  datatype Error = InvalidTtl | CapabilityDisabled | LoaderError

  /** A load resolves with a value (None is `undefined`) or rejects. */
  datatype Outcome = Resolved(value: Option<Value>) | Rejected(error: Error)

  /** What the store answers a read with: a decoded value, a miss, or an error. */
  datatype ReadAnswer = Hit(value: Value) | Miss | ReadError(disabled: bool)

  /** What one load answers, and what it leaves in the store. */
  function LoadAnswer(read: ReadAnswer, loaded: Outcome): Outcome {
    if read.Hit? then Resolved(Some(read.value))
    else if read.ReadError? && read.disabled then Rejected(CapabilityDisabled)
    else loaded
  }

  predicate CallsLoader(read: ReadAnswer) {
    read.Miss? || (read.ReadError? && !read.disabled)
  }

  function LoadStore(store: map<Key, Value>, key: Key, read: ReadAnswer, loaded: Outcome, written: bool): map<Key, Value> {
    if written && CallsLoader(read) && loaded.Resolved? && loaded.value.Some? then store[key := loaded.value.value] else store
  }

  /** The in-flight map once a caller has asked for `key`. */
  function Asked(inflight: map<Key, nat>, key: Key, next: nat): map<Key, nat> {
    if key in inflight then inflight else inflight[key := next]
  }

  class CacheClient {
    var inflight: map<Key, nat>
    var store: map<Key, Value>

    constructor ()
      ensures inflight == map[] && store == map[]
    {
      inflight, store := map[], map[];
    }

    /** One load, with the answers it gets from the store and the loader. */
    method Load(key: Key, read: ReadAnswer, loaded: Outcome, written: bool) returns (outcome: Outcome)
      modifies `store
      ensures outcome == LoadAnswer(read, loaded)
      ensures store == LoadStore(old(store), key, read, loaded, written)
      ensures read.Hit? ==> outcome == Resolved(Some(read.value))
      ensures read.ReadError? && read.disabled ==> outcome == Rejected(CapabilityDisabled)
      ensures read.Miss? || (read.ReadError? && !read.disabled) ==> outcome == loaded
      ensures store == if (read.Miss? || (read.ReadError? && !read.disabled)) && written && loaded.Resolved? && loaded.value.Some?
                       then old(store)[key := loaded.value.value] else old(store)
    {
      if read.Hit? {
        return Resolved(Some(read.value));
      }
      if read.ReadError? && read.disabled {
        return Rejected(CapabilityDisabled);
      }
      if loaded.Rejected? {
        return loaded;
      }
      if loaded.value.Some? {
        // A failed write is logged; the value is returned all the same.
        if written {
          store := store[key := loaded.value.value];
        }
      }
      outcome := loaded;
    }

    /** The flight a caller of getOrLoad gets: the pending one, or `next`, which it starts. */
    method Join(key: Key, ttl: int, next: nat) returns (flight: Result<nat, Error>)
      modifies `inflight
      ensures ttl <= 0 ==> flight == Err(InvalidTtl) && inflight == old(inflight)
      ensures ttl > 0 ==> flight == Ok(if key in old(inflight) then old(inflight)[key] else next)
      ensures ttl > 0 ==> inflight == (if key in old(inflight) then old(inflight) else old(inflight)[key := next])
                          && inflight == Asked(old(inflight), key, next)
    {
      if ttl <= 0 {
        return Err(InvalidTtl);
      }
      if key in inflight {
        return Ok(inflight[key]);
      }
      inflight := inflight[key := next];
      flight := Ok(next);
    }

    method Finally(key: Key)
      modifies `inflight
      ensures inflight == old(inflight) - {key}
    {
      inflight := inflight - {key};
    }
  }

  // ------------------------------------------------------- Every interleaving

  datatype Stage = Reading | Loading | Writing(value: Value) | Done(outcome: Outcome) | Landed(outcome: Outcome)

  /** `loaded` is what the loader gave, once it was called and settled; history. */
  datatype Flight = Flight(key: Key, stage: Stage, loaded: Option<Outcome>)

  /** `joined` is the flight each caller was handed; `writes` the flights that wrote the store, in order. */
  datatype World = World(
    inflight: map<Key, nat>, flights: seq<Flight>, store: map<Key, Value>,
    joined: map<nat, nat>, answers: map<nat, Outcome>, writes: seq<nat>)

  datatype Event =
    | GetOrLoad(caller: nat, key: Key, ttl: int)
    | ReadAnswers(f: nat, answer: ReadAnswer)
    | LoaderSettles(f: nat, outcome: Outcome)
    | WriteSettles(f: nat, written: bool)
    | Finally(f: nat)
    | StoreChanges(key: Key, value: Option<Value>)

  predicate At(w: World, f: nat) {
    f < |w.flights|
  }

  predicate Running(w: World, f: nat) {
    f < |w.flights| && !w.flights[f].stage.Landed?
  }

  predicate Allowed(w: World, e: Event) {
    match e
    case GetOrLoad(caller, _, _) => caller !in w.joined && caller !in w.answers
    case ReadAnswers(f, answer) => At(w, f) && w.flights[f].stage.Reading?
    case LoaderSettles(f, outcome) => At(w, f) && w.flights[f].stage.Loading?
    case WriteSettles(f, _) => At(w, f) && w.flights[f].stage.Writing?
    case Finally(f) => At(w, f) && w.flights[f].stage.Done?
    case StoreChanges(_, _) => true
  }

  function SetStage(w: World, f: nat, stage: Stage): World {
    if f < |w.flights| then w.(flights := w.flights[f := w.flights[f].(stage := stage)]) else w
  }

  function AfterRead(answer: ReadAnswer): Stage {
    match answer
    case Hit(value) => Done(Resolved(Some(value)))
    case ReadError(disabled) => if disabled then Done(Rejected(CapabilityDisabled)) else Loading
    case Miss => Loading
  }

  function Next(w: World, e: Event): World {
    match e
    case GetOrLoad(caller, key, ttl) =>
      if ttl <= 0 then w.(answers := w.answers[caller := Rejected(InvalidTtl)])
      else if key in w.inflight then w.(joined := w.joined[caller := w.inflight[key]])
      else
        w.(inflight := Asked(w.inflight, key, |w.flights|), joined := w.joined[caller := |w.flights|],
           flights := w.flights + [Flight(key, Reading, None)])
    case ReadAnswers(f, answer) => SetStage(w, f, AfterRead(answer))
    case LoaderSettles(f, outcome) =>
      if f < |w.flights| then
        var stage := if outcome.Resolved? && outcome.value.Some? then Writing(outcome.value.value) else Done(outcome);
        w.(flights := w.flights[f := w.flights[f].(stage := stage, loaded := Some(outcome))])
      else w
    case WriteSettles(f, written) =>
      if f < |w.flights| && w.flights[f].stage.Writing? then
        var v := w.flights[f].stage.value;
        var w' := SetStage(w, f, Done(Resolved(Some(v))));
        if written then w'.(store := w.store[w.flights[f].key := v], writes := w.writes + [f]) else w'
      else w
    case Finally(f) =>
      if f < |w.flights| && w.flights[f].stage.Done? then
        var outcome := w.flights[f].stage.outcome;
        SetStage(w, f, Landed(outcome)).(
          inflight := w.inflight - {w.flights[f].key},
          answers := w.answers + map caller | caller in w.joined && w.joined[caller] == f :: outcome)
      else w
    case StoreChanges(key, value) =>
      w.(store := if value.Some? then w.store[key := value.value] else w.store - {key})
  }

  const EMPTY := World(map[], [], map[], map[], map[], [])

  predicate Legal(w: World, events: seq<Event>)
    decreases |events|
  {
    |events| == 0 || (Allowed(w, events[0]) && Legal(Next(w, events[0]), events[1..]))
  }

  function Run(w: World, events: seq<Event>): World
    decreases |events|
  {
    if |events| == 0 then w else Run(Next(w, events[0]), events[1..])
  }

  /** What a flight ends with is what the loader gave, if it was called; and only a value it gave was written. */
  predicate FlightOk(flight: Flight) {
    match flight.stage
    case Reading => flight.loaded.None?
    case Loading => flight.loaded.None?
    case Writing(v) => flight.loaded == Some(Resolved(Some(v)))
    case Done(outcome) => flight.loaded.Some? ==> flight.loaded.value == outcome
    case Landed(outcome) => flight.loaded.Some? ==> flight.loaded.value == outcome
  }

  predicate InflightOk(w: World) {
    forall key | key in w.inflight :: Running(w, w.inflight[key]) && w.flights[w.inflight[key]].key == key
  }

  predicate RunningOk(w: World) {
    forall f | 0 <= f < |w.flights| && !w.flights[f].stage.Landed? ::
      w.flights[f].key in w.inflight && w.inflight[w.flights[f].key] == f
  }

  predicate FlightsOk(w: World) {
    forall f | 0 <= f < |w.flights| :: FlightOk(w.flights[f])
  }

  predicate CallerOk(w: World, caller: nat)
    requires caller in w.joined
  {
    && w.joined[caller] < |w.flights|
    && (caller in w.answers <==> w.flights[w.joined[caller]].stage.Landed?)
    && (caller in w.answers ==> w.answers[caller] == w.flights[w.joined[caller]].stage.outcome)
  }

  predicate CallersOk(w: World) {
    forall caller | caller in w.joined :: CallerOk(w, caller)
  }

  predicate WritesOk(w: World) {
    forall f | f in w.writes :: WriteOk(w, f)
  }

  predicate Consistent(w: World) {
    InflightOk(w) && RunningOk(w) && FlightsOk(w) && CallersOk(w) && WritesOk(w)
  }

  /** One flight moves on without landing, and nothing else does. */
  predicate Progress(w: World, w': World, f: nat) {
    && f < |w.flights| == |w'.flights| && w'.inflight == w.inflight && w'.joined == w.joined && w'.answers == w.answers
    && w'.flights[f].key == w.flights[f].key && !w.flights[f].stage.Landed? && !w'.flights[f].stage.Landed?
    && forall g | 0 <= g < |w.flights| && g != f :: w'.flights[g] == w.flights[g]
  }

  lemma ProgressKeeps(w: World, w': World, f: nat)
    requires InflightOk(w) && RunningOk(w) && CallersOk(w) && Progress(w, w', f)
    ensures InflightOk(w') && RunningOk(w') && CallersOk(w')
  {
    forall key | key in w'.inflight
      ensures Running(w', w'.inflight[key]) && w'.flights[w'.inflight[key]].key == key
    {
      assert Running(w, w.inflight[key]);
    }
    forall caller | caller in w'.joined
      ensures CallerOk(w', caller)
    {
      assert CallerOk(w, caller);
    }
  }

  lemma ProgressIsEnough(w: World, e: Event)
    requires Allowed(w, e) && (e.ReadAnswers? || e.LoaderSettles? || e.WriteSettles?)
    ensures Progress(w, Next(w, e), e.f)
  {
  }

  lemma JoinKeeps(w: World, caller: nat, key: Key, ttl: int)
    requires InflightOk(w) && RunningOk(w) && CallersOk(w) && Allowed(w, GetOrLoad(caller, key, ttl))
    ensures var w' := Next(w, GetOrLoad(caller, key, ttl)); InflightOk(w') && RunningOk(w') && CallersOk(w')
  {
    JoinPlaces(w, caller, key, ttl);
    forall other | other in Next(w, GetOrLoad(caller, key, ttl)).joined
      ensures CallerOk(Next(w, GetOrLoad(caller, key, ttl)), other)
    {
      JoinedOk(w, caller, key, ttl, other);
    }
  }

  lemma JoinPlaces(w: World, caller: nat, key: Key, ttl: int)
    requires InflightOk(w) && RunningOk(w) && Allowed(w, GetOrLoad(caller, key, ttl))
    ensures var w' := Next(w, GetOrLoad(caller, key, ttl)); InflightOk(w') && RunningOk(w')
  {
  }

  /** The new caller waits for a running flight, and the others for theirs. */
  lemma JoinedOk(w: World, caller: nat, key: Key, ttl: int, other: nat)
    requires InflightOk(w) && CallersOk(w) && Allowed(w, GetOrLoad(caller, key, ttl))
    requires other in Next(w, GetOrLoad(caller, key, ttl)).joined
    ensures CallerOk(Next(w, GetOrLoad(caller, key, ttl)), other)
  {
    if other in w.joined {
      assert CallerOk(w, other);
    }
  }

  lemma LandingKeeps(w: World, f: nat)
    requires InflightOk(w) && RunningOk(w) && CallersOk(w) && Allowed(w, Finally(f))
    ensures var w' := Next(w, Finally(f)); InflightOk(w') && RunningOk(w') && CallersOk(w')
  {
    var w' := Next(w, Finally(f));
    assert w'.joined == w.joined && w'.flights[f].stage == Landed(w.flights[f].stage.outcome);
    forall key | key in w'.inflight
      ensures Running(w', w'.inflight[key]) && w'.flights[w'.inflight[key]].key == key
    {
      assert Running(w, w.inflight[key]) && w.inflight[key] != f;
    }
    forall caller | caller in w'.joined
      ensures CallerOk(w', caller)
    {
      LandingAnswers(w, f, caller);
    }
  }

  /** A landing answers exactly the callers that joined its flight. */
  lemma LandingAnswers(w: World, f: nat, caller: nat)
    requires Allowed(w, Finally(f)) && caller in w.joined && CallerOk(w, caller)
    ensures CallerOk(Next(w, Finally(f)), caller)
  {
  }

  lemma PlacesStayOk(w: World, e: Event)
    requires InflightOk(w) && RunningOk(w) && CallersOk(w) && Allowed(w, e)
    ensures var w' := Next(w, e); InflightOk(w') && RunningOk(w') && CallersOk(w')
  {
    match e
    case GetOrLoad(caller, key, ttl) => JoinKeeps(w, caller, key, ttl);
    case Finally(f) => LandingKeeps(w, f);
    case StoreChanges(_, _) =>
      forall caller | caller in w.joined
        ensures CallerOk(Next(w, e), caller)
      {
        assert CallerOk(w, caller);
      }
    case _ =>
      ProgressIsEnough(w, e);
      ProgressKeeps(w, Next(w, e), e.f);
  }

  /** What one event makes of one flight. */
  lemma FlightStaysOk(w: World, e: Event, f: nat)
    requires FlightsOk(w) && Allowed(w, e) && f < |Next(w, e).flights|
    ensures FlightOk(Next(w, e).flights[f])
  {
    if f < |w.flights| {
      assert FlightOk(w.flights[f]);
    }
  }

  lemma FlightsStayOk(w: World, e: Event)
    requires FlightsOk(w) && Allowed(w, e)
    ensures FlightsOk(Next(w, e))
  {
    forall f | 0 <= f < |Next(w, e).flights|
      ensures FlightOk(Next(w, e).flights[f])
    {
      FlightStaysOk(w, e, f);
    }
  }

  predicate WriteOk(w: World, f: nat) {
    && f < |w.flights|
    && w.flights[f].loaded.Some? && w.flights[f].loaded.value.Resolved? && w.flights[f].loaded.value.value.Some?
    && (w.flights[f].stage.Done? || w.flights[f].stage.Landed?)
  }

  lemma WriteStaysOk(w: World, e: Event, f: nat)
    requires Allowed(w, e) && WriteOk(w, f)
    ensures WriteOk(Next(w, e), f)
  {
  }

  lemma WritesStayOk(w: World, e: Event)
    requires FlightsOk(w) && WritesOk(w) && Allowed(w, e)
    ensures WritesOk(Next(w, e))
  {
    forall f | f in Next(w, e).writes
      ensures WriteOk(Next(w, e), f)
    {
      if f in w.writes {
        WriteStaysOk(w, e, f);
      } else {
        assert e.WriteSettles? && e.f == f && FlightOk(w.flights[f]);
      }
    }
  }

  lemma ConsistentStep(w: World, e: Event)
    requires Consistent(w) && Allowed(w, e)
    ensures Consistent(Next(w, e))
  {
    PlacesStayOk(w, e);
    FlightsStayOk(w, e);
    WritesStayOk(w, e);
  }

  lemma {:induction false} ConsistentRun(w: World, events: seq<Event>)
    requires Consistent(w) && Legal(w, events)
    ensures Consistent(Run(w, events))
    decreases |events|
  {
    if |events| > 0 {
      ConsistentStep(w, events[0]);
      ConsistentRun(Next(w, events[0]), events[1..]);
    }
  }

  /** The steps of one load, when nothing comes between them. */
  function LoadEvents(f: nat, read: ReadAnswer, loaded: Outcome, written: bool): seq<Event> {
    [ReadAnswers(f, read)]
    + (if CallsLoader(read) then [LoaderSettles(f, loaded)] else [])
    + if CallsLoader(read) && loaded.Resolved? && loaded.value.Some? then [WriteSettles(f, written)] else []
  }

  lemma RunTwo(w: World, a: Event, b: seq<Event>)
    ensures Legal(w, [a] + b) <==> Allowed(w, a) && Legal(Next(w, a), b)
    ensures Run(w, [a] + b) == Run(Next(w, a), b)
  {
    assert ([a] + b)[1..] == b;
  }

  /** The loader's settling, and the write if it gave a value. */
  lemma LoaderSteps(w: World, f: nat, loaded: Outcome, written: bool)
    requires f < |w.flights| && w.flights[f].stage.Loading?
    ensures var valued := loaded.Resolved? && loaded.value.Some?;
            var events := [LoaderSettles(f, loaded)] + if valued then [WriteSettles(f, written)] else [];
            && Legal(w, events)
            && f < |Run(w, events).flights| && Run(w, events).flights[f].stage == Done(loaded)
            && Run(w, events).store == if written && valued then w.store[w.flights[f].key := loaded.value.value] else w.store
  {
    var w1 := Next(w, LoaderSettles(f, loaded));
    if loaded.Resolved? && loaded.value.Some? {
      RunTwo(w, LoaderSettles(f, loaded), [WriteSettles(f, written)]);
      assert [WriteSettles(f, written)] == [WriteSettles(f, written)] + [];
      RunTwo(w1, WriteSettles(f, written), []);
    } else {
      RunTwo(w, LoaderSettles(f, loaded), []);
    }
  }

  /** The code of one load is its steps: same answer, same store. */
  lemma LoadIsItsSteps(w: World, f: nat, read: ReadAnswer, loaded: Outcome, written: bool)
    requires f < |w.flights| && w.flights[f].stage.Reading?
    ensures var events := LoadEvents(f, read, loaded, written);
            && Legal(w, events)
            && f < |Run(w, events).flights| && Run(w, events).flights[f].stage == Done(LoadAnswer(read, loaded))
            && Run(w, events).store == LoadStore(w.store, w.flights[f].key, read, loaded, written)
  {
    if CallsLoader(read) {
      var rest := [LoaderSettles(f, loaded)] + if loaded.Resolved? && loaded.value.Some? then [WriteSettles(f, written)] else [];
      assert LoadEvents(f, read, loaded, written) == [ReadAnswers(f, read)] + rest;
      RunTwo(w, ReadAnswers(f, read), rest);
      LoaderSteps(Next(w, ReadAnswers(f, read)), f, loaded, written);
    } else {
      assert LoadEvents(f, read, loaded, written) == [ReadAnswers(f, read)] + [];
      RunTwo(w, ReadAnswers(f, read), []);
    }
  }

  /** The in-flight map holds a key exactly while one load of it runs, so no two loads of a key overlap. */
  lemma OneLoadPerKey(events: seq<Event>)
    requires Legal(EMPTY, events)
    ensures var w := Run(EMPTY, events);
            && (forall key :: key in w.inflight <==> exists f: nat :: Running(w, f) && w.flights[f].key == key)
            && (forall f: nat, g: nat | Running(w, f) && Running(w, g) && w.flights[f].key == w.flights[g].key :: f == g)
  {
    ConsistentRun(EMPTY, events);
    var w := Run(EMPTY, events);
    forall key | key in w.inflight
      ensures exists f: nat :: Running(w, f) && w.flights[f].key == key
    {
      assert Running(w, w.inflight[key]);
    }
  }

  /** Callers that joined the same load are answered together and alike. */
  lemma JoinedCallersAgree(events: seq<Event>, caller: nat, other: nat)
    requires Legal(EMPTY, events)
    requires var w := Run(EMPTY, events);
             caller in w.joined && other in w.joined && w.joined[caller] == w.joined[other]
    ensures var w := Run(EMPTY, events);
            && (caller in w.answers <==> other in w.answers)
            && (caller in w.answers ==> w.answers[caller] == w.answers[other])
  {
    ConsistentRun(EMPTY, events);
    assert CallerOk(Run(EMPTY, events), caller) && CallerOk(Run(EMPTY, events), other);
  }

  /** Whatever the store answered, a caller whose load ran the loader gets what the loader gave. */
  lemma StoreNeverChangesTheValue(events: seq<Event>, caller: nat)
    requires Legal(EMPTY, events)
    requires var w := Run(EMPTY, events); caller in w.joined && caller in w.answers
    ensures var w := Run(EMPTY, events);
            w.joined[caller] < |w.flights|
            && (w.flights[w.joined[caller]].loaded.Some? ==> w.answers[caller] == w.flights[w.joined[caller]].loaded.value)
  {
    ConsistentRun(EMPTY, events);
    assert CallerOk(Run(EMPTY, events), caller);
  }

  /** A load that rejects, or resolves to nothing, writes nothing. */
  lemma RejectedLoadStoresNothing(events: seq<Event>, f: nat)
    requires Legal(EMPTY, events)
    requires var w := Run(EMPTY, events);
             f < |w.flights| && w.flights[f].loaded.Some?
             && (w.flights[f].loaded.value.Rejected? || w.flights[f].loaded.value.value.None?)
    ensures f !in Run(EMPTY, events).writes
  {
    ConsistentRun(EMPTY, events);
    assert !WriteOk(Run(EMPTY, events), f);
  }

  /** A caller with a bad TTL is answered at once; any other joins the load of its key, which it starts if there is none. */
  lemma CallExactly(w: World, caller: nat, key: Key, ttl: int)
    ensures var w' := Next(w, GetOrLoad(caller, key, ttl));
            && (ttl <= 0 ==> w' == w.(answers := w.answers[caller := Rejected(InvalidTtl)]))
            && (ttl > 0 && key in w.inflight ==> w' == w.(joined := w.joined[caller := w.inflight[key]]))
            && (ttl > 0 && key !in w.inflight ==>
                  && w'.inflight == w.inflight[key := |w.flights|] && w'.joined == w.joined[caller := |w.flights|]
                  && w'.flights == w.flights + [Flight(key, Reading, None)] && w'.store == w.store && w'.answers == w.answers)
  {
  }
}
