/**
 * What claim / work / extend-or-release gives a consumer: the effects of an
 * event happen once per seen window, exactly under its scheduling condition.
 */
module ConsumerOnce {
  import opened Wrappers
  import opened ConsumerProtocol
  import opened ConsumerDelivery

  /** The later claim comes at least the seen window after the earlier success. */
  predicate Apart(earlier: Work, later: Work, ttl: nat) {
    earlier.doneAt + ttl <= later.claimedAt
  }

  /** The earlier work was extended, and the whole window counted from there. */
  predicate ApartSinceExtend(earlier: Work, later: Work, ttl: nat) {
    && earlier.extendedAt.Some?
    && earlier.doneAt <= earlier.extendedAt.value
    && earlier.extendedAt.value + ttl <= later.claimedAt
  }

  predicate OncePerWindow(works: seq<Work>, ttl: nat) {
    forall i, j | 0 <= i < j < |works| :: Apart(works[i], works[j], ttl)
  }

  predicate OnceSinceExtend(works: seq<Work>, ttl: nat) {
    forall i, j | 0 <= i < j < |works| :: ApartSinceExtend(works[i], works[j], ttl)
  }

  /** Work that succeeds ends and is extended before its claim expires. */
  predicate Prompt(h: Handling) {
    h.work + h.settle < CLAIM_TTL_MS && h.reaches && h.survives
  }

  /** Or the claim alone outlasts the window, whatever becomes of the extend. */
  predicate OnceEnough(h: Handling) {
    Prompt(h) || (0 < h.seenTtl && h.work + h.seenTtl <= CLAIM_TTL_MS)
  }

  /** The end of a work's window: from its extend, or without one from its success. */
  function WindowEnd(h: Handling, w: Work): nat {
    (if w.extendedAt.Some? then w.extendedAt.value else w.doneAt) + h.seenTtl
  }

  predicate Over(h: Handling, w: Work, at: nat) {
    (Prompt(h) ==> w.extendedAt.Some?) && WindowEnd(h, w) <= at
  }

  /** A success keeps its claim until it is extended, or its window is guarded by the marker or over. */
  predicate WorkSettled(h: Handling, b: Inbox, now: nat, w: Work) {
    && w.owner < |b.attempts|
    && w.claimedAt <= w.doneAt <= now
    && var stage := b.attempts[w.owner].stage;
       && !stage.Received? && !stage.Working? && !stage.Thrown?
       && (stage.Succeeded? ==> w.extendedAt.None? && stage == Succeeded(w.claimedAt, w.doneAt))
       && (w.extendedAt.Some? ==> w.doneAt <= w.extendedAt.value)
       && (Prompt(h) && w.extendedAt.None? ==> stage.Succeeded?)
       && ((Prompt(h) && w.extendedAt.None?)
           || WindowEnd(h, w) <= now || (b.marker.Some? && WindowEnd(h, w) <= b.marker.value.expiresAt))
  }

  /**
   * An attempt still inside its claim owns the marker, and claimed after every
   * window before it. One that has not succeeded may outlive its claim.
   */
  predicate Owning(h: Handling, b: Inbox, now: nat, x: nat) {
    && x < |b.attempts|
    && var stage := b.attempts[x].stage;
       (stage.Claiming() ==>
          && stage.claimedAt <= now
          && (now < stage.claimedAt + CLAIM_TTL_MS ==>
                && b.marker == Some(Marker(x, stage.claimedAt + CLAIM_TTL_MS))
                && forall i | 0 <= i < |b.works| && b.works[i].owner != x :: Over(h, b.works[i], stage.claimedAt))
          && (b.marker.Some? && b.marker.value.owner == x ==> b.marker.value.expiresAt == stage.claimedAt + CLAIM_TTL_MS)
          && (stage.Succeeded? ==> stage.doneAt <= stage.claimedAt + h.work && now <= stage.doneAt + h.settle))
  }

  predicate InOrder(h: Handling, works: seq<Work>) {
    forall i, j | 0 <= i < j < |works| :: Over(h, works[i], works[j].claimedAt)
  }

  predicate Windowed(h: Handling, b: Inbox, now: nat) {
    && InOrder(h, b.works)
    && (forall i | 0 <= i < |b.works| :: WorkSettled(h, b, now, b.works[i]))
    && (forall x | 0 <= x < |b.attempts| :: Owning(h, b, now, x))
  }

  /** Once nobody's marker is live, every window so far has passed. */
  lemma WindowsPassed(h: Handling, b: Inbox, now: nat)
    requires OnceEnough(h) && Windowed(h, b, now) && !Live(b, now)
    ensures forall i | 0 <= i < |b.works| :: Over(h, b.works[i], now)
  {
    forall i | 0 <= i < |b.works|
      ensures Over(h, b.works[i], now)
    {
      assert WorkSettled(h, b, now, b.works[i]) && Owning(h, b, now, b.works[i].owner);
    }
  }

  /** A claim that is made finds every window passed and nobody inside a claim of its own. */
  lemma OwningAfterClaim(h: Handling, b: Inbox, now: nat, a: Action, x: nat)
    requires OnceEnough(h) && Enabled(h, b, now, a) && Windowed(h, b, now) && (a.Claim? || a.ClaimError?)
    requires x < |Apply(h, b, now, a).attempts|
    ensures Owning(h, Apply(h, b, now, a), now, x)
  {
    assert Owning(h, b, now, x);
    if !Live(b, now) {
      WindowsPassed(h, b, now);
    }
  }

  /** An extend touches the work of the attempt that owns the marker, whose claim no other attempt is inside. */
  lemma OwningAfterExtend(h: Handling, b: Inbox, now: nat, a: Action, x: nat)
    requires OnceEnough(h) && Enabled(h, b, now, a) && Windowed(h, b, now) && a.Extend?
    requires x < |Apply(h, b, now, a).attempts|
    ensures Owning(h, Apply(h, b, now, a), now, x)
  {
    assert Owning(h, b, now, x) && Owning(h, b, now, a.x);
  }

  /** Work, success and failure leave the marker alone; a success is the attempt's own. */
  lemma OwningAfterWork(h: Handling, b: Inbox, now: nat, a: Action, x: nat)
    requires OnceEnough(h) && Enabled(h, b, now, a) && Windowed(h, b, now) && (a.Finish? || a.Throw? || a.Release?)
    requires x < |Apply(h, b, now, a).attempts|
    ensures Owning(h, Apply(h, b, now, a), now, x)
  {
    assert Owning(h, b, now, x) && Owning(h, b, now, a.x);
  }

  lemma OwningStep(h: Handling, b: Inbox, now: nat, a: Action, x: nat)
    requires OnceEnough(h) && Enabled(h, b, now, a) && Windowed(h, b, now)
    requires x < |Apply(h, b, now, a).attempts|
    ensures Owning(h, Apply(h, b, now, a), now, x)
  {
    if a.Claim? || a.ClaimError? {
      OwningAfterClaim(h, b, now, a, x);
    } else if a.Extend? {
      OwningAfterExtend(h, b, now, a, x);
    } else if a.Finish? || a.Throw? || a.Release? {
      OwningAfterWork(h, b, now, a, x);
    } else if x < |b.attempts| {
      assert Owning(h, b, now, x);
    }
  }

  /** No work comes after that of an attempt still inside its claim. */
  lemma LastInsideClaim(h: Handling, b: Inbox, now: nat, x: nat, i: nat, j: nat)
    requires OnceEnough(h) && Windowed(h, b, now) && i < |b.works| && j < |b.works| && b.works[i].owner == x
    requires x < |b.attempts| && b.attempts[x].stage.Succeeded? && now < b.attempts[x].stage.claimedAt + CLAIM_TTL_MS
    ensures j <= i
  {
    assert WorkSettled(h, b, now, b.works[i]) && WorkSettled(h, b, now, b.works[j]) && Owning(h, b, now, x);
    assert i < j ==> Over(h, b.works[i], b.works[j].claimedAt);
  }

  lemma InOrderStep(h: Handling, b: Inbox, now: nat, a: Action)
    requires OnceEnough(h) && Enabled(h, b, now, a) && Windowed(h, b, now)
    ensures InOrder(h, Apply(h, b, now, a).works)
  {
    var works := Apply(h, b, now, a).works;
    if a.Finish? || a.Extend? {
      assert Owning(h, b, now, a.x);
    }
    forall i, j | 0 <= i < j < |works|
      ensures Over(h, works[i], works[j].claimedAt)
    {
      if a.Extend? && works != b.works && b.works[i].owner == a.x {
        LastInsideClaim(h, b, now, a.x, i, j);
      } else if j < |b.works| {
        assert Over(h, b.works[i], b.works[j].claimedAt);
      } else {
        assert WorkSettled(h, b, now, b.works[i]);
      }
    }
  }

  /** A claim that is made only replaces a marker no window needs. */
  lemma SettledAfterClaim(h: Handling, b: Inbox, now: nat, a: Action, i: nat)
    requires OnceEnough(h) && Enabled(h, b, now, a) && Windowed(h, b, now) && i < |b.works| && (a.Claim? || a.ClaimError?)
    ensures var b' := Apply(h, b, now, a); b'.works == b.works && WorkSettled(h, b', now, b'.works[i])
  {
    assert WorkSettled(h, b, now, b.works[i]);
    if !Live(b, now) {
      WindowsPassed(h, b, now);
    }
  }

  /** An extend or a release of a live marker comes from inside its claim, after every other window. */
  lemma SettledAfterSettling(h: Handling, b: Inbox, now: nat, a: Action, i: nat)
    requires OnceEnough(h) && Enabled(h, b, now, a) && Windowed(h, b, now) && i < |b.works| && (a.Extend? || a.Release?)
    ensures var b' := Apply(h, b, now, a); i < |b'.works| && WorkSettled(h, b', now, b'.works[i])
  {
    assert WorkSettled(h, b, now, b.works[i]) && Owning(h, b, now, a.x);
  }

  lemma WorkStaysSettled(h: Handling, b: Inbox, now: nat, a: Action, i: nat)
    requires OnceEnough(h) && Enabled(h, b, now, a) && Windowed(h, b, now) && i < |b.works|
    ensures var b' := Apply(h, b, now, a); i < |b'.works| && WorkSettled(h, b', now, b'.works[i])
  {
    if a.Claim? || a.ClaimError? {
      SettledAfterClaim(h, b, now, a, i);
    } else if a.Extend? || a.Release? {
      SettledAfterSettling(h, b, now, a, i);
    } else {
      assert WorkSettled(h, b, now, b.works[i]);
    }
  }

  /** A success inside its claim: the claim guards its window, or its extend will. */
  lemma NewWorkSettled(h: Handling, b: Inbox, now: nat, x: nat)
    requires OnceEnough(h) && Enabled(h, b, now, Finish(x)) && Windowed(h, b, now)
    ensures var b' := Apply(h, b, now, Finish(x));
            |b'.works| == |b.works| + 1 && WorkSettled(h, b', now, b'.works[|b.works|])
  {
    assert Owning(h, b, now, x);
  }

  lemma WindowedStep(h: Handling, s: State, e: Event)
    requires OnceEnough(h) && Allowed(h, s, e) && Windowed(h, s.b, s.now)
    ensures Windowed(h, Next(h, s, e).b, Next(h, s, e).now)
  {
    var b', now' := Next(h, s, e).b, Next(h, s, e).now;
    if e.Do? {
      InOrderStep(h, s.b, s.now, e.a);
      forall i | 0 <= i < |b'.works|
        ensures WorkSettled(h, b', now', b'.works[i])
      {
        if i < |s.b.works| {
          WorkStaysSettled(h, s.b, s.now, e.a, i);
        } else {
          NewWorkSettled(h, s.b, s.now, e.a.x);
        }
      }
      forall x | 0 <= x < |b'.attempts|
        ensures Owning(h, b', now', x)
      {
        OwningStep(h, s.b, s.now, e.a, x);
      }
    } else {
      forall x | 0 <= x < |b'.attempts|
        ensures Owning(h, b', now', x)
      {
        assert Owning(h, s.b, s.now, x) && Patient(h, s.b.attempts[x], now');
      }
      forall i | 0 <= i < |b'.works|
        ensures WorkSettled(h, b', now', b'.works[i])
      {
        assert WorkSettled(h, s.b, s.now, s.b.works[i]);
      }
    }
  }

  lemma {:induction false} WindowedRun(h: Handling, s: State, events: seq<Event>)
    requires OnceEnough(h) && Legal(h, s, events) && Windowed(h, s.b, s.now)
    ensures Windowed(h, Run(h, s, events).b, Run(h, s, events).now)
    decreases |events|
  {
    if |events| > 0 {
      WindowedStep(h, s, events[0]);
      WindowedRun(h, Next(h, s, events[0]), events[1..]);
    }
  }

  lemma AlwaysWindowed(h: Handling, s: State)
    requires OnceEnough(h) && Reachable(h, s)
    ensures Windowed(h, s.b, s.now)
  {
    var events :| Legal(h, START, events) && Run(h, START, events) == s;
    WindowedRun(h, START, events);
  }

  lemma EffectsOnce(h: Handling, s: State)
    requires OnceEnough(h) && Reachable(h, s)
    ensures OncePerWindow(s.b.works, h.seenTtl)
    ensures Prompt(h) ==> OnceSinceExtend(s.b.works, h.seenTtl)
  {
    AlwaysWindowed(h, s);
    var works := s.b.works;
    forall i, j | 0 <= i < j < |works|
      ensures Apart(works[i], works[j], h.seenTtl)
      ensures Prompt(h) ==> ApartSinceExtend(works[i], works[j], h.seenTtl)
    {
      assert Over(h, works[i], works[j].claimedAt) && WorkSettled(h, s.b, s.now, works[i]);
    }
  }

  /** A second success comes at least one seen window after the first. */
  lemma SecondWorkIsLater(h: Handling, s: State)
    requires OnceEnough(h) && Reachable(h, s) && |s.b.works| > 1
    ensures s.b.works[0].doneAt + h.seenTtl <= s.now
  {
    AlwaysWindowed(h, s);
    EffectsOnce(h, s);
    assert WorkSettled(h, s.b, s.now, s.b.works[1]);
    assert Apart(s.b.works[0], s.b.works[1], h.seenTtl);
  }

  // ------------------------------------------------------------ The converse

  /** Attempt 0 succeeded, its work was not extended and its claim is over; another message of the event is handled. */
  lemma HandledAgain(h: Handling, s: State) returns (s': State)
    requires Reachable(h, s) && !Live(s.b, s.now) && |s.b.messages| == 1 && |s.b.attempts| == 1
    requires |s.b.works| == 1 && s.b.works[0].extendedAt.None? && s.b.works[0].owner == 0
    ensures Reachable(h, s') && !OnceSinceExtend(s'.b.works, h.seenTtl)
    ensures s.now < s.b.works[0].doneAt + h.seenTtl ==> !OncePerWindow(s'.b.works, h.seenTtl)
  {
    var s1 := Step(h, s, Do(Arrive));
    var s2 := Step(h, s1, Do(Deliver(1)));
    var s3 := Step(h, s2, Do(Claim(1)));
    assert s3.b.attempts[1].stage == Working(s.now);
    s' := Step(h, s3, Do(Finish(1)));
    var works := s'.b.works;
    assert |works| == 2 && works[0] == s.b.works[0] && works[1] == Work(1, s.now, s.now, None);
    assert !ApartSinceExtend(works[0], works[1], h.seenTtl);
    assert Apart(works[0], works[1], h.seenTtl) <==> works[0].doneAt + h.seenTtl <= s.now;
  }

  /** Attempt 0 claimed at time 0 and succeeded as late as it may inside its claim. */
  lemma FirstWork(h: Handling) returns (s: State, work: nat)
    ensures work == if h.work < CLAIM_TTL_MS then h.work else CLAIM_TTL_MS
    ensures Reachable(h, s)
    ensures s == State(work, Inbox([Outstanding(0, 0, 0)], [Attempt(0, 0, 0, Succeeded(0, work))],
                                   Some(Marker(0, CLAIM_TTL_MS)), [Work(0, 0, work, None)]))
  {
    work := if h.work < CLAIM_TTL_MS then h.work else CLAIM_TTL_MS;
    var s0 := FirstClaim(h, 0);
    var s1 := Step(h, s0, Tick(work));
    s := Step(h, s1, Do(Finish(0)));
    assert s.b.attempts == [Attempt(0, 0, 0, Succeeded(0, work))] && s.b.works == [Work(0, 0, work, None)];
  }

  /** The window would outlast a claim nobody extends. */
  predicate OutlastsClaim(h: Handling) {
    0 < h.seenTtl && CLAIM_TTL_MS < h.work + h.seenTtl
  }

  /** An extend that never reached the store lets the next message of the event be handled again. */
  lemma LostExtendRepeats(h: Handling) returns (s: State)
    requires !h.reaches
    ensures Reachable(h, s) && !OnceSinceExtend(s.b.works, h.seenTtl)
    ensures OutlastsClaim(h) ==> !OncePerWindow(s.b.works, h.seenTtl)
  {
    var s0, work := FirstWork(h);
    var s1 := Step(h, s0, Do(Extend(0, false)));
    assert s1.b.works == [Work(0, 0, work, None)] && s1.b.attempts == [Attempt(0, 0, 0, Handled)];
    var s2 := Step(h, s1, Tick(CLAIM_TTL_MS - work));
    s := HandledAgain(h, s2);
  }

  /** So does a crash between the success and the extend. */
  lemma CrashAfterSuccessRepeats(h: Handling) returns (s: State)
    requires !h.survives
    ensures Reachable(h, s) && !OnceSinceExtend(s.b.works, h.seenTtl)
    ensures OutlastsClaim(h) ==> !OncePerWindow(s.b.works, h.seenTtl)
  {
    var s0, work := FirstWork(h);
    var s1 := Step(h, s0, Do(Crash(0)));
    assert s1.b.works == [Work(0, 0, work, None)] && s1.b.attempts == [Attempt(0, 0, 0, Gone)];
    var s2 := Step(h, s1, Tick(CLAIM_TTL_MS - work));
    s := HandledAgain(h, s2);
  }

  /** And work whose extend may come as late as its claim's end. */
  lemma LateExtendRepeats(h: Handling) returns (s: State)
    requires CLAIM_TTL_MS <= h.work + h.settle
    ensures Reachable(h, s) && !OnceSinceExtend(s.b.works, h.seenTtl)
    ensures OutlastsClaim(h) ==> !OncePerWindow(s.b.works, h.seenTtl)
  {
    var s0, work := FirstWork(h);
    var s1 := Step(h, s0, Tick(CLAIM_TTL_MS - work));
    s := HandledAgain(h, s1);
  }

  lemma NotPromptRepeats(h: Handling) returns (s: State)
    requires !Prompt(h)
    ensures Reachable(h, s) && !OnceSinceExtend(s.b.works, h.seenTtl)
    ensures OutlastsClaim(h) ==> !OncePerWindow(s.b.works, h.seenTtl)
  {
    if !h.reaches {
      s := LostExtendRepeats(h);
    } else if !h.survives {
      s := CrashAfterSuccessRepeats(h);
    } else {
      s := LateExtendRepeats(h);
    }
  }

  /**
   * Effects are a seen window apart in every run exactly when work that succeeds
   * is extended before its 30 s claim ends, extends reach the store and no
   * attempt crashes in between, or else the claim alone outlasts the window.
   * Attempts that fail may take any time.
   */
  lemma OnceExactly(h: Handling)
    requires h.seenTtl > 0
    ensures (forall s | Reachable(h, s) :: OncePerWindow(s.b.works, h.seenTtl)) <==>
            (h.work + h.settle < CLAIM_TTL_MS && h.reaches && h.survives) || h.work + h.seenTtl <= CLAIM_TTL_MS
  {
    if OnceEnough(h) {
      forall s | Reachable(h, s)
        ensures OncePerWindow(s.b.works, h.seenTtl)
      {
        EffectsOnce(h, s);
      }
    } else {
      var s := NotPromptRepeats(h);
    }
  }

  /** The window counts from the extend in every run exactly when attempts are prompt. */
  lemma OnceSinceExtendExactly(h: Handling)
    ensures (forall s | Reachable(h, s) :: OnceSinceExtend(s.b.works, h.seenTtl)) <==>
            h.work + h.settle < CLAIM_TTL_MS && h.reaches && h.survives
  {
    if Prompt(h) {
      forall s | Reachable(h, s)
        ensures OnceSinceExtend(s.b.works, h.seenTtl)
      {
        EffectsOnce(h, s);
      }
    } else {
      var s := NotPromptRepeats(h);
    }
  }

  /** For the default window of a day no claim is long enough: attempts must be prompt. */
  lemma OnceADayExactly(h: Handling)
    requires h.seenTtl == SEEN_TTL_MS
    ensures SEEN_TTL_MS == 24 * 60 * 60 * 1_000
    ensures (forall s | Reachable(h, s) :: OncePerWindow(s.b.works, h.seenTtl)) <==> Prompt(h)
  {
    OnceExactly(h);
  }
}
