/**
 * Attempts and backoff. When every mark lands while its session still holds
 * the lease, `attempts` counts the recorded failures exactly, and the backoff
 * after each of them is kept.
 */
module OutboxBudget {
  import opened Wrappers
  import opened OutboxRows
  import opened OutboxProtocol
  import opened OutboxInvariants
  import opened OutboxLease

  /** Renew, publish and mark all fit in one lease, heartbeats or not. */
  predicate MarksInLease(c: Timing) {
    c.begin + PUBLISH_TIMEOUT_MS + c.mark < LEASE_TTL_MS
  }

  predicate Counted(g: Aggregate) {
    |g.failures| == |g.rows| && forall r | 0 <= r < |g.rows| :: |g.failures[r]| == g.rows[r].attempts
  }

  /** Failure j + 2 was recorded no earlier than the backoff after failure j + 1. */
  predicate Spaced(f: seq<nat>) {
    forall j | 0 <= j < |f| - 1 :: f[j] + Backoff(j + 1) <= f[j + 1]
  }

  predicate Backed(row: Row, f: seq<nat>) {
    row.status == FAILED ==> |f| > 0 && row.nextAttemptAt == Some(f[|f| - 1] + Backoff(|f|))
  }

  /** The copy a named session works from is the row as it stands, unless it found it DEAD. */
  predicate Current(g: Aggregate, now: nat, s: Stage) {
    s.HasRow() && Markable(s.seen) ==>
      && s.row < |g.rows| && g.rows[s.row] == s.seen
      && (s.Found? || IsDue(s.seen, now))
      && (s.Rejected? ==> IsDue(s.seen, s.settledAt))
  }

  predicate Accounted(g: Aggregate, now: nat) {
    && Counted(g)
    && (forall r | 0 <= r < |g.rows| :: Spaced(g.failures[r]) && Backed(g.rows[r], g.failures[r]))
    && (forall k | k in g.sessions && Named(g, k) :: Current(g, now, g.sessions[k]))
  }

  lemma MarkerNamed(c: Timing, g: Aggregate, now: nat, k: nat)
    requires MarksInLease(c) && AllOnTime(c, g, now)
    requires k in g.sessions && g.sessions[k].IsRenewed()
    ensures Named(g, k)
  {
    assert OnTime(c, g, now, k, g.sessions[k]);
  }

  lemma MarkFailedAccounted(c: Timing, g: Aggregate, now: nat, k: nat, written: bool, time: nat)
    requires MarksInLease(c) && AllOnTime(c, g, now)
    requires Sound(g) && Accounted(g, now) && Enabled(c, g, now, MarkFailed(k, written, time))
    ensures Counted(Apply(g, now, MarkFailed(k, written, time)))
    ensures var g' := Apply(g, now, MarkFailed(k, written, time));
            forall r | 0 <= r < |g'.rows| :: Spaced(g'.failures[r]) && Backed(g'.rows[r], g'.failures[r])
  {
    MarkerNamed(c, g, now, k);
    var r := g.sessions[k].row;
    var g' := Apply(g, now, MarkFailed(k, written, time));
    assert Current(g, now, g.sessions[k]);
    var f := g.failures[r];
    assert Spaced(f + [time]) by {
      assert Spaced(f) && Backed(g.rows[r], f);
      forall j | 0 <= j < |f|
        ensures (f + [time])[j] + Backoff(j + 1) <= (f + [time])[j + 1]
      {
        if j < |f| - 1 {
          assert f[j] + Backoff(j + 1) <= f[j + 1];
        }
      }
    }
  }

  lemma RowsStayAccounted(c: Timing, g: Aggregate, now: nat, a: Action)
    requires MarksInLease(c) && AllOnTime(c, g, now)
    requires Sound(g) && Accounted(g, now) && Enabled(c, g, now, a)
    ensures Counted(Apply(g, now, a))
    ensures var g' := Apply(g, now, a);
            forall r | 0 <= r < |g'.rows| :: Spaced(g'.failures[r]) && Backed(g'.rows[r], g'.failures[r])
  {
    if Quiet(a) {
      QuietFrame(g, now, a);
    } else if a.MarkFailed? {
      MarkFailedAccounted(c, g, now, a.k, a.written, a.time);
    } else if a.Redrive? || a.Skip? {
      OperatorAccounted(g, now, a);
    }
  }

  /** A redriven row starts a new count; a skipped one keeps its own. */
  lemma OperatorAccounted(g: Aggregate, now: nat, a: Action)
    requires Accounted(g, now) && (a.Redrive? || a.Skip?)
    ensures Counted(Apply(g, now, a))
    ensures var g' := Apply(g, now, a);
            forall r | 0 <= r < |g'.rows| :: Spaced(g'.failures[r]) && Backed(g'.rows[r], g'.failures[r])
  {
    var g' := Apply(g, now, a);
    forall r | 0 <= r < |g'.rows|
      ensures |g'.failures[r]| == g'.rows[r].attempts && Spaced(g'.failures[r]) && Backed(g'.rows[r], g'.failures[r])
    {
      assert |g.failures[r]| == g.rows[r].attempts && Spaced(g.failures[r]) && Backed(g.rows[r], g.failures[r]);
    }
  }

  /** No other step changes the row a named session works on. */
  lemma CurrentStays(c: Timing, g: Aggregate, now: nat, a: Action, k: nat)
    requires MarksInLease(c) && AllOnTime(c, g, now)
    requires Sound(g) && Accounted(g, now) && Enabled(c, g, now, a)
    requires k in g.sessions && Named(g, k) && Actor(g, a) != Some(k)
    ensures Current(Apply(g, now, a), now, g.sessions[k])
  {
    assert Current(g, now, g.sessions[k]);
    if Quiet(a) {
      QuietFrame(g, now, a);
    } else if a.MarkDispatched? || a.MarkFailed? {
      MarkerNamed(c, g, now, a.k);
    }
  }

  /** The actor's own copy: read just now, judged just now, or as it was. */
  lemma ActorCurrent(c: Timing, g: Aggregate, now: nat, a: Action, k: nat)
    requires Sound(g) && Accounted(g, now) && Enabled(c, g, now, a)
    requires k in g.sessions && Named(g, k) && Actor(g, a) == Some(k) && k in Apply(g, now, a).sessions
    ensures Current(Apply(g, now, a), now, Apply(g, now, a).sessions[k])
  {
    if Takes(a) {
      TakerCurrent(c, g, now, a, k);
    } else if Publishes(a) {
      PublisherCurrent(c, g, now, a, k);
    } else {
      SettlerHasNoRow(c, g, now, a, k);
    }
  }

  lemma TakerCurrent(c: Timing, g: Aggregate, now: nat, a: Action, k: nat)
    requires Accounted(g, now) && Enabled(c, g, now, a) && Takes(a)
    requires k in g.sessions && Named(g, k) && Actor(g, a) == Some(k) && k in Apply(g, now, a).sessions
    ensures Current(Apply(g, now, a), now, Apply(g, now, a).sessions[k])
  {
    assert Current(g, now, g.sessions[k]);
  }

  lemma PublisherCurrent(c: Timing, g: Aggregate, now: nat, a: Action, k: nat)
    requires Accounted(g, now) && Enabled(c, g, now, a) && Publishes(a)
    requires k in g.sessions && Named(g, k) && Actor(g, a) == Some(k) && k in Apply(g, now, a).sessions
    ensures Current(Apply(g, now, a), now, Apply(g, now, a).sessions[k])
  {
    assert Current(g, now, g.sessions[k]);
  }

  lemma SettlerHasNoRow(c: Timing, g: Aggregate, now: nat, a: Action, k: nat)
    requires Enabled(c, g, now, a) && Settles(a) && Actor(g, a) == Some(k) && k in Apply(g, now, a).sessions
    ensures !Apply(g, now, a).sessions[k].HasRow()
  {
  }

  lemma CurrentAfter(c: Timing, g: Aggregate, now: nat, a: Action, k: nat)
    requires MarksInLease(c) && AllOnTime(c, g, now)
    requires Sound(g) && Accounted(g, now) && Enabled(c, g, now, a)
    requires k in Apply(g, now, a).sessions && Named(Apply(g, now, a), k)
    ensures Current(Apply(g, now, a), now, Apply(g, now, a).sessions[k])
  {
    NamedStays(c, g, now, a, k);
    if Actor(g, a) != Some(k) {
      OthersStay(c, g, now, a);
      CurrentStays(c, g, now, a, k);
    } else if k in g.sessions {
      assert k < g.nextToken;
      ActorCurrent(c, g, now, a, k);
    }
  }

  lemma AccountedStep(c: Timing, s: State, e: Event)
    requires MarksInLease(c) && Allowed(c, s, e)
    requires Sound(s.g) && AllOnTime(c, s.g, s.now) && Accounted(s.g, s.now)
    ensures Accounted(Next(s, e).g, Next(s, e).now)
  {
    var g, g' := s.g, Next(s, e).g;
    if e.Do? {
      RowsStayAccounted(c, g, s.now, e.a);
      forall k | k in g'.sessions && Named(g', k)
        ensures Current(g', s.now, g'.sessions[k])
      {
        CurrentAfter(c, g, s.now, e.a, k);
      }
    } else {
      forall k | k in g'.sessions && Named(g', k)
        ensures Current(g', s.now + e.ms, g'.sessions[k])
      {
        assert Current(g, s.now, g.sessions[k]);
      }
    }
  }

  lemma {:induction false} AccountedRun(c: Timing, s: State, events: seq<Event>)
    requires MarksInLease(c) && Legal(c, s, events)
    requires Sound(s.g) && AllOnTime(c, s.g, s.now) && Accounted(s.g, s.now)
    ensures Accounted(Run(s, events).g, Run(s, events).now)
    decreases |events|
  {
    if |events| > 0 {
      SoundStep(c, s, events[0]);
      OnTimeStep(c, s, events[0]);
      AccountedStep(c, s, events[0]);
      AccountedRun(c, Next(s, events[0]), events[1..]);
    }
  }

  lemma AlwaysAccounted(c: Timing, s: State)
    requires MarksInLease(c) && Reachable(c, s)
    ensures Sound(s.g) && AllOnTime(c, s.g, s.now) && Accounted(s.g, s.now)
  {
    AlwaysSound(c, s);
    AlwaysOnTime(c, s);
    var events :| Legal(c, START, events) && Run(START, events) == s;
    AccountedRun(c, START, events);
  }

  /**
   * Between its write or last redrive and DEAD a row records at most five
   * failures, DEAD exactly at the fifth, at least 75 s after the first.
   */
  lemma AttemptBudget(c: Timing, s: State, r: nat)
    requires MarksInLease(c) && Reachable(c, s) && r < |s.g.rows|
    ensures |s.g.failures| == |s.g.rows|
    ensures var f := s.g.failures[r];
            && |f| <= MAX_ATTEMPTS
            && (Open(s.g.rows[r]) ==> (s.g.rows[r].status == DEAD <==> |f| == MAX_ATTEMPTS))
            && (s.g.rows[r].status == FAILED ==> 1 <= |f| < MAX_ATTEMPTS)
            && (|f| == MAX_ATTEMPTS ==> f[0] + 75_000 <= f[4])
  {
    AlwaysAccounted(c, s);
    assert WellFormed(s.g.rows[r]) && Spaced(s.g.failures[r]);
    if |s.g.failures[r]| == MAX_ATTEMPTS {
      var f := s.g.failures[r];
      assert f[0] + Backoff(1) <= f[1] && f[1] + Backoff(2) <= f[2] && f[2] + Backoff(3) <= f[3] && f[3] + Backoff(4) <= f[4];
      assert Backoff(1) == 5_000 && Backoff(2) == 10_000 && Backoff(3) == 20_000 && Backoff(4) == 40_000;
    }
  }

  /** No row has recorded more failures than the ceiling allows. */
  predicate WithinCeiling(g: Aggregate) {
    forall r | 0 <= r < |g.failures| :: |g.failures[r]| <= MAX_ATTEMPTS
  }

  /** The row of a session about to publish has an attempt left and the backoff of its last failure behind it. */
  predicate BackoffOver(s: State, k: nat)
    requires k in s.g.sessions && s.g.sessions[k].Renewed?
  {
    var r := s.g.sessions[k].row;
    && r < |s.g.failures|
    && var f := s.g.failures[r];
       |f| < MAX_ATTEMPTS && (|f| > 0 ==> f[|f| - 1] + Backoff(|f|) <= s.now)
  }

  /** No publish of a row starts inside the backoff of its last recorded failure. */
  lemma NoStartInBackoff(c: Timing, s: State, k: nat)
    requires MarksInLease(c) && Reachable(c, s) && Enabled(c, s.g, s.now, Begin(k))
    ensures BackoffOver(s, k)
  {
    AlwaysAccounted(c, s);
    MarkerNamed(c, s.g, s.now, k);
    var r := s.g.sessions[k].row;
    assert Current(s.g, s.now, s.g.sessions[k]);
    assert Backed(s.g.rows[r], s.g.failures[r]) && WellFormed(s.g.rows[r]);
  }

  /** The sweep's dead-lettering never finds a row: a FAILED row is below the ceiling. */
  lemma SweepFindsNothing(c: Timing, s: State, r: nat)
    requires Reachable(c, s)
    ensures !Enabled(c, s.g, s.now, SweepRow(r))
  {
    AlwaysSound(c, s);
    if r < |s.g.rows| {
      assert WellFormed(s.g.rows[r]);
    }
  }
}
