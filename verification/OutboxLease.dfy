/**
 * What the lease buys: one relay publishes an aggregate at a time and publish
 * starts follow the order the rows were written in, exactly as long as a relay
 * starts its publish soon enough after its renew.
 */
module OutboxLease {
  import opened Wrappers
  import opened OutboxRows
  import opened OutboxProtocol
  import opened OutboxInvariants

  /** The lease of a session that renewed at `renewedAt` is its own until 45 s later. */
  predicate Fenced(g: Aggregate, now: nat, k: nat, renewedAt: nat) {
    && renewedAt <= now
    && (renewedAt + LEASE_TTL_MS <= now
        || (g.lease.Some? && g.lease.value.token == k && renewedAt + LEASE_TTL_MS <= g.lease.value.expiresAt))
  }

  predicate OnTime(c: Timing, g: Aggregate, now: nat, k: nat, s: Stage) {
    && Patient(c, s, now)
    && k in g.leasedAt && Fenced(g, now, k, g.leasedAt[k])
    && (s.IsRenewed() ==> Fenced(g, now, k, s.renewedAt))
    && (s.Publishing? ==> s.startedAt <= s.renewedAt + c.begin)
    && (s.Published? || s.Rejected? ==> s.settledAt <= s.renewedAt + c.begin + PUBLISH_TIMEOUT_MS)
  }

  predicate AllOnTime(c: Timing, g: Aggregate, now: nat) {
    forall k | k in g.sessions :: OnTime(c, g, now, k, g.sessions[k])
  }

  /** The lease record changes in four kinds of steps only. */
  lemma LeaseFrame(g: Aggregate, now: nat, a: Action)
    requires !a.Acquire? && !a.Renew? && !a.Heartbeat? && !a.Release?
    ensures LeaseKept(g, Apply(g, now, a))
  {
    if Takes(a) {
      TakingTouches(g, now, a);
    } else if Publishes(a) {
      PublishingTouches(g, now, a);
    } else if Settles(a) {
      SettlingTouches(g, now, a);
    } else {
      OutsideKeepsSessions(g, now, a);
    }
  }

  /** A step of one session never shortens the lease another may count on. */
  lemma FenceStays(c: Timing, g: Aggregate, now: nat, a: Action, k: nat, renewedAt: nat)
    requires Enabled(c, g, now, a) && SessionsOk(g)
    requires Fenced(g, now, k, renewedAt) && k < g.nextToken
    requires !(a.Release? && a.k == k)
    ensures Fenced(Apply(g, now, a), now, k, renewedAt)
  {
    if !a.Acquire? && !a.Renew? && !a.Heartbeat? && !a.Release? {
      LeaseFrame(g, now, a);
    }
  }

  /** A session that steps keeps its fence; one that acquires or renews gets a new one. */
  lemma ActorFenced(c: Timing, g: Aggregate, now: nat, a: Action, k: nat)
    requires Sound(g) && Enabled(c, g, now, a) && AllOnTime(c, g, now)
    requires Actor(g, a) == Some(k) && k in Apply(g, now, a).sessions
    ensures var g' := Apply(g, now, a); k in g'.leasedAt && Fenced(g', now, k, g'.leasedAt[k])
  {
    if a.Acquire? || a.Renew? {
      LeaserFenced(c, g, now, a, k);
    } else if a.Release? {
      SettlingTouches(g, now, a);
    } else {
      LeaseFrame(g, now, a);
      assert k in g.sessions && OnTime(c, g, now, k, g.sessions[k]);
    }
  }

  lemma LeaserFenced(c: Timing, g: Aggregate, now: nat, a: Action, k: nat)
    requires Sound(g) && Enabled(c, g, now, a) && AllOnTime(c, g, now) && (a.Acquire? || a.Renew?)
    requires Actor(g, a) == Some(k) && k in Apply(g, now, a).sessions
    ensures var g' := Apply(g, now, a); k in g'.leasedAt && Fenced(g', now, k, g'.leasedAt[k])
  {
    if k in g.sessions {
      assert k < g.nextToken && OnTime(c, g, now, k, g.sessions[k]);
    }
  }

  lemma ActorOnTime(c: Timing, g: Aggregate, now: nat, a: Action, k: nat)
    requires Sound(g) && Enabled(c, g, now, a) && AllOnTime(c, g, now)
    requires Actor(g, a) == Some(k) && k in Apply(g, now, a).sessions
    ensures OnTime(c, Apply(g, now, a), now, k, Apply(g, now, a).sessions[k])
  {
    ActorFenced(c, g, now, a, k);
    if k in g.sessions && g.sessions[k].IsRenewed() {
      assert OnTime(c, g, now, k, g.sessions[k]);
      FenceStays(c, g, now, a, k, g.sessions[k].renewedAt);
    }
  }

  lemma OtherOnTime(c: Timing, g: Aggregate, now: nat, a: Action, k: nat)
    requires Sound(g) && Enabled(c, g, now, a) && AllOnTime(c, g, now)
    requires Actor(g, a) != Some(k) && k in g.sessions
    ensures OnTime(c, Apply(g, now, a), now, k, g.sessions[k])
  {
    assert OnTime(c, g, now, k, g.sessions[k]);
    OthersStay(c, g, now, a);
    FenceStays(c, g, now, a, k, g.leasedAt[k]);
    if g.sessions[k].IsRenewed() {
      FenceStays(c, g, now, a, k, g.sessions[k].renewedAt);
    }
  }

  lemma OnTimeStep(c: Timing, s: State, e: Event)
    requires Sound(s.g) && Allowed(c, s, e) && AllOnTime(c, s.g, s.now)
    ensures AllOnTime(c, Next(s, e).g, Next(s, e).now)
  {
    if e.Do? {
      var g' := Next(s, e).g;
      OthersStay(c, s.g, s.now, e.a);
      forall k | k in g'.sessions
        ensures OnTime(c, g', s.now, k, g'.sessions[k])
      {
        if Actor(s.g, e.a) == Some(k) {
          ActorOnTime(c, s.g, s.now, e.a, k);
        } else {
          OtherOnTime(c, s.g, s.now, e.a, k);
        }
      }
    }
  }

  /** The lease record still names `k`, so no other session acquired since `k` did. */
  predicate Named(g: Aggregate, k: nat) {
    g.lease.Some? && g.lease.value.token == k
  }

  predicate Ordered(starts: seq<nat>) {
    forall i, j | 0 <= i < j < |starts| :: starts[i] <= starts[j]
  }

  /** A named session about to publish its row is not behind any publish so far. */
  predicate InOrder(g: Aggregate) {
    && Ordered(g.starts)
    && (forall k | k in g.sessions && g.sessions[k].HasRow() && Named(g, k) ::
          forall r | r in g.starts :: r <= g.sessions[k].row)
  }

  lemma NamedStays(c: Timing, g: Aggregate, now: nat, a: Action, k: nat)
    requires Enabled(c, g, now, a)
    ensures Named(Apply(g, now, a), k) ==> Named(g, k) || (a.Acquire? && k == g.nextToken)
  {
    if !a.Acquire? && !a.Renew? && !a.Heartbeat? && !a.Release? {
      LeaseFrame(g, now, a);
    }
  }

  /** A publish starts under the session's own lease, so behind no other. */
  lemma BeginInOrder(c: Timing, g: Aggregate, now: nat, k: nat)
    requires c.begin < LEASE_TTL_MS
    requires Enabled(c, g, now, Begin(k)) && AllOnTime(c, g, now) && InOrder(g)
    ensures Named(g, k) && Ordered(g.starts + [g.sessions[k].row])
  {
    assert OnTime(c, g, now, k, g.sessions[k]);
    forall i | 0 <= i < |g.starts|
      ensures g.starts[i] <= g.sessions[k].row
    {
      assert g.starts[i] in g.starts;
    }
  }

  /** A session keeps the row it works on, or has just read the oldest open one. */
  predicate RowFrom(g: Aggregate, g': Aggregate, a: Action, k: nat)
    requires k in g'.sessions && g'.sessions[k].HasRow()
  {
    || (k in g.sessions && g.sessions[k].HasRow() && g'.sessions[k].row == g.sessions[k].row)
    || (a == ReadHead(k) && HeadOf(g.rows) == Some(g'.sessions[k].row))
  }

  lemma RowKept(c: Timing, g: Aggregate, now: nat, a: Action, k: nat)
    requires Enabled(c, g, now, a)
    requires var g' := Apply(g, now, a); k in g'.sessions && g'.sessions[k].HasRow()
    ensures RowFrom(g, Apply(g, now, a), a, k)
  {
    OthersStay(c, g, now, a);
    if Actor(g, a) == Some(k) {
      if Takes(a) {
        RowTaken(c, g, now, a, k);
      } else {
        RowPublished(c, g, now, a, k);
      }
    }
  }

  lemma RowTaken(c: Timing, g: Aggregate, now: nat, a: Action, k: nat)
    requires Enabled(c, g, now, a) && Takes(a) && Actor(g, a) == Some(k)
    requires var g' := Apply(g, now, a); k in g'.sessions && g'.sessions[k].HasRow()
    ensures RowFrom(g, Apply(g, now, a), a, k)
  {
  }

  lemma RowPublished(c: Timing, g: Aggregate, now: nat, a: Action, k: nat)
    requires Enabled(c, g, now, a) && !Takes(a) && Actor(g, a) == Some(k)
    requires var g' := Apply(g, now, a); k in g'.sessions && g'.sessions[k].HasRow()
    ensures RowFrom(g, Apply(g, now, a), a, k)
  {
  }

  /** A named session that has its row had it before, or has just read the oldest open row. */
  lemma NamedBehindNone(c: Timing, g: Aggregate, now: nat, a: Action, k: nat)
    requires Sound(g) && Enabled(c, g, now, a) && InOrder(g)
    requires var g' := Apply(g, now, a); k in g'.sessions && g'.sessions[k].HasRow() && Named(g', k)
    ensures forall r | r in g.starts :: r <= Apply(g, now, a).sessions[k].row
  {
    NamedStays(c, g, now, a, k);
    RowKept(c, g, now, a, k);
    forall r | r in g.starts
      ensures r <= Apply(g, now, a).sessions[k].row
    {
      assert Reached(g.rows, r);
      assert k in g.sessions ==> k < g.nextToken;
    }
  }

  lemma InOrderStep(c: Timing, s: State, e: Event)
    requires c.begin < LEASE_TTL_MS
    requires Sound(s.g) && Allowed(c, s, e) && AllOnTime(c, s.g, s.now) && InOrder(s.g)
    ensures InOrder(Next(s, e).g)
  {
    if e.Do? {
      var g, g', a := s.g, Next(s, e).g, e.a;
      if a.Begin? {
        BeginInOrder(c, g, s.now, a.k);
      }
      forall k | k in g'.sessions && g'.sessions[k].HasRow() && Named(g', k)
        ensures forall r | r in g'.starts :: r <= g'.sessions[k].row
      {
        NamedBehindNone(c, g, s.now, a, k);
        if a.Begin? {
          NamedStays(c, g, s.now, a, k);
        }
      }
    }
  }

  lemma {:induction false} OnTimeRun(c: Timing, s: State, events: seq<Event>)
    requires Sound(s.g) && AllOnTime(c, s.g, s.now) && Legal(c, s, events)
    ensures AllOnTime(c, Run(s, events).g, Run(s, events).now)
    decreases |events|
  {
    if |events| > 0 {
      SoundStep(c, s, events[0]);
      OnTimeStep(c, s, events[0]);
      OnTimeRun(c, Next(s, events[0]), events[1..]);
    }
  }

  lemma {:induction false} InOrderRun(c: Timing, s: State, events: seq<Event>)
    requires c.begin < LEASE_TTL_MS
    requires Sound(s.g) && AllOnTime(c, s.g, s.now) && InOrder(s.g) && Legal(c, s, events)
    ensures InOrder(Run(s, events).g)
    decreases |events|
  {
    if |events| > 0 {
      SoundStep(c, s, events[0]);
      OnTimeStep(c, s, events[0]);
      InOrderStep(c, s, events[0]);
      InOrderRun(c, Next(s, events[0]), events[1..]);
    }
  }

  lemma AlwaysOnTime(c: Timing, s: State)
    requires Reachable(c, s)
    ensures AllOnTime(c, s.g, s.now)
  {
    var events :| Legal(c, START, events) && Run(START, events) == s;
    OnTimeRun(c, START, events);
  }

  /** At most one session has an unsettled publish. */
  predicate Exclusive(g: Aggregate) {
    forall j, k | j in g.sessions && k in g.sessions && g.sessions[j].Publishing? && g.sessions[k].Publishing? :: j == k
  }

  lemma StartsInOrder(c: Timing, s: State)
    requires c.begin < LEASE_TTL_MS && Reachable(c, s)
    ensures Ordered(s.g.starts)
  {
    var events :| Legal(c, START, events) && Run(START, events) == s;
    InOrderRun(c, START, events);
  }

  lemma OnePublisher(c: Timing, s: State)
    requires c.begin + PUBLISH_TIMEOUT_MS < LEASE_TTL_MS && Reachable(c, s)
    ensures Exclusive(s.g)
  {
    AlwaysOnTime(c, s);
    forall j, k | j in s.g.sessions && k in s.g.sessions && s.g.sessions[j].Publishing? && s.g.sessions[k].Publishing?
      ensures j == k
    {
      assert OnTime(c, s.g, s.now, j, s.g.sessions[j]) && OnTime(c, s.g, s.now, k, s.g.sessions[k]);
    }
  }
}
