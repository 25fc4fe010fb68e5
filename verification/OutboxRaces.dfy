/**
 * The bounds of OutboxLease, OutboxBudget and OutboxWakeUp are exact: whenever
 * one of them does not hold, a run breaks the property.
 */
module OutboxRaces {
  import opened Wrappers
  import opened OutboxRows
  import opened OutboxProtocol
  import opened OutboxInvariants
  import opened OutboxLease
  import opened OutboxBudget
  import opened OutboxWakeUp

  // ------------------------------------------------ What one session may do

  /** A new session takes the free lease and reads the due row `r`. */
  lemma TakeAndRead(c: Timing, s: State, r: nat) returns (s': State)
    requires Reachable(c, s) && Free(s.g, s.now)
    requires HeadOf(s.g.rows) == Some(r) && IsDue(s.g.rows[r], s.now)
    ensures Reachable(c, s')
    ensures s' == s.(g := s.g.(
                    lease := Some(Lease(s.g.nextToken, s.now + LEASE_TTL_MS)), nextToken := s.g.nextToken + 1,
                    leasedAt := s.g.leasedAt[s.g.nextToken := s.now],
                    sessions := s.g.sessions[s.g.nextToken := Found(0, r, s.g.rows[r])]))
  {
    var k := s.g.nextToken;
    var s1 := Step(c, s, Do(Acquire(true)));
    s' := Step(c, s1, Do(ReadHead(k)));
    assert s'.g.sessions == s.g.sessions[k := Found(0, r, s.g.rows[r])];
  }

  /** It judges the row and renews, all in one instant. */
  lemma Hold(c: Timing, s: State, r: nat) returns (s': State)
    requires Reachable(c, s) && Free(s.g, s.now)
    requires HeadOf(s.g.rows) == Some(r) && IsDue(s.g.rows[r], s.now)
    ensures Reachable(c, s')
    ensures s' == s.(g := s.g.(
                    lease := Some(Lease(s.g.nextToken, s.now + LEASE_TTL_MS)), nextToken := s.g.nextToken + 1,
                    leasedAt := s.g.leasedAt[s.g.nextToken := s.now],
                    sessions := s.g.sessions[s.g.nextToken := Renewed(0, r, s.g.rows[r], s.now)]))
  {
    var k := s.g.nextToken;
    var s1 := TakeAndRead(c, s, r);
    var s2 := Step(c, s1, Do(CheckDue(k)));
    assert s2.g.sessions[k] == Holding(0, r, s.g.rows[r]);
    s' := Step(c, s2, Do(Renew(k, true)));
    assert s'.g.sessions == s.g.sessions[k := Renewed(0, r, s.g.rows[r], s.now)];
    assert s'.g.leasedAt == s.g.leasedAt[k := s.now];
  }

  /** A renewed session publishes its row at once and marks it dispatched. */
  lemma Publish(c: Timing, s: State, k: nat) returns (s': State)
    requires Reachable(c, s) && k in s.g.sessions && s.g.sessions[k].Renewed? && s.g.sessions[k].i == 0
    requires var r := s.g.sessions[k].row; r < |s.g.rows| && Markable(s.g.rows[r])
    ensures Reachable(c, s')
    ensures var r := s.g.sessions[k].row;
            s' == s.(g := s.g.(
                    starts := s.g.starts + [r], resolved := s.g.resolved + [r], log := s.g.log + [r],
                    rows := s.g.rows[r := DispatchedRow(s.g.rows[r])], sessions := s.g.sessions[k := Looping(1)]))
  {
    var s1 := Step(c, s, Do(Begin(k)));
    var s2 := Step(c, s1, Do(Resolve(k)));
    s' := Step(c, s2, Do(MarkDispatched(k, true, true)));
    assert s'.g.sessions == s.g.sessions[k := Looping(1)];
  }

  /** A renewed session's publish is refused at once. */
  lemma BeginAndReject(c: Timing, s: State, k: nat) returns (s': State)
    requires Reachable(c, s) && k in s.g.sessions && s.g.sessions[k].Renewed?
    ensures Reachable(c, s')
    ensures var p := s.g.sessions[k];
            s' == s.(g := s.g.(starts := s.g.starts + [p.row],
                               sessions := s.g.sessions[k := Rejected(p.i, p.row, p.seen, p.renewedAt, s.now)]))
  {
    var s1 := Step(c, s, Do(Begin(k)));
    s' := Step(c, s1, Do(Reject(k)));
    var p := s.g.sessions[k];
    assert s'.g.sessions == s.g.sessions[k := Rejected(p.i, p.row, p.seen, p.renewedAt, s.now)];
  }

  /** And the failure recorded. */
  lemma Refuse(c: Timing, s: State, k: nat) returns (s': State)
    requires Reachable(c, s) && k in s.g.sessions && s.g.sessions[k].Renewed?
    requires |s.g.failures| == |s.g.rows|
    requires var r := s.g.sessions[k].row; r < |s.g.rows| && Markable(s.g.rows[r])
    ensures Reachable(c, s')
    ensures var r := s.g.sessions[k].row;
            s' == s.(g := s.g.(
                    starts := s.g.starts + [r],
                    rows := s.g.rows[r := FailedRow(s.g.rows[r], s.g.sessions[k].seen, s.now)],
                    failures := s.g.failures[r := s.g.failures[r] + [s.now]],
                    sessions := s.g.sessions[k := Closing]))
  {
    var s1 := BeginAndReject(c, s, k);
    s' := Step(c, s1, Do(MarkFailed(k, true, s.now)));
    assert s'.g.sessions == s.g.sessions[k := Closing];
  }

  /** A session in `finally` reads the head and the oldest open row. */
  lemma ReadForSettle(c: Timing, s: State, k: nat) returns (s': State)
    requires Reachable(c, s) && k in s.g.sessions && s.g.sessions[k] == Closing && s.g.head.Some?
    requires (c.serialSettles ==> !AnySettling(s.g)) && InTime(c, s.g, s.now, k)
    ensures Reachable(c, s')
    ensures var r := HeadOf(s.g.rows);
            s' == s.(g := Move(s.g, k, if r.None? then Retiring(Some(s.g.head.value.v)) else Requeuing(s.g.rows[r.value])))
  {
    var s1 := Step(c, s, Do(SettleReadHead(k)));
    s' := Step(c, s1, Do(SettleReadRow(k)));
    var r := HeadOf(s.g.rows);
    assert s'.g.sessions ==
      s.g.sessions[k := if r.None? then Retiring(Some(s.g.head.value.v)) else Requeuing(s.g.rows[r.value])];
  }

  /** One row is written; its first session holds the lease and has renewed at time 0. */
  lemma FirstHolder(c: Timing) returns (s: State)
    ensures Reachable(c, s) && s.now == 0
    ensures s.g == Aggregate([NewRow("a")], Some(Head(Some(0), 1)), Some(Lease(0, LEASE_TTL_MS)), map[0 := 0], 1,
                             map[0 := Renewed(0, 0, NewRow("a"), 0)], multiset{}, 0, [], [], [], [[]])
  {
    Start(c);
    var s1 := Step(c, START, Do(Write("a", 0)));
    assert s1.g.rows == [NewRow("a")];
    assert HeadOf(s1.g.rows) == Some(0);
    s := Hold(c, s1, 0);
    assert s.g.sessions == map[0 := Renewed(0, 0, NewRow("a"), 0)];
    assert s.g.failures == [[]] && s.g.leasedAt == map[0 := 0];
  }

  // ---------------------------------------------------------------- Order

  /** Session 0 has row 0 and a lease that has run out; a second row waits behind. */
  lemma LateWithTwoRows(c: Timing) returns (s: State)
    requires LEASE_TTL_MS <= c.begin
    ensures Reachable(c, s) && s.now == LEASE_TTL_MS && Free(s.g, s.now) && s.g.nextToken == 1 && s.g.starts == []
    ensures s.g.rows == [NewRow("a"), NewRow("b")] && s.g.sessions == map[0 := Renewed(0, 0, NewRow("a"), 0)]
  {
    var s0 := FirstHolder(c);
    var s1 := Step(c, s0, Do(Write("b", 0)));
    assert s1.g.rows == [NewRow("a"), NewRow("b")];
    s := Step(c, s1, Tick(LEASE_TTL_MS));
  }

  lemma LateStartBreaksOrder(c: Timing) returns (s: State)
    requires LEASE_TTL_MS <= c.begin
    ensures Reachable(c, s) && !Ordered(s.g.starts)
  {
    var s0 := LateWithTwoRows(c);
    assert HeadOf(s0.g.rows) == Some(0);
    var s1 := Hold(c, s0, 0);
    var s2 := Publish(c, s1, 1);
    s := SecondRowThenFirst(c, s2);
  }

  /** The fresh session goes on to row 1 before the late one starts row 0. */
  lemma SecondRowThenFirst(c: Timing, s: State) returns (s': State)
    requires Reachable(c, s) && Holds(s.g, s.now, 1) && s.g.sessions.Keys == {0, 1}
    requires s.g.sessions[0] == Renewed(0, 0, NewRow("a"), 0) && s.g.sessions[1] == Looping(1)
    requires s.g.rows == [DispatchedRow(NewRow("a")), NewRow("b")] && s.g.starts == [0]
    ensures Reachable(c, s') && !Ordered(s'.g.starts)
  {
    assert HeadOf(s.g.rows) == Some(1);
    var s1 := Step(c, s, Do(ReadHead(1)));
    var s2 := Step(c, s1, Do(CheckDue(1)));
    assert s2.g.sessions[1] == Holding(1, 1, NewRow("b"));
    var s3 := Step(c, s2, Do(Renew(1, true)));
    s' := BothBegin(c, s3);
  }

  lemma BothBegin(c: Timing, s: State) returns (s': State)
    requires Reachable(c, s) && s.g.sessions.Keys == {0, 1} && s.g.starts == [0]
    requires s.g.sessions[0].Renewed? && s.g.sessions[0].row == 0
    requires s.g.sessions[1].Renewed? && s.g.sessions[1].row == 1
    ensures Reachable(c, s') && !Ordered(s'.g.starts)
  {
    var s1 := Step(c, s, Do(Begin(1)));
    s' := Step(c, s1, Do(Begin(0)));
    assert s'.g.starts == [0, 1, 0];
    assert s'.g.starts[1] == 1 && s'.g.starts[2] == 0;
  }

  /** Publish starts follow write order in every run exactly when none is a lease length late. */
  lemma OrderExactly(c: Timing)
    ensures (forall s | Reachable(c, s) :: Ordered(s.g.starts)) <==> c.begin < LEASE_TTL_MS
  {
    if c.begin < LEASE_TTL_MS {
      forall s | Reachable(c, s)
        ensures Ordered(s.g.starts)
      {
        StartsInOrder(c, s);
      }
    } else {
      var s := LateStartBreaksOrder(c);
    }
  }

  // ------------------------------------------------------------- Exclusion

  lemma LateStartOverlaps(c: Timing) returns (s: State)
    requires LEASE_TTL_MS <= c.begin + PUBLISH_TIMEOUT_MS
    ensures Reachable(c, s) && !Exclusive(s.g)
  {
    var s0 := FirstHolder(c);
    var s1 := Step(c, s0, Tick(LEASE_TTL_MS - PUBLISH_TIMEOUT_MS));
    var s2 := Step(c, s1, Do(Begin(0)));
    var s3 := Step(c, s2, Tick(PUBLISH_TIMEOUT_MS));
    assert HeadOf(s3.g.rows) == Some(0);
    var s4 := Hold(c, s3, 0);
    s := Step(c, s4, Do(Begin(1)));
    assert s.g.sessions[0].Publishing? && s.g.sessions[1].Publishing?;
  }

  /** Two relays never publish one aggregate at once exactly when every start is within 15 s of its renew. */
  lemma ExclusionExactly(c: Timing)
    ensures (forall s | Reachable(c, s) :: Exclusive(s.g)) <==> c.begin < 15_000
  {
    if c.begin < 15_000 {
      forall s | Reachable(c, s)
        ensures Exclusive(s.g)
      {
        OnePublisher(c, s);
      }
    } else {
      var s := LateStartOverlaps(c);
    }
  }

  // ---------------------------------------------------------------- Budget

  /** The delays of a session whose renew, publish and mark together take the whole lease. */
  lemma Spend(c: Timing) returns (begin: nat, publish: nat, mark: nat)
    requires !MarksInLease(c)
    ensures begin <= c.begin && publish <= PUBLISH_TIMEOUT_MS && mark <= c.mark
    ensures begin + publish + mark == LEASE_TTL_MS
  {
    begin := if c.begin < LEASE_TTL_MS then c.begin else LEASE_TTL_MS;
    publish := if LEASE_TTL_MS - begin < PUBLISH_TIMEOUT_MS then LEASE_TTL_MS - begin else PUBLISH_TIMEOUT_MS;
    mark := LEASE_TTL_MS - begin - publish;
  }

  /** Session 0 has an outcome to mark when its lease runs out. */
  lemma SettledAtExpiry(c: Timing, resolved: bool) returns (s: State)
    requires !MarksInLease(c)
    ensures Reachable(c, s) && s.now == LEASE_TTL_MS && Free(s.g, s.now) && s.g.nextToken == 1
    ensures s.g.rows == [NewRow("a")] && s.g.failures == [[]]
    ensures s.g.owed == 0 && s.g.head == Some(Head(Some(0), 1)) && s.g.sessions.Keys == {0}
    ensures if resolved then s.g.sessions[0].Published? else s.g.sessions[0].Rejected?
    ensures s.g.sessions[0].settledAt <= s.now
    ensures s.g.sessions[0].i == 0 && s.g.sessions[0].row == 0 && s.g.sessions[0].seen == NewRow("a")
  {
    var begin, publish, mark := Spend(c);
    var s0 := PublishingAfter(c, begin, publish);
    var s1 := Step(c, s0, Do(if resolved then Resolve(0) else Reject(0)));
    s := Step(c, s1, Tick(mark));
  }

  /** Session 0 started its publish `begin` after its renew and waited `publish`. */
  lemma PublishingAfter(c: Timing, begin: nat, publish: nat) returns (s: State)
    requires begin <= c.begin && publish <= PUBLISH_TIMEOUT_MS
    ensures Reachable(c, s) && s.now == begin + publish
    ensures s.g.rows == [NewRow("a")] && s.g.failures == [[]] && s.g.owed == 0 && s.g.head == Some(Head(Some(0), 1))
    ensures s.g.lease == Some(Lease(0, LEASE_TTL_MS)) && s.g.nextToken == 1
    ensures s.g.sessions == map[0 := Publishing(0, 0, NewRow("a"), 0, begin)]
  {
    var s0 := FirstHolder(c);
    var s1 := Step(c, s0, Tick(begin));
    var s2 := Step(c, s1, Do(Begin(0)));
    s := Step(c, s2, Tick(publish));
    assert s.g.sessions == map[0 := Publishing(0, 0, NewRow("a"), 0, begin)];
  }

  /** Then session 1 publishes the same row, is refused and records it. */
  lemma MarkedByAnother(c: Timing, resolved: bool) returns (s: State)
    requires !MarksInLease(c)
    ensures Reachable(c, s) && s.now == LEASE_TTL_MS && s.g.owed == 0 && s.g.head == Some(Head(Some(0), 1))
    ensures s.g.rows == [FailedRow(NewRow("a"), NewRow("a"), LEASE_TTL_MS)] && s.g.failures == [[LEASE_TTL_MS]]
    ensures s.g.sessions.Keys == {0, 1} && s.g.sessions[1] == Closing && InTime(c, s.g, s.now, 1) && Holds(s.g, s.now, 1)
    ensures if resolved then s.g.sessions[0].Published? else s.g.sessions[0].Rejected?
    ensures s.g.sessions[0].settledAt <= s.now
    ensures s.g.sessions[0].i == 0 && s.g.sessions[0].row == 0 && s.g.sessions[0].seen == NewRow("a")
  {
    var s0 := SettledAtExpiry(c, resolved);
    assert HeadOf(s0.g.rows) == Some(0);
    var s1 := Hold(c, s0, 0);
    s := Refuse(c, s1, 1);
    assert s1.g.failures[0] + [s1.now] == [LEASE_TTL_MS];
  }

  /** And session 0 records its own: two failures, one attempt. */
  lemma MarkedTwice(c: Timing) returns (s: State)
    requires !MarksInLease(c)
    ensures Reachable(c, s) && s.now == LEASE_TTL_MS && s.g.owed == 0 && s.g.head.Some? && Holds(s.g, s.now, 1)
    ensures s.g.rows == [FailedRow(NewRow("a"), NewRow("a"), LEASE_TTL_MS)]
    ensures s.g.failures == [[LEASE_TTL_MS, LEASE_TTL_MS]]
    ensures s.g.sessions == map[0 := Closing, 1 := Closing]
  {
    var s0 := MarkedByAnother(c, false);
    assert s0.g.rows[0].status == FAILED;
    s := Step(c, s0, Do(MarkFailed(0, true, s0.now)));
    assert s.g.failures == [s0.g.failures[0] + [LEASE_TTL_MS]];
    assert s.g.failures[0] == [LEASE_TTL_MS, LEASE_TTL_MS];
    assert s.g.sessions == map[0 := Closing, 1 := Closing];
  }

  lemma LateMarkMiscounts(c: Timing) returns (s: State)
    requires !MarksInLease(c)
    ensures Reachable(c, s) && !Counted(s.g)
  {
    s := MarkedTwice(c);
    assert |s.g.failures[0]| == 2 && s.g.rows[0].attempts == 1;
  }

  /** A quiet aggregate with one row, due for its next attempt. */
  predicate DueAlone(s: State, attempts: nat) {
    && |s.g.rows| == 1 && |s.g.failures| == 1 && Markable(s.g.rows[0])
    && s.g.rows[0].attempts == attempts && IsDue(s.g.rows[0], s.now)
    && s.g.sessions == map[] && s.g.lease.None? && s.g.owed == 0 && s.g.head.Some?
  }

  /** One session publishes the row, is refused and records it. */
  lemma FailOnce(c: Timing, s: State, attempts: nat) returns (s': State, k: nat)
    requires Reachable(c, s) && DueAlone(s, attempts)
    ensures Reachable(c, s') && s'.now == s.now && s'.g.sessions == map[k := Closing]
    ensures s'.g.rows == [FailedRow(s.g.rows[0], s.g.rows[0], s.now)]
    ensures |s'.g.failures| == 1 && |s'.g.failures[0]| == |s.g.failures[0]| + 1 && s'.g.owed == 0 && s'.g.head == s.g.head
    ensures Holds(s'.g, s'.now, k) && InTime(c, s'.g, s'.now, k)
  {
    k := s.g.nextToken;
    assert Open(s.g.rows[0]) && HeadOf(s.g.rows) == Some(0);
    var s1 := Hold(c, s, 0);
    s' := Refuse(c, s1, k);
  }

  /** A session ends without settling the head. */
  lemma Leave(c: Timing, s: State, k: nat) returns (s': State)
    requires Reachable(c, s) && k in s.g.sessions && s.g.sessions[k] == Closing
    ensures Reachable(c, s')
    ensures s' == s.(g := s.g.(sessions := s.g.sessions - {k},
                               lease := if Holds(s.g, s.now, k) then None else s.g.lease))
  {
    var s1 := Step(c, s, Do(SettleFail(k)));
    s' := Step(c, s1, Do(Release(k, true)));
    assert s'.g.sessions == s.g.sessions - {k};
  }

  /** From `attempts` recorded failures on to more, each as soon as its backoff is over. */
  lemma {:induction false} FailOn(c: Timing, s: State, attempts: nat, more: nat) returns (s': State)
    requires Reachable(c, s) && DueAlone(s, attempts) && attempts + more < MAX_ATTEMPTS
    ensures Reachable(c, s') && DueAlone(s', attempts + more)
    ensures |s'.g.failures[0]| == |s.g.failures[0]| + more
    decreases more
  {
    if more == 0 {
      s' := s;
    } else {
      var s0 := FailOn(c, s, attempts, more - 1);
      var s1, k := FailOnce(c, s0, attempts + more - 1);
      var s2 := Leave(c, s1, k);
      assert s2.g.sessions == map[];
      s' := Step(c, s2, Tick(Backoff(attempts + more)));
    }
  }

  lemma FailTimes(c: Timing, attempts: nat) returns (s: State)
    requires attempts < MAX_ATTEMPTS
    ensures Reachable(c, s) && DueAlone(s, attempts)
  {
    Start(c);
    var s0 := Step(c, START, Do(Write("a", 0)));
    assert s0.g.rows == [NewRow("a")] && s0.g.failures == [[]];
    s := FailOn(c, s0, 0, attempts);
  }

  /** Both sessions are gone and the row is due after the backoff of one failure. */
  lemma DueTooSoon(c: Timing) returns (s: State)
    requires !MarksInLease(c)
    ensures Reachable(c, s) && DueAlone(s, 1) && s.now == LEASE_TTL_MS + 5_000
    ensures s.g.failures == [[LEASE_TTL_MS, LEASE_TTL_MS]]
  {
    var s0 := MarkedTwice(c);
    var s1 := Leave(c, s0, 0);
    assert s1.g.sessions[1] == Closing;
    var s2 := Leave(c, s1, 1);
    assert s2.g.sessions == map[];
    assert Backoff(1) == 5_000;
    s := Step(c, s2, Tick(5_000));
  }

  /** The next publish starts 5 s after the second failure, whose backoff is 10 s. */
  lemma StartsInBackoff(c: Timing) returns (s: State, k: nat)
    requires !MarksInLease(c)
    ensures Reachable(c, s) && Enabled(c, s.g, s.now, Begin(k)) && !BackoffOver(s, k)
  {
    var s0 := DueTooSoon(c);
    assert HeadOf(s0.g.rows) == Some(0);
    k := s0.g.nextToken;
    s := Hold(c, s0, 0);
    assert Backoff(2) == 10_000;
  }

  /** The row goes on to a sixth recorded failure. */
  lemma SixthFailure(c: Timing) returns (s: State)
    requires !MarksInLease(c)
    ensures Reachable(c, s) && !WithinCeiling(s.g)
  {
    var s0 := DueTooSoon(c);
    var s1 := FailOn(c, s0, 1, 3);
    var k;
    s, k := FailOnce(c, s1, 4);
    assert |s.g.failures[0]| == 6;
  }

  /** No publish starts inside the backoff of its row's last recorded failure, exactly under the same condition. */
  lemma BackoffExactly(c: Timing)
    ensures (forall s, k | Reachable(c, s) && Enabled(c, s.g, s.now, Begin(k)) :: BackoffOver(s, k)) <==> MarksInLease(c)
  {
    if MarksInLease(c) {
      forall s, k | Reachable(c, s) && Enabled(c, s.g, s.now, Begin(k))
        ensures BackoffOver(s, k)
      {
        NoStartInBackoff(c, s, k);
      }
    } else {
      var s, k := StartsInBackoff(c);
    }
  }

  /** And no row records more than five failures between its write or redrive and DEAD. */
  lemma CeilingExactly(c: Timing)
    ensures (forall s | Reachable(c, s) :: WithinCeiling(s.g)) <==> MarksInLease(c)
  {
    if MarksInLease(c) {
      forall s | Reachable(c, s)
        ensures WithinCeiling(s.g)
      {
        AlwaysAccounted(c, s);
        forall r | 0 <= r < |s.g.failures|
          ensures |s.g.failures[r]| <= MAX_ATTEMPTS
        {
          AttemptBudget(c, s, r);
        }
      }
    } else {
      var s := SixthFailure(c);
    }
  }

  /** `attempts` counts the recorded failures in every run exactly when every mark lands inside its lease. */
  lemma BudgetExactly(c: Timing)
    ensures (forall s | Reachable(c, s) :: Counted(s.g)) <==> MarksInLease(c)
  {
    if MarksInLease(c) {
      forall s | Reachable(c, s)
        ensures Counted(s.g)
      {
        AlwaysAccounted(c, s);
      }
    } else {
      var s := LateMarkMiscounts(c);
    }
  }

  // --------------------------------------------------------------- Wake-up

  /** Session 1 settles the failed row and leaves; session 0 still has its resolved publish to mark. */
  lemma SettledBehindMark(c: Timing) returns (s: State)
    requires !MarksInLease(c)
    ensures Reachable(c, s) && s.now == LEASE_TTL_MS && s.g.owed == 0 && s.g.head == Some(Head(Some(50_000), 1))
    ensures s.g.rows == [FailedRow(NewRow("a"), NewRow("a"), LEASE_TTL_MS)]
    ensures 0 in s.g.sessions && s.g.sessions[0].Published? && s.g.sessions[0].row == 0
  {
    var s0 := MarkedByAnother(c, true);
    var failed := s0.g.rows[0];
    assert Backoff(1) == 5_000;
    assert failed.status == FAILED && Open(failed) && HeadOf(s0.g.rows) == Some(0);
    var s1 := ReadForSettle(c, s0, 1);
    s := Step(c, s1, Do(SettleWrite(1, LEASE_TTL_MS)));
  }

  /** A late mark dispatches a row that has meanwhile failed: the next row inherits its backoff. */
  lemma LateMarkSleeps(c: Timing) returns (s: State)
    requires !MarksInLease(c)
    ensures Reachable(c, s) && s.g.owed == 0 && !Woken(s.g, s.now)
  {
    var s0 := SettledBehindMark(c);
    var failed := s0.g.rows[0];
    var s1 := Step(c, s0, Do(Write("b", LEASE_TTL_MS)));
    assert s1.g.rows == [failed, NewRow("b")];
    s := Step(c, s1, Do(MarkDispatched(0, true, true)));
    assert s.g.rows == [DispatchedRow(failed), NewRow("b")];
    assert HeadOf(s.g.rows) == Some(1);
  }

  /** Two sessions are in `finally` of an aggregate whose one row went out. */
  lemma TwoClosing(c: Timing) returns (s: State)
    ensures Reachable(c, s) && s.g.owed == 0 && s.g.head == Some(Head(Some(0), 1))
    ensures s.g.rows == [DispatchedRow(NewRow("a"))] && s.g.sessions == map[0 := Closing, 1 := Closing]
    ensures s.now == LEASE_TTL_MS && s.g.leasedAt == map[0 := 0, 1 := LEASE_TTL_MS]
  {
    var s0 := FirstHolder(c);
    var s1 := Publish(c, s0, 0);
    assert s1.g.rows == [DispatchedRow(NewRow("a"))] && HeadOf(s1.g.rows) == None;
    var s2 := Step(c, s1, Do(ReadHead(0)));
    assert s2.g.sessions == map[0 := Closing];
    var s3 := Step(c, s2, Tick(LEASE_TTL_MS));
    var s4 := Step(c, s3, Do(Acquire(true)));
    s := Step(c, s4, Do(ReadHead(1)));
    assert s.g.sessions == map[0 := Closing, 1 := Closing];
    assert s.g.leasedAt == map[0 := 0, 1 := LEASE_TTL_MS];
  }

  /** Two overlapping settles: the second deletes a head that was re-created with the same version. */
  lemma OverlappingSettlesLoseTheHead(c: Timing) returns (s: State)
    requires !SettlesApart(c)
    ensures Reachable(c, s) && s.g.owed == 0 && !Woken(s.g, s.now) && !HeadKept(s.g)
  {
    var s0 := TwoClosing(c);
    assert HeadOf(s0.g.rows) == None;
    var s1 := ReadForSettle(c, s0, 0);
    var s2 := ReadForSettle(c, s1, 1);
    assert s2.g.sessions == map[0 := Retiring(Some(1)), 1 := Retiring(Some(1))];
    s := HeadRebornAndDeleted(c, s2);
  }

  /** Session 1 retires the head, a write re-creates it, and session 0 retires that one. */
  lemma HeadRebornAndDeleted(c: Timing, s: State) returns (s': State)
    requires !SettlesApart(c) && Reachable(c, s) && s.g.owed == 0
    requires s.g.head == Some(Head(Some(0), 1)) && s.g.rows == [DispatchedRow(NewRow("a"))]
    requires s.g.sessions == map[0 := Retiring(Some(1)), 1 := Retiring(Some(1))]
    requires InTime(c, s.g, s.now, 0) && InTime(c, s.g, s.now, 1)
    ensures Reachable(c, s') && s'.g.owed == 0 && !Woken(s'.g, s'.now) && !HeadKept(s'.g)
  {
    var s1 := Step(c, s, Do(SettleWrite(1, 0)));
    assert s1.g.head == None && s1.g.rows == s.g.rows && s1.g.owed == 0;
    assert s1.g.sessions[0] == Retiring(Some(1));
    s' := WrittenAndDeleted(c, s1);
  }

  lemma WrittenAndDeleted(c: Timing, s: State) returns (s': State)
    requires !SettlesApart(c) && Reachable(c, s) && s.g.owed == 0 && s.g.head == None
    requires s.g.rows == [DispatchedRow(NewRow("a"))] && 0 in s.g.sessions && s.g.sessions[0] == Retiring(Some(1))
    requires InTime(c, s.g, s.now, 0)
    ensures Reachable(c, s') && s'.g.owed == 0 && !Woken(s'.g, s'.now) && !HeadKept(s'.g)
  {
    var s1 := Step(c, s, Do(Write("b", 0)));
    AppendHead(s.g.rows, NewRow("b"));
    assert s1.g.head == Some(Head(Some(0), 1)) && HeadOf(s1.g.rows) == Some(1);
    s' := Step(c, s1, Do(SettleWrite(0, 0)));
    assert s'.g.head == None && s'.g.rows == s1.g.rows;
  }

  /** A settle has read a DEAD head row and not written yet. */
  lemma SettleSawDead(c: Timing) returns (s: State, k: nat)
    ensures Reachable(c, s) && s.g.owed == 0 && s.g.head.Some? && InTime(c, s.g, s.now, k)
    ensures |s.g.rows| == 1 && s.g.rows[0].status == DEAD && s.g.sessions == map[k := Requeuing(s.g.rows[0])]
  {
    var s0 := FailTimes(c, MAX_ATTEMPTS - 1);
    var s1;
    s1, k := FailOnce(c, s0, MAX_ATTEMPTS - 1);
    assert Open(s1.g.rows[0]) && HeadOf(s1.g.rows) == Some(0);
    s := ReadForSettle(c, s1, k);
    assert s.g.sessions == map[k := Requeuing(s.g.rows[0])];
  }

  /** A listed redrive of an aggregate whose only row is DEAD. */
  lemma ListAndRedrive(c: Timing, s: State) returns (s': State)
    requires Reachable(c, s) && (c.operatorsWait ==> !AnyRequeuing(s.g))
    requires |s.g.rows| == 1 && s.g.rows[0].status == DEAD && s.g.owed == 0
    ensures Reachable(c, s') && s'.now == s.now && s'.g.owed == 1 && s'.g.head == s.g.head
    ensures s'.g.rows == [RedrivenRow(s.g.rows[0])] && s'.g.sessions == s.g.sessions && s'.g.leasedAt == s.g.leasedAt
  {
    assert Selected(None, 0);
    var s1 := Step(c, s, Do(OperatorLists(None)));
    s' := Step(c, s1, Do(Redrive(None, true)));
    assert s'.g.rows == [RedrivenRow(s.g.rows[0])];
  }

  lemma RedriveAndRequeue(c: Timing, s: State) returns (s': State)
    requires Reachable(c, s) && !c.operatorsWait
    requires |s.g.rows| == 1 && s.g.rows[0].status == DEAD && s.g.owed == 0
    ensures Reachable(c, s') && s'.now == s.now && s'.g.owed == 0 && s'.g.head.Some?
    ensures s'.g.rows == [RedrivenRow(s.g.rows[0])] && s'.g.sessions == s.g.sessions && s'.g.leasedAt == s.g.leasedAt
  {
    var s1 := ListAndRedrive(c, s);
    s' := Step(c, s1, Do(Requeue(s1.now)));
  }

  /** It writes over the requeue of a redrive that came in between. */
  lemma RedriveDuringSettleSleeps(c: Timing) returns (s: State)
    requires !c.operatorsWait
    ensures Reachable(c, s) && s.g.owed == 0 && !Woken(s.g, s.now)
  {
    var s0, k := SettleSawDead(c);
    var s1 := RedriveAndRequeue(c, s0);
    assert HeadOf(s1.g.rows) == Some(0);
    s := Step(c, s1, Do(SettleWrite(k, s1.now)));
    assert s.g.head.value.dueAt == None;
  }

  /** An operator listed the aggregates before the row died: it redrives the row and never requeues the head. */
  lemma RedriveAfterListSleeps(c: Timing) returns (s: State)
    requires !c.listsCover
    ensures Reachable(c, s) && s.g.owed == 0 && !Woken(s.g, s.now)
  {
    var s0, k := SettleSawDead(c);
    var s1 := Step(c, s0, Do(SettleWrite(k, s0.now)));
    assert s1.g.head.value.dueAt == None && !AnyRequeuing(s1.g) && Selected(None, 0);
    s := Step(c, s1, Do(Redrive(None, false)));
    assert s.g.rows == [RedrivenRow(s0.g.rows[0])] && HeadOf(s.g.rows) == Some(0);
  }

  /** A redrive changed its row and its requeue failed: nothing puts the head back in line. */
  lemma FailedRequeueSleeps(c: Timing) returns (s: State)
    requires !c.requeues
    ensures Reachable(c, s) && s.g.owed == 0 && !Woken(s.g, s.now)
    ensures |s.g.rows| == 1 && s.g.rows[0].status == PENDING && s.g.head.Some? && s.g.head.value.dueAt == None
  {
    var s0, k := SettleSawDead(c);
    var s1 := Step(c, s0, Do(SettleWrite(k, s0.now)));
    assert s1.g.head.value.dueAt == None && !AnyRequeuing(s1.g);
    var s2 := ListAndRedrive(c, s1);
    s := Step(c, s2, Do(RequeueFails));
    assert HeadOf(s.g.rows) == Some(0);
  }

  /**
   * The due index never hides work in any run exactly when marks land inside
   * their lease, settles are kept apart, operators keep clear of both a settle
   * and a dying row, and their requeues get through.
   */
  lemma WakeUpExactly(c: Timing)
    ensures (forall s | Reachable(c, s) && s.g.owed == 0 :: Woken(s.g, s.now)) <==> SettlesSafely(c)
  {
    if SettlesSafely(c) {
      forall s | Reachable(c, s) && s.g.owed == 0
        ensures Woken(s.g, s.now)
      {
        NoLostWakeUp(c, s);
      }
    } else if !MarksInLease(c) {
      var s := LateMarkSleeps(c);
    } else if !SettlesApart(c) {
      var s := OverlappingSettlesLoseTheHead(c);
    } else if !c.operatorsWait {
      var s := RedriveDuringSettleSleeps(c);
    } else if !c.listsCover {
      var s := RedriveAfterListSleeps(c);
    } else {
      var s := FailedRequeueSleeps(c);
    }
  }

  /** No open row loses its head in any run exactly when settles wait for each other or end inside their 45 s lease. */
  lemma RetirementExactly(c: Timing)
    ensures (forall s | Reachable(c, s) :: HeadKept(s.g)) <==>
            c.serialSettles || (c.settle.Some? && c.settle.value < LEASE_TTL_MS)
  {
    if SettlesApart(c) {
      forall s | Reachable(c, s)
        ensures HeadKept(s.g)
      {
        NoOpenRowLosesItsHead(c, s);
      }
    } else {
      var s := OverlappingSettlesLoseTheHead(c);
    }
  }
}
