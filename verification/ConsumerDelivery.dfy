/**
 * What claim / work / extend-or-release gives a consumer: no received event is
 * lost, exactly under its scheduling condition.
 */
module ConsumerDelivery {
  import opened Wrappers
  import opened ConsumerProtocol

  // ---------------------------------------------------------------- No loss

  /** A message the broker still answers for and no attempt is about to ack away. */
  predicate Hopeful(b: Inbox, m: nat) {
    && m < |b.messages|
    && !b.messages[m].Acked?
    && (b.messages[m].Outstanding? ==>
          b.messages[m].attempt < |b.attempts| && !b.attempts[b.messages[m].attempt].stage.Duplicate?)
  }

  predicate Consistent(b: Inbox) {
    && (forall x | 0 <= x < |b.attempts| :: b.attempts[x].message < |b.messages|)
    && (forall m | 0 <= m < |b.messages| && b.messages[m].Outstanding? ::
          && b.messages[m].attempt < |b.attempts|
          && b.attempts[b.messages[m].attempt].message == m
          && b.attempts[b.messages[m].attempt].deliveredAt == b.messages[m].since)
    && (forall x | 0 <= x < |b.attempts| && b.attempts[x].stage.Handled? :: |b.works| > 0)
    && (forall x | 0 <= x < |b.attempts| && b.attempts[x].stage.Succeeded? :: |b.works| > 0)
  }

  /** An attempt that was superseded was delivered a whole redelivery delay ago. */
  predicate CurrentOrOld(h: Handling, b: Inbox, now: nat, x: nat) {
    x < |b.attempts| &&
    (b.attempts[x].stage.Gone? || Delivers(b, x) || b.attempts[x].deliveredAt + h.redelivery <= now)
  }

  /** Before the first success: who holds the claim and who is about to ack. */
  ghost predicate Pending(h: Handling, b: Inbox, now: nat) {
    && (forall x | 0 <= x < |b.attempts| :: CurrentOrOld(h, b, now, x))
    && (forall x | 0 <= x < |b.attempts| && (b.attempts[x].stage.Received? || b.attempts[x].stage.Duplicate?) ::
          Delivers(b, x) && now < b.attempts[x].deliveredAt + h.redelivery)
    && (forall x | 0 <= x < |b.attempts| && b.attempts[x].stage.Received? ::
          now <= b.attempts[x].deliveredAt + h.claim)
    && (Live(b, now) ==>
          && Delivers(b, b.marker.value.owner)
          && b.marker.value.expiresAt <= b.attempts[b.marker.value.owner].deliveredAt + h.redelivery
          && var stage := b.attempts[b.marker.value.owner].stage; stage.Working? || stage.Thrown? || stage.Gone?)
    && (|b.messages| > 0 ==> exists m :: Hopeful(b, m))
  }

  predicate LossFree(h: Handling) {
    && h.releases && h.answers
    && h.claim + CLAIM_TTL_MS <= h.redelivery && h.ack < h.redelivery
    && (h.lateNack.Some? ==> h.lateNack.value < h.redelivery)
  }

  ghost predicate Kept(h: Handling, b: Inbox, now: nat) {
    Consistent(b) && (|b.works| == 0 ==> Pending(h, b, now))
  }

  /** Attempts keep their message and delivery time; a step adds at most one of each. */
  lemma AttemptsGrow(h: Handling, b: Inbox, now: nat, a: Action)
    requires Enabled(h, b, now, a)
    ensures var b' := Apply(h, b, now, a);
            && |b.messages| <= |b'.messages| && |b.attempts| <= |b'.attempts| && |b.works| <= |b'.works|
            && (forall x | 0 <= x < |b.attempts| ::
                  b'.attempts[x].message == b.attempts[x].message
                  && b'.attempts[x].deliveredAt == b.attempts[x].deliveredAt)
            && (forall x | |b.attempts| <= x < |b'.attempts| ::
                  a.Deliver? && b'.attempts[x].message == a.m && b'.attempts[x].deliveredAt == now
                  && b'.attempts[x].stage.Received?)
  {
  }

  /** A message that is outstanding after a step was so before, or has just been delivered. */
  lemma OutstandingSince(h: Handling, b: Inbox, now: nat, a: Action, m: nat)
    requires Enabled(h, b, now, a) && m < |Apply(h, b, now, a).messages|
    requires Apply(h, b, now, a).messages[m].Outstanding?
    ensures || (m < |b.messages| && b.messages[m] == Apply(h, b, now, a).messages[m])
            || (a == Deliver(m) && Apply(h, b, now, a).messages[m].attempt == |b.attempts|
                && Apply(h, b, now, a).messages[m].since == now)
  {
  }

  lemma ConsistentStep(h: Handling, b: Inbox, now: nat, a: Action)
    requires Enabled(h, b, now, a) && Consistent(b)
    ensures Consistent(Apply(h, b, now, a))
  {
    AttemptsGrow(h, b, now, a);
    var b' := Apply(h, b, now, a);
    forall m | 0 <= m < |b'.messages| && b'.messages[m].Outstanding?
      ensures b'.messages[m].attempt < |b'.attempts|
      ensures b'.attempts[b'.messages[m].attempt].message == m
      ensures b'.attempts[b'.messages[m].attempt].deliveredAt == b'.messages[m].since
    {
      OutstandingSince(h, b, now, a, m);
    }
  }

  /** An answered-false claim blocks on another delivery, which stays hopeful. */
  lemma HopeStays(h: Handling, b: Inbox, now: nat, a: Action)
    requires LossFree(h) && Enabled(h, b, now, a) && Consistent(b) && Pending(h, b, now)
    requires |b.works| == 0 && |Apply(h, b, now, a).works| == 0
    ensures var b' := Apply(h, b, now, a); |b'.messages| > 0 ==> exists m :: Hopeful(b', m)
  {
    var b' := Apply(h, b, now, a);
    match a
    case Arrive => assert Hopeful(b', |b.messages|);
    case Deliver(m) => assert Hopeful(b', m);
    case DeadLetter(m) => assert Hopeful(b', m);
    case Claim(x) =>
      if Live(b, now) {
        HopeAfterDuplicate(h, b, now, x);
      } else if |b.messages| > 0 {
        var m :| Hopeful(b, m);
        MessageStaysHopeful(h, b, now, a, m);
      }
    case Finish(_) =>
    case Extend(_, _) =>
    case _ =>
      if |b.messages| > 0 {
        var m :| Hopeful(b, m);
        MessageStaysHopeful(h, b, now, a, m);
      }
  }

  /** A claim that is refused leaves its hope to the delivery that holds the live one. */
  lemma HopeAfterDuplicate(h: Handling, b: Inbox, now: nat, x: nat)
    requires Enabled(h, b, now, Claim(x)) && Consistent(b) && Pending(h, b, now) && Live(b, now)
    ensures Hopeful(Apply(h, b, now, Claim(x)), b.attempts[b.marker.value.owner].message)
  {
  }

  lemma MessageStaysHopeful(h: Handling, b: Inbox, now: nat, a: Action, m: nat)
    requires LossFree(h) && Enabled(h, b, now, a) && Consistent(b) && Pending(h, b, now) && Hopeful(b, m)
    requires |b.works| == 0 && |Apply(h, b, now, a).works| == 0
    requires !a.Arrive? && !a.Deliver? && !a.DeadLetter? && (a.Claim? ==> !Live(b, now))
    ensures Hopeful(Apply(h, b, now, a), m)
  {
  }

  lemma DeliveriesStay(h: Handling, b: Inbox, now: nat, a: Action)
    requires LossFree(h) && Enabled(h, b, now, a) && Consistent(b) && Pending(h, b, now)
    requires |b.works| == 0 && |Apply(h, b, now, a).works| == 0
    ensures var b' := Apply(h, b, now, a);
            && (forall x | 0 <= x < |b'.attempts| && (b'.attempts[x].stage.Received? || b'.attempts[x].stage.Duplicate?) ::
                  Delivers(b', x) && now < b'.attempts[x].deliveredAt + h.redelivery)
            && (forall x | 0 <= x < |b'.attempts| && b'.attempts[x].stage.Received? ::
                  now <= b'.attempts[x].deliveredAt + h.claim)
  {
    AttemptsGrow(h, b, now, a);
    var b' := Apply(h, b, now, a);
    forall x | 0 <= x < |b'.attempts| && (b'.attempts[x].stage.Received? || b'.attempts[x].stage.Duplicate?)
      ensures Delivers(b', x) && now < b'.attempts[x].deliveredAt + h.redelivery
      ensures b'.attempts[x].stage.Received? ==> now <= b'.attempts[x].deliveredAt + h.claim
    {
      DeliveryStays(h, b, now, a, x);
    }
  }

  /** The attempt is the message's current delivery, and in time. */
  predicate DeliveredInTime(h: Handling, b: Inbox, now: nat, x: nat) {
    && Delivers(b, x) && now < b.attempts[x].deliveredAt + h.redelivery
    && (b.attempts[x].stage.Received? ==> now <= b.attempts[x].deliveredAt + h.claim)
  }

  lemma DeliveryStays(h: Handling, b: Inbox, now: nat, a: Action, x: nat)
    requires LossFree(h) && Enabled(h, b, now, a) && Consistent(b) && Pending(h, b, now)
    requires |b.works| == 0 && x < |Apply(h, b, now, a).attempts|
    requires var stage := Apply(h, b, now, a).attempts[x].stage; stage.Received? || stage.Duplicate?
    ensures DeliveredInTime(h, Apply(h, b, now, a), now, x)
  {
    if a.Arrive? || a.Deliver? || a.DeadLetter? {
      DeliveryAfterBroker(h, b, now, a, x);
    } else {
      DeliveryAfterAttempt(h, b, now, a, x);
    }
  }

  lemma DeliveryAfterBroker(h: Handling, b: Inbox, now: nat, a: Action, x: nat)
    requires LossFree(h) && Enabled(h, b, now, a) && Pending(h, b, now) && (a.Arrive? || a.Deliver? || a.DeadLetter?)
    requires x < |Apply(h, b, now, a).attempts|
    requires var stage := Apply(h, b, now, a).attempts[x].stage; stage.Received? || stage.Duplicate?
    requires Consistent(b)
    ensures DeliveredInTime(h, Apply(h, b, now, a), now, x)
  {
    if x < |b.attempts| {
      assert b.attempts[x].stage.Received? || b.attempts[x].stage.Duplicate?;
      assert Delivers(b, x);
    }
  }

  lemma DeliveryAfterAttempt(h: Handling, b: Inbox, now: nat, a: Action, x: nat)
    requires LossFree(h) && Enabled(h, b, now, a) && Consistent(b) && Pending(h, b, now)
    requires |b.works| == 0 && !a.Arrive? && !a.Deliver? && !a.DeadLetter? && x < |Apply(h, b, now, a).attempts|
    requires var stage := Apply(h, b, now, a).attempts[x].stage; stage.Received? || stage.Duplicate?
    ensures DeliveredInTime(h, Apply(h, b, now, a), now, x)
  {
    if a.Ack? || a.Nack? || a.Crash? {
      DeliveryAfterEnd(h, b, now, a, x);
    } else {
      assert b.attempts[x].stage.Received? || b.attempts[x].stage.Duplicate?;
      assert Delivers(b, x);
    }
  }

  /** A nack that takes effect comes from the current delivery: an older one's comes too late. */
  lemma NackIsCurrent(h: Handling, b: Inbox, now: nat, x: nat, late: bool)
    requires LossFree(h) && Enabled(h, b, now, Nack(x, late)) && Pending(h, b, now)
    ensures Apply(h, b, now, Nack(x, late)) == Apply(h, b, now, Nack(x, false))
  {
    assert CurrentOrOld(h, b, now, x);
  }

  lemma StaysCurrentOrOld(h: Handling, b: Inbox, now: nat, a: Action, x: nat)
    requires LossFree(h) && Enabled(h, b, now, a) && Consistent(b) && Pending(h, b, now)
    requires |b.works| == 0 && x < |Apply(h, b, now, a).attempts|
    ensures CurrentOrOld(h, Apply(h, b, now, a), now, x)
  {
    if x < |b.attempts| {
      assert CurrentOrOld(h, b, now, x);
      if a.Arrive? || a.Deliver? || a.DeadLetter? {
        CurrentAfterBroker(h, b, now, a, x);
      } else if a.Ack? || a.Nack? || a.Crash? {
        CurrentAfterEnd(h, b, now, a, x);
      }
    }
  }

  lemma CurrentAfterBroker(h: Handling, b: Inbox, now: nat, a: Action, x: nat)
    requires Enabled(h, b, now, a) && Consistent(b) && (a.Arrive? || a.Deliver? || a.DeadLetter?)
    requires CurrentOrOld(h, b, now, x)
    ensures CurrentOrOld(h, Apply(h, b, now, a), now, x)
  {
  }

  lemma CurrentAfterEnd(h: Handling, b: Inbox, now: nat, a: Action, x: nat)
    requires LossFree(h) && Enabled(h, b, now, a) && Consistent(b) && Pending(h, b, now)
    requires |b.works| == 0 && (a.Ack? || a.Nack? || a.Crash?) && CurrentOrOld(h, b, now, x)
    ensures CurrentOrOld(h, Apply(h, b, now, a), now, x)
  {
    if a.Ack? {
      assert Delivers(b, a.x);
    } else if a.Nack? {
      NackIsCurrent(h, b, now, a.x, a.late);
    }
  }

  /** The end of another attempt leaves this one's message alone: an ack comes only from its current delivery. */
  lemma DeliveryAfterEnd(h: Handling, b: Inbox, now: nat, a: Action, x: nat)
    requires LossFree(h) && Enabled(h, b, now, a) && Consistent(b) && Pending(h, b, now)
    requires |b.works| == 0 && (a.Ack? || a.Nack? || a.Crash?) && x < |Apply(h, b, now, a).attempts|
    requires var stage := Apply(h, b, now, a).attempts[x].stage; stage.Received? || stage.Duplicate?
    ensures DeliveredInTime(h, Apply(h, b, now, a), now, x)
  {
    assert b.attempts[x].stage.Received? || b.attempts[x].stage.Duplicate?;
    assert Delivers(b, x);
    if a.Ack? {
      assert Delivers(b, a.x);
    } else if a.Nack? {
      NackIsCurrent(h, b, now, a.x, a.late);
    }
  }

  /** The live claim's owner is handling its message, or crashed, and its claim ends before the message comes back. */
  predicate ClaimInTime(h: Handling, b: Inbox, now: nat) {
    Live(b, now) ==>
      && Delivers(b, b.marker.value.owner)
      && b.marker.value.expiresAt <= b.attempts[b.marker.value.owner].deliveredAt + h.redelivery
      && var stage := b.attempts[b.marker.value.owner].stage; stage.Working? || stage.Thrown? || stage.Gone?
  }

  lemma ClaimStays(h: Handling, b: Inbox, now: nat, a: Action)
    requires LossFree(h) && Enabled(h, b, now, a) && Consistent(b) && Pending(h, b, now)
    requires |b.works| == 0 && |Apply(h, b, now, a).works| == 0
    ensures ClaimInTime(h, Apply(h, b, now, a), now)
  {
    if a.Arrive? || a.Deliver? || a.DeadLetter? {
      ClaimAfterBroker(h, b, now, a);
    } else if a.Ack? {
      assert Delivers(b, a.x);
    } else if a.Nack? {
      NackIsCurrent(h, b, now, a.x, a.late);
    }
  }

  lemma ClaimAfterBroker(h: Handling, b: Inbox, now: nat, a: Action)
    requires LossFree(h) && Enabled(h, b, now, a) && Consistent(b) && Pending(h, b, now)
    requires a.Arrive? || a.Deliver? || a.DeadLetter?
    ensures ClaimInTime(h, Apply(h, b, now, a), now)
  {
  }

  lemma KeptStep(h: Handling, s: State, e: Event)
    requires LossFree(h) && Allowed(h, s, e) && Kept(h, s.b, s.now)
    ensures Kept(h, Next(h, s, e).b, Next(h, s, e).now)
  {
    if e.Do? {
      ConsistentStep(h, s.b, s.now, e.a);
      if |Next(h, s, e).b.works| == 0 {
        HopeStays(h, s.b, s.now, e.a);
        DeliveriesStay(h, s.b, s.now, e.a);
        ClaimStays(h, s.b, s.now, e.a);
        forall x | 0 <= x < |Next(h, s, e).b.attempts|
          ensures CurrentOrOld(h, Next(h, s, e).b, s.now, x)
        {
          StaysCurrentOrOld(h, s.b, s.now, e.a, x);
        }
      }
    } else {
      forall x | 0 <= x < |s.b.attempts|
        ensures Patient(h, s.b.attempts[x], s.now + e.ms)
        ensures |s.b.works| == 0 ==> CurrentOrOld(h, s.b, s.now + e.ms, x)
      {
        assert |s.b.works| == 0 ==> CurrentOrOld(h, s.b, s.now, x);
      }
    }
  }

  lemma {:induction false} KeptRun(h: Handling, s: State, events: seq<Event>)
    requires LossFree(h) && Legal(h, s, events) && Kept(h, s.b, s.now)
    ensures Kept(h, Run(h, s, events).b, Run(h, s, events).now)
    decreases |events|
  {
    if |events| > 0 {
      KeptStep(h, s, events[0]);
      KeptRun(h, Next(h, s, events[0]), events[1..]);
    }
  }

  /** Its work succeeded, or the broker still holds a message of it: undelivered, unacked or dead-lettered. */
  predicate NotLost(b: Inbox) {
    |b.messages| > 0 ==> |b.works| > 0 || exists m | 0 <= m < |b.messages| :: !b.messages[m].Acked?
  }

  lemma NoEventIsLost(h: Handling, s: State)
    requires LossFree(h) && Reachable(h, s)
    ensures NotLost(s.b)
  {
    var events :| Legal(h, START, events) && Run(h, START, events) == s;
    KeptRun(h, START, events);
    if |s.b.works| == 0 && |s.b.messages| > 0 {
      var m :| Hopeful(s.b, m);
    }
  }

  // ------------------------------------------------------------ The converse

  /** Attempt 0 has claimed the event's first message `late` ms after its delivery at time 0. */
  lemma FirstClaim(h: Handling, late: nat) returns (s: State)
    requires late <= h.claim
    ensures Reachable(h, s)
    ensures s == State(late, Inbox([Outstanding(0, 0, 0)], [Attempt(0, 0, 0, Working(late))],
                                   Some(Marker(0, late + CLAIM_TTL_MS)), []))
  {
    Start(h);
    var s1 := Step(h, START, Do(Arrive));
    assert s1.b.messages == [Queued(0, 0)];
    var s2 := Step(h, s1, Do(Deliver(0)));
    var s3 := Step(h, s2, Tick(late));
    s := Step(h, s3, Do(Claim(0)));
    assert s.b.attempts == [Attempt(0, 0, 0, Working(late))];
  }

  /** A failed attempt nacked its message but its claim is still in the store. */
  lemma NackedUnreleased(h: Handling) returns (s: State)
    requires !h.releases
    ensures Reachable(h, s)
    ensures s == State(0, Inbox([Queued(1_000, 1)], [Attempt(0, 0, 0, Gone)], Some(Marker(0, CLAIM_TTL_MS)), []))
  {
    var s0 := FirstClaim(h, 0);
    var s1 := Step(h, s0, Do(Throw(0)));
    var s2 := Step(h, s1, Do(Release(0, false)));
    s := Step(h, s2, Do(Nack(0, false)));
    assert RedeliveryDelay(0) == 1_000;
    assert s.b.messages == [Queued(1_000, 1)] && s.b.attempts == [Attempt(0, 0, 0, Gone)];
  }

  /** The release of a failed attempt never reached the store, so its redelivery is taken for a duplicate. */
  lemma FailedReleaseLoses(h: Handling) returns (s: State)
    requires !h.releases
    ensures Reachable(h, s) && !NotLost(s.b)
  {
    var s0 := NackedUnreleased(h);
    var s1 := Step(h, s0, Tick(1_000));
    s := RedeliveryIsDuplicate(h, s1);
  }

  /** The claim was made but its answer lost, so nobody releases it: the redelivery is taken for a duplicate. */
  lemma UnansweredClaimLoses(h: Handling) returns (s: State)
    requires !h.answers
    ensures Reachable(h, s) && !NotLost(s.b)
  {
    var s0 := NackedUnanswered(h);
    var s1 := Step(h, s0, Tick(1_000));
    s := RedeliveryIsDuplicate(h, s1);
  }

  lemma NackedUnanswered(h: Handling) returns (s: State)
    requires !h.answers
    ensures Reachable(h, s)
    ensures s == State(0, Inbox([Queued(1_000, 1)], [Attempt(0, 0, 0, Gone)], Some(Marker(0, CLAIM_TTL_MS)), []))
  {
    Start(h);
    var s1 := Step(h, START, Do(Arrive));
    assert s1.b.messages == [Queued(0, 0)];
    var s2 := Step(h, s1, Do(Deliver(0)));
    var s3 := Step(h, s2, Do(ClaimError(0, true)));
    s := Step(h, s3, Do(Nack(0, false)));
    assert RedeliveryDelay(0) == 1_000;
    assert s.b.messages == [Queued(1_000, 1)] && s.b.attempts == [Attempt(0, 0, 0, Gone)];
  }

  /** The only message of an event nobody handled comes back while a claim is live, and is acked as a duplicate. */
  lemma RedeliveryIsDuplicate(h: Handling, s: State) returns (s': State)
    requires Reachable(h, s) && Live(s.b, s.now) && s.b.works == []
    requires s.b.attempts == [Attempt(0, 0, 0, Gone)] && s.b.messages == [Queued(1_000, 1)] && 1_000 <= s.now
    ensures Reachable(h, s') && !NotLost(s'.b)
  {
    var s1 := Step(h, s, Do(Deliver(0)));
    var s2 := Step(h, s1, Do(Claim(1)));
    assert s2.b.attempts[1].stage == Duplicate;
    s' := Step(h, s2, Do(Ack(1)));
  }

  /** A crashed attempt whose claim outlives the wait for redelivery still blocks it. */
  lemma LateClaimLoses(h: Handling) returns (s: State)
    requires h.redelivery < h.claim + CLAIM_TTL_MS
    ensures Reachable(h, s) && !NotLost(s.b)
  {
    var late := if h.claim < h.redelivery then h.claim else h.redelivery;
    var s0 := FirstClaim(h, late);
    var s1 := Step(h, s0, Do(Crash(0)));
    assert s1.b.attempts == [Attempt(0, 0, 0, Gone)];
    var s2 := Step(h, s1, Tick(h.redelivery - late));
    s := HandedOutToDuplicate(h, s2);
  }

  /** The only message of an event nobody handled is handed out again while a claim is live, and acked. */
  lemma HandedOutToDuplicate(h: Handling, s: State) returns (s': State)
    requires Reachable(h, s) && Live(s.b, s.now) && s.b.works == []
    requires s.b.attempts == [Attempt(0, 0, 0, Gone)] && s.b.messages == [Outstanding(0, 0, 0)] && h.redelivery <= s.now
    ensures Reachable(h, s') && !NotLost(s'.b)
  {
    var s1 := Step(h, s, Do(Deliver(0)));
    var s2 := Step(h, s1, Do(Claim(1)));
    assert s2.b.attempts[1].stage == Duplicate;
    s' := Step(h, s2, Do(Ack(1)));
  }

  /** Two messages of one event: attempt 1 was told "duplicate" of attempt 0, which then failed. */
  lemma DuplicateOutlivesClaim(h: Handling) returns (s: State)
    ensures Reachable(h, s)
    ensures s.now == 0 && s.b.works == [] && s.b.marker == None
    ensures s.b.messages == [Queued(1_000, 1), Outstanding(1, 0, 0)]
    ensures s.b.attempts == [Attempt(0, 0, 0, Gone), Attempt(1, 0, 0, Duplicate)]
  {
    var s0 := FirstClaim(h, 0);
    var s1 := Step(h, s0, Do(Arrive));
    var s2 := Step(h, s1, Do(Deliver(1)));
    var s3 := Step(h, s2, Do(Claim(1)));
    var s4 := Step(h, s3, Do(Throw(0)));
    var s5 := Step(h, s4, Do(Release(0, true)));
    assert RedeliveryDelay(0) == 1_000;
    s := Step(h, s5, Do(Nack(0, false)));
  }

  /** Its ack comes after its own redelivery has claimed; both messages end acked and nothing worked. */
  lemma LateAckLoses(h: Handling) returns (s: State)
    requires h.redelivery <= h.ack && CLAIM_TTL_MS <= h.redelivery
    ensures Reachable(h, s) && !NotLost(s.b)
  {
    var s0 := DuplicateOutlivesClaim(h);
    var s1 := Step(h, s0, Tick(h.redelivery));
    var s2 := Step(h, s1, Do(Deliver(1)));
    var s3 := Step(h, s2, Do(Claim(2)));
    assert Live(s3.b, s3.now) && s3.b.attempts[1] == Attempt(1, 0, 0, Duplicate);
    s := DuplicateAcksBoth(h, s3);
  }

  /** The other message comes back while that claim is live, and is a duplicate too. */
  lemma DuplicateAcksBoth(h: Handling, s: State) returns (s': State)
    requires Reachable(h, s) && |s.b.messages| == 2 && s.b.works == [] && |s.b.attempts| == 3
    requires Live(s.b, s.now) && s.b.attempts[1] == Attempt(1, 0, 0, Duplicate)
    requires s.b.messages[0].Queued? && s.b.messages[0].readyAt <= s.now && s.b.messages[1].Outstanding?
    ensures Reachable(h, s') && !NotLost(s'.b)
  {
    var s1 := Step(h, s, Do(Deliver(0)));
    var s2 := Step(h, s1, Do(Claim(3)));
    assert s2.b.attempts[3].stage == Duplicate;
    s' := AckBoth(h, s2);
  }

  lemma AckBoth(h: Handling, s: State) returns (s': State)
    requires Reachable(h, s) && |s.b.messages| == 2 && s.b.works == [] && |s.b.attempts| == 4
    requires forall m | 0 <= m < 2 :: !s.b.messages[m].DeadLettered?
    requires s.b.attempts[1].stage == Duplicate && s.b.attempts[1].message == 1
    requires s.b.attempts[3].stage == Duplicate && s.b.attempts[3].message == 0
    ensures Reachable(h, s') && !NotLost(s'.b)
  {
    var s1 := Step(h, s, Do(Ack(1)));
    assert s1.b.messages[1] == Acked;
    s' := Step(h, s1, Do(Ack(3)));
    assert s'.b.messages == [Acked, Acked];
  }

  /** Attempt 0 outlived its claim and the redelivery: attempt 1 has claimed, and attempt 0 has failed. */
  lemma FailedAfterRedelivery(h: Handling) returns (s: State)
    requires CLAIM_TTL_MS <= h.redelivery
    ensures Reachable(h, s) && s.now == h.redelivery
    ensures s.b == Inbox([Outstanding(1, s.now, 1)],
                         [Attempt(0, 0, 0, Refused(s.now)), Attempt(0, s.now, 1, Working(s.now))],
                         Some(Marker(1, s.now + CLAIM_TTL_MS)), [])
  {
    var s0 := FirstClaim(h, 0);
    var s1 := Step(h, s0, Tick(h.redelivery));
    var s2 := Step(h, s1, Do(Deliver(0)));
    var s3 := Step(h, s2, Do(Claim(1)));
    var s4 := Step(h, s3, Do(Throw(0)));
    s := Step(h, s4, Do(Release(0, true)));
    assert s.b.attempts == [Attempt(0, 0, 0, Refused(s.now)), Attempt(0, s.now, 1, Working(s.now))];
  }

  /**
   * The nack of attempt 0 takes the message from attempt 1 and hands it out
   * again; inside attempt 1's claim that is a duplicate, and it is acked.
   * Attempt 1 has not worked yet, and when it fails nothing is left to redeliver.
   */
  lemma LateNackLoses(h: Handling) returns (s: State)
    requires h.lateNack.Some? && CLAIM_TTL_MS <= h.redelivery <= h.lateNack.value
    ensures Reachable(h, s) && !NotLost(s.b) && |s.b.attempts| == 3 && s.b.attempts[1].stage.Working?
  {
    var s0 := FailedAfterRedelivery(h);
    var s1 := Step(h, s0, Do(Nack(0, true)));
    assert RedeliveryDelay(0) == 1_000;
    assert s1.b.messages == [Queued(s0.now + 1_000, 2)];
    var s2 := Step(h, s1, Tick(1_000));
    var s3 := Step(h, s2, Do(Deliver(0)));
    var s4 := Step(h, s3, Do(Claim(2)));
    assert s4.b.attempts[2].stage == Duplicate;
    s := Step(h, s4, Do(Ack(2)));
    assert s.b.messages == [Acked];
  }

  /**
   * No received event is lost in any run exactly when releases succeed, failed
   * claim calls made no claim, every claim has expired and every duplicate is
   * acked by the time its message can be handed out again, and no nack takes
   * a message from a later delivery.
   */
  lemma NoLossExactly(h: Handling)
    ensures (forall s | Reachable(h, s) :: NotLost(s.b)) <==> LossFree(h)
  {
    if LossFree(h) {
      forall s | Reachable(h, s)
        ensures NotLost(s.b)
      {
        NoEventIsLost(h, s);
      }
    } else if !h.releases {
      var s := FailedReleaseLoses(h);
    } else if !h.answers {
      var s := UnansweredClaimLoses(h);
    } else if h.redelivery < h.claim + CLAIM_TTL_MS {
      var s := LateClaimLoses(h);
    } else if h.redelivery <= h.ack {
      var s := LateAckLoses(h);
    } else {
      var s := LateNackLoses(h);
    }
  }

  /**
   * Where unanswered messages wait for the ack timeout: claims within 30 s of
   * delivery, acks of duplicates and nacks that still count within 60 s.
   */
  lemma NoLossAtTheAckTimeout(h: Handling)
    requires h.redelivery == ACK_TIMEOUT_MS
    ensures (forall s | Reachable(h, s) :: NotLost(s.b)) <==>
            h.releases && h.answers && h.claim <= 30_000 && h.ack < 60_000
            && (h.lateNack.Some? ==> h.lateNack.value < 60_000)
  {
    NoLossExactly(h);
  }

  /** An attempt whose claim is no longer its own changes nobody's marker. */
  lemma StaleAttemptIsHarmless(h: Handling, b: Inbox, now: nat, a: Action)
    requires Enabled(h, b, now, a) && (a.Extend? || a.Release?)
    requires b.marker.Some? && b.marker.value.owner != a.x
    ensures Apply(h, b, now, a).marker == b.marker
  {
  }
}
