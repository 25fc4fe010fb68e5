/**
 * What the steps of ConsumerProtocol leave behind, said of the fields they
 * write: the marker, the attempt and the message, with the delays in figures.
 */
module ConsumerEffects {
  import opened Wrappers
  import opened Doubling
  import opened ConsumerProtocol

  const DELAYS := [1_000, 2_000, 4_000, 8_000, 16_000]

  /** The delay doubles from 1 s and stays at 30 s from the sixth redelivery on. */
  lemma {:induction false} RedeliveryDelayExactly(n: nat)
    ensures RedeliveryDelay(n) == if n < 5 then DELAYS[n] else 30_000
  {
    DoublesExactly(n);
  }

  lemma {:induction false} DoublesExactly(n: nat)
    ensures n < 5 ==> Doubled(1_000, n) == DELAYS[n]
    ensures n >= 5 ==> Doubled(1_000, n) >= 32_000
  {
    if n > 0 {
      DoublesExactly(n - 1);
    }
  }

  /** The marker is live up to but not at its expiry. */
  predicate Taken(b: Inbox, now: nat) {
    b.marker.Some? && now < b.marker.value.expiresAt
  }

  predicate OwnedBy(b: Inbox, now: nat, x: nat) {
    Taken(b, now) && b.marker.value.owner == x
  }

  /** A claim finds a live marker and changes nothing, or makes its own for 30 s. */
  lemma ClaimExactly(h: Handling, b: Inbox, now: nat, x: nat)
    requires Enabled(h, b, now, Claim(x))
    ensures var b' := Apply(h, b, now, Claim(x));
            && (Taken(b, now) ==> b'.attempts[x].stage == Duplicate && b'.marker == b.marker)
            && (!Taken(b, now) ==> b'.attempts[x].stage == Working(now) && b'.marker == Some(Marker(x, now + 30_000)))
            && b'.messages == b.messages && b'.works == b.works
  {
  }

  /** An extend that reaches the store gives the owner's live marker the seen window, and any other marker nothing. */
  lemma ExtendExactly(h: Handling, b: Inbox, now: nat, x: nat, reached: bool)
    requires Enabled(h, b, now, Extend(x, reached))
    ensures var b' := Apply(h, b, now, Extend(x, reached));
            && b'.attempts[x].stage == Handled && b'.messages == b.messages
            && b'.marker == if reached && OwnedBy(b, now, x) then Some(Marker(x, now + h.seenTtl)) else b.marker
  {
  }

  /** A release that reaches the store drops the owner's live marker, and no other. */
  lemma ReleaseExactly(h: Handling, b: Inbox, now: nat, x: nat, reached: bool)
    requires Enabled(h, b, now, Release(x, reached))
    ensures var b' := Apply(h, b, now, Release(x, reached));
            && b'.attempts[x].stage == Refused(now) && b'.messages == b.messages && b'.works == b.works
            && b'.marker == if reached && OwnedBy(b, now, x) then None else b.marker
  {
  }

  /** Only the current delivery of a message counts, or a late one that still does: it comes back, at most ten times. */
  lemma NackExactly(h: Handling, b: Inbox, now: nat, x: nat, late: bool)
    requires Enabled(h, b, now, Nack(x, late))
    ensures var b', t := Apply(h, b, now, Nack(x, late)), b.attempts[x];
            var m, m' := b.messages[t.message], b'.messages[t.message];
            && b'.attempts[x].stage == Gone && b'.marker == b.marker
            && (!(m.Outstanding? && (m.attempt == x || late)) ==> m' == m)
            && (m.Outstanding? && (m.attempt == x || late) && m.redeliveries >= 10 ==> m' == DeadLettered)
            && (m.Outstanding? && (m.attempt == x || late) && m.redeliveries < 10 ==>
                  m' == Queued(t.stage.failedAt + (if t.redeliveries < 5 then DELAYS[t.redeliveries] else 30_000), m.redeliveries + 1))
            && forall i | 0 <= i < |b.messages| && i != t.message :: b'.messages[i] == b.messages[i]
  {
    RedeliveryDelayExactly(b.attempts[x].redeliveries);
  }

  /** An ack takes its message, whoever holds it, unless it is dead-lettered. */
  lemma AckExactly(h: Handling, b: Inbox, now: nat, x: nat)
    requires Enabled(h, b, now, Ack(x))
    ensures var b', n := Apply(h, b, now, Ack(x)), b.attempts[x].message;
            && b'.messages[n] == (if b.messages[n] == DeadLettered then DeadLettered else Acked)
            && (forall i | 0 <= i < |b.messages| && i != n :: b'.messages[i] == b.messages[i])
            && b'.attempts[x].stage == Gone && b'.marker == b.marker && b'.works == b.works
  {
  }

  /** A delivery opens one attempt; only a message that went unanswered counts another redelivery. */
  lemma DeliverExactly(h: Handling, b: Inbox, now: nat, m: nat)
    requires Enabled(h, b, now, Deliver(m))
    ensures var b' := Apply(h, b, now, Deliver(m));
            var n := b.messages[m].redeliveries + if b.messages[m].Outstanding? then 1 else 0;
            && b'.attempts == b.attempts + [Attempt(m, now, n, Received)]
            && b'.messages == b.messages[m := Outstanding(|b.attempts|, now, n)]
            && b'.marker == b.marker && b'.works == b.works
  {
  }

  /** Work that succeeds is on record with its claim and its end; work that throws is not. */
  lemma WorkExactly(h: Handling, b: Inbox, now: nat, x: nat)
    ensures Enabled(h, b, now, Finish(x)) ==>
              Apply(h, b, now, Finish(x)).works == b.works + [Work(x, b.attempts[x].stage.claimedAt, now, None)]
    ensures Enabled(h, b, now, Throw(x)) ==>
              Apply(h, b, now, Throw(x)).works == b.works && Apply(h, b, now, Throw(x)).attempts[x].stage.Thrown?
  {
  }

  /** A message arrives unread; one that went unanswered too often is dead-lettered. */
  lemma BrokerExactly(h: Handling, b: Inbox, now: nat, m: nat)
    ensures Apply(h, b, now, Arrive) == b.(messages := b.messages + [Queued(now, 0)])
    ensures Enabled(h, b, now, DeadLetter(m)) ==>
              && b.messages[m].Outstanding? && b.messages[m].redeliveries >= 10 && b.messages[m].since + h.redelivery <= now
              && Apply(h, b, now, DeadLetter(m)) == b.(messages := b.messages[m := DeadLettered])
    ensures Enabled(h, b, now, Deliver(m)) && b.messages[m].Outstanding? ==>
              b.messages[m].redeliveries < 10 && b.messages[m].since + h.redelivery <= now
  {
  }
}
