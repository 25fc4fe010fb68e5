/**
 * The relay's loops as code. RelayAggregate runs against the shared state of
 * one aggregate: each of its own actions is one step of OutboxProtocol, and at
 * each await the rest of the system may take any number of legal steps. So
 * whatever holds in every run of the protocol holds of this code.
 */
module OutboxRelay {
  import opened Wrappers
  import opened OutboxRows
  import opened OutboxProtocol
  import opened OutboxInvariants
  import opened OutboxLease
  import opened OutboxBudget
  import opened OutboxWakeUp

  const AGGREGATES_PER_POLL := 50

  /** How relayAggregate ends; THREW when reading the head row fails. */
  datatype AggregateOutcome = HELD | RELAYED | DRAINED | LOCK_DOWN | MESSAGING_DISABLED | THREW

  /** What the next turn of the loop finds: a row it may publish, none, or a failed read. */
  datatype Turn = TAKEN | NOTHING | READ_FAILED

  datatype PublishOutcome = PUBLISHED | FAILED_PUBLISH | DISABLED

  /** How a publish ends; a timeout is a rejection. */
  datatype BrokerAnswer = RESOLVES | REJECTS | IS_DISABLED

  /** What an acquire comes to. */
  datatype Acquired = OURS(k: nat) | THEIRS | UNAVAILABLE

  /** The answer to an acquire; a store that is down may have taken the lease all the same. */
  datatype LockAnswer = ANSWERS | IS_DOWN(taken: bool)

  /** Which calls of a settle get through: the head read, the row read, the write. */
  datatype SettleCalls = SettleCalls(headAnswered: bool, rowAnswered: bool, written: bool)
  {
    predicate All() {
      headAnswered && rowAnswered && written
    }
  }

  /** How an update of a row ends: answered, or the call fails before or after the write. */
  datatype StoreAnswer = WRITTEN | WRITTEN_UNANSWERED | NOT_WRITTEN

  /** What session `k` has done: publishes resolved and marked dispatched, and head reads that failed. */
  datatype Tally = Tally(relayed: nat, gaveUp: nat)

  function Tallied(t: Tally, e: Event, k: nat): Tally {
    if e == Do(MarkDispatched(k, true, true)) then t.(relayed := t.relayed + 1)
    else if e == Do(GiveUp(k)) then t.(gaveUp := t.gaveUp + 1)
    else t
  }

  function TallyOf(events: seq<Event>, k: nat): Tally
    decreases |events|
  {
    if |events| == 0 then Tally(0, 0) else Tallied(TallyOf(events[..|events| - 1], k), events[|events| - 1], k)
  }

  lemma TallyOneMore(events: seq<Event>, e: Event)
    ensures forall k: nat :: TallyOf(events + [e], k) == Tallied(TallyOf(events, k), e, k)
  {
    assert (events + [e])[..|events|] == events;
  }

  class AggregateRelay {
    const timing: Timing
    var s: State
    ghost var trace: seq<Event>

    ghost predicate Valid()
      reads this
    {
      !timing.serialSettles && Legal(timing, START, trace) && Run(START, trace) == s
    }

    /** Under any timing, but nothing in the code makes one settle wait for another. */
    constructor (timing: Timing)
      requires !timing.serialSettles
      ensures Valid() && s == START && trace == [] && this.timing == timing
    {
      this.timing := timing;
      s, trace := START, [];
    }

    /** One step of this relay. */
    method Take(a: Action)
      requires Valid() && Enabled(timing, s.g, s.now, a)
      modifies this
      ensures Valid() && trace == old(trace) + [Do(a)] && s == Next(old(s), Do(a))
      ensures forall k: nat :: TallyOf(trace, k) == Tallied(TallyOf(old(trace), k), Do(a), k)
    {
      TallyOneMore(trace, Do(a));
      RunThen(timing, START, trace, Do(a));
      trace := trace + [Do(a)];
      s := s.(g := Apply(s.g, s.now, a));
    }

    /**
     * An await of session `k`: the clock and everyone else may move, the
     * session stays where it is. The contract is all a caller knows of it.
     */
    method Await(k: nat)
      requires Valid() && k in s.g.sessions
      modifies this
      ensures Valid() && old(trace) <= trace
      ensures k in s.g.sessions && s.g.sessions[k] == old(s.g.sessions[k])
      ensures TallyOf(trace, k) == TallyOf(old(trace), k) && old(s.now) <= s.now
    {
    }

    /** Everyone else, while this relay works on other aggregates. */
    method Others()
      requires Valid()
      modifies this
      ensures Valid() && old(trace) <= trace && old(s.now) <= s.now
    {
    }

    /** `e` is a step taken since the trace was `before`. */
    ghost predicate Since(before: seq<Event>, e: Event)
      reads this
    {
      before <= trace && e in trace[|before|..]
    }

    function SettleEvent(k: nat, answered: bool, time: nat): Event {
      Do(if answered then SettleWrite(k, time) else SettleFail(k))
    }

    /** The settle wrote the head, or gave up because a call failed. */
    ghost predicate SettledAs(before: seq<Event>, k: nat, answered: bool, time: nat)
      reads this
    {
      Since(before, SettleEvent(k, answered, time))
    }

    /** At some point of `events` after the first `from`, session `k` was there and past its time to settle. */
    ghost predicate LateIn(from: nat, events: seq<Event>, k: nat) {
      exists i: nat | from <= i <= |events| :: Late(Run(START, events[..i]), k)
    }

    ghost predicate Late(s: State, k: nat) {
      k in s.g.sessions && !InTime(timing, s.g, s.now, k)
    }

    lemma LateStays(from: nat, later: nat, events: seq<Event>, more: seq<Event>, k: nat)
      requires from <= later && events <= more && LateIn(later, events, k)
      ensures LateIn(from, more, k)
    {
      var i: nat :| later <= i <= |events| && Late(Run(START, events[..i]), k);
      assert more[..i] == events[..i];
    }

    lemma SinceEarlier(before: seq<Event>, later: seq<Event>, e: Event)
      requires before <= later && Since(later, e)
      ensures Since(before, e)
    {
      var i :| 0 <= i < |trace| - |later| && trace[|later|..][i] == e;
      assert trace[|before|..][i + |later| - |before|] == e;
    }

    lemma StillSince(before: seq<Event>, midway: seq<Event>, e: Event)
      requires before <= midway <= trace && e in midway[|before|..]
      ensures Since(before, e)
    {
      var i :| 0 <= i < |midway| - |before| && midway[|before|..][i] == e;
      assert trace[|before|..][i] == e;
    }

    /** The broker refused, or PUBLISH_TIMEOUT_MS went by: the failure is recorded if the store takes it. */
    method RecordFailure(k: nat, store: StoreAnswer) returns (ghost time: nat)
      requires Valid() && k in s.g.sessions && s.g.sessions[k].Publishing?
      modifies this
      ensures Valid() && old(trace) <= trace && k in s.g.sessions && s.g.sessions[k] == Closing
      ensures TallyOf(trace, k) == TallyOf(old(trace), k)
      ensures old(s.now) <= time && Since(old(trace), Do(MarkFailed(k, store != NOT_WRITTEN, time)))
    {
      Take(Reject(k));
      Await(k);
      var readAt := s.now;
      Await(k);
      Take(MarkFailed(k, store != NOT_WRITTEN, readAt));
      assert trace[|trace| - 1] == Do(MarkFailed(k, store != NOT_WRITTEN, readAt));
      time := readAt;
    }

    /** The event is out: marks the row, which stays open and is published again if the store does not take the mark. */
    method RecordSuccess(k: nat, store: StoreAnswer)
      requires Valid() && k in s.g.sessions && s.g.sessions[k].Publishing?
      modifies this
      ensures Valid() && old(trace) <= trace && k in s.g.sessions
      ensures s.g.sessions[k] == if store == WRITTEN then AfterRow(old(s.g.sessions[k].i)) else Closing
      ensures var t := TallyOf(old(trace), k); TallyOf(trace, k) == if store == WRITTEN then t.(relayed := t.relayed + 1) else t
      ensures Since(old(trace), Do(MarkDispatched(k, store != NOT_WRITTEN, store == WRITTEN)))
    {
      Take(Resolve(k));
      Await(k);
      Take(MarkDispatched(k, store != NOT_WRITTEN, store == WRITTEN));
      assert trace[|trace| - 1] == Do(MarkDispatched(k, store != NOT_WRITTEN, store == WRITTEN));
    }

    /** Publishes the row of a renewed session and marks the outcome. */
    method Publish(k: nat, broker: BrokerAnswer, store: StoreAnswer) returns (outcome: PublishOutcome, ghost failedAt: nat)
      requires Valid() && k in s.g.sessions && s.g.sessions[k].Renewed?
      modifies this
      ensures Valid() && old(trace) <= trace && k in s.g.sessions
      ensures outcome == match broker {
                case RESOLVES => if store == WRITTEN then PUBLISHED else FAILED_PUBLISH
                case REJECTS => FAILED_PUBLISH
                case IS_DISABLED => DISABLED }
      ensures s.g.sessions[k] == if outcome == PUBLISHED then AfterRow(old(s.g.sessions[k].i)) else Closing
      ensures var t := TallyOf(old(trace), k); TallyOf(trace, k) == if outcome == PUBLISHED then t.(relayed := t.relayed + 1) else t
      ensures broker == RESOLVES ==> Since(old(trace), Do(MarkDispatched(k, store != NOT_WRITTEN, store == WRITTEN)))
      ensures broker == REJECTS ==> old(s.now) <= failedAt && Since(old(trace), Do(MarkFailed(k, store != NOT_WRITTEN, failedAt)))
    {
      failedAt := s.now;
      Take(Begin(k));
      Await(k);
      ghost var begun := trace;
      match broker
      case RESOLVES =>
        RecordSuccess(k, store);
        SinceEarlier(old(trace), begun, Do(MarkDispatched(k, store != NOT_WRITTEN, store == WRITTEN)));
        outcome := if store == WRITTEN then PUBLISHED else FAILED_PUBLISH;
      case REJECTS =>
        failedAt := RecordFailure(k, store);
        SinceEarlier(old(trace), begun, Do(MarkFailed(k, store != NOT_WRITTEN, failedAt)));
        outcome := FAILED_PUBLISH;
      case IS_DISABLED =>
        Take(Disabled(k));
        outcome := DISABLED;
    }

    /** Reads the head, then the oldest open row. */
    method ReadForSettle(k: nat, rowAnswered: bool)
      requires Valid() && k in s.g.sessions && s.g.sessions[k] == Closing && InTime(timing, s.g, s.now, k)
      modifies this
      ensures Valid() && old(trace) <= trace && k in s.g.sessions && TallyOf(trace, k) == TallyOf(old(trace), k)
      ensures if rowAnswered then s.g.sessions[k].Retiring? || s.g.sessions[k].Requeuing? else s.g.sessions[k].HeadRead?
    {
      Take(SettleReadHead(k));
      Await(k);
      if rowAnswered {
        Take(SettleReadRow(k));
      }
    }

    /**
     * Re-derives the head in three awaited calls; any of them may fail, and does
     * if it comes later than the timing lets a settle take. The head is written
     * exactly if none does.
     */
    method Settle(k: nat, calls: SettleCalls) returns (settled: bool)
      requires Valid() && k in s.g.sessions && s.g.sessions[k] == Closing
      modifies this
      ensures Valid() && old(trace) <= trace && k in s.g.sessions && s.g.sessions[k] == Releasing
      ensures TallyOf(trace, k) == TallyOf(old(trace), k)
      ensures SettledAs(old(trace), k, settled, s.now)
      ensures settled ==> calls.All()
      ensures calls.All() && !settled ==> LateIn(|old(trace)|, trace, k)
    {
      Await(k);
      settled := false;
      if calls.headAnswered && InTime(timing, s.g, s.now, k) {
        ReadForSettle(k, calls.rowAnswered);
        Await(k);
        settled := calls.rowAnswered && calls.written && InTime(timing, s.g, s.now, k);
      }
      ghost var given := trace;
      Take(if settled then SettleWrite(k, s.now) else SettleFail(k));
      assert trace[..|given|] == given;
      assert trace[|trace| - 1] == SettleEvent(k, settled, s.now);
    }

    /** However the loop ended: settles the head, then releases the lease. */
    method Finally(k: nat, calls: SettleCalls, reached: bool) returns (settled: bool, ghost settledAt: nat)
      requires Valid() && k in s.g.sessions && s.g.sessions[k] == Closing
      modifies this
      ensures Valid() && old(trace) <= trace && k !in s.g.sessions && TallyOf(trace, k) == TallyOf(old(trace), k)
      ensures Since(old(trace), Do(Release(k, reached)))
      ensures SettledAs(old(trace), k, settled, settledAt)
      ensures settled ==> calls.All()
      ensures calls.All() && !settled ==> LateIn(|old(trace)|, trace, k)
    {
      settled := Settle(k, calls);
      settledAt := s.now;
      ghost var closed := trace;
      Await(k);
      Take(Release(k, reached));
      StillSince(old(trace), closed, SettleEvent(k, settled, settledAt));
      if calls.All() && !settled {
        LateStays(|old(trace)|, |old(trace)|, closed, trace, k);
      }
      assert trace[|trace| - 1] == Do(Release(k, reached));
    }

    /** The loop under the lease: at most ROWS_PER_AGGREGATE rows, head row re-read and lease renewed before each. */
    method RelayRows(k: nat) returns (outcome: AggregateOutcome)
      requires Valid() && k in s.g.sessions && s.g.sessions[k] == Looping(0)
      modifies this
      ensures Valid() && old(trace) <= trace && k in s.g.sessions && s.g.sessions[k] == Closing
      ensures outcome in {RELAYED, DRAINED, MESSAGING_DISABLED, THREW}
      ensures TallyOf(trace, k).relayed <= TallyOf(old(trace), k).relayed + 20
      ensures outcome == DRAINED <==> TallyOf(trace, k).relayed == TallyOf(old(trace), k).relayed + 20
      ensures outcome == THREW <==> TallyOf(trace, k).gaveUp > TallyOf(old(trace), k).gaveUp
    {
      var i := 0;
      while i < ROWS_PER_AGGREGATE
        invariant i <= ROWS_PER_AGGREGATE
        invariant Valid() && old(trace) <= trace && k in s.g.sessions
        invariant s.g.sessions[k] == if i < ROWS_PER_AGGREGATE then Looping(i) else Closing
        invariant var t := TallyOf(old(trace), k); TallyOf(trace, k) == t.(relayed := t.relayed + i)
      {
        Await(k);
        var headAnswered: bool, renewAnswered: bool := *, *;
        var turn, judgedAt := ReadAndRenew(k, headAnswered, renewAnswered);
        if turn == READ_FAILED {
          return THREW;
        }
        if turn == NOTHING {
          return RELAYED;
        }
        var broker: BrokerAnswer, store: StoreAnswer := *, *;
        var published, failedAt := Publish(k, broker, store);
        if published == DISABLED {
          return MESSAGING_DISABLED;
        }
        if published == FAILED_PUBLISH {
          return RELAYED;
        }
        i := i + 1;
      }
      outcome := DRAINED;
    }

    /**
     * Reads the head row and renews; nothing when there is none due, or the lease
     * was lost; a failed read is thrown on. A row that is taken on was the head row when it was read and
     * due when that was judged, at `judgedAt`, after the answer came.
     */
    method ReadAndRenew(k: nat, headAnswered: bool, renewAnswered: bool) returns (turn: Turn, ghost judgedAt: nat)
      requires Valid() && k in s.g.sessions && s.g.sessions[k].Looping?
      modifies this
      ensures Valid() && old(trace) <= trace && k in s.g.sessions
      ensures turn == READ_FAILED <==> !headAnswered
      ensures turn == TAKEN ==>
                && renewAnswered
                && s.g.sessions[k].Renewed? && s.g.sessions[k].i == old(s.g.sessions[k].i)
                && HeadOf(old(s.g.rows)) == Some(s.g.sessions[k].row)
                && s.g.sessions[k].seen == old(s.g.rows)[s.g.sessions[k].row]
                && old(s.now) <= judgedAt <= s.now && IsDue(s.g.sessions[k].seen, judgedAt)
      ensures turn != TAKEN ==> s.g.sessions[k] == Closing
      ensures turn == NOTHING && HeadOf(old(s.g.rows)).Some? && IsDue(old(s.g.rows)[HeadOf(old(s.g.rows)).value], old(s.now)) ==>
                Since(old(trace), Do(Renew(k, renewAnswered)))
      ensures var t := TallyOf(old(trace), k); TallyOf(trace, k) == if turn == READ_FAILED then t.(gaveUp := t.gaveUp + 1) else t
    {
      turn, judgedAt := NOTHING, s.now;
      if !headAnswered {
        Take(GiveUp(k));
        turn := READ_FAILED;
        return;
      }
      Take(ReadHead(k));
      if s.g.sessions[k] == Closing {
        return;
      }
      Await(k);
      judgedAt := s.now;
      Take(CheckDue(k));
      if s.g.sessions[k] == Closing {
        return;
      }
      ghost var checked := trace;
      var renewed := RenewHeld(k, renewAnswered);
      SinceEarlier(old(trace), checked, Do(Renew(k, renewAnswered)));
      turn := if renewed then TAKEN else NOTHING;
    }

    /** Renews the lease a row was read under; false when it was lost or the renew is not answered. */
    method RenewHeld(k: nat, answered: bool) returns (renewed: bool)
      requires Valid() && k in s.g.sessions && s.g.sessions[k].Holding?
      modifies this
      ensures Valid() && old(trace) <= trace && k in s.g.sessions && old(s.now) <= s.now
      ensures renewed ==>
                && answered && s.g.sessions[k].Renewed? && s.g.sessions[k].i == old(s.g.sessions[k].i)
                && s.g.sessions[k].row == old(s.g.sessions[k].row) && s.g.sessions[k].seen == old(s.g.sessions[k].seen)
      ensures !renewed ==> s.g.sessions[k] == Closing
      ensures Since(old(trace), Do(Renew(k, answered)))
      ensures TallyOf(trace, k) == TallyOf(old(trace), k)
    {
      Take(Renew(k, answered));
      assert trace[|trace| - 1] == Do(Renew(k, answered));
      if s.g.sessions[k] == Closing {
        return false;
      }
      ghost var asked := trace;
      Await(k);
      StillSince(old(trace), asked, Do(Renew(k, answered)));
      renewed := true;
    }

    method AcquireLease(lock: LockAnswer) returns (lease: Acquired)
      requires Valid()
      modifies this
      ensures Valid() && old(trace) <= trace
      ensures lease == if lock.IS_DOWN? then UNAVAILABLE else if old(Free(s.g, s.now)) then OURS(old(s.g.nextToken)) else THEIRS
      ensures lease.THEIRS? ==> trace == old(trace) && s == old(s)
      ensures lease.UNAVAILABLE? ==>
                && s == (if lock.taken && old(Free(s.g, s.now)) then Next(old(s), Do(Acquire(false))) else old(s))
                && TallyOf(trace, old(s.g.nextToken)) == TallyOf(old(trace), old(s.g.nextToken))
      ensures lease.OURS? ==>
                && lease.k in s.g.sessions && s.g.sessions[lease.k] == Looping(0)
                && TallyOf(trace, lease.k) == TallyOf(old(trace), lease.k)
    {
      if lock.IS_DOWN? {
        if lock.taken && Free(s.g, s.now) {
          Take(Acquire(false));
        }
        return UNAVAILABLE;
      }
      if !Free(s.g, s.now) {
        return THEIRS;
      }
      lease := OURS(s.g.nextToken);
      Take(Acquire(true));
    }

    /** The loop and what follows however it ends, also when it throws. */
    method UnderLease(k: nat, calls: SettleCalls, reached: bool)
      returns (outcome: AggregateOutcome, settled: bool, ghost settledAt: nat)
      requires Valid() && k in s.g.sessions && s.g.sessions[k] == Looping(0)
      modifies this
      ensures Valid() && old(trace) <= trace && k !in s.g.sessions
      ensures outcome in {RELAYED, DRAINED, MESSAGING_DISABLED, THREW}
      ensures Since(old(trace), Do(Release(k, reached)))
      ensures SettledAs(old(trace), k, settled, settledAt)
      ensures settled ==> calls.All()
      ensures calls.All() && !settled ==> LateIn(|old(trace)|, trace, k)
      ensures outcome == DRAINED <==> TallyOf(trace, k).relayed == TallyOf(old(trace), k).relayed + 20
      ensures outcome == THREW <==> TallyOf(trace, k).gaveUp > TallyOf(old(trace), k).gaveUp
    {
      outcome := RelayRows(k);
      ghost var looped := trace;
      settled, settledAt := Finally(k, calls, reached);
      SinceEarlier(old(trace), looped, Do(Release(k, reached)));
      SinceEarlier(old(trace), looped, SettleEvent(k, settled, settledAt));
      if calls.All() && !settled {
        LateStays(|old(trace)|, |looped|, trace, trace, k);
      }
    }

    /**
     * Publishes up to ROWS_PER_AGGREGATE rows while it holds the lease, and
     * settles the head and releases the lease however the loop ends. The head
     * is written if every call of the settle gets through, in time if bounded.
     */
    method RelayAggregate(lock: LockAnswer, calls: SettleCalls, reached: bool)
      returns (outcome: AggregateOutcome, settled: bool, ghost settledAt: nat)
      requires Valid()
      modifies this
      ensures Valid() && old(trace) <= trace
      ensures lock.IS_DOWN? <==> outcome == LOCK_DOWN
      ensures lock.ANSWERS? && !old(Free(s.g, s.now)) <==> outcome == HELD
      ensures outcome == HELD ==> trace == old(trace) && s == old(s)
      ensures outcome == LOCK_DOWN ==>
                s == if lock.taken && old(Free(s.g, s.now)) then Next(old(s), Do(Acquire(false))) else old(s)
      ensures outcome != LOCK_DOWN && outcome != HELD ==>
                && old(s.g.nextToken) !in s.g.sessions
                && Since(old(trace), Do(Release(old(s.g.nextToken), reached)))
                && SettledAs(old(trace), old(s.g.nextToken), settled, settledAt)
                && (settled ==> calls.All())
                && (calls.All() && !settled ==> LateIn(|old(trace)|, trace, old(s.g.nextToken)))
      ensures var t, t' := TallyOf(old(trace), old(s.g.nextToken)), TallyOf(trace, old(s.g.nextToken));
              && (outcome == DRAINED <==> t'.relayed == t.relayed + 20)
              && (outcome == THREW <==> t'.gaveUp > t.gaveUp)
    {
      settled, settledAt := false, 0;
      var lease := AcquireLease(lock);
      match lease
      case UNAVAILABLE => outcome := LOCK_DOWN;
      case THEIRS => outcome := HELD;
      case OURS(k) =>
        ghost var acquired := trace;
        outcome, settled, settledAt := UnderLease(k, calls, reached);
        SinceEarlier(old(trace), acquired, Do(Release(k, reached)));
        SinceEarlier(old(trace), acquired, SettleEvent(k, settled, settledAt));
        if calls.All() && !settled {
          LateStays(|old(trace)|, |acquired|, trace, trace, k);
        }
    }

    /**
     * Whatever this code does, the aggregate stays in a state some run of the
     * protocol reaches, so it keeps order, exclusion, the attempt budget, the
     * heads of open rows and the due index as far as its timing allows.
     */
    lemma StaysInProtocol()
      requires Valid()
      ensures Reachable(timing, s) && Sound(s.g)
      ensures timing.begin < LEASE_TTL_MS ==> Ordered(s.g.starts)
      ensures timing.begin + PUBLISH_TIMEOUT_MS < LEASE_TTL_MS ==> Exclusive(s.g)
      ensures MarksInLease(timing) ==> Accounted(s.g, s.now)
      ensures SettlesInLease(timing) ==> HeadKept(s.g)
      ensures SettlesSafely(timing) && s.g.owed == 0 ==> Woken(s.g, s.now)
    {
      AlwaysSound(timing, s);
      if timing.begin < LEASE_TTL_MS {
        StartsInOrder(timing, s);
      }
      if timing.begin + PUBLISH_TIMEOUT_MS < LEASE_TTL_MS {
        OnePublisher(timing, s);
      }
      if MarksInLease(timing) {
        AlwaysAccounted(timing, s);
      }
      if SettlesInLease(timing) {
        NoOpenRowLosesItsHead(timing, s);
      }
      if SettlesSafely(timing) && s.g.owed == 0 {
        NoLostWakeUp(timing, s);
      }
    }
  }

  // ------------------------------------------------------------------- Poll

  /** Ends the poll: the lease store is down, messaging is off or the head row could not be read. */
  predicate Ends(outcome: AggregateOutcome) {
    outcome == LOCK_DOWN || outcome == MESSAGING_DISABLED || outcome == THREW
  }

  /** Aggregates a poll worked on: neither held elsewhere nor the one that ended it. */
  function Worked(outcomes: seq<AggregateOutcome>): nat {
    if |outcomes| == 0 then 0
    else
      var last := outcomes[|outcomes| - 1];
      Worked(outcomes[..|outcomes| - 1]) + if last == HELD || Ends(last) then 0 else 1
  }

  /** Fisher-Yates, in place: the candidates in some order, none lost or repeated. */
  method Shuffle<T>(items: array<T>)
    modifies items
    ensures multiset(items[..]) == multiset(old(items[..]))
  {
    var i := items.Length - 1;
    while i > 0
      invariant multiset(items[..]) == multiset(old(items[..]))
    {
      var j: int := *;
      if !(0 <= j <= i) {
        j := i;
      }
      items[i], items[j] := items[j], items[i];
      i := i - 1;
    }
  }

  /** The order a poll takes its candidates in: a window wider than one poll is shuffled. */
  method InOrderOfTurn(candidates: seq<AggregateRelay>) returns (order: seq<AggregateRelay>)
    ensures multiset(order) == multiset(candidates) && (forall r :: r in order <==> r in candidates)
    ensures |candidates| <= 50 ==> order == candidates
  {
    order := candidates;
    if |candidates| > AGGREGATES_PER_POLL {
      var items := new AggregateRelay[|candidates|](i requires 0 <= i < |candidates| => candidates[i]);
      assert items[..] == candidates;
      Shuffle(items);
      order := items[..];
    }
    assert forall r :: r in order <==> r in multiset(order);
  }

  lemma WorkedOneMore(outcomes: seq<AggregateOutcome>, last: AggregateOutcome)
    ensures Worked(outcomes + [last]) == Worked(outcomes) + if last == HELD || Ends(last) then 0 else 1
  {
    assert (outcomes + [last])[..|outcomes|] == outcomes;
  }

  /** The relay is asked to stop at some point, and stays so. */
  method Asked(stopping: bool) returns (now: bool)
    ensures stopping ==> now
  {
    now := *;
    now := stopping || now;
  }

  /** How many of `order` the poll got to, and why no more. */
  predicate EndedRightly(total: nat, outcomes: seq<AggregateOutcome>, stopped: bool) {
    && |outcomes| <= total && Worked(outcomes) <= 50
    && (forall i | 0 <= i < |outcomes| - 1 :: !Ends(outcomes[i]))
    && (|outcomes| < total ==>
          stopped || Worked(outcomes) == 50 || (|outcomes| > 0 && Ends(outcomes[|outcomes| - 1])))
  }

  /** The poll ran to its end and reached its limit or left rows behind. */
  predicate LeftOver(outcomes: seq<AggregateOutcome>) {
    && (forall i | 0 <= i < |outcomes| :: !Ends(outcomes[i]))
    && (Worked(outcomes) == 50 || DRAINED in outcomes)
  }

  method RelayInOrder(order: seq<AggregateRelay>)
    returns (full: bool, outcomes: seq<AggregateOutcome>, stopped: bool)
    requires forall r | r in order :: r.Valid()
    modifies order
    ensures forall r | r in order :: r.Valid() && old(r.trace) <= r.trace
    ensures EndedRightly(|order|, outcomes, stopped)
    ensures forall r | r in order && r !in order[..|outcomes|] :: r.trace == old(r.trace) && r.s == old(r.s)
    ensures full <==> LeftOver(outcomes)
  {
    full, outcomes, stopped := false, [], false;
    var relayed := 0;
    while |outcomes| < |order|
      invariant |outcomes| <= |order|
      invariant forall r | r in order :: r.Valid() && old(r.trace) <= r.trace
      invariant forall r | r in order && r !in order[..|outcomes|] :: r.trace == old(r.trace) && r.s == old(r.s)
      invariant relayed == Worked(outcomes) <= AGGREGATES_PER_POLL
      invariant forall i | 0 <= i < |outcomes| :: !Ends(outcomes[i])
      invariant full <==> DRAINED in outcomes
      decreases |order| - |outcomes|
    {
      stopped := Asked(stopped);
      if stopped || relayed >= AGGREGATES_PER_POLL {
        break;
      }
      var outcome := RelayOne(order[|outcomes|]);
      WorkedOneMore(outcomes, outcome);
      assert order[..|outcomes| + 1] == order[..|outcomes|] + [order[|outcomes|]];
      outcomes := outcomes + [outcome];
      if outcome == LOCK_DOWN || outcome == MESSAGING_DISABLED || outcome == THREW {
        full := false;
        return;
      }
      if outcome == HELD {
        continue;
      }
      relayed := relayed + 1;
      if outcome == DRAINED {
        full := true;
      }
    }
    if relayed >= AGGREGATES_PER_POLL {
      full := true;
    }
  }

  /**
   * Relays the candidates in `order`; `outcomes` are the answers of those the
   * poll got to. `listed` says whether the heads could be repaired and the
   * candidates read, `stopped` whether the relay was asked to stop by the end.
   */
  method Poll(candidates: seq<AggregateRelay>, listed: bool)
    returns (full: bool, order: seq<AggregateRelay>, outcomes: seq<AggregateOutcome>, stopped: bool)
    requires forall r | r in candidates :: r.Valid()
    modifies candidates
    ensures forall r | r in candidates :: r.Valid() && old(r.trace) <= r.trace
    ensures multiset(order) == multiset(candidates)
    ensures |candidates| <= 50 ==> order == candidates
    ensures |outcomes| <= |order|
    ensures forall r | r in candidates && r !in order[..|outcomes|] :: r.trace == old(r.trace) && r.s == old(r.s)
    ensures if listed then EndedRightly(|order|, outcomes, stopped) else outcomes == []
    ensures full <==> listed && !stopped && LeftOver(outcomes)
  {
    full, order, outcomes, stopped := false, candidates, [], false;
    if listed {
      order := InOrderOfTurn(candidates);
      assert forall i | 0 <= i < |order| :: order[i] in candidates;
      full, outcomes, stopped := RelayInOrder(order);
      stopped := Asked(stopped);
      full := full && !stopped;
    }
  }

  /** One aggregate's turn in a poll, with whatever the stores and the broker answer. */
  method RelayOne(r: AggregateRelay) returns (outcome: AggregateOutcome)
    requires r.Valid()
    modifies r
    ensures r.Valid() && old(r.trace) <= r.trace
  {
    r.Others();
    var lock: LockAnswer, calls: SettleCalls, reached: bool := *, *, *;
    var settled;
    ghost var settledAt;
    outcome, settled, settledAt := r.RelayAggregate(lock, calls, reached);
  }
}
