/**
 * The dedup store and onceEach over it: claim a batch, work, then extend or
 * release, while other attempts use the store at the same time.
 */
module EventConsumer {
  import opened Wrappers
  import opened ConsumerProtocol

  type Key = string
  type Owner = nat

  /** One key of the store, as the consumer protocol sees it. */
  function View(markers: map<Key, Marker>, key: Key): Inbox {
    Inbox([], [], if key in markers then Some(markers[key]) else None, [])
  }

  /** The marker of `key`, unless it has expired. */
  function LiveMarker(markers: map<Key, Marker>, now: nat, key: Key): Option<Marker> {
    if key in markers && now < markers[key].expiresAt then Some(markers[key]) else None
  }

  predicate Owns(markers: map<Key, Marker>, now: nat, key: Key, owner: Owner) {
    LiveMarker(markers, now, key).Some? && markers[key].owner == owner
  }

  /** Item `i` is claimed: its key was free and no earlier item of the batch has it. */
  predicate Fresh(markers: map<Key, Marker>, now: nat, keys: seq<Key>, i: nat)
    requires i < |keys|
  {
    LiveMarker(markers, now, keys[i]).None? && keys[i] !in keys[..i]
  }

  /** A batch of claims, key by key, is the protocol's claim. */
  lemma ClaimedAsProtocol(before: map<Key, Marker>, after: map<Key, Marker>, now: nat, keys: seq<Key>, owner: Owner)
    requires forall key | key in keys && LiveMarker(before, now, key).None? ::
               key in after && after[key] == Marker(owner, now + CLAIM_TTL_MS)
    requires forall key | key in keys && LiveMarker(before, now, key).Some? ::
               (key in after <==> key in before) && (key in after ==> after[key] == before[key])
    ensures forall key | key in keys :: View(after, key) == Claimed(View(before, key), now, owner)
  {
  }

  class DedupStore {
    var markers: map<Key, Marker>
    var now: nat

    constructor ()
      ensures markers == map[] && now == 0
    {
      markers, now := map[], 0;
    }

    /** One set-if-absent per key, in order. */
    method ClaimMany(keys: seq<Key>, ttl: nat, owner: Owner) returns (claims: seq<bool>)
      requires ttl > 0
      modifies `markers
      ensures |claims| == |keys|
      ensures forall i | 0 <= i < |keys| :: claims[i] <==> Fresh(old(markers), now, keys, i)
      ensures forall key | key in keys && LiveMarker(old(markers), now, key).None? ::
                key in markers && markers[key] == Marker(owner, now + ttl)
      ensures forall key | !(key in keys && LiveMarker(old(markers), now, key).None?) ::
                (key in markers <==> key in old(markers)) && (key in markers ==> markers[key] == old(markers)[key])
      ensures ttl == CLAIM_TTL_MS ==> forall key | key in keys ::
                View(markers, key) == Claimed(View(old(markers), key), now, owner)
    {
      claims := [];
      for n := 0 to |keys|
        invariant |claims| == n
        invariant forall i | 0 <= i < n :: claims[i] <==> Fresh(old(markers), now, keys, i)
        invariant forall key | key in keys[..n] && LiveMarker(old(markers), now, key).None? ::
                    key in markers && markers[key] == Marker(owner, now + ttl)
        invariant forall key | !(key in keys[..n] && LiveMarker(old(markers), now, key).None?) ::
                    (key in markers <==> key in old(markers)) && (key in markers ==> markers[key] == old(markers)[key])
      {
        var won := LiveMarker(markers, now, keys[n]).None?;
        if won {
          markers := markers[keys[n] := Marker(owner, now + ttl)];
        }
        claims := claims + [won];
        assert keys[..n + 1] == keys[..n] + [keys[n]];
      }
      if ttl == CLAIM_TTL_MS {
        ClaimedAsProtocol(old(markers), markers, now, keys, owner);
      }
    }

    /** Resets the markers `owner` still has; everyone else's stay as they are. */
    method ExtendMany(keys: seq<Key>, ttl: nat, owner: Owner)
      requires ttl > 0
      modifies `markers
      ensures forall key :: key in markers <==> key in old(markers)
      ensures forall key | key in markers ::
                markers[key] == if key in keys && Owns(old(markers), now, key, owner) then Marker(owner, now + ttl)
                                else old(markers)[key]
      ensures forall key | key in keys ::
                View(markers, key).marker == Extended(View(old(markers), key), now, owner, ttl)
    {
      for n := 0 to |keys|
        invariant forall key :: key in markers <==> key in old(markers)
        invariant forall key | key in markers ::
                    markers[key] == if key in keys[..n] && Owns(old(markers), now, key, owner) then Marker(owner, now + ttl)
                                    else old(markers)[key]
      {
        if Owns(markers, now, keys[n], owner) {
          markers := markers[keys[n] := Marker(owner, now + ttl)];
        }
        assert keys[..n + 1] == keys[..n] + [keys[n]];
      }
    }

    /** Drops the markers `owner` still has; everyone else's stay as they are. */
    method ReleaseMany(keys: seq<Key>, owner: Owner)
      modifies `markers
      ensures forall key :: key in markers <==>
                key in old(markers) && !(key in keys && Owns(old(markers), now, key, owner))
      ensures forall key | key in markers :: markers[key] == old(markers)[key]
      ensures forall key | key in keys ::
                View(markers, key).marker == Released(View(old(markers), key), now, owner)
    {
      for n := 0 to |keys|
        invariant forall key :: key in markers <==>
                    key in old(markers) && !(key in keys[..n] && Owns(old(markers), now, key, owner))
        invariant forall key | key in markers :: markers[key] == old(markers)[key]
      {
        if Owns(markers, now, keys[n], owner) {
          markers := markers - {keys[n]};
        }
        assert keys[..n + 1] == keys[..n] + [keys[n]];
      }
    }

    /**
     * While `owner` awaits its work the clock runs and other attempts claim,
     * extend and release; none of them touches a live marker of `owner` or
     * leaves one in its name.
     */
    method Elapse(ghost owner: Owner, ms: nat)
      modifies `markers, `now
      ensures now == old(now) + ms
      ensures forall key | key in old(markers) && old(markers)[key].owner == owner && now < old(markers)[key].expiresAt ::
                key in markers && markers[key] == old(markers)[key]
      ensures forall key | key in markers && markers[key].owner == owner ::
                key in old(markers) && old(markers)[key] == markers[key]
    {
      now := now + ms;
    }
  }

  /** How the work ended and how long it took. */
  datatype WorkRun = WorkRun(succeeds: bool, ms: nat)

  /** The answer to a batch of claims; a call that fails may have made the first `taken` of them. */
  datatype ClaimAnswer = ANSWERED | FAILED(taken: nat)

  datatype Failure = ClaimsNotTaken | WorkThrew

  /** The indices of the flags that are set, in order. */
  function SetFlags(flags: seq<bool>): (r: seq<nat>)
    ensures forall j | 0 <= j < |r| :: r[j] < |flags| && flags[r[j]]
    ensures forall j, k | 0 <= j < k < |r| :: r[j] < r[k]
    ensures forall i: nat | i < |flags| && flags[i] :: i in r
  {
    if |flags| == 0 then []
    else
      var front := SetFlags(flags[..|flags| - 1]);
      if flags[|flags| - 1] then front + [|flags| - 1] else front
  }

  /** The flagged items, in order and as often as they occur. */
  function Pick<E>(items: seq<E>, picked: seq<bool>): (r: seq<E>)
    requires |picked| == |items|
    ensures |r| == |SetFlags(picked)|
    ensures forall j | 0 <= j < |r| :: r[j] == items[SetFlags(picked)[j]]
  {
    if |items| == 0 then []
    else
      var front := Pick(items[..|items| - 1], picked[..|items| - 1]);
      if picked[|items| - 1] then front + [items[|items| - 1]] else front
  }

  /** An item is picked exactly if one of its occurrences is flagged. */
  lemma PickedExactly<E>(items: seq<E>, picked: seq<bool>, e: E)
    requires |picked| == |items|
    ensures e in Pick(items, picked) <==> exists i | 0 <= i < |items| :: picked[i] && items[i] == e
  {
    var flags := SetFlags(picked);
    if i :| 0 <= i < |items| && picked[i] && items[i] == e {
      assert i in flags;
      var j :| 0 <= j < |flags| && flags[j] == i;
      assert Pick(items, picked)[j] == e;
    }
  }

  function KeysOf<E>(items: seq<E>, keyOf: E -> Key): (r: seq<Key>)
    ensures |r| == |items| && forall i | 0 <= i < |items| :: r[i] == keyOf(items[i])
  {
    seq(|items|, i requires 0 <= i < |items| => keyOf(items[i]))
  }

  function FreshFlags(markers: map<Key, Marker>, now: nat, keys: seq<Key>): (r: seq<bool>)
    ensures |r| == |keys|
  {
    seq(|keys|, i requires 0 <= i < |keys| => Fresh(markers, now, keys, i))
  }

  /** The keys of this batch that the attempt claims. */
  predicate ClaimedKey(markers: map<Key, Marker>, now: nat, keys: seq<Key>, key: Key) {
    key in keys && LiveMarker(markers, now, key).None?
  }

  /** The items the work runs with. */
  function Unseen<E>(items: seq<E>, keyOf: E -> Key, markers: map<Key, Marker>, now: nat): seq<E> {
    Pick(items, FreshFlags(markers, now, KeysOf(items, keyOf)))
  }

  /**
   * What the claimed keys hold after work that ended inside its claim: nothing
   * once a failure was released, the seen marker once a success was extended,
   * the claim as it was made when that call did not reach the store.
   */
  predicate SettledKey(markers: map<Key, Marker>, now: nat, key: Key, run: WorkRun, reached: bool, owner: Owner, claimedAt: nat, seenTtl: nat) {
    && (reached && !run.succeeds ==> key !in markers)
    && (reached && run.succeeds ==> key in markers && markers[key] == Marker(owner, now + seenTtl))
    && (!reached ==> key in markers && markers[key] == Marker(owner, claimedAt + CLAIM_TTL_MS))
  }

  /** The last call of an attempt, whenever it comes: the protocol's release or extend of each claimed key, or nothing. */
  ghost predicate SettledAsProtocol(before: map<Key, Marker>, after: map<Key, Marker>, now: nat, claimed: seq<Key>,
                              run: WorkRun, reached: bool, owner: Owner, seenTtl: nat) {
    && (!reached ==> after == before)
    && (forall key | key !in claimed :: View(after, key) == View(before, key))
    && (reached && run.succeeds ==> forall key | key in claimed ::
          View(after, key).marker == Extended(View(before, key), now, owner, seenTtl))
    && (reached && !run.succeeds ==> forall key | key in claimed ::
          View(after, key).marker == Released(View(before, key), now, owner))
  }

  class Consumer {
    const dedup: DedupStore

    constructor (dedup: DedupStore)
      ensures this.dedup == dedup
    {
      this.dedup := dedup;
    }

    /** The work under the claims, then the extend or release; `reached`: whether that call gets to the store. */
    method WorkAndSettle(claimed: seq<Key>, run: WorkRun, seenTtl: nat, owner: Owner, reached: bool)
      returns (ghost worked: map<Key, Marker>)
      requires seenTtl > 0
      requires forall key | key in claimed ::
                 key in dedup.markers && dedup.markers[key] == Marker(owner, dedup.now + CLAIM_TTL_MS)
      requires forall key | key in dedup.markers && dedup.markers[key].owner == owner ::
                 dedup.markers[key].expiresAt == dedup.now + CLAIM_TTL_MS
      modifies dedup
      ensures dedup.now == old(dedup.now) + run.ms
      ensures SettledAsProtocol(worked, dedup.markers, dedup.now, claimed, run, reached, owner, seenTtl)
      ensures run.ms < CLAIM_TTL_MS ==> forall key | key in claimed ::
                SettledKey(dedup.markers, dedup.now, key, run, reached, owner, old(dedup.now), seenTtl)
      ensures run.ms >= CLAIM_TTL_MS ==> forall key :: !Owns(dedup.markers, dedup.now, key, owner)
    {
      dedup.Elapse(owner, run.ms);
      worked := dedup.markers;
      if !run.succeeds {
        if reached {
          dedup.ReleaseMany(claimed, owner);
        }
      } else if reached {
        dedup.ExtendMany(claimed, seenTtl, owner);
      }
    }

    /**
     * Runs the work with the items whose key no earlier attempt handled;
     * `handed` are the items it ran with. `reached` says whether the extend or
     * release gets to the store; `owner` is unique to this attempt. Nobody
     * releases the claims of a call that fails.
     */
    method OnceEach<E(==)>(items: seq<E>, keyOf: E -> Key, run: WorkRun, seenTtl: nat, owner: Owner, claim: ClaimAnswer, reached: bool)
      returns (result: Result<seq<E>, Failure>, handed: seq<E>, ghost worked: map<Key, Marker>)
      requires seenTtl > 0
      requires forall key | key in dedup.markers :: dedup.markers[key].owner != owner
      modifies dedup
      ensures |items| == 0 ==> dedup.markers == old(dedup.markers) && dedup.now == old(dedup.now) && handed == []
      ensures |items| > 0 && claim.FAILED? ==> result == Err(ClaimsNotTaken) && handed == [] && dedup.now == old(dedup.now)
      ensures |items| > 0 && claim.FAILED? ==>
                var keys := KeysOf(items, keyOf);
                var made := keys[..if claim.taken < |keys| then claim.taken else |keys|];
                forall key :: View(dedup.markers, key) ==
                  if key in made then Claimed(View(old(dedup.markers), key), dedup.now, owner) else View(old(dedup.markers), key)
      ensures var unseen := Unseen(items, keyOf, old(dedup.markers), old(dedup.now));
              && (|items| == 0 || claim == ANSWERED ==>
                    && handed == unseen
                    && result == (if |unseen| > 0 && !run.succeeds then Err(WorkThrew) else Ok(unseen)))
              && (claim == ANSWERED && |unseen| > 0 ==> dedup.now == old(dedup.now) + run.ms)
              && (claim == ANSWERED && |unseen| > 0 && run.ms < CLAIM_TTL_MS ==>
                    forall key | ClaimedKey(old(dedup.markers), old(dedup.now), KeysOf(items, keyOf), key) ::
                      SettledKey(dedup.markers, dedup.now, key, run, reached, owner, old(dedup.now), seenTtl))
              && (claim == ANSWERED && |unseen| > 0 ==>
                    SettledAsProtocol(worked, dedup.markers, dedup.now,
                                      Pick(KeysOf(items, keyOf), FreshFlags(old(dedup.markers), old(dedup.now), KeysOf(items, keyOf))),
                                      run, reached, owner, seenTtl))
              && (claim == ANSWERED && |unseen| > 0 && run.ms >= CLAIM_TTL_MS ==>
                    forall key :: !Owns(dedup.markers, dedup.now, key, owner))
    {
      handed, worked := [], dedup.markers;
      if |items| == 0 {
        result := Ok([]);
        return;
      }
      var keys := KeysOf(items, keyOf);
      if claim.FAILED? {
        var unanswered := dedup.ClaimMany(keys[..if claim.taken < |keys| then claim.taken else |keys|], CLAIM_TTL_MS, owner);
        result := Err(ClaimsNotTaken);
        return;
      }
      var claims := dedup.ClaimMany(keys, CLAIM_TTL_MS, owner);
      assert claims == FreshFlags(old(dedup.markers), old(dedup.now), keys);
      var unseen, claimed := Pick(items, claims), Pick(keys, claims);
      if |unseen| == 0 {
        result := Ok([]);
        return;
      }
      ClaimedOnce(old(dedup.markers), old(dedup.now), keys);
      handed := unseen;
      worked := WorkAndSettle(claimed, run, seenTtl, owner, reached);
      result := if run.succeeds then Ok(unseen) else Err(WorkThrew);
    }

    /** The work once for one key; false when the key was already handled. */
    method Once(key: Key, run: WorkRun, seenTtl: nat, owner: Owner, claim: ClaimAnswer, reached: bool)
      returns (result: Result<bool, Failure>)
      requires seenTtl > 0
      requires forall key | key in dedup.markers :: dedup.markers[key].owner != owner
      modifies dedup
      ensures result == if claim.FAILED? then Err(ClaimsNotTaken)
                        else if LiveMarker(old(dedup.markers), old(dedup.now), key).Some? then Ok(false)
                        else if run.succeeds then Ok(true)
                        else Err(WorkThrew)
      ensures claim == ANSWERED && LiveMarker(old(dedup.markers), old(dedup.now), key).None? && run.ms < CLAIM_TTL_MS ==>
                SettledKey(dedup.markers, dedup.now, key, run, reached, owner, old(dedup.now), seenTtl)
      ensures claim.FAILED? && claim.taken > 0 ==> View(dedup.markers, key) == Claimed(View(old(dedup.markers), key), dedup.now, owner)
    {
      var same := (k: Key) => k;
      OneKey(key, same, dedup.markers, dedup.now);
      ghost var worked;
      var unseen, handed;
      unseen, handed, worked := OnceEach([key], same, run, seenTtl, owner, claim, reached);
      result := if unseen.Err? then Err(unseen.error) else Ok(|unseen.value| > 0);
    }
  }

  /** A batch of one is fresh exactly when its key is free. */
  lemma OneKey(key: Key, keyOf: Key -> Key, markers: map<Key, Marker>, now: nat)
    requires keyOf(key) == key
    ensures KeysOf([key], keyOf) == [key]
    ensures Unseen([key], keyOf, markers, now) == if LiveMarker(markers, now, key).None? then [key] else []
  {
    assert KeysOf([key], keyOf) == [key];
    var flags := FreshFlags(markers, now, [key]);
    assert flags[0] <==> LiveMarker(markers, now, key).None?;
    assert [key][..0] == [] && Pick<Key>([], []) == [];
  }

  /** Whatever was fresh is fresh again once the claims on its keys are gone. */
  lemma FreshAgain(before: map<Key, Marker>, at: nat, after: map<Key, Marker>, now: nat, keys: seq<Key>)
    requires forall key | ClaimedKey(before, at, keys, key) :: key !in after
    ensures forall i | 0 <= i < |keys| :: FreshFlags(before, at, keys)[i] ==> FreshFlags(after, now, keys)[i]
    ensures (forall key | key in keys && !ClaimedKey(before, at, keys, key) :: LiveMarker(after, now, key).Some?) ==>
              FreshFlags(after, now, keys) == FreshFlags(before, at, keys)
  {
  }

  /**
   * After a failure that was released, the same items are handed out again: all
   * that were, and exactly those if every other key of the batch is still taken.
   */
  lemma HandedOutAgain<E>(items: seq<E>, keyOf: E -> Key, before: map<Key, Marker>, at: nat,
                          after: map<Key, Marker>, now: nat, owner: Owner, ms: nat, seenTtl: nat, claimedAt: nat)
    requires forall key | ClaimedKey(before, at, KeysOf(items, keyOf), key) ::
               SettledKey(after, now, key, WorkRun(false, ms), true, owner, claimedAt, seenTtl)
    ensures forall e | e in Unseen(items, keyOf, before, at) :: e in Unseen(items, keyOf, after, now)
    ensures (forall key | key in KeysOf(items, keyOf) && !ClaimedKey(before, at, KeysOf(items, keyOf), key) ::
               LiveMarker(after, now, key).Some?) ==> Unseen(items, keyOf, after, now) == Unseen(items, keyOf, before, at)
  {
    var keys := KeysOf(items, keyOf);
    FreshAgain(before, at, after, now, keys);
    forall e | e in Unseen(items, keyOf, before, at)
      ensures e in Unseen(items, keyOf, after, now)
    {
      PickedExactly(items, FreshFlags(before, at, keys), e);
      PickedExactly(items, FreshFlags(after, now, keys), e);
    }
  }

  /** After a success that was extended, none of them is handed out before the seen window is over. */
  lemma NotHandedOutAgain<E>(items: seq<E>, keyOf: E -> Key, before: map<Key, Marker>, at: nat,
                             after: map<Key, Marker>, now: nat, later: nat, owner: Owner, ms: nat, seenTtl: nat, claimedAt: nat, e: E)
    requires forall key | ClaimedKey(before, at, KeysOf(items, keyOf), key) ::
               SettledKey(after, now, key, WorkRun(true, ms), true, owner, claimedAt, seenTtl)
    requires e in Unseen(items, keyOf, before, at) && later < now + seenTtl
    ensures e !in Unseen(items, keyOf, after, later)
  {
    var keys := KeysOf(items, keyOf);
    PickedExactly(items, FreshFlags(before, at, keys), e);
    PickedExactly(items, FreshFlags(after, later, keys), e);
    assert ClaimedKey(before, at, keys, keyOf(e));
  }

  /** The first item of the batch with `key`. */
  function FirstOf(keys: seq<Key>, key: Key): (i: nat)
    requires key in keys
    ensures i < |keys| && keys[i] == key && key !in keys[..i]
  {
    if key in keys[..|keys| - 1] then
      var i := FirstOf(keys[..|keys| - 1], key);
      assert keys[..|keys| - 1][..i] == keys[..i];
      i
    else |keys| - 1
  }

  /** A free key is fresh at exactly one item of the batch, however often it is repeated. */
  lemma FreshExactlyOnce(markers: map<Key, Marker>, now: nat, keys: seq<Key>, key: Key)
    requires ClaimedKey(markers, now, keys, key)
    ensures exists i | 0 <= i < |keys| :: keys[i] == key && Fresh(markers, now, keys, i)
    ensures forall i, j | 0 <= i < |keys| && 0 <= j < |keys| && keys[i] == key == keys[j] &&
                          Fresh(markers, now, keys, i) && Fresh(markers, now, keys, j) :: i == j
  {
    var first := FirstOf(keys, key);
    assert Fresh(markers, now, keys, first);
    forall i, j | 0 <= i < j < |keys| && keys[i] == key == keys[j]
      ensures !Fresh(markers, now, keys, j)
    {
      assert keys[..j][i] == key;
    }
  }

  /** The claimed keys are exactly the batch's keys that were free. */
  lemma ClaimedOnce(markers: map<Key, Marker>, now: nat, keys: seq<Key>)
    ensures forall key :: key in Pick(keys, FreshFlags(markers, now, keys)) <==> ClaimedKey(markers, now, keys, key)
  {
    forall key
      ensures key in Pick(keys, FreshFlags(markers, now, keys)) <==> ClaimedKey(markers, now, keys, key)
    {
      PickedExactly(keys, FreshFlags(markers, now, keys), key);
      if ClaimedKey(markers, now, keys, key) {
        FreshExactlyOnce(markers, now, keys, key);
      }
    }
  }
}
