/**
 * The projection of one tenant's memberships into the graph. An event is
 * handled by a sequence of graph writes any of which may fail; the event is
 * then handled again later. Events of a user are handled one at a time.
 */
module MembershipGraph {
  import opened Wrappers

  type User = string

  /** `nodes` maps a user to its `removed` property, None when the node has none. */
  datatype Graph = Graph(nodes: map<User, Option<bool>>, tenant: bool, members: set<User>, invited: set<(User, User)>)

  const EMPTY := Graph(map[], false, {}, {})

  /** Handling of one event; `writes` graph writes succeeded before one failed (5 are enough for any). */
  datatype Event =
    | Recorded(user: User, invitedBy: Option<User>, writes: nat)
    | Removed(user: User, reached: bool)

  predicate IsRemoved(g: Graph, user: User) {
    user in g.nodes && g.nodes[user] == Some(true)
  }

  function MergeTenant(g: Graph): Graph {
    g.(tenant := true)
  }

  function MergeUser(g: Graph, user: User, removed: Option<bool>): Graph {
    if removed.Some? || user !in g.nodes then g.(nodes := g.nodes[user := removed]) else g
  }

  /** An edge is written only between nodes that exist. */
  function MergeMemberOf(g: Graph, user: User): Graph {
    if user in g.nodes && g.tenant then g.(members := g.members + {user}) else g
  }

  function MergeInvited(g: Graph, inviter: User, user: User): Graph {
    if user in g.nodes && inviter in g.nodes then g.(invited := g.invited + {(inviter, user)}) else g
  }

  predicate NamesInviter(user: User, invitedBy: Option<User>) {
    invitedBy.Some? && invitedBy.value != "" && invitedBy.value != user
  }

  class MembershipGraph {
    var g: Graph

    constructor ()
      ensures g == EMPTY
    {
      g := EMPTY;
    }

    /** False when the user was already removed; `writes` is how many graph writes go through. */
    method RecordMember(user: User, invitedBy: Option<User>, writes: nat) returns (result: Result<bool, ()>)
      modifies this
      ensures IsRemoved(old(g), user) ==> g == old(g) && result == Ok(false)
      ensures !IsRemoved(old(g), user) ==>
                (result == Ok(true) <==> writes >= if NamesInviter(user, invitedBy) then 5 else 3)
      ensures !IsRemoved(old(g), user) && writes < 3 ==> g.members == old(g).members && g.invited == old(g).invited
      ensures !IsRemoved(old(g), user) && writes >= 3 ==>
                && g.members == old(g).members + {user} && user in g.nodes && g.nodes[user] == Some(false)
                && g.invited == old(g).invited +
                     (if writes >= 5 && NamesInviter(user, invitedBy) then {(invitedBy.value, user)} else {})
      ensures !IsRemoved(old(g), user) ==> forall other | other != user && invitedBy != Some(other) ::
                (other in g.nodes <==> other in old(g).nodes) && (other in g.nodes ==> g.nodes[other] == old(g).nodes[other])
      ensures !IsRemoved(old(g), user) && writes >= 4 && NamesInviter(user, invitedBy) ==>
                && invitedBy.value in g.nodes
                && g.nodes[invitedBy.value] == (if invitedBy.value in old(g).nodes then old(g).nodes[invitedBy.value] else None)
      ensures g == Handled(old(g), Recorded(user, invitedBy, writes))
    {
      if IsRemoved(g, user) {
        return Ok(false);
      }
      if writes < 1 { return Err(()); }
      g := MergeTenant(g);
      if writes < 2 { return Err(()); }
      g := MergeUser(g, user, Some(false));
      if writes < 3 { return Err(()); }
      g := MergeMemberOf(g, user);
      if NamesInviter(user, invitedBy) {
        if writes < 4 { return Err(()); }
        g := MergeUser(g, invitedBy.value, None);
        if writes < 5 { return Err(()); }
        g := MergeInvited(g, invitedBy.value, user);
      }
      result := Ok(true);
    }

    /** One query: the tombstone, and the end of MEMBER_OF. */
    method RemoveMember(user: User)
      modifies this
      ensures g.nodes == old(g).nodes[user := Some(true)] && g.members == old(g).members - {user}
      ensures g.invited == old(g).invited && g.tenant == old(g).tenant
      ensures g == Handled(old(g), Removed(user, true))
    {
      g := g.(nodes := g.nodes[user := Some(true)], members := g.members - {user});
    }
  }

  /** The graph after handling one event. */
  function Handled(g: Graph, e: Event): Graph {
    match e
    case Recorded(user, invitedBy, writes) =>
      if IsRemoved(g, user) then g else Written(g, user, invitedBy, writes)
    case Removed(user, reached) =>
      if reached then g.(nodes := g.nodes[user := Some(true)], members := g.members - {user}) else g
  }

  /** The first `writes` of recordMember's writes, without its check. */
  function Written(g: Graph, user: User, invitedBy: Option<User>, writes: nat): Graph {
    var g1 := if writes >= 1 then MergeTenant(g) else g;
    var g2 := if writes >= 2 then MergeUser(g1, user, Some(false)) else g1;
    var g3 := if writes >= 3 then MergeMemberOf(g2, user) else g2;
    var named := NamesInviter(user, invitedBy);
    var g4 := if named && writes >= 4 then MergeUser(g3, invitedBy.value, None) else g3;
    if named && writes >= 5 then MergeInvited(g4, invitedBy.value, user) else g4
  }

  function Project(events: seq<Event>): Graph
    decreases |events|
  {
    if |events| == 0 then EMPTY else Handled(Project(events[..|events| - 1]), events[|events| - 1])
  }

  /** Some created or updated event of the user got as far as its MEMBER_OF write. */
  predicate SawMember(events: seq<Event>, user: User) {
    exists i | 0 <= i < |events| :: events[i].Recorded? && events[i].user == user && events[i].writes >= 3
  }

  predicate SawRemoval(events: seq<Event>, user: User) {
    exists i | 0 <= i < |events| :: events[i].Removed? && events[i].user == user && events[i].reached
  }

  lemma SplitLast(events: seq<Event>, user: User)
    requires |events| > 0
    ensures var front, last := events[..|events| - 1], events[|events| - 1];
            && (SawMember(events, user) <==>
                  SawMember(front, user) || (last.Recorded? && last.user == user && last.writes >= 3))
            && (SawRemoval(events, user) <==>
                  SawRemoval(front, user) || (last.Removed? && last.user == user && last.reached))
  {
    var front, last := events[..|events| - 1], events[|events| - 1];
    assert events == front + [last];
    if SawMember(front, user) {
      var i :| 0 <= i < |front| && front[i].Recorded? && front[i].user == user && front[i].writes >= 3;
      assert events[i] == front[i];
    }
    if SawRemoval(front, user) {
      var i :| 0 <= i < |front| && front[i].Removed? && front[i].user == user && front[i].reached;
      assert events[i] == front[i];
    }
    forall i | 0 <= i < |events| - 1
      ensures events[i] == front[i]
    {
    }
  }

  /** For any order and repetition: a member exactly when recorded and never removed. */
  lemma {:induction false} MemberExactly(events: seq<Event>, user: User)
    ensures user in Project(events).members <==> SawMember(events, user) && !SawRemoval(events, user)
    ensures IsRemoved(Project(events), user) <==> SawRemoval(events, user)
    decreases |events|
  {
    if |events| > 0 {
      MemberExactly(events[..|events| - 1], user);
      SplitLast(events, user);
    }
  }

  /** Two handlings of the same events, however ordered and repeated, agree on the members. */
  lemma MembershipConverges(events: seq<Event>, others: seq<Event>)
    requires forall e :: e in events <==> e in others
    ensures Project(events).members == Project(others).members
  {
    forall user
      ensures user in Project(events).members <==> user in Project(others).members
    {
      MemberExactly(events, user);
      MemberExactly(others, user);
      SameSights(events, others, user);
      SameSights(others, events, user);
    }
  }

  lemma SameSights(events: seq<Event>, others: seq<Event>, user: User)
    requires forall e | e in events :: e in others
    ensures SawMember(events, user) ==> SawMember(others, user)
    ensures SawRemoval(events, user) ==> SawRemoval(others, user)
  {
    if SawMember(events, user) {
      var i :| 0 <= i < |events| && events[i].Recorded? && events[i].user == user && events[i].writes >= 3;
      assert events[i] in others;
    }
    if SawRemoval(events, user) {
      var i :| 0 <= i < |events| && events[i].Removed? && events[i].user == user && events[i].reached;
      assert events[i] in others;
    }
  }

  // ------------------------------------------------------------ Invitations

  /** The event, handled when its user is not removed, writes this INVITED edge. */
  predicate Invites(e: Event, inviter: User, user: User) {
    e.Recorded? && e.user == user && e.invitedBy == Some(inviter) && NamesInviter(user, e.invitedBy) && e.writes >= 5
  }

  /** Some invitation of the user was handled before any removal of it. */
  predicate InvitedFirst(events: seq<Event>, inviter: User, user: User) {
    exists k | 0 <= k < |events| :: Invites(events[k], inviter, user) && !SawRemoval(events[..k], user)
  }

  lemma InvitedFirstLast(events: seq<Event>, inviter: User, user: User)
    requires |events| > 0
    ensures var front, last := events[..|events| - 1], events[|events| - 1];
            InvitedFirst(events, inviter, user) <==>
            InvitedFirst(front, inviter, user) || (Invites(last, inviter, user) && !SawRemoval(front, user))
  {
    var n := |events| - 1;
    forall k | 0 <= k < n
      ensures events[..n][k] == events[k] && events[..n][..k] == events[..k]
    {
    }
    if InvitedFirst(events[..n], inviter, user) {
      var k :| 0 <= k < n && Invites(events[..n][k], inviter, user) && !SawRemoval(events[..n][..k], user);
      assert Invites(events[k], inviter, user) && !SawRemoval(events[..k], user);
    }
    if InvitedFirst(events, inviter, user) {
      var k :| 0 <= k < |events| && Invites(events[k], inviter, user) && !SawRemoval(events[..k], user);
      if k < n {
        assert Invites(events[..n][k], inviter, user) && !SawRemoval(events[..n][..k], user);
      }
    }
  }

  /** For any order and repetition: invited exactly when an invitation got through before any removal. */
  lemma {:induction false} InvitedExactly(events: seq<Event>, inviter: User, user: User)
    ensures (inviter, user) in Project(events).invited <==> InvitedFirst(events, inviter, user)
    decreases |events|
  {
    if |events| > 0 {
      var front := events[..|events| - 1];
      InvitedExactly(front, inviter, user);
      InvitedFirstLast(events, inviter, user);
      MemberExactly(front, user);
    }
  }

  /** Some user has both a removal and an invitation that can get through. */
  predicate Contested(events: seq<Event>) {
    exists e, d | e in events && d in events ::
      e.Recorded? && NamesInviter(e.user, e.invitedBy) && e.writes >= 5 && d.Removed? && d.reached && d.user == e.user
  }

  /** Without one, the same events in any order and number give the same edges. */
  lemma InvitationsConverge(events: seq<Event>, others: seq<Event>)
    requires (forall e :: e in events <==> e in others) && !Contested(events)
    ensures Project(events).invited == Project(others).invited
  {
    forall edge: (User, User)
      ensures edge in Project(events).invited <==> edge in Project(others).invited
    {
      var (inviter, user) := edge;
      InvitedExactly(events, inviter, user);
      InvitedExactly(others, inviter, user);
      UncontestedInvited(events, others, inviter, user);
      UncontestedInvited(others, events, inviter, user);
    }
  }

  lemma UncontestedInvited(events: seq<Event>, others: seq<Event>, inviter: User, user: User)
    requires (forall e | e in events :: e in others) && (forall e | e in others :: e in events) && !Contested(events)
    ensures InvitedFirst(events, inviter, user) ==> InvitedFirst(others, inviter, user)
  {
    if k :| 0 <= k < |events| && Invites(events[k], inviter, user) && !SawRemoval(events[..k], user) {
      var e := events[k];
      assert e in events && e in others;
      var i :| 0 <= i < |others| && others[i] == e;
      forall j | 0 <= j < i
        ensures others[..i][j] in events
      {
        assert others[..i][j] == others[j] && others[j] in others;
      }
    }
  }

  /** The same events with the one at `k` moved to the front. */
  function Fronted(events: seq<Event>, k: nat): (r: seq<Event>)
    requires k < |events|
    ensures multiset(r) == multiset(events) && |r| > 0 && r[0] == events[k]
  {
    assert events == events[..k] + [events[k]] + events[k + 1..];
    [events[k]] + events[..k] + events[k + 1..]
  }

  /** The INVITED edges do not depend on the order of the events exactly if no user is both invited and removed. */
  lemma InvitationsOrderFreeExactly(events: seq<Event>)
    ensures (forall others: seq<Event> | multiset(others) == multiset(events) ::
               Project(others).invited == Project(events).invited) <==> !Contested(events)
  {
    if Contested(events) {
      var e, d :| e in events && d in events && e.Recorded? && NamesInviter(e.user, e.invitedBy) && e.writes >= 5
                  && d.Removed? && d.reached && d.user == e.user;
      var i :| 0 <= i < |events| && events[i] == e;
      var j :| 0 <= j < |events| && events[j] == d;
      FrontsDiffer(Fronted(events, i), Fronted(events, j), e.invitedBy.value, e.user);
      assert multiset(Fronted(events, i)) == multiset(events) && multiset(Fronted(events, j)) == multiset(events);
    } else {
      forall others: seq<Event> | multiset(others) == multiset(events)
        ensures Project(others).invited == Project(events).invited
      {
        forall e
          ensures e in events <==> e in others
        {
          assert e in events <==> e in multiset(events);
          assert e in others <==> e in multiset(others);
        }
        InvitationsConverge(events, others);
      }
    }
  }

  /** The invitation first, or the removal first. */
  lemma FrontsDiffer(invitation: seq<Event>, removal: seq<Event>, inviter: User, user: User)
    requires |invitation| > 0 && Invites(invitation[0], inviter, user)
    requires |removal| > 0 && removal[0].Removed? && removal[0].reached && removal[0].user == user
    ensures Project(invitation).invited != Project(removal).invited
  {
    InvitedExactly(invitation, inviter, user);
    InvitedExactly(removal, inviter, user);
    assert Invites(invitation[0], inviter, user) && !SawRemoval(invitation[..0], user);
    forall k | 0 <= k < |removal| && Invites(removal[k], inviter, user)
      ensures SawRemoval(removal[..k], user)
    {
      assert k > 0 && removal[..k][0] == removal[0];
    }
  }

  /** The least contested case: an invitation and a removal. */
  lemma InvitationsDependOnOrder()
    ensures var recorded, removed := Recorded("u", Some("i"), 5), Removed("u", true);
            Project([recorded, removed]).invited != Project([removed, recorded]).invited
  {
    FrontsDiffer([Recorded("u", Some("i"), 5), Removed("u", true)], [Removed("u", true), Recorded("u", Some("i"), 5)], "i", "u");
  }

  // ------------------------------------------- Handlings that overlap

  /** Write number `n` of recordMember. */
  function WriteOne(g: Graph, user: User, invitedBy: Option<User>, n: nat): Graph {
    if n == 1 then MergeTenant(g)
    else if n == 2 then MergeUser(g, user, Some(false))
    else if n == 3 then MergeMemberOf(g, user)
    else if n == 4 && NamesInviter(user, invitedBy) then MergeUser(g, invitedBy.value, None)
    else if n == 5 && NamesInviter(user, invitedBy) then MergeInvited(g, invitedBy.value, user)
    else g
  }

  /** Handled alone, the writes of a record are its single writes in order. */
  lemma WrittenOneByOne(g: Graph, user: User, invitedBy: Option<User>, writes: nat)
    ensures Written(g, user, invitedBy, 0) == g
    ensures Written(g, user, invitedBy, writes + 1) == WriteOne(Written(g, user, invitedBy, writes), user, invitedBy, writes + 1)
  {
  }

  /** A record past its check; `stale` once a removal of its user has committed since. */
  datatype Handler = Handler(user: User, invitedBy: Option<User>, writes: nat, stale: bool)

  /** `recorded` and `removed` are the users whose MEMBER_OF write or removal has happened; history. */
  datatype World = World(g: Graph, handlers: map<nat, Handler>, recorded: set<User>, removed: set<User>)

  const IDLE := World(EMPTY, map[], {}, {})

  /** One graph call; a handling that fails takes no further step. */
  datatype Step = Check(h: nat, user: User, invitedBy: Option<User>) | Write(h: nat) | Remove(user: User)

  predicate Allowed(w: World, s: Step) {
    match s
    case Check(h, _, _) => h !in w.handlers
    case Write(h) => h in w.handlers && w.handlers[h].writes < 5
    case Remove(_) => true
  }

  function Next(w: World, s: Step): World {
    match s
    case Check(h, user, invitedBy) =>
      if IsRemoved(w.g, user) then w else w.(handlers := w.handlers[h := Handler(user, invitedBy, 0, false)])
    case Write(h) =>
      if h in w.handlers then
        var r := w.handlers[h];
        w.(g := WriteOne(w.g, r.user, r.invitedBy, r.writes + 1), handlers := w.handlers[h := r.(writes := r.writes + 1)],
           recorded := if r.writes == 2 then w.recorded + {r.user} else w.recorded)
      else w
    case Remove(user) =>
      w.(g := Handled(w.g, Removed(user, true)), removed := w.removed + {user},
         handlers := map h | h in w.handlers :: w.handlers[h].(stale := w.handlers[h].stale || w.handlers[h].user == user))
  }

  predicate Legal(w: World, steps: seq<Step>)
    decreases |steps|
  {
    |steps| == 0 || (Allowed(w, steps[0]) && Legal(Next(w, steps[0]), steps[1..]))
  }

  /** A removal of its user committed between this record's check and this write of its node or its MEMBER_OF. */
  predicate StaleWrite(w: World, s: Step) {
    s.Write? && s.h in w.handlers && w.handlers[s.h].stale && w.handlers[s.h].writes in {1, 2}
  }

  predicate NoStaleWrite(w: World, steps: seq<Step>)
    decreases |steps|
  {
    |steps| == 0 || (!StaleWrite(w, steps[0]) && NoStaleWrite(Next(w, steps[0]), steps[1..]))
  }

  /** Members are the users recorded and not removed, and the tombstones are the removed ones. */
  ghost predicate Right(w: World) {
    && (forall user :: user in w.g.members <==> user in w.recorded && user !in w.removed)
    && (forall user :: IsRemoved(w.g, user) <==> user in w.removed)
  }

  ghost predicate AlwaysRight(w: World, steps: seq<Step>)
    decreases |steps|
  {
    Right(w) && (|steps| > 0 ==> AlwaysRight(Next(w, steps[0]), steps[1..]))
  }

  ghost predicate Tracked(w: World) {
    forall h | h in w.handlers ::
      && w.handlers[h].writes <= 5
      && (w.handlers[h].stale <==> w.handlers[h].user in w.removed)
      && (w.handlers[h].writes >= 1 ==> w.g.tenant)
      && (w.handlers[h].writes >= 2 ==> w.handlers[h].user in w.g.nodes)
  }

  lemma TrackedStep(w: World, s: Step)
    requires Tracked(w) && Right(w) && Allowed(w, s)
    ensures Tracked(Next(w, s))
  {
    var w' := Next(w, s);
    forall h | h in w'.handlers
      ensures w'.handlers[h].stale <==> w'.handlers[h].user in w'.removed
    {
      if h in w.handlers {
        assert w.handlers[h].stale <==> w.handlers[h].user in w.removed;
      }
    }
  }

  /** One step keeps the graph right exactly if it is not a stale write. */
  lemma RightStep(w: World, s: Step)
    requires Tracked(w) && Right(w) && Allowed(w, s)
    ensures Right(Next(w, s)) <==> !StaleWrite(w, s)
  {
    if s.Write? {
      WriteKeepsRight(w, s.h);
    }
  }

  lemma WriteKeepsRight(w: World, h: nat)
    requires Tracked(w) && Right(w) && Allowed(w, Write(h))
    ensures Right(Next(w, Write(h))) <==> !StaleWrite(w, Write(h))
  {
    var r, w' := w.handlers[h], Next(w, Write(h));
    assert IsRemoved(w.g, r.user) <==> r.user in w.removed;
    if r.writes == 1 {
      assert forall user | user != r.user :: IsRemoved(w'.g, user) <==> IsRemoved(w.g, user);
      assert !IsRemoved(w'.g, r.user);
    } else if r.writes == 2 {
      assert r.user in w'.g.members && w'.g.nodes == w.g.nodes;
    } else {
      assert w'.g.members == w.g.members;
      assert forall user :: IsRemoved(w'.g, user) <==> IsRemoved(w.g, user);
    }
  }

  lemma {:induction false} RightFrom(w: World, steps: seq<Step>)
    requires Tracked(w) && Right(w) && Legal(w, steps)
    ensures AlwaysRight(w, steps) <==> NoStaleWrite(w, steps)
    decreases |steps|
  {
    if |steps| > 0 {
      RightStep(w, steps[0]);
      TrackedStep(w, steps[0]);
      if Right(Next(w, steps[0])) {
        RightFrom(Next(w, steps[0]), steps[1..]);
      }
    }
  }

  /**
   * Records and removals interleaved call by call: the members and tombstones
   * stay right all along exactly if no record writes its user's node or
   * MEMBER_OF after a removal its check came before.
   */
  lemma MembershipRightExactly(steps: seq<Step>)
    requires Legal(IDLE, steps)
    ensures AlwaysRight(IDLE, steps) <==> NoStaleWrite(IDLE, steps)
  {
    RightFrom(IDLE, steps);
  }

  /** Every stale write does harm at once: the node's write loses the tombstone, the edge's brings the member back. */
  lemma OverlapResurrects(w: World, h: nat)
    requires Tracked(w) && Right(w) && Allowed(w, Write(h)) && StaleWrite(w, Write(h))
    ensures var user := w.handlers[h].user;
            && user in w.removed
            && (w.handlers[h].writes == 1 ==> IsRemoved(w.g, user) && !IsRemoved(Next(w, Write(h)).g, user))
            && (w.handlers[h].writes == 2 ==> user !in w.g.members && user in Next(w, Write(h)).g.members)
  {
    var user := w.handlers[h].user;
    assert IsRemoved(w.g, user) <==> user in w.removed;
    assert user in w.g.members ==> user !in w.removed;
  }

  /** The five writes one by one: nodes are merged, and an edge is written only between nodes that exist. */
  lemma WritesExactly(g: Graph, user: User, invitedBy: Option<User>)
    ensures WriteOne(g, user, invitedBy, 1) == g.(tenant := true)
    ensures WriteOne(g, user, invitedBy, 2) == g.(nodes := g.nodes[user := Some(false)])
    ensures WriteOne(g, user, invitedBy, 3) == if user in g.nodes && g.tenant then g.(members := g.members + {user}) else g
    ensures invitedBy.None? || invitedBy.value == "" || invitedBy.value == user ==>
              WriteOne(g, user, invitedBy, 4) == g && WriteOne(g, user, invitedBy, 5) == g
    ensures invitedBy.Some? && invitedBy.value != "" && invitedBy.value != user ==>
              && WriteOne(g, user, invitedBy, 4) ==
                   (if invitedBy.value in g.nodes then g else g.(nodes := g.nodes[invitedBy.value := None]))
              && WriteOne(g, user, invitedBy, 5) ==
                   (if user in g.nodes && invitedBy.value in g.nodes
                    then g.(invited := g.invited + {(invitedBy.value, user)}) else g)
  {
  }
}
