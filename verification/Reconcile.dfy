/** Bringing the Raft configuration in line with the members: what one pass of reconcile does. */
module Reconcile {
  import opened Wrappers
  import opened Members

  datatype Server = Server(id: string, address: string)

  /** What a change of the Raft configuration may do: an error may come although the change went in. */
  datatype Outcome = Applied | Refused | AppliedWithError

  /** What a pass depends on: this node, its region, Go's EqualFold, and the members. */
  datatype Cluster = Cluster(self: string, region: string, sameFold: (string, string) -> bool, members: seq<Member>)

  // ----- What a pass is for -----

  predicate HandledServer(c: Cluster, m: Member) {
    IsServer(m).Some? && IsServer(m).value.region == c.region
  }

  function ServerOf(m: Member): Server
    requires IsServer(m).Some?
  {
    Server(m.name, IsServer(m).value.address)
  }

  /** Another server, wherever it is, claims to be the bootstrap node too. */
  predicate Blocked(c: Cluster, m: Member)
    requires IsServer(m).Some?
  {
    && IsServer(m).value.bootstrap
    && exists o | o in c.members :: IsServer(o).Some? && o.name != m.name && IsServer(o).value.bootstrap
  }

  /** The server that a member should be in the configuration. */
  function Target(c: Cluster, m: Member): Option<Server> {
    if HandledServer(c, m) && m.status == Alive && !Blocked(c, m) then Some(ServerOf(m)) else None
  }

  predicate Departed(c: Cluster, m: Member) {
    HandledServer(c, m) && m.status == Left && !c.sameFold(m.name, c.self)
  }

  // ----- The effect of a pass on the set of servers -----

  function Placed(servers: set<Server>, t: Server): set<Server> {
    {t} + set s | s in servers && s.id != t.id && s.address != t.address
  }

  function AfterMember(c: Cluster, m: Member, servers: set<Server>): set<Server> {
    if Target(c, m).Some? then
      if m.name == c.self && |servers| < 3 then servers else Placed(servers, Target(c, m).value)
    else if Departed(c, m) then set s | s in servers && s.id != m.name
    else servers
  }

  function Pass(c: Cluster, ms: seq<Member>, servers: set<Server>): set<Server> {
    if ms == [] then servers else AfterMember(c, ms[|ms| - 1], Pass(c, ms[..|ms| - 1], servers))
  }

  ghost predicate OneToOne(servers: set<Server>) {
    forall s, t | s in servers && t in servers :: s.id == t.id || s.address == t.address ==> s == t
  }

  lemma AfterMemberOneToOne(c: Cluster, m: Member, servers: set<Server>)
    requires OneToOne(servers)
    ensures OneToOne(AfterMember(c, m, servers))
  {
  }

  lemma {:induction false} PassOneToOne(c: Cluster, ms: seq<Member>, servers: set<Server>)
    requires OneToOne(servers)
    ensures OneToOne(Pass(c, ms, servers))
  {
    if ms != [] {
      PassOneToOne(c, ms[..|ms| - 1], servers);
      AfterMemberOneToOne(c, ms[|ms| - 1], Pass(c, ms[..|ms| - 1], servers));
    }
  }

  // ----- The configuration a pass leads to -----

  /** Member names differ, alive servers of the region have different addresses, and this node, if
      eligible, is configured where it is. */
  ghost predicate Orderly(c: Cluster, servers: set<Server>) {
    && OneToOne(servers)
    && AllApart(c)
    && (forall m | m in c.members && m.name == c.self && Target(c, m).Some? :: Target(c, m).value in servers)
  }

  ghost predicate AllApart(c: Cluster) {
    forall i, j | 0 <= i < j < |c.members| :: Apart(c, c.members[i], c.members[j])
  }

  ghost predicate Apart(c: Cluster, m: Member, o: Member) {
    && m.name != o.name
    && (HandledServer(c, m) && HandledServer(c, o) && m.status == Alive && o.status == Alive ==>
          IsServer(m).value.address != IsServer(o).value.address)
  }

  ghost predicate Wanted(c: Cluster, ms: seq<Member>, s: Server) {
    exists m :: m in ms && Target(c, m) == Some(s)
  }

  /** An eligible member took over the id or the address of s. */
  ghost predicate Displaced(c: Cluster, ms: seq<Member>, s: Server) {
    exists m :: m in ms && Displaces(c, m, s)
  }

  predicate Displaces(c: Cluster, m: Member, s: Server) {
    Target(c, m).Some? && (Target(c, m).value.id == s.id || Target(c, m).value.address == s.address)
  }

  ghost predicate Gone(c: Cluster, ms: seq<Member>, s: Server) {
    exists m :: m in ms && Departed(c, m) && m.name == s.id
  }

  /** Eligible members, and the earlier servers that nobody displaced and that did not depart. */
  ghost predicate Expected(c: Cluster, ms: seq<Member>, before: set<Server>, s: Server) {
    Wanted(c, ms, s) || (s in before && !Displaced(c, ms, s) && !Gone(c, ms, s))
  }

  ghost predicate AsExpected(c: Cluster, k: nat, before: set<Server>, s: Server)
    requires k <= |c.members|
  {
    s in Pass(c, c.members[..k], before) <==> Expected(c, c.members[..k], before, s)
  }

  lemma {:induction false} PassIs(c: Cluster, k: nat, before: set<Server>, s: Server)
    requires Orderly(c, before) && k <= |c.members|
    ensures AsExpected(c, k, before, s)
    decreases k
  {
    if k > 0 {
      PassIs(c, k - 1, before, s);
      if Target(c, c.members[k - 1]).Some? {
        PassIs(c, k - 1, before, Target(c, c.members[k - 1]).value);
      }
      PassIsMore(c, k - 1, before, s);
    }
  }

  lemma PassIsMore(c: Cluster, k: nat, before: set<Server>, s: Server)
    requires Orderly(c, before) && k < |c.members| && AsExpected(c, k, before, s)
    requires var t := Target(c, c.members[k]); t.Some? ==> AsExpected(c, k, before, t.value)
    ensures AsExpected(c, k + 1, before, s)
  {
    var m, ms := c.members[k], c.members[..k];
    var now := Pass(c, ms, before);
    assert c.members[..k + 1] == ms + [m];
    PassMore(c, k, before, now);
    PassOneToOne(c, ms, before);
    if Target(c, m).Some? && m.name == c.self {
      NotYet(c, k, Target(c, m).value);
    }
    OneMember(c, k, before, now, s);
  }

  lemma PassMore(c: Cluster, i: nat, before: set<Server>, now: set<Server>)
    requires i < |c.members| && now == Pass(c, c.members[..i], before)
    ensures Pass(c, c.members[..i + 1], before) == AfterMember(c, c.members[i], now)
  {
    assert c.members[..i + 1][..i] == c.members[..i];
  }

  lemma OneMember(c: Cluster, k: nat, before: set<Server>, servers: set<Server>, s: Server)
    requires Orderly(c, before) && k < |c.members| && OneToOne(servers)
    requires s in servers <==> Expected(c, c.members[..k], before, s)
    requires var m := c.members[k]; Target(c, m).Some? && m.name == c.self ==> Target(c, m).value in servers
    ensures s in AfterMember(c, c.members[k], servers) <==> Expected(c, c.members[..k] + [c.members[k]], before, s)
  {
    var m, ms := c.members[k], c.members[..k];
    OneMore(c, ms, m, s);
    WantedApart(c, k, s);
    if Target(c, m).Some? {
      AfterEligible(c, m, servers, s);
    }
  }

  lemma AfterEligible(c: Cluster, m: Member, servers: set<Server>, s: Server)
    requires Target(c, m).Some? && OneToOne(servers)
    requires m.name == c.self ==> Target(c, m).value in servers
    ensures s in AfterMember(c, m, servers) <==>
            Target(c, m) == Some(s) || (s in servers && !Displaces(c, m, s))
  {
  }

  lemma OneMore(c: Cluster, ms: seq<Member>, m: Member, s: Server)
    ensures Wanted(c, ms + [m], s) <==> Wanted(c, ms, s) || Target(c, m) == Some(s)
    ensures Displaced(c, ms + [m], s) <==> Displaced(c, ms, s) || Displaces(c, m, s)
    ensures Gone(c, ms + [m], s) <==> Gone(c, ms, s) || (Departed(c, m) && m.name == s.id)
  {
    assert forall o :: o in ms + [m] <==> o in ms || o == m;
  }

  /** What earlier members want is not what the member at k takes over or takes away. */
  lemma WantedApart(c: Cluster, k: nat, s: Server)
    requires k < |c.members| && AllApart(c)
    ensures Wanted(c, c.members[..k], s) ==>
              !Displaces(c, c.members[k], s) && !(Departed(c, c.members[k]) && c.members[k].name == s.id)
  {
    if Wanted(c, c.members[..k], s) {
      var o :| o in c.members[..k] && Target(c, o) == Some(s);
      var i :| 0 <= i < k && c.members[i] == o;
      assert Apart(c, c.members[i], c.members[k]);
    }
  }

  lemma NotYet(c: Cluster, k: nat, t: Server)
    requires k < |c.members| && AllApart(c)
    requires Target(c, c.members[k]) == Some(t)
    ensures !Displaced(c, c.members[..k], t) && !Gone(c, c.members[..k], t)
  {
    forall o | o in c.members[..k]
      ensures !Displaces(c, o, t) && !(Departed(c, o) && o.name == t.id)
    {
      var i :| 0 <= i < k && c.members[i] == o;
      assert Apart(c, c.members[i], c.members[k]);
    }
  }

  /** No member has anything to change. */
  ghost predicate Settled(c: Cluster, servers: set<Server>) {
    forall m | m in c.members :: AfterMember(c, m, servers) == servers
  }

  /** After a pass without errors each eligible member is configured where it is, every departed one is
      gone, whatever else is configured was before, and one more pass has nothing to change. */
  lemma PassSettles(c: Cluster, before: set<Server>)
    requires Orderly(c, before)
    ensures var after := Pass(c, c.members, before);
            && OneToOne(after)
            && (forall m | m in c.members && Target(c, m).Some? :: Target(c, m).value in after)
            && (forall m, s | m in c.members && Departed(c, m) && s in after :: s.id != m.name)
            && (forall s | s in after :: s in before || Wanted(c, c.members, s))
            && Settled(c, after)
  {
    var after, all := Pass(c, c.members, before), |c.members|;
    assert c.members[..all] == c.members;
    PassOneToOne(c, c.members, before);
    forall s ensures s in after <==> Expected(c, c.members, before, s) {
      PassIs(c, all, before, s);
    }
    forall m, s | m in c.members && Departed(c, m) && s in after
      ensures s.id != m.name
    {
      DepartedIsGone(c, before, m, s);
    }
    forall m | m in c.members ensures AfterMember(c, m, after) == after {
      if Target(c, m).Some? {
        PlacedThere(after, Target(c, m).value);
      }
    }
  }

  /** Another server, wherever it is, claims to be the bootstrap node as this one does. */
  ghost predicate HasRival(c: Cluster, m: Member) {
    && IsServer(m).Some? && IsServer(m).value.bootstrap
    && exists o | o in c.members :: o.name != m.name && IsServer(o).Some? && IsServer(o).value.bootstrap
  }

  /** An alive server of the region without a rival. */
  ghost predicate Eligible(c: Cluster, m: Member) {
    IsServer(m).Some? && IsServer(m).value.region == c.region && m.status == Alive && !HasRival(c, m)
  }

  /** A departed server of the region whose name does not fold to this node's. */
  ghost predicate Leaves(c: Cluster, m: Member) {
    IsServer(m).Some? && IsServer(m).value.region == c.region && m.status == Left && !c.sameFold(m.name, c.self)
  }

  lemma EligibleIff(c: Cluster, m: Member)
    ensures Target(c, m) == if Eligible(c, m) then Some(Server(m.name, IsServer(m).value.address)) else None
    ensures Departed(c, m) <==> Leaves(c, m)
  {
    if IsServer(m).Some? {
      assert Blocked(c, m) <==> HasRival(c, m);
    }
  }

  /** The same in terms of the members: eligible ones are configured at their addresses, those that leave are
      not, and a server comes or goes only on account of such a member. */
  lemma PassSettlesMembers(c: Cluster, before: set<Server>)
    requires Orderly(c, before)
    ensures var after := Pass(c, c.members, before);
            && (forall m | m in c.members && Eligible(c, m) :: Server(m.name, IsServer(m).value.address) in after)
            && (forall m, s | m in c.members && Leaves(c, m) && s in after :: s.id != m.name)
            && (forall s | s in after && s !in before ::
                  exists m :: m in c.members && Eligible(c, m) && s == Server(m.name, IsServer(m).value.address))
            && (forall s | s in before && s !in after ::
                  exists m :: m in c.members
                              && if Eligible(c, m) then m.name == s.id || IsServer(m).value.address == s.address
                                 else Leaves(c, m) && m.name == s.id)
  {
    PassSettles(c, before);
    assert c.members[..|c.members|] == c.members;
    forall m ensures Target(c, m) == (if Eligible(c, m) then Some(Server(m.name, IsServer(m).value.address)) else None)
      ensures Departed(c, m) <==> Leaves(c, m)
    {
      EligibleIff(c, m);
    }
    forall s ensures s in Pass(c, c.members, before) <==> Expected(c, c.members, before, s) {
      PassIs(c, |c.members|, before, s);
    }
  }

  lemma DepartedIsGone(c: Cluster, before: set<Server>, m: Member, s: Server)
    requires Orderly(c, before) && m in c.members && Departed(c, m) && Expected(c, c.members, before, s)
    ensures s.id != m.name
  {
    if s.id == m.name && Wanted(c, c.members, s) {
      var o :| o in c.members && Target(c, o) == Some(s);
      SameName(c, before, m, o);
    }
  }

  lemma PlacedThere(servers: set<Server>, t: Server)
    requires OneToOne(servers) && t in servers
    ensures Placed(servers, t) == servers
  {
  }

  lemma SameName(c: Cluster, before: set<Server>, m: Member, o: Member)
    requires Orderly(c, before) && m in c.members && o in c.members && m.name == o.name
    ensures m == o
  {
    var i :| 0 <= i < |c.members| && c.members[i] == m;
    var j :| 0 <= j < |c.members| && c.members[j] == o;
    ApartNames(c, i, j);
  }

  lemma ApartNames(c: Cluster, i: nat, j: nat)
    requires AllApart(c) && i < |c.members| && j < |c.members|
    ensures i != j ==> c.members[i].name != c.members[j].name
  {
    if i < j {
      assert Apart(c, c.members[i], c.members[j]);
    } else if j < i {
      assert Apart(c, c.members[j], c.members[i]);
    }
  }

  /** The server of a member that is not eligible stays, unless the member departed or someone else
      took the address: a failed or reaped server stays, and so does a departed one whose name differs
      from this node's in case only. */
  lemma StaysIff(c: Cluster, before: set<Server>, m: Member, s: Server)
    requires Orderly(c, before) && m in c.members && Target(c, m).None?
    requires s in before && s.id == m.name
    ensures s in Pass(c, c.members, before) <==> !Departed(c, m) && !Displaced(c, c.members, s)
  {
    assert c.members[..|c.members|] == c.members;
    PassIs(c, |c.members|, before, s);
    forall o | o in c.members && o.name == m.name ensures o == m {
      SameName(c, before, m, o);
    }
  }

  /** The order in which gossip lists the members does not matter. */
  lemma PassOrder(c: Cluster, d: Cluster, before: set<Server>)
    requires Orderly(c, before) && Orderly(d, before)
    requires d == c.(members := d.members) && forall m :: m in c.members <==> m in d.members
    ensures Pass(c, c.members, before) == Pass(d, d.members, before)
  {
    assert c.members[..|c.members|] == c.members && d.members[..|d.members|] == d.members;
    forall m ensures Target(c, m) == Target(d, m) && Departed(c, m) == Departed(d, m) {
      if IsServer(m).Some? {
        assert Blocked(c, m) == Blocked(d, m);
      }
    }
    forall s ensures s in Pass(c, c.members, before) <==> s in Pass(d, d.members, before) {
      PassIs(c, |c.members|, before, s);
      PassIs(d, |d.members|, before, s);
    }
  }

  /** A member other than this node does nothing to the server that this node should be. */
  lemma OtherLeaves(c: Cluster, m: Member, o: Member, t: Server, servers: set<Server>)
    requires (Apart(c, m, o) || Apart(c, o, m)) && Target(c, m) == Some(t)
    ensures t in AfterMember(c, o, servers) <==> t in servers
  {
  }

  lemma SelfPlaced(c: Cluster, m: Member, t: Server, servers: set<Server>)
    requires m.name == c.self && Target(c, m) == Some(t)
    ensures t in AfterMember(c, m, servers) <==> t in servers || |servers| >= 3
  {
  }

  /** Whether the server is configured after the first i members of a pass. */
  function ThereAfter(c: Cluster, t: Server, before: set<Server>): nat -> bool {
    (i: nat) => i <= |c.members| && t in Pass(c, c.members[..i], before)
  }

  predicate Unmoved(there: nat -> bool, i: nat) {
    there(i + 1) <==> there(i)
  }

  lemma SelfUntouched(c: Cluster, k: nat, i: nat, t: Server, before: set<Server>)
    requires k < |c.members| && i < |c.members| && Target(c, c.members[k]) == Some(t)
    requires Apart(c, c.members[k], c.members[i]) || Apart(c, c.members[i], c.members[k])
    ensures Unmoved(ThereAfter(c, t, before), i)
  {
    var now := Pass(c, c.members[..i], before);
    PassMore(c, i, before, now);
    OtherLeaves(c, c.members[k], c.members[i], t, now);
  }

  lemma {:induction false} StaysUnmoved(there: nat -> bool, first: nat, last: nat)
    requires first <= last && forall i | first <= i < last :: Unmoved(there, i)
    ensures there(last) <==> there(first)
    decreases last
  {
    if first < last {
      assert Unmoved(there, last - 1);
      StaysUnmoved(there, first, last - 1);
    }
  }

  lemma SelfMoves(c: Cluster, k: nat, t: Server, before: set<Server>)
    requires k < |c.members| && c.members[k].name == c.self && Target(c, c.members[k]) == Some(t)
    ensures var there := ThereAfter(c, t, before);
            there(k + 1) <==> there(k) || |Pass(c, c.members[..k], before)| >= 3
  {
    var now := Pass(c, c.members[..k], before);
    PassMore(c, k, before, now);
    SelfPlaced(c, c.members[k], t, now);
  }

  lemma WholePass(c: Cluster, t: Server, before: set<Server>)
    ensures ThereAfter(c, t, before)(0) <==> t in before
    ensures ThereAfter(c, t, before)(|c.members|) <==> t in Pass(c, c.members, before)
  {
    assert c.members[..|c.members|] == c.members;
  }

  /** A pass leaves this node configured where it is if and only if it was to begin with, or the
      configuration has at least three servers when its turn comes: a smaller one keeps a stale address. */
  lemma SelfCorrectedIff(c: Cluster, k: nat, t: Server, before: set<Server>)
    requires AllApart(c) && k < |c.members|
    requires c.members[k].name == c.self && Target(c, c.members[k]) == Some(t)
    ensures t in Pass(c, c.members, before) <==> t in before || |Pass(c, c.members[..k], before)| >= 3
  {
    var there := ThereAfter(c, t, before);
    WholePass(c, t, before);
    SelfMoves(c, k, t, before);
    OthersUnmoved(c, k, t, before, there);
  }

  lemma OthersUnmoved(c: Cluster, k: nat, t: Server, before: set<Server>, there: nat -> bool)
    requires AllApart(c) && k < |c.members| && Target(c, c.members[k]) == Some(t)
    requires there == ThereAfter(c, t, before)
    ensures (there(k) <==> there(0)) && (there(|c.members|) <==> there(k + 1))
  {
    forall i | 0 <= i < |c.members| && i != k ensures Unmoved(there, i) {
      assert if i < k then Apart(c, c.members[i], c.members[k]) else Apart(c, c.members[k], c.members[i]);
      SelfUntouched(c, k, i, t, before);
    }
    StaysUnmoved(there, 0, k);
    StaysUnmoved(there, k + 1, |c.members|);
  }

  /** Even a pass that fails half way loses only servers that were displaced or departed, and gains
      only eligible members. */
  ghost predicate Within(c: Cluster, ms: seq<Member>, before: set<Server>, after: set<Server>) {
    && (forall s | s in before && s !in after :: Displaced(c, ms, s) || Gone(c, ms, s))
    && (forall s | s in after && s !in before :: Wanted(c, ms, s))
  }

  lemma WithinMore(c: Cluster, ms: seq<Member>, more: seq<Member>, m: Member, before: set<Server>, now: set<Server>,
                   after: set<Server>)
    requires Within(c, ms, before, now) && Changed(c, m, now, after)
    requires forall o :: o in ms || o == m ==> o in more
    ensures Within(c, more, before, after)
  {
    forall s | s in before && s !in after
      ensures Displaced(c, more, s) || Gone(c, more, s)
    {
      assert s !in now ==> Displaced(c, ms, s) || Gone(c, ms, s);
    }
  }

  /** What one member may change. */
  ghost predicate Changed(c: Cluster, m: Member, before: set<Server>, after: set<Server>) {
    && (forall s | s in before && s !in after :: Displaces(c, m, s) || (Departed(c, m) && m.name == s.id))
    && (forall s | s in after && s !in before :: Target(c, m) == Some(s))
  }

  lemma PlacedChanges(c: Cluster, m: Member, before: set<Server>, after: set<Server>)
    requires Target(c, m).Some?
    requires forall s | s in after && s !in before :: s == Target(c, m).value
    requires forall s | s in before && s !in after ::
               s.id == Target(c, m).value.id || s.address == Target(c, m).value.address
    ensures Changed(c, m, before, after)
  {
  }

  // ----- The Raft configuration and the pass that changes it -----

  ghost predicate Unique(servers: seq<Server>) {
    servers == [] || (NoneLike(servers[1..], servers[0]) && Unique(servers[1..]))
  }

  ghost predicate NoneLike(servers: seq<Server>, s: Server) {
    forall r | r in servers :: r.id != s.id && r.address != s.address
  }

  lemma {:induction false} UniqueAt(servers: seq<Server>, i: nat, j: nat)
    requires Unique(servers) && i < j < |servers|
    ensures servers[i].id != servers[j].id && servers[i].address != servers[j].address
  {
    if i == 0 {
      assert servers[1..][j - 1] == servers[j];
    } else {
      UniqueAt(servers[1..], i - 1, j - 1);
    }
  }

  function Configured(servers: seq<Server>): set<Server> {
    set s | s in servers
  }

  function Removed(servers: seq<Server>, id: string): seq<Server> {
    if servers == [] then []
    else if servers[0].id == id then servers[1..]
    else [servers[0]] + Removed(servers[1..], id)
  }

  /** A voter with a known id gets the address, a new one is appended. */
  function Put(servers: seq<Server>, t: Server): seq<Server> {
    if servers == [] then [t]
    else if servers[0].id == t.id then [t] + servers[1..]
    else [servers[0]] + Put(servers[1..], t)
  }

  lemma UniqueParts(s: Server, rest: seq<Server>)
    ensures Unique([s] + rest) <==> Unique(rest) && NoneLike(rest, s)
  {
    assert ([s] + rest)[1..] == rest;
  }

  lemma {:induction false} RemovedMembers(servers: seq<Server>, id: string)
    requires Unique(servers)
    ensures Unique(Removed(servers, id))
    ensures forall s :: s in Removed(servers, id) <==> s in servers && s.id != id
  {
    if servers != [] {
      assert servers == [servers[0]] + servers[1..];
      UniqueParts(servers[0], servers[1..]);
      RemovedMembers(servers[1..], id);
      UniqueParts(servers[0], Removed(servers[1..], id));
    }
  }

  lemma {:induction false} PutMembers(servers: seq<Server>, t: Server)
    requires Unique(servers) && forall s | s in servers && s.address == t.address :: s.id == t.id
    ensures Unique(Put(servers, t))
    ensures forall s :: s in Put(servers, t) <==> s == t || (s in servers && s.id != t.id)
  {
    if servers == [] {
    } else {
      assert servers == [servers[0]] + servers[1..];
      UniqueParts(servers[0], servers[1..]);
      if servers[0].id == t.id {
        UniqueParts(t, servers[1..]);
      } else {
        PutMembers(servers[1..], t);
        UniqueParts(servers[0], Put(servers[1..], t));
      }
    }
  }

  lemma {:induction false} ConfiguredSize(servers: seq<Server>)
    requires Unique(servers)
    ensures |Configured(servers)| == |servers| && OneToOne(Configured(servers))
  {
    if servers == [] {
      assert Configured(servers) == {};
    } else {
      var rest := servers[1..];
      assert servers == [servers[0]] + rest;
      UniqueParts(servers[0], rest);
      ConfiguredSize(rest);
      assert Configured(servers) == {servers[0]} + Configured(rest);
    }
  }

  ghost predicate Clearing(seen: seq<Server>, t: Server, at: int) {
    forall k | 0 <= k < |seen| :: seen[k] != t && (k == at <==> seen[k].address == t.address && seen[k].id != t.id)
  }

  lemma OthersDiffer(snapshot: seq<Server>, t: Server, at: int, i: nat)
    requires -1 <= at < i < |snapshot| && Unique(snapshot) && Clearing(snapshot[..i], t, at)
    ensures at >= 0 ==> snapshot[at].address == t.address != snapshot[i].address
  {
    if at >= 0 {
      UniqueAt(snapshot, at, i);
      assert snapshot[..i][at] == snapshot[at];
    }
  }

  lemma ClearingMore(snapshot: seq<Server>, t: Server, at: int, i: nat)
    requires -1 <= at < i < |snapshot| && Clearing(snapshot[..i], t, at) && snapshot[i] != t
    requires at >= 0 ==> snapshot[at].address != snapshot[i].address
    ensures if snapshot[i].address == t.address && snapshot[i].id != t.id
            then at < 0 && Clearing(snapshot[..i + 1], t, i)
            else Clearing(snapshot[..i + 1], t, at)
  {
    assert snapshot[..i + 1] == snapshot[..i] + [snapshot[i]];
    ClearingSnoc(snapshot[..i], t, at, snapshot[i]);
  }

  lemma ClearingSnoc(seen: seq<Server>, t: Server, at: int, server: Server)
    requires -1 <= at < |seen| && Clearing(seen, t, at) && server != t
    requires at >= 0 ==> seen[at].address != server.address
    ensures if server.address == t.address && server.id != t.id
            then at < 0 && Clearing(seen + [server], t, |seen|)
            else Clearing(seen + [server], t, at)
  {
    assert at >= 0 ==> seen[at].address == t.address;
  }

  /** No server is new, and only servers at the address of t are lost. */
  ghost predicate LosesOnly(before: seq<Server>, after: seq<Server>, t: Server) {
    && (forall s | s in after :: s in before)
    && (forall s | s in before && s !in after :: s.address == t.address)
  }

  /** Nobody but t is left at its address. */
  ghost predicate Clear(before: seq<Server>, after: seq<Server>, t: Server) {
    forall s :: s in after <==> s in before && (s.address == t.address ==> s.id == t.id)
  }

  lemma RemovedLoses(snapshot: seq<Server>, t: Server, at: nat)
    requires at < |snapshot| && Unique(snapshot) && snapshot[at].address == t.address && snapshot[at].id != t.id
    ensures t !in snapshot && LosesOnly(snapshot, Removed(snapshot, snapshot[at].id), t)
  {
    RemovedMembers(snapshot, snapshot[at].id);
    forall s | s in snapshot && (s.id == snapshot[at].id || s.address == snapshot[at].address)
      ensures s == snapshot[at] {
      SameServer(snapshot, s, at);
    }
  }

  lemma SameServer(servers: seq<Server>, s: Server, i: nat)
    requires i < |servers| && Unique(servers) && s in servers
    requires s.id == servers[i].id || s.address == servers[i].address
    ensures s == servers[i]
  {
    var k :| 0 <= k < |servers| && servers[k] == s;
    if k < i {
      UniqueAt(servers, k, i);
    } else if i < k {
      UniqueAt(servers, i, k);
    }
  }

  lemma ClearedAll(snapshot: seq<Server>, t: Server, at: int, now: seq<Server>)
    requires Unique(snapshot) && -1 <= at < |snapshot| && Clearing(snapshot, t, at)
    requires now == if at < 0 then snapshot else Removed(snapshot, snapshot[at].id)
    ensures t !in snapshot && LosesOnly(snapshot, now, t) && Clear(snapshot, now, t)
  {
    if at >= 0 {
      RemovedMembers(snapshot, snapshot[at].id);
      forall s | s in snapshot ensures s.id == snapshot[at].id <==> s.address == t.address && s.id != t.id {
        var k :| 0 <= k < |snapshot| && snapshot[k] == s;
        if s.id == snapshot[at].id {
          SameServer(snapshot, s, at);
        }
      }
    }
  }

  /** The turn of one member: what it may change, what it does if it goes well, and that it asks Raft for
      nothing and goes well if it has nothing to do. */
  ghost predicate Turn(c: Cluster, m: Member, before: seq<Server>, after: seq<Server>, ok: bool, asked: bool) {
    && Changed(c, m, Configured(before), Configured(after))
    && (ok ==> Configured(after) == AfterMember(c, m, Configured(before)))
    && (AfterMember(c, m, Configured(before)) == Configured(before) ==> ok && after == before && !asked)
  }

  lemma NoneNamed(c: Cluster, m: Member, servers: seq<Server>)
    requires Departed(c, m) && forall i | 0 <= i < |servers| :: servers[i].id != m.name
    ensures Turn(c, m, servers, servers, true, false)
  {
    forall s | s in Configured(servers) ensures s.id != m.name {
      var i :| 0 <= i < |servers| && servers[i] == s;
    }
    assert AfterMember(c, m, Configured(servers)) == Configured(servers);
  }

  lemma NamedRemoved(c: Cluster, m: Member, servers: seq<Server>, i: nat, after: seq<Server>, ok: bool)
    requires Departed(c, m) && Unique(servers) && i < |servers| && servers[i].id == m.name
    requires after == Removed(servers, m.name) || (after == servers && !ok)
    ensures Turn(c, m, servers, after, ok, true)
  {
    var before, gone := Configured(servers), AfterMember(c, m, Configured(servers));
    RemovedIs(c, m, servers);
    assert servers[i] in before && servers[i] !in gone;
    if after == servers {
      assert Changed(c, m, before, before);
    } else {
      assert Changed(c, m, before, gone);
    }
  }

  lemma RemovedIs(c: Cluster, m: Member, servers: seq<Server>)
    requires Departed(c, m) && Unique(servers)
    ensures Configured(Removed(servers, m.name)) == AfterMember(c, m, Configured(servers))
    ensures AfterMember(c, m, Configured(servers)) == set s | s in Configured(servers) && s.id != m.name
  {
    RemovedMembers(servers, m.name);
  }

  /** This node's view of Raft while it leads; outcome gives the result of each change asked for. */
  class Peers {
    const c: Cluster
    const outcome: nat -> Outcome
    var servers: seq<Server>
    var changes: nat

    ghost predicate Valid()
      reads this
    {
      Unique(servers)
    }

    ghost predicate AllApplied(earlier: nat)
      reads this
    {
      forall n | earlier <= n < changes :: outcome(n) == Applied
    }

    constructor (c: Cluster, outcome: nat -> Outcome)
      ensures Valid() && this.c == c && this.outcome == outcome && servers == [] && changes == 0
    {
      this.c, this.outcome := c, outcome;
      servers, changes := [], 0;
    }

    method RemoveServer(id: string) returns (ok: bool)
      requires Valid()
      modifies this
      ensures Valid() && changes == old(changes) + 1
      ensures ok <==> outcome(old(changes)) == Applied
      ensures servers == if outcome(old(changes)) == Refused then old(servers) else Removed(old(servers), id)
    {
      RemovedMembers(servers, id);
      var what := outcome(changes);
      servers := if what == Refused then servers else Removed(servers, id);
      changes := changes + 1;
      ok := what == Applied;
    }

    method AddVoter(t: Server) returns (ok: bool)
      requires Valid() && forall s | s in servers && s.address == t.address :: s.id == t.id
      modifies this
      ensures Valid() && changes == old(changes) + 1
      ensures ok <==> outcome(old(changes)) == Applied
      ensures servers == if outcome(old(changes)) == Refused then old(servers) else Put(old(servers), t)
    {
      PutMembers(servers, t);
      var what := outcome(changes);
      servers := if what == Refused then servers else Put(servers, t);
      changes := changes + 1;
      ok := what == Applied;
    }

    /** Addresses and ids stay one-to-one even when a call fails half way. */
    method AddRaftPeer(m: Member) returns (ok: bool)
      requires Valid() && HandledServer(c, m) && m.status == Alive
      modifies this
      ensures Valid() && changes >= old(changes) && (AllApplied(old(changes)) ==> ok)
      ensures Changed(c, m, old(Configured(servers)), Configured(servers))
      ensures ok ==> Configured(servers) == AfterMember(c, m, old(Configured(servers)))
      ensures AfterMember(c, m, old(Configured(servers))) == old(Configured(servers)) ==>
                ok && servers == old(servers) && changes == old(changes)
    {
      ConfiguredSize(servers);
      if IsServer(m).value.bootstrap {
        if exists o | o in c.members :: IsServer(o).Some? && o.name != m.name && IsServer(o).value.bootstrap {
          return true;
        }
      }
      if m.name == c.self && |servers| < 3 {
        return true;
      }
      assert Target(c, m) == Some(ServerOf(m));
      ghost var before := Configured(servers);
      ok := Place(ServerOf(m));
      PlacedChanges(c, m, before, Configured(servers));
    }

    /** Makes t a server of the configuration in place of whatever has its id or its address. */
    method Place(t: Server) returns (ok: bool)
      requires Valid()
      modifies this
      ensures Valid() && changes >= old(changes) && (AllApplied(old(changes)) ==> ok)
      ensures ok ==> Configured(servers) == Placed(old(Configured(servers)), t)
      ensures t in old(servers) ==> ok && servers == old(servers) && changes == old(changes)
      ensures forall s :: s in servers ==> s in old(servers) || s == t
      ensures forall s :: s in old(servers) && s !in servers ==> s.id == t.id || s.address == t.address
    {
      ConfiguredSize(servers);
      var cleared, there := ClearAddress(t);
      if !cleared {
        return false;
      }
      if there {
        return true;
      }
      PutMembers(servers, t);
      ok := AddVoter(t);
    }

    /** Removes the server that has the address of t under another id. */
    method ClearAddress(t: Server) returns (ok: bool, there: bool)
      requires Valid()
      modifies this
      ensures Valid() && changes >= old(changes) && (AllApplied(old(changes)) ==> ok)
      ensures there <==> t in old(servers)
      ensures LosesOnly(old(servers), servers, t)
      ensures there ==> ok && servers == old(servers) && changes == old(changes)
      ensures ok && !there ==> Clear(old(servers), servers, t)
    {
      var snapshot := servers;
      ghost var at := -1;  // where the removed server was
      for i := 0 to |snapshot|
        invariant Valid() && changes >= old(changes) && -1 <= at < i && AllApplied(old(changes))
        invariant Clearing(snapshot[..i], t, at)
        invariant servers == if at < 0 then snapshot else Removed(snapshot, snapshot[at].id)
        invariant at < 0 ==> changes == old(changes)
      {
        var server := snapshot[i];
        OthersDiffer(snapshot, t, at, i);
        if server.address == t.address || server.id == t.id {
          if server.address == t.address && server.id == t.id {
            return true, true;
          }
          if server.address == t.address {
            ClearingMore(snapshot, t, at, i);
            RemovedLoses(snapshot, t, i);
            var done := RemoveServer(server.id);
            if !done {
              return false, false;
            }
            at := i;
            continue;
          }
        }
        ClearingMore(snapshot, t, at, i);
      }
      assert snapshot[..|snapshot|] == snapshot;
      ClearedAll(snapshot, t, at, servers);
      return true, false;
    }

    method RemoveRaftPeer(m: Member) returns (ok: bool)
      requires Valid() && HandledServer(c, m) && m.status == Left
      modifies this
      ensures Valid() && changes >= old(changes) && (AllApplied(old(changes)) ==> ok)
      ensures Changed(c, m, old(Configured(servers)), Configured(servers))
      ensures ok ==> Configured(servers) == AfterMember(c, m, old(Configured(servers)))
      ensures AfterMember(c, m, old(Configured(servers))) == old(Configured(servers)) ==>
                ok && servers == old(servers) && changes == old(changes)
    {
      if c.sameFold(m.name, c.self) {
        return true;
      }
      ok := RemoveNamed(m);
    }

    /** The loop over the configuration: the server of that name is removed, if there is one. */
    method RemoveNamed(m: Member) returns (ok: bool)
      requires Valid() && Departed(c, m)
      modifies this
      ensures Valid() && changes >= old(changes) && (AllApplied(old(changes)) ==> ok)
      ensures Turn(c, m, old(servers), servers, ok, changes != old(changes))
    {
      for i := 0 to |servers|
        invariant servers == old(servers) && changes == old(changes)
        invariant forall k | 0 <= k < i :: servers[k].id != m.name
      {
        if servers[i].id == m.name {
          ok := RemoveServer(m.name);
          NamedRemoved(c, m, old(servers), i, servers, ok);
          return;
        }
      }
      NoneNamed(c, m, servers);
      return true;
    }

    method ReconcileMember(m: Member) returns (ok: bool)
      requires Valid()
      modifies this
      ensures Valid() && changes >= old(changes) && (AllApplied(old(changes)) ==> ok)
      ensures Changed(c, m, old(Configured(servers)), Configured(servers))
      ensures ok ==> Configured(servers) == AfterMember(c, m, old(Configured(servers)))
      ensures AfterMember(c, m, old(Configured(servers))) == old(Configured(servers)) ==>
                ok && servers == old(servers) && changes == old(changes)
    {
      ok := true;
      if HandledServer(c, m) {
        match m.status
        case Alive => ok := AddRaftPeer(m);
        case Left => ok := RemoveRaftPeer(m);
        case _ =>
      }
    }

    /** One pass. Without an error it has the effect of Pass and leaves the next pass nothing to do, and
        where there is nothing to do it asks Raft for nothing. */
    method Reconcile() returns (ok: bool)
      requires Valid()
      modifies this
      ensures Valid() && (AllApplied(old(changes)) ==> ok)
      ensures Within(c, c.members, old(Configured(servers)), Configured(servers))
      ensures ok ==> Configured(servers) == Pass(c, c.members, old(Configured(servers)))
      ensures ok && Orderly(c, old(Configured(servers))) ==> Settled(c, Configured(servers))
      ensures Settled(c, old(Configured(servers))) ==> ok && servers == old(servers) && changes == old(changes)
    {
      ghost var before := Configured(servers);
      for i := 0 to |c.members|
        invariant Valid() && changes >= old(changes)
        invariant Within(c, c.members[..i], before, Configured(servers))
        invariant Configured(servers) == Pass(c, c.members[..i], before)
        invariant Settled(c, before) ==> servers == old(servers) && changes == old(changes)
      {
        assert c.members[..i + 1][..i] == c.members[..i];
        ghost var now := Configured(servers);
        var done := ReconcileMember(c.members[i]);
        WithinMore(c, c.members[..i], c.members[..i + 1], c.members[i], before, now, Configured(servers));
        if !done {
          WithinMore(c, c.members[..i], c.members, c.members[i], before, now, Configured(servers));
          return false;
        }
      }
      assert c.members[..|c.members|] == c.members;
      if Orderly(c, before) {
        PassSettles(c, before);
      }
      return true;
    }
  }
}
