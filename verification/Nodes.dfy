/** Choosing the nodes that run a job: filtering and selecting in place in the member list. */
module Nodes {
  import opened Wrappers
  import opened Text
  import opened Members

  // ----- Tags -----

  /** The cardinality a tag value asks for: "value:3" asks for 3, and "value:x" for none at all. */
  function Limit(value: string): Option<int> {
    var parts := Split(value, ':');
    if |parts| == 2 then Some(Atoi(parts[1]).GetOr(0)) else None
  }

  function Bare(value: string): string {
    Split(value, ':')[0]
  }

  /** The least cardinality asked for, and the largest int when no tag asks for one. */
  ghost predicate IsLeast(tags: map<string, string>, c: int) {
    && (forall k | k in tags && Limit(tags[k]).Some? :: c <= Limit(tags[k]).value)
    && (c == MAX_INT64 || exists k :: k in tags && Limit(tags[k]) == Some(c))
  }

  lemma LimitFits(value: string)
    ensures Limit(value).Some? ==> Limit(value).value <= MAX_INT64
  {
  }

  lemma LeastUnique(tags: map<string, string>, c: int, d: int)
    requires IsLeast(tags, c) && IsLeast(tags, d)
    ensures c == d
  {
    forall k | k in tags ensures Limit(tags[k]).Some? ==> Limit(tags[k]).value <= MAX_INT64 {
      LimitFits(tags[k]);
    }
    if c != MAX_INT64 {
      var k :| k in tags && Limit(tags[k]) == Some(c);
    }
    if d != MAX_INT64 {
      var k :| k in tags && Limit(tags[k]) == Some(d);
    }
  }

  function Lower(c: int, value: string): int {
    if Limit(value).Some? && Limit(value).value < c then Limit(value).value else c
  }

  lemma SeeMore(seen: map<string, string>, k: string, value: string, c: int)
    requires IsLeast(seen, c) && k !in seen
    ensures IsLeast(seen[k := value], Lower(c, value))
  {
    var more := seen[k := value];
    assert forall j | j in seen :: j in more && more[j] == seen[j];
    assert more[k] == value;
  }

  /** The cardinality that tags ask for; LeastUnique makes the order of the walk irrelevant. */
  ghost function Cardinality(tags: map<string, string>): (c: int)
    ensures IsLeast(tags, c)
    decreases |tags|
  {
    if tags == map[] then MAX_INT64
    else
      var k :| k in tags;
      var rest := tags - {k};
      assert rest[k := tags[k]] == tags && |rest.Keys| == |tags.Keys - {k}|;
      var c := Cardinality(rest);
      SeeMore(rest, k, tags[k], c);
      Lower(c, tags[k])
  }

  /** A value that asks for a cardinality is written with its bare text in front. */
  lemma BareAndLimit(name: string, n: int)
    requires ':' !in name && MIN_INT64 <= n <= MAX_INT64
    ensures Bare(name + ":" + Itoa(n)) == name && Limit(name + ":" + Itoa(n)) == Some(n)
    ensures Bare(name) == name && Limit(name) == None
    ensures forall text | ':' !in text && Atoi(text).None? :: Limit(name + ":" + text) == Some(0)
  {
    forall text | ':' !in text && Atoi(text).None? ensures Limit(name + ":" + text) == Some(0) {
      SplitOfPrefix(name, text, ':');
      SplitOfPrefix(text, "", ':');
    }
    SplitOfPrefix(name, Itoa(n), ':');
    SplitOfPrefix(Itoa(n), "", ':');
    AtoiOfItoa(n);
  }

  /** The tags without cardinalities and the least cardinality, in whatever order the map is walked. */
  method CleanTags(tags: map<string, string>) returns (bare: map<string, string>, cardinality: int)
    ensures bare == BareTags(tags) && cardinality == Cardinality(tags)
  {
    cardinality, bare := MAX_INT64, map[];
    var left := tags.Keys;
    while left != {}
      invariant left <= tags.Keys
      invariant bare == BareTags(tags - left) && IsLeast(tags - left, cardinality)
      decreases |left|
    {
      var k :| k in left;
      OneMoreTag(tags, left, k, cardinality);
      left := left - {k};
      var parts := Split(tags[k], ':');
      bare := bare[k := parts[0]];
      if |parts| == 2 {
        var tagCard := Atoi(parts[1]).GetOr(0);
        if tagCard < cardinality {
          cardinality := tagCard;
        }
      }
    }
    assert tags - left == tags;
    LeastUnique(tags, cardinality, Cardinality(tags));
  }

  lemma OneMoreTag(tags: map<string, string>, left: set<string>, k: string, c: int)
    requires k in left && left <= tags.Keys && IsLeast(tags - left, c)
    ensures BareTags(tags - (left - {k})) == BareTags(tags - left)[k := Bare(tags[k])]
    ensures IsLeast(tags - (left - {k}), Lower(c, tags[k]))
  {
    assert tags - (left - {k}) == (tags - left)[k := tags[k]];
    SeeMore(tags - left, k, tags[k], c);
    BareMore(tags - left, k, tags[k]);
  }

  function BareTags(tags: map<string, string>): map<string, string> {
    map k | k in tags :: Bare(tags[k])
  }

  lemma BareMore(seen: map<string, string>, k: string, value: string)
    ensures BareTags(seen[k := value]) == BareTags(seen)[k := Bare(value)]
  {
  }

  predicate NodeMatchesTags(node: Member, tags: map<string, string>) {
    forall k | k in tags :: k in node.tags && node.tags[k] == tags[k]
  }

  /** Alive, in the region, and matching the tags. */
  predicate Qualifies(region: string, bare: map<string, string>, node: Member) {
    node.status == Alive && TagOf(node, "region") == region && NodeMatchesTags(node, bare)
  }

  function Qualifying(region: string, bare: map<string, string>): Member -> bool {
    (node: Member) => Qualifies(region, bare, node)
  }

  // ----- Filtering in place -----

  function Kept(s: seq<Member>, f: Member -> bool): seq<Member> {
    if s == [] then [] else (if f(s[0]) then [s[0]] else []) + Kept(s[1..], f)
  }

  lemma {:induction false} KeptCounts(s: seq<Member>, f: Member -> bool, m: Member)
    ensures multiset(Kept(s, f))[m] == if f(m) then multiset(s)[m] else 0
  {
    if s != [] {
      KeptCounts(s[1..], f, m);
      assert s == [s[0]] + s[1..];
    }
  }

  function Filled(s: seq<Member>, i: nat): seq<Member>
    requires i < |s|
  {
    s[i := s[|s| - 1]][..|s| - 1]
  }

  /** Filling the gap of a dropped element with the last one keeps what is to be kept. */
  lemma FillGap(s: seq<Member>, i: nat, f: Member -> bool)
    requires i < |s| && !f(s[i])
    ensures multiset(Kept(Filled(s, i), f)) == multiset(Kept(s, f))
  {
    forall m ensures multiset(Kept(Filled(s, i), f))[m] == multiset(Kept(s, f))[m] {
      KeptCounts(s, f, m);
      KeptCounts(Filled(s, i), f, m);
      GapCounts(s, i);
    }
  }

  lemma GapCounts(s: seq<Member>, i: nat)
    requires i < |s|
    ensures multiset(s) == multiset(Filled(s, i)) + multiset{s[i]}
  {
    var n := |s| - 1;
    var u := s[i := s[n]][n := s[i]];
    assert u == s[i := s[n]][..n] + [s[i]];
    assert multiset(u) == multiset(s);
  }

  lemma {:induction false} KeptAll(s: seq<Member>, f: Member -> bool)
    requires forall m | m in s :: f(m)
    ensures Kept(s, f) == s
  {
    if s != [] {
      KeptAll(s[1..], f);
    }
  }

  method Overwrite(arr: array<Member>, n: nat, i: nat)
    requires i < n <= arr.Length
    modifies arr
    ensures arr[..n - 1] == Filled(old(arr[..n]), i)
  {
    arr[i] := arr[n - 1];
  }

  /** The order in which filtering from position i downwards leaves the slice. */
  ghost function Sifted(s: seq<Member>, i: nat, f: Member -> bool): seq<Member>
    requires i <= |s|
    decreases i
  {
    if i == 0 then s
    else Sifted(if f(s[i - 1]) then s else Filled(s, i - 1), i - 1, f)
  }

  /** The slice of the first n elements is left with the elements that pass, each as often as before. */
  method FilterArray(arr: array<Member>, f: Member -> bool) returns (n: nat)
    modifies arr
    ensures n <= arr.Length
    ensures arr[..n] == Sifted(old(arr[..]), arr.Length, f)
    ensures multiset(arr[..n]) == multiset(Kept(old(arr[..]), f))
  {
    n := arr.Length;
    ghost var slice := arr[..];
    ghost var kept := KeptLike(slice, f);
    for i := arr.Length downto 0
      invariant i <= n <= arr.Length && arr[..n] == slice && kept(slice)
      invariant Sifted(slice, i, f) == Sifted(old(arr[..]), arr.Length, f)
      invariant forall k | i <= k < n :: f(slice[k])
    {
      if !f(arr[i]) {
        FillGap(slice, i, f);
        Overwrite(arr, n, i);
        slice := Filled(slice, i);
        n := n - 1;
      }
    }
    KeptAll(slice, f);
  }

  /** The lists that keep the same elements, each as often. */
  ghost function KeptLike(s: seq<Member>, f: Member -> bool): seq<Member> -> bool {
    (t: seq<Member>) => multiset(Kept(t, f)) == multiset(Kept(s, f))
  }

  function AtLeast(a: int, b: int): int {
    if a < b then b else a
  }

  function AtMost(a: int, b: int): int {
    if a < b then a else b
  }

  // ----- Selecting in place -----

  /** What the selector answers in each round, given the nodes still to choose from. */
  type Selector = (nat, seq<Member>) -> nat

  ghost predicate InRange(pick: Selector) {
    forall k: nat, s: seq<Member> {:trigger pick(k, s)} :: s != [] ==> pick(k, s) < |s|
  }

  /** The picks of so many rounds, the first one last; a picked node cannot be picked again. */
  ghost function Picked(s: seq<Member>, rounds: nat, pick: Selector, k: nat): seq<Member>
    requires rounds <= |s| && InRange(pick)
    decreases rounds
  {
    if rounds == 0 then []
    else Picked(Filled(s, pick(k, s)), rounds - 1, pick, k + 1) + [s[pick(k, s)]]
  }

  lemma {:induction false} PickedWithin(s: seq<Member>, rounds: nat, pick: Selector, k: nat)
    requires rounds <= |s| && InRange(pick)
    ensures |Picked(s, rounds, pick, k)| == rounds
    ensures multiset(Picked(s, rounds, pick, k)) <= multiset(s)
    decreases rounds
  {
    if rounds > 0 {
      PickedWithin(Filled(s, pick(k, s)), rounds - 1, pick, k + 1);
      GapCounts(s, pick(k, s));
    }
  }

  ghost predicate Picking(all: seq<Member>, rest: seq<Member>, rounds: nat, pick: Selector, picked: seq<Member>)
    requires InRange(pick)
  {
    rounds <= |rest| && all == Picked(rest, rounds, pick, |picked|) + picked
  }

  lemma PickOne(all: seq<Member>, rest: seq<Member>, rounds: nat, pick: Selector, picked: seq<Member>)
    requires InRange(pick) && rounds > 0 && Picking(all, rest, rounds, pick, picked)
    ensures var i := pick(|picked|, rest);
            i < |rest| && Picking(all, Filled(rest, i), rounds - 1, pick, [rest[i]] + picked)
  {
    var i := pick(|picked|, rest);
    var more := Picked(Filled(rest, i), rounds - 1, pick, |picked| + 1);
    assert more + [rest[i]] + picked == more + ([rest[i]] + picked);
  }

  function Swapped(s: seq<Member>, i: nat, j: nat): seq<Member>
    requires i < |s| && j < |s|
  {
    s[i := s[j]][j := s[i]]
  }

  lemma SwappedParts(s: seq<Member>, from: nat, chosen: nat)
    requires chosen < from <= |s|
    ensures var t := Swapped(s, from - 1, chosen);
            && multiset(t) == multiset(s)
            && t[..from - 1] == Filled(s[..from], chosen) && t[from - 1..] == [s[chosen]] + s[from..]
  {
  }

  /** One round: the picked node goes behind the nodes still to choose from. */
  method PickNode(nodes: array<Member>, n: nat, from: nat, pick: Selector, ghost all: seq<Member>, ghost rounds: nat)
    requires 0 < from <= n <= nodes.Length && InRange(pick) && rounds > 0
    requires Picking(all, nodes[..n][..from], rounds, pick, nodes[..n][from..])
    modifies nodes
    ensures multiset(nodes[..n]) == multiset(old(nodes[..n])) && nodes[n..] == old(nodes[n..])
    ensures Picking(all, nodes[..n][..from - 1], rounds - 1, pick, nodes[..n][from - 1..])
  {
    ghost var s := nodes[..n];
    assert s[..from] == nodes[..from];
    var chosen := pick(n - from, nodes[..from]);
    PickOne(all, s[..from], rounds, pick, s[from..]);
    SwappedParts(s, from, chosen);
    nodes[from - 1], nodes[chosen] := nodes[chosen], nodes[from - 1];
    assert nodes[..n] == Swapped(s, from - 1, chosen);
  }

  /** The first n elements are permuted, and what the selector picked, as often as asked for, ends up in
      the slice returned. */
  method SelectNodes(nodes: array<Member>, n: nat, cardinality: int, pick: Selector) returns (from: nat)
    requires n <= nodes.Length && InRange(pick)
    modifies nodes
    ensures from <= n && n - from == AtMost(AtLeast(cardinality, 0), n)
    ensures multiset(nodes[..n]) == multiset(old(nodes[..n])) && nodes[n..] == old(nodes[n..])
    ensures nodes[..n][from..] == if n <= cardinality then old(nodes[..n])
            else Picked(old(nodes[..n]), n - from, pick, 0)
  {
    if n <= cardinality {
      return 0;
    }
    from := n;
    var left := cardinality;
    ghost var rounds := AtLeast(cardinality, 0);
    ghost var all := Picked(nodes[..n], rounds, pick, 0);
    NonePicked(nodes[..n], rounds, pick, all);
    while left > 0
      invariant from <= n && n - from == rounds - AtLeast(left, 0)
      invariant multiset(nodes[..n]) == multiset(old(nodes[..n])) && nodes[n..] == old(nodes[n..])
      invariant Picking(all, nodes[..n][..from], AtLeast(left, 0), pick, nodes[..n][from..])
    {
      PickNode(nodes, n, from, pick, all, left);
      from := from - 1;
      left := left - 1;
    }
    AllPicked(all, nodes[..n][..from], pick, nodes[..n][from..]);
  }

  lemma NonePicked(s: seq<Member>, rounds: nat, pick: Selector, all: seq<Member>)
    requires rounds <= |s| && InRange(pick) && all == Picked(s, rounds, pick, 0)
    ensures Picking(all, s[..|s|], rounds, pick, s[|s|..])
  {
    assert s[..|s|] == s && s[|s|..] == [] && all + [] == all;
  }

  lemma AllPicked(all: seq<Member>, rest: seq<Member>, pick: Selector, picked: seq<Member>)
    requires InRange(pick) && Picking(all, rest, 0, pick, picked)
    ensures all == picked
  {
  }

  /** All that the filter leaves when the tags ask for no fewer, and otherwise the selector's picks of it. */
  ghost predicate Targeted(targets: seq<Member>, region: string, members: seq<Member>, tags: map<string, string>,
                           pick: Selector)
    requires InRange(pick)
  {
    var left := Sifted(members, |members|, Qualifying(region, BareTags(tags)));
    && |targets| <= |left|
    && targets == if |left| <= Cardinality(tags) then left else Picked(left, |targets|, pick, 0)
  }

  /** A node that is alive, in the region, and has every tag with the text in front of its cardinality. */
  predicate MayRun(region: string, tags: map<string, string>, m: Member) {
    && m.status == Alive && (if "region" in m.tags then m.tags["region"] else "") == region
    && forall k | k in tags :: k in m.tags && m.tags[k] == Bare(tags[k])
  }

  lemma WhoIsTargeted(members: seq<Member>, region: string, tags: map<string, string>, usable: seq<Member>,
                      targets: seq<Member>, cardinality: int)
    requires usable == Kept(members, Qualifying(region, BareTags(tags))) && multiset(targets) <= multiset(usable)
    requires |targets| == AtMost(AtLeast(cardinality, 0), |usable|)
    ensures forall m | m in targets :: m in members && MayRun(region, tags, m)
    ensures |targets| < cardinality ==> forall m | m in members && MayRun(region, tags, m) :: m in targets
  {
    forall m ensures m in usable <==> m in members && MayRun(region, tags, m) {
      UsableIff(members, region, tags, m);
    }
    TakenFrom(targets, usable);
  }

  lemma UsableIff(members: seq<Member>, region: string, tags: map<string, string>, m: Member)
    ensures m in Kept(members, Qualifying(region, BareTags(tags))) <==> m in members && MayRun(region, tags, m)
  {
    var f := Qualifying(region, BareTags(tags));
    KeptCounts(members, f, m);
    assert f(m) <==> MayRun(region, tags, m);
    assert m in Kept(members, f) <==> multiset(Kept(members, f))[m] > 0;
    assert m in members <==> multiset(members)[m] > 0;
  }

  lemma TakenFrom(s: seq<Member>, t: seq<Member>)
    requires multiset(s) <= multiset(t)
    ensures forall m | m in s :: m in t
    ensures |s| == |t| ==> forall m | m in t :: m in s
  {
    forall m | m in s ensures m in t {
      assert m in multiset(s);
      assert m in multiset(t);
    }
    if |s| == |t| {
      assert multiset(t) == multiset(s) + (multiset(t) - multiset(s));
      assert multiset(t) - multiset(s) == multiset{};
      forall m | m in t ensures m in s {
        assert m in multiset(t);
        assert m in multiset(s);
      }
    }
  }

  lemma WhatIsTargeted(targets: seq<Member>, left: seq<Member>, usable: seq<Member>, cardinality: int, pick: Selector)
    requires InRange(pick) && multiset(left) == multiset(usable) && |targets| == AtMost(AtLeast(cardinality, 0), |left|)
    requires targets == if |left| <= cardinality then left else Picked(left, |targets|, pick, 0)
    ensures |targets| == AtMost(AtLeast(cardinality, 0), |usable|) && multiset(targets) <= multiset(usable)
  {
    assert |left| == |multiset(left)| == |usable|;
    if |left| > cardinality {
      PickedWithin(left, |targets|, pick, 0);
    }
  }

  /** As many qualifying members as the tags ask for, picked by the selector from what the filter leaves,
      or all of them when there are fewer. */
  method GetTargetNodes(region: string, members: array<Member>, tags: map<string, string>, pick: Selector)
    returns (targets: seq<Member>)
    requires InRange(pick)
    modifies members
    ensures var usable := Kept(old(members[..]), Qualifying(region, BareTags(tags)));
            && |targets| == AtMost(AtLeast(Cardinality(tags), 0), |usable|)
            && multiset(targets) <= multiset(usable)
    ensures forall m | m in targets :: m in old(members[..]) && MayRun(region, tags, m)
    ensures |targets| <= Cardinality(tags) || targets == []
    ensures |targets| < Cardinality(tags) ==>
              forall m | m in old(members[..]) && MayRun(region, tags, m) :: m in targets
    ensures Targeted(targets, region, old(members[..]), tags, pick)
  {
    var bare, cardinality := CleanTags(tags);
    ghost var usable := Kept(members[..], Qualifying(region, bare));
    var n := FilterArray(members, Qualifying(region, bare));
    ghost var qualifying := members[..n];
    var from := SelectNodes(members, n, cardinality, pick);
    targets := members[from..n];
    assert targets == members[..n][from..];
    WhatIsTargeted(targets, qualifying, usable, cardinality, pick);
    WhoIsTargeted(old(members[..]), region, tags, usable, targets, cardinality);
  }

  // ----- The nodes of a run -----

  datatype Choice = Targets(nodes: seq<Member>) | RetryNodeGone | NoTargets

  function FirstNamed(members: seq<Member>, name: string): Option<Member> {
    if members == [] then None
    else if members[0].name == name then Some(members[0])
    else FirstNamed(members[1..], name)
  }

  lemma {:induction false} FirstNamedIs(members: seq<Member>, name: string)
    ensures var named := FirstNamed(members, name);
            && (named.None? <==> forall m | m in members :: m.name != name)
            && (named.Some? ==> named.value in members && named.value.name == name)
  {
    if members != [] {
      FirstNamedIs(members[1..], name);
      assert members == [members[0]] + members[1..];
    }
  }

  /** A first attempt goes to the nodes that the tags select. A retry goes to the node of the attempt
      before, whatever its tags and region are by now, provided it is alive. */
  method ChooseNodes(region: string, members: array<Member>, tags: map<string, string>, attempt: nat, nodeName: string,
                     pick: Selector)
    returns (choice: Choice)
    requires InRange(pick)
    modifies members
    ensures attempt <= 1 ==>
              var usable := Kept(old(members[..]), Qualifying(region, BareTags(tags)));
              && (choice == NoTargets <==> Cardinality(tags) <= 0 || usable == [])
              && (choice != NoTargets ==>
                    && choice.Targets? && |choice.nodes| == AtMost(Cardinality(tags), |usable|)
                    && multiset(choice.nodes) <= multiset(usable)
                    && Targeted(choice.nodes, region, old(members[..]), tags, pick))
    ensures attempt > 1 ==>
              var named := FirstNamed(old(members[..]), nodeName);
              && members[..] == old(members[..])
              && choice == if named.None? then NoTargets
                           else if named.value.status == Alive then Targets([named.value])
                           else RetryNodeGone
    ensures attempt > 1 ==>
              var named := FirstNamed(old(members[..]), nodeName);
              && (named.None? <==> forall m | m in old(members[..]) :: m.name != nodeName)
              && (named.Some? ==> named.value in old(members[..]) && named.value.name == nodeName)
  {
    FirstNamedIs(members[..], nodeName);
    var nodes: seq<Member> := [];
    if attempt <= 1 {
      nodes := GetTargetNodes(region, members, tags, pick);
    } else {
      for i := 0 to members.Length
        invariant nodes == []
        invariant FirstNamed(members[..], nodeName) == FirstNamed(members[i..], nodeName)
      {
        if nodeName == members[i].name {
          if members[i].status == Alive {
            nodes := [members[i]];
            break;
          } else {
            return RetryNodeGone;
          }
        }
      }
    }
    if |nodes| < 1 {
      return NoTargets;
    }
    choice := Targets(nodes);
  }
}
