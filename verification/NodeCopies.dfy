// Duplicating a subtree of groups and devices under fresh ids.
module NodeCopies {
  import opened Common
  import opened Forests
  import opened DeviceTree
  import opened NodePaths

  // ---- what a subtree is, and how it is collected ----

  // A group with every node whose walk comes to it.
  ghost function Subtree(c: Config, root: string): set<string>
    requires Acyclic(GroupForest(c))
  {
    set x | x in Ids(Nodes(c)) && Inside(c, x, root)
  }

  lemma InGroups(c: Config, id: string)
    requires id in GroupForest(c)
    ensures id in Ids(Nodes(c)) && ParentOf(Nodes(c), id) == GroupForest(c)[id]
  {
    var n := Find(c.groups, id).value;
    assert n in Nodes(c);
    FindInBoth(c.groups, c.devices, id);
  }

  lemma ChildSubtreeIsLess(c: Config, root: string, child: string)
    requires Acyclic(GroupForest(c)) && child in GroupForest(c) && GroupForest(c)[child] == root
    requires root in GroupForest(c)
    ensures Subtree(c, child) < Subtree(c, root)
  {
    var g := GroupForest(c);
    InGroups(c, root);
    InGroups(c, child);
    forall x | x in Subtree(c, child) ensures x in Subtree(c, root) && x != root {
      if x == child {
        assert Under(g, root, root);
      } else {
        UnderIsTransitive(g, ParentOf(Nodes(c), x), child, root);
        if x == root { WalkIsLower(g, g[root], child); }
      }
    }
    assert root in Subtree(c, root);
  }

  lemma {:induction false} UnderIsTransitive(f: Parents, p: string, mid: string, top: string)
    requires Acyclic(f) && mid in f && Under(f, p, mid) && f[mid] == top
    ensures top != "" ==> Under(f, p, top)
    decreases Height(f, p)
  {
    if p == mid {
      assert Walk(f, mid) == [mid] + Walk(f, top);
      assert top != "" ==> Walk(f, top)[0] == top;
    } else {
      UnderIsTransitive(f, f[p], mid, top);
    }
  }

  function UnionOf(sets: seq<set<string>>): set<string>
    decreases |sets|
  {
    if sets == [] then {} else UnionOf(sets[..|sets| - 1]) + sets[|sets| - 1]
  }

  lemma UnionOneMore(sets: seq<set<string>>, i: nat)
    requires i < |sets|
    ensures UnionOf(sets[..i + 1]) == UnionOf(sets[..i]) + sets[i]
  {
    assert sets[..i + 1][..i] == sets[..i];
  }

  lemma {:induction false} FromUnion(sets: seq<set<string>>, x: string) returns (j: nat)
    requires x in UnionOf(sets)
    ensures j < |sets| && x in sets[j]
    decreases |sets|
  {
    j := |sets| - 1;
    if x !in sets[j] { j := FromUnion(sets[..j], x); }
  }

  lemma {:induction false} ToUnion(sets: seq<set<string>>, j: nat, x: string)
    requires j < |sets| && x in sets[j]
    ensures x in UnionOf(sets)
    decreases |sets|
  {
    if j == |sets| - 1 {
    } else {
      ToUnion(sets[..|sets| - 1], j, x);
    }
  }

  // The subtree of each group that hangs from a root.
  ghost function Shares(c: Config, root: string): (r: seq<set<string>>)
    requires Acyclic(GroupForest(c))
    ensures |r| == |c.groups|
  {
    Mapped(c.groups, (n: Node) => if n.parentId == root then Subtree(c, n.id) else {})
  }

  lemma ShareAt(c: Config, root: string, j: nat)
    requires Acyclic(GroupForest(c)) && j < |c.groups|
    ensures Shares(c, root)[j] == if c.groups[j].parentId == root then Subtree(c, c.groups[j].id) else {}
  {
    MappedAt(c.groups, (n: Node) => if n.parentId == root then Subtree(c, n.id) else {}, j);
  }

  ghost function GroupsBelow(c: Config, root: string): set<string>
    requires Acyclic(GroupForest(c))
  {
    UnionOf(Shares(c, root))
  }

  function DevicesBelow(devices: seq<Node>, root: string): set<string>
    decreases |devices|
  {
    if devices == [] then {}
    else
      var last := devices[|devices| - 1];
      DevicesBelow(devices[..|devices| - 1], root) + if last.parentId == root then {last.id} else {}
  }

  lemma {:induction false} FromDevicesBelow(devices: seq<Node>, root: string, x: string) returns (j: nat)
    requires x in DevicesBelow(devices, root)
    ensures j < |devices| && devices[j].parentId == root && devices[j].id == x
    decreases |devices|
  {
    j := |devices| - 1;
    if x in DevicesBelow(devices[..j], root) { j := FromDevicesBelow(devices[..j], root, x); }
  }

  lemma {:induction false} ToDevicesBelow(devices: seq<Node>, root: string, j: nat)
    requires j < |devices| && devices[j].parentId == root
    ensures devices[j].id in DevicesBelow(devices, root)
    decreases |devices|
  {
    if j == |devices| - 1 {
    } else {
      ToDevicesBelow(devices[..|devices| - 1], root, j);
    }
  }

  lemma BelowGroupIsInSubtree(c: Config, root: string, j: nat, x: string)
    requires Sound(c) && Acyclic(GroupForest(c)) && root in GroupForest(c)
    requires j < |c.groups| && x in Shares(c, root)[j]
    ensures x in Subtree(c, root)
  {
    ShareAt(c, root, j);
    GroupIsAChild(c, root, j);
    ChildSubtreeIsLess(c, root, c.groups[j].id);
  }

  lemma DeviceIsInSubtree(c: Config, root: string, j: nat)
    requires Sound(c) && Acyclic(GroupForest(c)) && root in GroupForest(c)
    requires j < |c.devices| && c.devices[j].parentId == root
    ensures c.devices[j].id in Subtree(c, root)
  {
    SoundGroups(c);
    assert c.devices[j] in Nodes(c) && Under(GroupForest(c), root, root);
  }

  lemma GroupIsAChild(c: Config, root: string, i: nat)
    requires Sound(c) && i < |c.groups| && c.groups[i].parentId == root
    ensures c.groups[i].id in GroupForest(c) && GroupForest(c)[c.groups[i].id] == root
  {
    SoundGroups(c);
    assert Find(c.groups, c.groups[i].id) == Some(c.groups[i]);
    ParentInForest(c.groups, c.groups[i].id);
  }

  lemma GroupOfSubtree(c: Config, root: string, child: string, x: string)
    requires Acyclic(GroupForest(c)) && child in GroupForest(c) && GroupForest(c)[child] == root
    requires x in Subtree(c, child)
    ensures x in GroupsBelow(c, root)
  {
    var n := Find(c.groups, child).value;
    var j :| 0 <= j < |c.groups| && c.groups[j] == n;
    ShareAt(c, root, j);
    ToUnion(Shares(c, root), j, x);
  }

  lemma SubtreeIsCollected(c: Config, root: string, x: string)
    requires Acyclic(GroupForest(c)) && root in GroupForest(c) && x in Subtree(c, root)
    ensures x == root || x in GroupsBelow(c, root) || x in DevicesBelow(c.devices, root)
  {
    var g, p := GroupForest(c), ParentOf(Nodes(c), x);
    if x != root {
      FindInBoth(c.groups, c.devices, x);
      if p != root {
        var child := ChildOnWalk(g, p, root);
        GroupOfSubtree(c, root, child, x);
      } else if x in g {
        GroupOfSubtree(c, root, x, x);
      } else {
        var n := Find(c.devices, x).value;
        var j :| 0 <= j < |c.devices| && c.devices[j] == n;
        ToDevicesBelow(c.devices, root, j);
      }
    }
  }

  lemma SubtreeIsWithin(c: Config, root: string)
    requires Acyclic(GroupForest(c)) && root in GroupForest(c)
    ensures Subtree(c, root) <= {root} + GroupsBelow(c, root) + DevicesBelow(c.devices, root)
  {
    forall x | x in Subtree(c, root) ensures x in {root} + GroupsBelow(c, root) + DevicesBelow(c.devices, root) {
      SubtreeIsCollected(c, root, x);
    }
  }

  lemma CollectedIsWithin(c: Config, root: string)
    requires Sound(c) && Acyclic(GroupForest(c)) && root in GroupForest(c)
    ensures {root} + GroupsBelow(c, root) + DevicesBelow(c.devices, root) <= Subtree(c, root)
  {
    InGroups(c, root);
    GroupsBelowAreWithin(c, root);
    DevicesBelowAreWithin(c, root);
  }

  lemma GroupsBelowAreWithin(c: Config, root: string)
    requires Sound(c) && Acyclic(GroupForest(c)) && root in GroupForest(c)
    ensures GroupsBelow(c, root) <= Subtree(c, root)
  {
    forall x | x in GroupsBelow(c, root) ensures x in Subtree(c, root) {
      var j := FromUnion(Shares(c, root), x);
      BelowGroupIsInSubtree(c, root, j, x);
    }
  }

  lemma DevicesBelowAreWithin(c: Config, root: string)
    requires Sound(c) && Acyclic(GroupForest(c)) && root in GroupForest(c)
    ensures DevicesBelow(c.devices, root) <= Subtree(c, root)
  {
    forall x | x in DevicesBelow(c.devices, root) ensures x in Subtree(c, root) {
      var j := FromDevicesBelow(c.devices, root, x);
      DeviceIsInSubtree(c, root, j);
    }
  }

  lemma SubtreeIs(c: Config, root: string)
    requires Sound(c) && Acyclic(GroupForest(c)) && root in GroupForest(c)
    ensures Subtree(c, root) == {root} + GroupsBelow(c, root) + DevicesBelow(c.devices, root)
  {
    SubtreeIsWithin(c, root);
    CollectedIsWithin(c, root);
  }

  // The new id of each node in a map is the one drawn for it.
  predicate Drawn(ids: map<string, string>, word: string -> string) {
    forall x :: x in ids ==> ids[x] == word(x)
  }

  method CollectDevices(devices: seq<Node>, root: string, ids: map<string, string>, word: string -> string)
    returns (idMap: map<string, string>)
    requires Drawn(ids, word)
    ensures idMap.Keys == ids.Keys + DevicesBelow(devices, root) && Drawn(idMap, word)
  {
    idMap := ids;
    for i := 0 to |devices|
      invariant idMap.Keys == ids.Keys + DevicesBelow(devices[..i], root) && Drawn(idMap, word)
    {
      assert devices[..i + 1][..i] == devices[..i];
      if devices[i].parentId == root { idMap := idMap[devices[i].id := word(devices[i].id)]; }
    }
    assert devices[..|devices|] == devices;
  }

  // A new id for the root, then for all below each of its groups, then for its
  // devices. The recursion ends because each child's subtree is smaller.
  method CollectSubtree(c: Config, root: string, ids: map<string, string>, word: string -> string)
    returns (idMap: map<string, string>)
    requires Sound(c) && Acyclic(GroupForest(c)) && root in GroupForest(c) && Drawn(ids, word)
    ensures idMap.Keys == ids.Keys + Subtree(c, root) && Drawn(idMap, word)
    decreases Subtree(c, root), 2
  {
    idMap := ids[root := word(root)];
    assert idMap.Keys == ids.Keys + {root};
    idMap := CollectGroups(c, root, idMap, word);
    idMap := CollectDevices(c.devices, root, idMap, word);
    SubtreeIs(c, root);
  }

  method CollectGroups(c: Config, root: string, ids: map<string, string>, word: string -> string)
    returns (idMap: map<string, string>)
    requires Sound(c) && Acyclic(GroupForest(c)) && root in GroupForest(c) && Drawn(ids, word)
    ensures idMap.Keys == ids.Keys + GroupsBelow(c, root) && Drawn(idMap, word)
    decreases Subtree(c, root), 1
  {
    idMap := ids;
    ghost var shares, below := Shares(c, root), {};
    for i := 0 to |c.groups|
      invariant below == UnionOf(shares[..i])
      invariant idMap.Keys == ids.Keys + below && Drawn(idMap, word)
    {
      UnionOneMore(shares, i);
      ShareAt(c, root, i);
      if c.groups[i].parentId == root { idMap := CollectChild(c, root, i, idMap, word); }
      below := below + shares[i];
    }
    assert shares[..|c.groups|] == shares;
  }

  method CollectChild(c: Config, root: string, i: nat, ids: map<string, string>, word: string -> string)
    returns (idMap: map<string, string>)
    requires Sound(c) && Acyclic(GroupForest(c)) && root in GroupForest(c) && Drawn(ids, word)
    requires i < |c.groups| && c.groups[i].parentId == root
    ensures idMap.Keys == ids.Keys + Subtree(c, c.groups[i].id) && Drawn(idMap, word)
    decreases Subtree(c, root), 0
  {
    GroupIsAChild(c, root, i);
    ChildSubtreeIsLess(c, root, c.groups[i].id);
    idMap := CollectSubtree(c, c.groups[i].id, ids, word);
  }

  // ---- the copies ----

  function CopyOf(n: Node, ids: map<string, string>): Node
    requires n.id in ids
  {
    n.(id := ids[n.id], parentId := if n.parentId in ids then ids[n.parentId] else n.parentId)
  }

  function Copies(nodes: seq<Node>, ids: map<string, string>): seq<Node>
    decreases |nodes|
  {
    if nodes == [] then []
    else
      var last := nodes[|nodes| - 1];
      Copies(nodes[..|nodes| - 1], ids) + if last.id in ids then [CopyOf(last, ids)] else []
  }

  function Duplicated(c: Config, ids: map<string, string>): Config {
    c.(groups := c.groups + Copies(c.groups, ids), devices := c.devices + Copies(c.devices, ids))
  }

  lemma {:induction false} CopyOfWhich(nodes: seq<Node>, ids: map<string, string>, copy: Node) returns (i: nat)
    requires copy in Copies(nodes, ids)
    ensures i < |nodes| && nodes[i].id in ids && copy == CopyOf(nodes[i], ids)
    decreases |nodes|
  {
    i := |nodes| - 1;
    if copy in Copies(nodes[..|nodes| - 1], ids) { i := CopyOfWhich(nodes[..|nodes| - 1], ids, copy); }
  }

  lemma {:induction false} CopyIsThere(nodes: seq<Node>, ids: map<string, string>, n: Node)
    requires n in nodes && n.id in ids
    ensures CopyOf(n, ids) in Copies(nodes, ids)
    decreases |nodes|
  {
    if n == nodes[|nodes| - 1] {
    } else {
      CopyIsThere(nodes[..|nodes| - 1], ids, n);
    }
  }

  ghost predicate Fresh(c: Config, ids: map<string, string>) {
    && (forall x :: x in ids ==> Unused(ParentsOf(Nodes(c)), ids[x]))
    && (forall x, y :: x in ids && y in ids && ids[x] == ids[y] ==> x == y)
  }

  lemma {:induction false} CopiesAreUnique(nodes: seq<Node>, ids: map<string, string>)
    requires UniqueIds(nodes)
    requires forall x :: x in ids ==> ids[x] != ""
    requires forall x, y :: x in ids && y in ids && ids[x] == ids[y] ==> x == y
    ensures UniqueIds(Copies(nodes, ids))
    decreases |nodes|
  {
    if nodes == [] {
    } else {
      var front, last := nodes[..|nodes| - 1], nodes[|nodes| - 1];
      assert forall n :: n in front ==> n in nodes;
      CopiesAreUnique(front, ids);
      if last.id in ids {
        forall m | m in Copies(front, ids) ensures m.id != ids[last.id] { var i := CopyOfWhich(front, ids, m); }
      }
    }
  }

  lemma UniqueTogether(a: seq<Node>, b: seq<Node>)
    requires UniqueIds(a) && UniqueIds(b) && forall m, n :: m in a && n in b ==> m.id != n.id
    ensures UniqueIds(a + b)
  {}

  lemma CopiesAreNew(c: Config, nodes: seq<Node>, ids: map<string, string>, n: Node, copy: Node)
    requires Sound(c) && Fresh(c, ids) && n in Nodes(c) && copy in Copies(nodes, ids)
    ensures n.id != copy.id
  {
    var i := CopyOfWhich(nodes, ids, copy);
    assert n.id in ParentsOf(Nodes(c));
  }

  lemma GroupAndDeviceCopiesDiffer(c: Config, ids: map<string, string>, m: Node, n: Node)
    requires Sound(c) && Fresh(c, ids) && m in Copies(c.groups, ids) && n in Copies(c.devices, ids)
    ensures m.id != n.id
  {
    SoundGroups(c);
    var i := CopyOfWhich(c.groups, ids, m);
    var j := CopyOfWhich(c.devices, ids, n);
    assert c.groups[i].id in Ids(c.groups) && c.devices[j].id in Ids(c.devices);
  }

  lemma DuplicateIsUnique(c: Config, ids: map<string, string>)
    requires Sound(c) && Fresh(c, ids)
    ensures UniqueIds(Nodes(Duplicated(c, ids)))
  {
    SoundGroups(c);
    var a, b := Copies(c.groups, ids), Copies(c.devices, ids);
    CopiesAreUnique(c.groups, ids);
    CopiesAreUnique(c.devices, ids);
    forall m, n | m in c.groups && n in a ensures m.id != n.id { CopiesAreNew(c, c.groups, ids, m, n); }
    UniqueTogether(c.groups, a);
    forall m, n | m in c.devices && n in b ensures m.id != n.id { CopiesAreNew(c, c.devices, ids, m, n); }
    UniqueTogether(c.devices, b);
    forall m, n | m in c.groups + a && n in c.devices + b ensures m.id != n.id {
      if m in a && n in b { GroupAndDeviceCopiesDiffer(c, ids, m, n); }
      if m in a && n in c.devices { CopiesAreNew(c, c.groups, ids, n, m); }
      if m in c.groups && n in b { CopiesAreNew(c, c.devices, ids, m, n); }
      if m in c.groups && n in c.devices { assert m.id in Ids(c.groups) && n.id in Ids(c.devices); }
    }
    UniqueTogether(c.groups + a, c.devices + b);
  }

  // Old and new nodes of one list make up a graph with copies in it.
  lemma ListIsCopied(was: seq<Node>, now: seq<Node>, ids: map<string, string>)
    requires UniqueIds(was) && UniqueIds(now) && ids.Keys <= Ids(was)
    requires forall x :: x in ids ==> Unused(ParentsOf(was), ids[x])
    requires forall x, y :: x in ids && y in ids && ids[x] == ids[y] ==> x == y
    requires forall n :: n in was ==> n in now
    requires forall n {:trigger CopyOf(n, ids)} :: n in was && n.id in ids ==> CopyOf(n, ids) in now
    requires forall n :: n in now ==> n in was || n.id in ids.Values
    ensures Copied(ParentsOf(was), ids, ParentsOf(now))
  {
    OldNodesStay(was, now);
    CopiesAreAdded(was, now, ids);
    IdsAreOldOrCopied(was, now, ids.Values);
  }

  lemma OldNodesStay(was: seq<Node>, now: seq<Node>)
    requires UniqueIds(was) && UniqueIds(now) && forall n :: n in was ==> n in now
    ensures Ids(was) <= Ids(now) && forall x :: x in Ids(was) ==> ParentsOf(now)[x] == ParentsOf(was)[x]
  {
    forall x | x in Ids(was) ensures x in Ids(now) && ParentsOf(now)[x] == ParentsOf(was)[x] {
      OldNodeStays(was, now, x);
    }
  }

  lemma CopiesAreAdded(was: seq<Node>, now: seq<Node>, ids: map<string, string>)
    requires UniqueIds(was) && UniqueIds(now) && ids.Keys <= Ids(was)
    requires forall n {:trigger CopyOf(n, ids)} :: n in was && n.id in ids ==> CopyOf(n, ids) in now
    ensures ids.Values <= Ids(now)
    ensures forall x :: x in ids ==> ParentsOf(now)[ids[x]] == CopiedParent(ParentsOf(was), ids, x)
  {
    forall x | x in ids
      ensures ids[x] in Ids(now) && ParentsOf(now)[ids[x]] == CopiedParent(ParentsOf(was), ids, x)
    {
      CopyIsAdded(was, now, ids, x);
    }
  }

  lemma IdsAreOldOrCopied(was: seq<Node>, now: seq<Node>, copied: set<string>)
    requires Ids(was) <= Ids(now) && copied <= Ids(now) && forall n :: n in now ==> n in was || n.id in copied
    ensures Ids(now) == Ids(was) + copied
  {
    forall x | x in Ids(now) ensures x in Ids(was) + copied { var n :| n in now && n.id == x; }
  }

  lemma OldNodeStays(was: seq<Node>, now: seq<Node>, x: string)
    requires UniqueIds(was) && UniqueIds(now) && x in Ids(was) && forall n :: n in was ==> n in now
    ensures x in ParentsOf(now) && ParentsOf(now)[x] == ParentsOf(was)[x]
  {
    var n :| n in was && n.id == x;
    FoundIsIt(was, n);
    FoundIsIt(now, n);
  }

  lemma CopyIsAdded(was: seq<Node>, now: seq<Node>, ids: map<string, string>, x: string)
    requires UniqueIds(was) && UniqueIds(now) && x in Ids(was) && x in ids
    requires forall n {:trigger CopyOf(n, ids)} :: n in was && n.id in ids ==> CopyOf(n, ids) in now
    ensures ids[x] in ParentsOf(now) && ParentsOf(now)[ids[x]] == CopiedParent(ParentsOf(was), ids, x)
  {
    var n :| n in was && n.id == x;
    FoundIsIt(was, n);
    FoundIsIt(now, CopyOf(n, ids));
  }

  lemma CopiesAreThere(c: Config, ids: map<string, string>, n: Node)
    requires n in Nodes(c) && n.id in ids
    ensures CopyOf(n, ids) in Nodes(Duplicated(c, ids))
  {
    if n in c.groups { CopyIsThere(c.groups, ids, n); } else { CopyIsThere(c.devices, ids, n); }
  }

  // Duplicating any set of nodes under fresh ids keeps the tree sound.
  lemma DuplicateKeepsSound(c: Config, ids: map<string, string>)
    requires Sound(c) && Fresh(c, ids) && ids.Keys <= Ids(Nodes(c))
    ensures Sound(Duplicated(c, ids))
  {
    var was, now := Nodes(c), Nodes(Duplicated(c, ids));
    DuplicateIsUnique(c, ids);
    forall n | n in was && n.id in ids ensures CopyOf(n, ids) in now { CopiesAreThere(c, ids, n); }
    forall n | n in now ensures n in was || n.id in ids.Values {
      if n in Copies(c.groups, ids) { var i := CopyOfWhich(c.groups, ids, n); }
      if n in Copies(c.devices, ids) { var i := CopyOfWhich(c.devices, ids, n); }
    }
    ListIsCopied(was, now, ids);
    CopyKeepsAcyclic(ParentsOf(was), ids, ParentsOf(now));
  }

  // ---- where the copies hang ----

  ghost predicate CopiesSubtree(c: Config, root: string, ids: map<string, string>) {
    Sound(c) && Acyclic(GroupForest(c)) && root in GroupForest(c) && ids.Keys == Subtree(c, root) && Fresh(c, ids)
  }

  // The new ids of the groups copied.
  function OfGroups(c: Config, ids: map<string, string>): map<string, string> {
    map x | x in ids && x in Ids(c.groups) :: ids[x]
  }

  lemma GroupIsNode(c: Config, x: string)
    requires x in GroupForest(c)
    ensures x in ParentsOf(Nodes(c)) && ParentsOf(Nodes(c))[x] == GroupForest(c)[x]
  {
    InGroups(c, x);
  }

  lemma {:induction false} WalkLowersRank(g: Parents, f: Parents, rank: map<string, nat>, p: string, y: string)
    requires Acyclic(g) && Ranked(f, rank) && forall x :: x in g ==> x in f && f[x] == g[x]
    requires y in f && Under(g, p, y)
    ensures p in f && rank[y] <= rank[p]
    decreases Height(g, p)
  {
    if p == y {
    } else {
      WalkLowersRank(g, f, rank, g[p], y);
      assert f[p] == g[p];
    }
  }

  lemma RootRanksLowest(c: Config, root: string, x: string)
    requires Sound(c) && Acyclic(GroupForest(c)) && root in GroupForest(c) && x in Subtree(c, root)
    ensures root in ParentsOf(Nodes(c)) && x in ParentsOf(Nodes(c))
    ensures RankOf(ParentsOf(Nodes(c)))[root] <= RankOf(ParentsOf(Nodes(c)))[x]
  {
    var f := ParentsOf(Nodes(c));
    forall y | y in GroupForest(c) ensures y in f && f[y] == GroupForest(c)[y] { GroupIsNode(c, y); }
    if x != root {
      WalkLowersRank(GroupForest(c), f, RankOf(f), ParentOf(Nodes(c), x), root);
      assert f[x] == ParentOf(Nodes(c), x);
    }
  }

  // The parent of a copied group, if copied too, is a group.
  lemma CopiedParentIsGroup(c: Config, root: string, ids: map<string, string>, x: string)
    requires CopiesSubtree(c, root, ids) && x in GroupForest(c) && x in ids && GroupForest(c)[x] in ids
    ensures GroupForest(c)[x] in GroupForest(c) && x != root
  {
    var up := GroupForest(c)[x];
    GroupIsNode(c, x);
    RootRanksLowest(c, root, up);
    var f := ParentsOf(Nodes(c));
    assert f[x] == up && RankOf(f)[up] < RankOf(f)[x];
    InGroups(c, x);
    assert Under(GroupForest(c), up, root);
  }

  lemma SubtreesAreWhole(c: Config, root: string, ids: map<string, string>)
    requires CopiesSubtree(c, root, ids)
    ensures WholeSubtrees(GroupForest(c), OfGroups(c, ids))
  {
    var g := GroupForest(c);
    forall x | x in g && g[x] in OfGroups(c, ids) ensures x in OfGroups(c, ids) {
      InGroups(c, x);
      InGroups(c, g[x]);
      assert g[x] in Subtree(c, root);
      assert Under(g, g[x], root);
    }
  }

  lemma CopyOfByGroups(c: Config, root: string, ids: map<string, string>, n: Node)
    requires CopiesSubtree(c, root, ids) && n in c.groups && n.id in ids
    ensures n.id in OfGroups(c, ids) && CopyOf(n, OfGroups(c, ids)) == CopyOf(n, ids)
  {
    SoundGroups(c);
    assert Find(c.groups, n.id) == Some(n);
    if n.parentId in ids { CopiedParentIsGroup(c, root, ids, n.id); }
  }

  lemma FreshAmongGroups(c: Config, ids: map<string, string>, x: string)
    requires Fresh(c, ids) && x in ids
    ensures Unused(GroupForest(c), ids[x])
  {
    forall y | y in GroupForest(c) ensures GroupForest(c)[y] != ids[x] && y != ids[x] { GroupIsNode(c, y); }
  }

  lemma GroupsAreCopied(c: Config, root: string, ids: map<string, string>)
    requires CopiesSubtree(c, root, ids)
    ensures Copied(GroupForest(c), OfGroups(c, ids), GroupForest(Duplicated(c, ids)))
  {
    var was, now, idsOfGroups := c.groups, Duplicated(c, ids).groups, OfGroups(c, ids);
    SoundGroups(c);
    DuplicateIsUnique(c, ids);
    FirstPartIsUnique(now, Duplicated(c, ids).devices);
    forall x | x in idsOfGroups ensures Unused(ParentsOf(was), idsOfGroups[x]) { FreshAmongGroups(c, ids, x); }
    forall n | n in was && n.id in idsOfGroups ensures CopyOf(n, idsOfGroups) in now {
      CopyOfByGroups(c, root, ids, n);
      CopyIsThere(was, ids, n);
    }
    forall n | n in now ensures n in was || n.id in idsOfGroups.Values {
      if n in Copies(was, ids) {
        var i := CopyOfWhich(was, ids, n);
        assert idsOfGroups[was[i].id] == n.id;
      }
    }
    ListIsCopied(was, now, idsOfGroups);
  }

  lemma FirstPartIsUnique(a: seq<Node>, b: seq<Node>)
    requires UniqueIds(a + b)
    ensures UniqueIds(a)
  {
    assert forall i :: 0 <= i < |a| ==> (a + b)[i] == a[i];
    forall n | n in a ensures n.id != "" { assert n in a + b; }
  }

  // Each copied group hangs as its original does: the ids above it are those
  // above the original, with copies in place of the groups copied.
  lemma CopyHangsAlike(c: Config, root: string, ids: map<string, string>, x: string)
    requires CopiesSubtree(c, root, ids) && x in ids && x in GroupForest(c)
    ensures Acyclic(GroupForest(Duplicated(c, ids)))
    ensures Walk(GroupForest(Duplicated(c, ids)), ids[x]) == Translated(OfGroups(c, ids), Walk(GroupForest(c), x))
  {
    GroupsAreCopied(c, root, ids);
    SubtreesAreWhole(c, root, ids);
    CopyKeepsAcyclic(GroupForest(c), OfGroups(c, ids), GroupForest(Duplicated(c, ids)));
    CopyWalk(GroupForest(c), OfGroups(c, ids), GroupForest(Duplicated(c, ids)), x);
  }

  lemma ParentOfCopy(c: Config, ids: map<string, string>, x: string)
    requires Sound(c) && Fresh(c, ids) && x in ids && x in Ids(Nodes(c))
    ensures ParentOf(Nodes(Duplicated(c, ids)), ids[x]) == CopiedParent(ParentsOf(Nodes(c)), ids, x)
  {
    DuplicateIsUnique(c, ids);
    forall n | n in Nodes(c) && n.id in ids ensures CopyOf(n, ids) in Nodes(Duplicated(c, ids)) {
      CopiesAreThere(c, ids, n);
    }
    CopyIsAdded(Nodes(c), Nodes(Duplicated(c, ids)), ids, x);
  }

  // What hangs below the root of a copied subtree hangs from a copied group.
  lemma HangsInSubtree(c: Config, root: string, ids: map<string, string>, x: string)
    requires CopiesSubtree(c, root, ids) && x in ids && x != root
    ensures x in Ids(Nodes(c)) && ParentOf(Nodes(c), x) in GroupForest(c) && ParentOf(Nodes(c), x) in ids
  {
    var g, p := GroupForest(c), ParentOf(Nodes(c), x);
    assert x in Subtree(c, root) && Under(g, p, root);
    if p != root { InGroups(c, p); } else { InGroups(c, root); }
  }

  // So does each copied device.
  lemma CopiedDeviceHangsAlike(c: Config, root: string, ids: map<string, string>, x: string)
    requires CopiesSubtree(c, root, ids) && x in ids && x !in GroupForest(c)
    ensures Acyclic(GroupForest(Duplicated(c, ids)))
    ensures Above(Duplicated(c, ids), ids[x]) == Translated(OfGroups(c, ids), Above(c, x))
  {
    HangsInSubtree(c, root, ids, x);
    var p := ParentOf(Nodes(c), x);
    ParentOfCopy(c, ids, x);
    CopyHangsAlike(c, root, ids, p);
  }
}
