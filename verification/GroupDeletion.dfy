// Deleting a group: its children go to its parent, and everything read off the
// tree loses that group and nothing else.
module GroupDeletion {
  import opened Common
  import opened Forests
  import opened Matrices
  import opened DeviceTree
  import opened NodePaths

  // ---- the tree without the group ----

  function Adopted(n: Node, gone: string, parent: string): (m: Node)
    ensures m.id == n.id && Name(m) == Name(n) && m.transform == n.transform
    ensures m.parentId == if n.parentId == gone then parent else n.parentId
  {
    if n.parentId == gone then n.(parentId := parent) else n
  }

  function AllAdopted(nodes: seq<Node>, gone: string, parent: string): (r: seq<Node>)
    ensures |r| == |nodes|
  {
    seq(|nodes|, i requires 0 <= i < |nodes| => Adopted(nodes[i], gone, parent))
  }

  // The nodes without the first of an id.
  function Removed(nodes: seq<Node>, id: string): seq<Node> {
    if nodes == [] then []
    else if nodes[0].id == id then nodes[1..]
    else [nodes[0]] + Removed(nodes[1..], id)
  }

  function Deleted(c: Config, gone: string): Config {
    var parent := ParentOf(c.groups, gone);
    c.(groups := Removed(AllAdopted(c.groups, gone, parent), gone), devices := AllAdopted(c.devices, gone, parent))
  }

  lemma {:induction false} FindAdopted(nodes: seq<Node>, gone: string, parent: string, x: string)
    ensures Find(AllAdopted(nodes, gone, parent), x)
         == match Find(nodes, x) case None => None case Some(n) => Some(Adopted(n, gone, parent))
  {
    if nodes == [] {
    } else {
      assert AllAdopted(nodes, gone, parent)[1..] == AllAdopted(nodes[1..], gone, parent);
      FindAdopted(nodes[1..], gone, parent, x);
    }
  }

  lemma {:induction false} FindRemoved(nodes: seq<Node>, id: string, x: string)
    requires UniqueIds(nodes)
    ensures Find(Removed(nodes, id), x) == if x == id then None else Find(nodes, x)
  {
    if nodes == [] {
    } else {
      RestIsUnique(nodes);
      FindRemoved(nodes[1..], id, x);
      if nodes[0].id != id { FindInBoth([nodes[0]], Removed(nodes[1..], id), x); }
    }
  }

  lemma RestIsUnique(nodes: seq<Node>)
    requires UniqueIds(nodes) && nodes != []
    ensures UniqueIds(nodes[1..]) && forall n :: n in nodes[1..] ==> n.id != nodes[0].id
  {
    assert forall n :: n in nodes[1..] ==> n in nodes;
  }

  lemma {:induction false} RemovedIsPart(nodes: seq<Node>, id: string)
    ensures forall n :: n in Removed(nodes, id) ==> n in nodes
  {
    if nodes != [] && nodes[0].id != id {
      RemovedIsPart(nodes[1..], id);
      assert forall n :: n in nodes[1..] ==> n in nodes;
    }
  }

  lemma {:induction false} RemovedIsUnique(nodes: seq<Node>, id: string)
    requires UniqueIds(nodes)
    ensures UniqueIds(Removed(nodes, id))
  {
    if nodes == [] {
    } else {
      RestIsUnique(nodes);
      if nodes[0].id != id {
        RemovedIsUnique(nodes[1..], id);
        RemovedIsPart(nodes[1..], id);
        MoreIsUnique(nodes[0], Removed(nodes[1..], id));
      }
    }
  }

  lemma MoreIsUnique(first: Node, rest: seq<Node>)
    requires UniqueIds(rest) && first.id != "" && forall n :: n in rest ==> n.id != first.id
    ensures UniqueIds([first] + rest)
  {}

  lemma {:induction false} RemovedFromFirst(a: seq<Node>, b: seq<Node>, id: string)
    requires Find(a, id).Some?
    ensures Removed(a + b, id) == Removed(a, id) + b
  {
    var rest := a[1..];
    assert (a + b)[1..] == rest + b;
    if a[0].id == id {
    } else {
      RemovedFromFirst(rest, b, id);
      assert [a[0]] + (Removed(rest, id) + b) == [a[0]] + Removed(rest, id) + b;
    }
  }

  lemma AdoptedIsUnique(nodes: seq<Node>, gone: string, parent: string)
    requires UniqueIds(nodes)
    ensures UniqueIds(AllAdopted(nodes, gone, parent))
  {
    var adopted := AllAdopted(nodes, gone, parent);
    forall n | n in adopted ensures n.id != "" {
      var i :| 0 <= i < |adopted| && adopted[i] == n;
      assert nodes[i] in nodes;
    }
  }

  lemma DeletedNodes(c: Config, gone: string)
    requires Find(c.groups, gone).Some?
    ensures Nodes(Deleted(c, gone)) == Removed(AllAdopted(Nodes(c), gone, ParentOf(c.groups, gone)), gone)
  {
    var parent := ParentOf(c.groups, gone);
    FindAdopted(c.groups, gone, parent, gone);
    RemovedFromFirst(AllAdopted(c.groups, gone, parent), AllAdopted(c.devices, gone, parent), gone);
    AdoptedConcatenate(c.groups, c.devices, gone, parent);
  }

  lemma AdoptedConcatenate(a: seq<Node>, b: seq<Node>, gone: string, parent: string)
    ensures AllAdopted(a + b, gone, parent) == AllAdopted(a, gone, parent) + AllAdopted(b, gone, parent)
  {}

  // Some nodes before and after the deletion, found by id.
  ghost predicate LosesOnly(before: seq<Node>, after: seq<Node>, gone: string, parent: string) {
    forall x :: Find(after, x) ==
      if x == gone then None
      else match Find(before, x) case None => None case Some(n) => Some(Adopted(n, gone, parent))
  }

  lemma RemovedLosesOnly(nodes: seq<Node>, gone: string, parent: string)
    requires UniqueIds(nodes)
    ensures LosesOnly(nodes, Removed(AllAdopted(nodes, gone, parent), gone), gone, parent)
  {
    AdoptedIsUnique(nodes, gone, parent);
    forall x ensures Find(Removed(AllAdopted(nodes, gone, parent), gone), x) ==
      if x == gone then None
      else match Find(nodes, x) case None => None case Some(n) => Some(Adopted(n, gone, parent))
    {
      FindRemoved(AllAdopted(nodes, gone, parent), gone, x);
      FindAdopted(nodes, gone, parent, x);
    }
  }

  lemma IdsAreFound(nodes: seq<Node>, x: string)
    ensures x in Ids(nodes) <==> Find(nodes, x).Some?
  {}

  lemma LostParents(before: seq<Node>, after: seq<Node>, gone: string)
    requires Find(before, gone).Some? && LosesOnly(before, after, gone, ParentOf(before, gone))
    ensures ParentsOf(after) == Spliced(ParentsOf(before), gone)
  {
    forall x ensures x in Ids(after) <==> x in Ids(before) && x != gone {
      IdsAreFound(before, x);
      IdsAreFound(after, x);
    }
    forall x | x in Ids(after) ensures ParentOf(after, x) == Spliced(ParentsOf(before), gone)[x] {
      IdsAreFound(before, x);
    }
  }

  lemma LostIds(before: seq<Node>, after: seq<Node>, gone: string, parent: string)
    requires LosesOnly(before, after, gone, parent)
    ensures Ids(after) == Ids(before) - {gone}
  {
    forall x ensures x in Ids(after) <==> x in Ids(before) && x != gone {
      IdsAreFound(before, x);
      IdsAreFound(after, x);
    }
  }

  lemma LostNames(before: seq<Node>, after: seq<Node>, gone: string, parent: string)
    requires LosesOnly(before, after, gone, parent)
    ensures NamesOf(after) == NamesOf(before) - {gone}
  {
    LostIds(before, after, gone, parent);
    forall x | x in Ids(after) ensures NameOf(after, x) == NameOf(before, x) { IdsAreFound(before, x); }
  }

  lemma LostTransforms(before: seq<Node>, after: seq<Node>, gone: string, parent: string)
    requires LosesOnly(before, after, gone, parent)
    ensures TransformsOf(after) == TransformsOf(before) - {gone}
  {
    LostIds(before, after, gone, parent);
    forall x | x in Ids(after) ensures TransformOf(after, x) == TransformOf(before, x) { IdsAreFound(before, x); }
  }

  // Everything later lemmas need of a deletion.
  ghost predicate DeletesGroup(c: Config, d: Config, gone: string) {
    && Acyclic(GroupForest(c)) && Acyclic(GroupForest(d)) && gone in GroupForest(c)
    && GroupForest(d) == Spliced(GroupForest(c), gone)
    && NamesOf(d.groups) == NamesOf(c.groups) - {gone} && TransformsOf(d.groups) == TransformsOf(c.groups) - {gone}
    && LosesOnly(Nodes(c), Nodes(d), gone, GroupForest(c)[gone])
  }

  lemma DeletionOfNodes(c: Config, gone: string, parent: string)
    requires UniqueIds(Nodes(c)) && Find(c.groups, gone).Some? && parent == ParentOf(c.groups, gone)
    ensures UniqueIds(Nodes(Deleted(c, gone))) && LosesOnly(Nodes(c), Nodes(Deleted(c, gone)), gone, parent)
    ensures ParentsOf(Nodes(Deleted(c, gone))) == Spliced(ParentsOf(Nodes(c)), gone)
  {
    FindInBoth(c.groups, c.devices, gone);
    DeletedNodes(c, gone);
    RemovedLosesOnly(Nodes(c), gone, parent);
    AdoptedIsUnique(Nodes(c), gone, parent);
    RemovedIsUnique(AllAdopted(Nodes(c), gone, parent), gone);
    LostParents(Nodes(c), Nodes(Deleted(c, gone)), gone);
  }

  lemma DeletionOfGroups(groups: seq<Node>, gone: string, parent: string)
    requires UniqueIds(groups) && Find(groups, gone).Some? && parent == ParentOf(groups, gone)
    ensures
      var left := Removed(AllAdopted(groups, gone, parent), gone);
      && ParentsOf(left) == Spliced(ParentsOf(groups), gone)
      && NamesOf(left) == NamesOf(groups) - {gone} && TransformsOf(left) == TransformsOf(groups) - {gone}
  {
    var left := Removed(AllAdopted(groups, gone, parent), gone);
    RemovedLosesOnly(groups, gone, parent);
    LostParents(groups, left, gone);
    LostNames(groups, left, gone, parent);
    LostTransforms(groups, left, gone, parent);
  }

  // Deletion keeps the tree sound and splices the group out of the graph.
  lemma DeletionKeepsSound(c: Config, gone: string)
    requires Sound(c) && Find(c.groups, gone).Some?
    ensures Sound(Deleted(c, gone)) && DeletesGroup(c, Deleted(c, gone), gone)
  {
    var d, parent := Deleted(c, gone), ParentOf(c.groups, gone);
    SoundGroups(c);
    DeletionOfNodes(c, gone, parent);
    DeletionOfGroups(c.groups, gone, parent);
    FindInBoth(c.groups, c.devices, gone);
    ParentInForest(Nodes(c), gone);
    ParentInForest(c.groups, gone);
    SpliceKeepsAcyclic(ParentsOf(Nodes(c)), gone);
    SpliceKeepsAcyclic(GroupForest(c), gone);
  }

  // ---- ancestors ----

  // Every node left loses the deleted group from above it, and nothing else.
  lemma AncestorsLoseOnlyTheGroup(c: Config, d: Config, gone: string, m: string)
    requires DeletesGroup(c, d, gone) && m != gone && Find(Nodes(c), m).Some?
    ensures Above(d, m) == Without(Above(c, m), gone)
  {
    SpliceWalk(GroupForest(c), gone, ParentOf(Nodes(c), m));
  }

  lemma DeviceStaysBelow(c: Config, d: Config, gone: string, n: Node, h: string)
    requires DeletesGroup(c, d, gone) && h != gone
    ensures OwnIdBelow(d, Adopted(n, gone, GroupForest(c)[gone]), h) == OwnIdBelow(c, n, h)
  {
    SpliceWalk(GroupForest(c), gone, n.parentId);
  }

  lemma AdoptedOneMore(nodes: seq<Node>, gone: string, parent: string)
    requires nodes != []
    ensures
      var n := |nodes| - 1;
      AllAdopted(nodes, gone, parent) == AllAdopted(nodes[..n], gone, parent) + [Adopted(nodes[n], gone, parent)]
  {}

  lemma OneMoreBelow(c: Config, devices: seq<Node>, n: Node, h: string)
    requires Acyclic(GroupForest(c))
    ensures DeviceIdsBelow(c, devices + [n], h) == DeviceIdsBelow(c, devices, h) + OwnIdBelow(c, n, h)
  {
    assert (devices + [n])[..|devices|] == devices;
  }

  lemma {:induction false} SameDevicesBelow(c: Config, d: Config, gone: string, devices: seq<Node>, h: string)
    requires DeletesGroup(c, d, gone) && h != gone
    ensures DeviceIdsBelow(d, AllAdopted(devices, gone, GroupForest(c)[gone]), h) == DeviceIdsBelow(c, devices, h)
    decreases |devices|
  {
    if devices == [] {
    } else {
      var front, last := devices[..|devices| - 1], devices[|devices| - 1];
      SameDevicesBelow(c, d, gone, front, h);
      DeviceStaysBelow(c, d, gone, last, h);
      AdoptedOneMore(devices, gone, GroupForest(c)[gone]);
      OneMoreBelow(d, AllAdopted(front, gone, GroupForest(c)[gone]), Adopted(last, gone, GroupForest(c)[gone]), h);
    }
  }

  // Any other group holds the devices it held.
  lemma OtherGroupsKeepTheirDevices(c: Config, gone: string, h: string)
    requires Sound(c) && Find(c.groups, gone).Some? && h != gone
    ensures Acyclic(GroupForest(c)) && Acyclic(GroupForest(Deleted(c, gone)))
    ensures DeviceIdsBelow(Deleted(c, gone), Deleted(c, gone).devices, h) == DeviceIdsBelow(c, c.devices, h)
  {
    DeletionKeepsSound(c, gone);
    SameDevicesBelow(c, Deleted(c, gone), gone, c.devices, h);
  }

  // A node is on for a session exactly as before, were the group switched on.
  lemma EnabledWithoutTheGroup(c: Config, d: Config, gone: string, disabled: set<string>, m: string)
    requires DeletesGroup(c, d, gone) && m != gone && Find(Nodes(c), m).Some?
    ensures EnabledIn(d, disabled - {gone}, m) <==> EnabledIn(c, disabled - {gone}, m)
  {
    AncestorsLoseOnlyTheGroup(c, d, gone, m);
  }

  // ---- world transforms ----

  lemma {:induction false} WorldConcatenates(t: map<string, Matrix>, a: seq<string>, b: seq<string>)
    ensures World(t, a + b) == Product(World(t, b), World(t, a))
  {
    if a == [] {
      assert a + b == b;
      IdentityIsNeutral(World(t, b));
    } else {
      assert (a + b)[1..] == a[1..] + b;
      WorldConcatenates(t, a[1..], b);
      if a[0] in t { ProductAssociates(World(t, b), World(t, a[1..]), t[a[0]]); }
    }
  }

  lemma {:induction false} WorldIgnores(t: map<string, Matrix>, walk: seq<string>, gone: string)
    requires gone !in walk
    ensures World(t - {gone}, walk) == World(t, walk)
  {
    if walk == [] {
    } else {
      WorldIgnores(t, walk[1..], gone);
    }
  }

  // A descendant's world was the product of the transforms above the group, the
  // group's own, and those below it; now it is the first times the last.
  lemma WorldLosesOneFactor(c: Config, d: Config, gone: string, m: string) returns (above: Matrix, below: Matrix)
    requires DeletesGroup(c, d, gone) && m != gone && Find(Nodes(c), m).Some? && gone in Above(c, m)
    ensures WorldOf(c, m) == Product(Product(above, TransformOf(c.groups, gone)), below)
    ensures WorldOf(d, m) == Product(above, below)
  {
    var t, g, p := TransformsOf(c.groups), GroupForest(c), ParentOf(Nodes(c), m);
    var low, high := UpTo(Walk(g, p), gone), Walk(g, g[gone]);
    above, below := World(t, high), World(t, low);
    GroupOnceOnWalk(g, gone, p);
    WorldConcatenates(t, low, [gone] + high);
    assert ([gone] + high)[1..] == high;
    AncestorsLoseOnlyTheGroup(c, d, gone, m);
    WorldConcatenates(t, low, high);
    WorldIgnores(t, low + high, gone);
  }

  lemma WorldElsewhereStays(c: Config, d: Config, gone: string, m: string)
    requires DeletesGroup(c, d, gone) && m != gone && Find(Nodes(c), m).Some? && gone !in Above(c, m)
    ensures WorldOf(d, m) == WorldOf(c, m)
  {
    AncestorsLoseOnlyTheGroup(c, d, gone, m);
    WorldIgnores(TransformsOf(c.groups), Above(c, m), gone);
  }

  lemma WithoutTheOne(low: seq<string>, x: string, high: seq<string>)
    requires x !in low && x !in high
    ensures Without(low + ([x] + high), x) == low + high
  {
    WithoutConcatenates(low, [x] + high, x);
    WithoutConcatenates([x], high, x);
  }

  // A walk meets a node once.
  lemma GroupOnceOnWalk(f: Parents, gone: string, p: string)
    requires Acyclic(f) && gone in f && Under(f, p, gone)
    ensures Walk(f, p) == UpTo(Walk(f, p), gone) + ([gone] + Walk(f, f[gone]))
    ensures gone !in Walk(f, f[gone])
    ensures Without(Walk(f, p), gone) == UpTo(Walk(f, p), gone) + Walk(f, f[gone])
  {
    WalkSplits(f, p, gone);
    if gone in Walk(f, f[gone]) { WalkIsLower(f, f[gone], gone); }
    WithoutTheOne(UpTo(Walk(f, p), gone), gone, Walk(f, f[gone]));
  }

  // ---- paths ----

  lemma {:induction false} AboveIsHigher(f: Parents, p: string, id: string, x: string)
    requires Acyclic(f) && id in f && Under(f, p, id) && x in UpTo(Walk(f, p), id) && x in f
    ensures Height(f, id) < Height(f, x)
    decreases Height(f, p)
  {
    assert Walk(f, p)[1..] == Walk(f, f[p]);
    if x == p { WalkIsLower(f, f[p], id); } else { AboveIsHigher(f, f[p], id, x); }
  }

  lemma {:induction false} UpToWithout(walk: seq<string>, gone: string, id: string)
    requires gone != id && gone !in UpTo(walk, id) && id in walk
    ensures UpTo(Without(walk, gone), id) == UpTo(walk, id) && id in Without(walk, gone)
  {
    var x, rest := walk[0], walk[1..];
    assert walk == [x] + rest;
    WithoutFirst(x, rest, gone);
    if x == id {
    } else {
      assert UpTo(walk, id) == [x] + UpTo(rest, id);
      UpToWithout(rest, gone, id);
    }
    var shorter := [x] + Without(rest, gone);
    assert shorter[1..] == Without(rest, gone);
  }

  lemma {:induction false} JoinedWithoutName(names: map<string, string>, walk: seq<string>, gone: string)
    requires gone !in walk
    ensures Joined(names - {gone}, walk) == Joined(names, walk)
  {
    if walk == [] {
    } else {
      JoinedWithoutName(names, walk[1..], gone);
    }
  }

  // Below a child of the deleted group addresses keep their tails.
  lemma ChildTailStays(c: Config, d: Config, gone: string, child: string, m: string)
    requires DeletesGroup(c, d, gone) && m != gone && Find(Nodes(c), m).Some?
    requires child != gone && Find(Nodes(c), child).Some? && ParentOf(Nodes(c), child) == gone
    requires child in GroupForest(c) ==> GroupForest(c)[child] == gone
    requires Inside(c, m, child)
    ensures Inside(d, m, child) && Tail(d, m, child) == Tail(c, m, child)
  {
    if m != child {
      var g, p := GroupForest(c), ParentOf(Nodes(c), m);
      if gone in UpTo(Walk(g, p), child) { AboveIsHigher(g, p, child, gone); }
      UpToWithout(Walk(g, p), gone, child);
      AncestorsLoseOnlyTheGroup(c, d, gone, m);
      JoinedWithoutName(NamesOf(c.groups), UpTo(Walk(g, p), child), gone);
    }
  }

  // The groups and then the devices of a parent, as they are listed.
  function ChildIds(nodes: seq<Node>, p: string): (ids: seq<string>)
    decreases |nodes|
  {
    if nodes == [] then []
    else
      var last := nodes[|nodes| - 1];
      ChildIds(nodes[..|nodes| - 1], p) + (if last.parentId == p then [last.id] else [])
  }

  lemma {:induction false} ChildIdIsChild(nodes: seq<Node>, p: string, id: string)
    requires UniqueIds(nodes) && id in ChildIds(nodes, p)
    ensures Find(nodes, id).Some? && ParentOf(nodes, id) == p
    decreases |nodes|
  {
    var front, last := nodes[..|nodes| - 1], nodes[|nodes| - 1];
    if last.parentId == p && last.id == id {
      FoundIsIt(nodes, last);
    } else {
      assert UniqueIds(front) by { assert forall n :: n in front ==> n in nodes; }
      ChildIdIsChild(front, p, id);
      FoundIsIt(nodes, Find(front, id).value);
    }
  }

  ghost function NodePrefixes(c: Config, ids: seq<string>): (r: seq<string>)
    requires Acyclic(GroupForest(c))
    ensures |r| == |ids|
  {
    Mapped(ids, id => NodePrefix(c, id))
  }

  lemma NodePrefixesConcatenate(c: Config, a: seq<string>, b: seq<string>)
    requires Acyclic(GroupForest(c))
    ensures NodePrefixes(c, a + b) == NodePrefixes(c, a) + NodePrefixes(c, b)
  {
    MappedConcatenates(a, b, id => NodePrefix(c, id));
  }

  ghost function ChildPrefixes(c: Config, d: Config, ids: seq<string>): (r: seq<(string, string)>)
    requires Acyclic(GroupForest(c)) && Acyclic(GroupForest(d))
    ensures |r| == |ids|
  {
    Mapped(ids, id => (NodePrefix(c, id), NodePrefix(d, id)))
  }

  lemma ChildPrefixAt(c: Config, d: Config, ids: seq<string>, i: nat)
    requires Acyclic(GroupForest(c)) && Acyclic(GroupForest(d)) && i < |ids|
    ensures ChildPrefixes(c, d, ids)[i] == (NodePrefix(c, ids[i]), NodePrefix(d, ids[i]))
    ensures NodePrefixes(c, ids)[i] == NodePrefix(c, ids[i])
  {
    MappedAt(ids, id => NodePrefix(c, id), i);
    MappedAt(ids, id => (NodePrefix(c, id), NodePrefix(d, id)), i);
  }

  // A set of paths after the deletion: carried with each child in turn, then
  // rid of all that lies under the group's old address.
  ghost function PathsWithout(c: Config, gone: string, paths: set<string>): set<string>
    requires Acyclic(GroupForest(c)) && Acyclic(GroupForest(Deleted(c, gone)))
  {
    var prefixes := ChildPrefixes(c, Deleted(c, gone), ChildIds(Nodes(c), gone));
    Paths.Erased(Paths.CarriedAllThrough(paths, prefixes), NodePrefix(c, gone))
  }

  lemma ChildAddress(c: Config, gone: string, child: string)
    requires Acyclic(GroupForest(c)) && gone in GroupForest(c)
    requires Find(Nodes(c), child).Some? && ParentOf(Nodes(c), child) == gone
    ensures Address(c, child) == Address(c, gone) + "/" + NameOf(Nodes(c), child)
  {
    AddressOf(c, child);
    GroupPath(c, gone);
  }

  lemma ChildPrefixesBelow(c: Config, d: Config, gone: string, ids: seq<string>)
    requires Acyclic(GroupForest(c)) && Acyclic(GroupForest(d)) && gone in GroupForest(c)
    requires forall i :: 0 <= i < |ids| ==> Find(Nodes(c), ids[i]).Some? && ParentOf(Nodes(c), ids[i]) == gone
    ensures Paths.AllBelow(ChildPrefixes(c, d, ids), NodePrefix(c, gone))
  {
    var prefixes := ChildPrefixes(c, d, ids);
    forall j | 0 <= j < |prefixes| ensures Paths.Under(prefixes[j].0, NodePrefix(c, gone)) {
      ChildPrefixAt(c, d, ids, j);
      ChildAddress(c, gone, ids[j]);
      Paths.BelowPrefix(NodePrefix(c, gone), NameOf(Nodes(c), ids[j]));
      PrefixOfChild(Address(c, gone), NameOf(Nodes(c), ids[j]));
    }
  }

  lemma PrefixOfChild(a: string, name: string)
    ensures "device/" + (a + "/" + name) == "device/" + a + "/" + name
  {}

  lemma ChildFieldCarried(c: Config, d: Config, gone: string, child: string, m: string, field: string)
    requires Sound(c) && Sound(d) && DeletesGroup(c, d, gone) && m != gone && Find(Nodes(c), m).Some?
    requires child != gone && Find(Nodes(c), child).Some? && ParentOf(Nodes(c), child) == gone
    requires child in GroupForest(c) ==> GroupForest(c)[child] == gone
    requires Inside(c, m, child)
    ensures Paths.Carried(FieldPath(c, m, field), NodePrefix(c, child), NodePrefix(d, child)) == FieldPath(d, m, field)
  {
    ChildTailStays(c, d, gone, child, m);
    InsideAddress(c, m, child);
    InsideAddress(d, m, child);
    CarriedTail(Address(c, child), Address(d, child), Tail(c, m, child), field);
  }

  lemma ChildFacts(c: Config, gone: string, child: string)
    requires Sound(c) && Find(c.groups, gone).Some? && child in ChildIds(Nodes(c), gone)
    ensures Find(Nodes(c), child).Some? && ParentOf(Nodes(c), child) == gone && child != gone
    ensures child in GroupForest(c) ==> GroupForest(c)[child] == gone
  {
    ChildIdIsChild(Nodes(c), gone, child);
    FindInBoth(c.groups, c.devices, child);
    var f := ParentsOf(Nodes(c));
    assert child in f && f[child] == gone;
    assert gone in f ==> RankOf(f)[gone] < RankOf(f)[child];
    FindInBoth(c.groups, c.devices, gone);
  }

  lemma ParentWalkStays(f: Parents, gone: string)
    requires Acyclic(f) && gone in f && Acyclic(Spliced(f, gone))
    ensures gone !in Walk(f, f[gone]) && Walk(Spliced(f, gone), f[gone]) == Walk(f, f[gone])
  {
    SpliceWalk(f, gone, gone);
    WithoutConcatenates([gone], Walk(f, f[gone]), gone);
    assert Under(f, gone, gone);
    GroupOnceOnWalk(f, gone, gone);
  }

  lemma PathAboveStays(c: Config, d: Config, gone: string, up: string)
    requires DeletesGroup(c, d, gone) && up == GroupForest(c)[gone]
    ensures PathFrom(d, up) == PathFrom(c, up)
  {
    ParentWalkStays(GroupForest(c), gone);
    JoinedWithoutName(NamesOf(c.groups), Walk(GroupForest(c), up), gone);
  }

  // The addresses of a group and of its child once the group is gone share
  // what comes before their own names.
  lemma ChildAddressWithout(c: Config, gone: string, child: string)
    requires Sound(c) && Find(c.groups, gone).Some? && child in ChildIds(Nodes(c), gone)
    ensures Acyclic(GroupForest(c)) && Acyclic(GroupForest(Deleted(c, gone)))
    ensures
      var base := PathFrom(c, ParentOf(Nodes(c), gone));
      && Address(c, gone) == base + NameOf(Nodes(c), gone)
      && Address(Deleted(c, gone), child) == base + NameOf(Nodes(c), child)
  {
    var d := Deleted(c, gone);
    DeletionKeepsSound(c, gone);
    ChildFacts(c, gone, child);
    FindInBoth(c.groups, c.devices, gone);
    AddressOf(c, gone);
    AddressOf(d, child);
    PathAboveStays(c, d, gone, ParentOf(Nodes(c), gone));
  }

  // A node at or below child number k of the deleted group.
  ghost predicate BelowChild(c: Config, gone: string, k: nat, m: string) {
    && Sound(c) && Acyclic(GroupForest(c)) && Acyclic(GroupForest(Deleted(c, gone)))
    && Find(c.groups, gone).Some? && k < |ChildIds(Nodes(c), gone)|
    && m != gone && Find(Nodes(c), m).Some? && Inside(c, m, ChildIds(Nodes(c), gone)[k])
  }

  // Each child's prefixes put what is above the group in place of the group's
  // own address, so it does not matter which of them carries a path.
  lemma ChildCarries(c: Config, gone: string, child: string, path: string, a: string, base: string)
    requires Sound(c) && Find(c.groups, gone).Some? && child in ChildIds(Nodes(c), gone)
    requires Acyclic(GroupForest(c)) && Acyclic(GroupForest(Deleted(c, gone)))
    requires a == Address(c, gone) && base == PathFrom(c, ParentOf(Nodes(c), gone))
    requires Paths.Under(path, NodePrefix(c, child))
    ensures |"device/" + a| < |path|
    ensures Paths.Carried(path, NodePrefix(c, child), NodePrefix(Deleted(c, gone), child))
         == "device/" + base + path[|"device/" + a| + 1..]
  {
    var name := NameOf(Nodes(c), child);
    OldChildPrefix(c, gone, child, a, name);
    NewChildPrefix(c, gone, child, base, name);
    EndCarries(path, a, base, name, NodePrefix(c, child), NodePrefix(Deleted(c, gone), child));
  }

  lemma OldChildPrefix(c: Config, gone: string, child: string, a: string, name: string)
    requires Sound(c) && Find(c.groups, gone).Some? && child in ChildIds(Nodes(c), gone) && Acyclic(GroupForest(c))
    requires a == Address(c, gone) && name == NameOf(Nodes(c), child)
    ensures NodePrefix(c, child) == "device/" + (a + "/" + name)
  {
    ChildFacts(c, gone, child);
    ParentInForest(c.groups, gone);
    ChildAddress(c, gone, child);
  }

  lemma NewChildPrefix(c: Config, gone: string, child: string, base: string, name: string)
    requires Sound(c) && Find(c.groups, gone).Some? && child in ChildIds(Nodes(c), gone)
    requires Acyclic(GroupForest(c)) && Acyclic(GroupForest(Deleted(c, gone)))
    requires base == PathFrom(c, ParentOf(Nodes(c), gone)) && name == NameOf(Nodes(c), child)
    ensures NodePrefix(Deleted(c, gone), child) == "device/" + (base + name)
  {
    ChildAddressWithout(c, gone, child);
  }

  lemma EndCarries(path: string, a: string, base: string, name: string, from: string, to: string)
    requires from == "device/" + (a + "/" + name) && to == "device/" + (base + name) && Paths.Under(path, from)
    ensures |"device/" + a| < |path|
    ensures Paths.Carried(path, from, to) == "device/" + base + path[|"device/" + a| + 1..]
  {
    var above, below := "device/" + a + "/", "device/" + base;
    assert from == above + name && to == below + name;
    Paths.CarriedByEnd(path, above, below, name);
  }

  lemma ChildrenActAlike(c: Config, gone: string, k: nat, path: string)
    requires Sound(c) && Find(c.groups, gone).Some? && k < |ChildIds(Nodes(c), gone)|
    requires Acyclic(GroupForest(c)) && Acyclic(GroupForest(Deleted(c, gone)))
    requires Paths.Under(path, NodePrefix(c, ChildIds(Nodes(c), gone)[k]))
    ensures
      var prefixes := ChildPrefixes(c, Deleted(c, gone), ChildIds(Nodes(c), gone));
      Paths.ActAlike(path, prefixes, Paths.Carried(path, prefixes[k].0, prefixes[k].1))
  {
    var ids := ChildIds(Nodes(c), gone);
    var prefixes := ChildPrefixes(c, Deleted(c, gone), ids);
    var a, base := Address(c, gone), PathFrom(c, ParentOf(Nodes(c), gone));
    ChildPrefixAt(c, Deleted(c, gone), ids, k);
    ChildCarries(c, gone, ids[k], path, a, base);
    var to := Paths.Carried(path, prefixes[k].0, prefixes[k].1);
    forall j | 0 <= j < |prefixes| && Paths.Under(path, prefixes[j].0)
      ensures Paths.Carried(path, prefixes[j].0, prefixes[j].1) == to
    {
      ChildPrefixAt(c, Deleted(c, gone), ids, j);
      ChildCarries(c, gone, ids[j], path, a, base);
    }
  }

  // A field of such a node, carried through every child's prefixes in turn.
  lemma FieldThrough(c: Config, gone: string, k: nat, m: string, field: string)
    requires BelowChild(c, gone, k, m)
    ensures
      var d, prefixes := Deleted(c, gone), ChildPrefixes(c, Deleted(c, gone), ChildIds(Nodes(c), gone));
      && Paths.Under(FieldPath(c, m, field), prefixes[k].0)
      && Paths.ActAlike(FieldPath(c, m, field), prefixes, FieldPath(d, m, field))
      && Paths.AllBelow(prefixes, NodePrefix(c, gone))
  {
    var d, ids := Deleted(c, gone), ChildIds(Nodes(c), gone);
    DeletionKeepsSound(c, gone);
    forall i | 0 <= i < |ids| ensures Find(Nodes(c), ids[i]).Some? && ParentOf(Nodes(c), ids[i]) == gone {
      ChildFacts(c, gone, ids[i]);
    }
    ChildPrefixesBelow(c, d, gone, ids);
    ChildPrefixAt(c, d, ids, k);
    ChildFacts(c, gone, ids[k]);
    ChildFieldCarried(c, d, gone, ids[k], m, field);
    InsideAddress(c, m, ids[k]);
    CarriedTail(Address(c, ids[k]), Address(c, ids[k]), Tail(c, m, ids[k]), field);
    ChildrenActAlike(c, gone, k, FieldPath(c, m, field));
  }

  lemma FollowOrVanish(paths: set<string>, prefixes: seq<(string, string)>, outer: string, k: nat, p: string, q: string)
    requires Paths.AllBelow(prefixes, outer) && k < |prefixes| && Paths.Under(p, prefixes[k].0) && p in paths
    requires Paths.ActAlike(p, prefixes, q)
    ensures q in Paths.Erased(Paths.CarriedAllThrough(paths, prefixes), outer) <==> !Paths.Under(q, outer)
  {
    if !Paths.Under(q, outer) {
      Paths.HeldIsHeld(p, prefixes, k);
      Paths.CarriedOnce(p, prefixes, outer, q);
      Paths.ThroughIsCarried(paths, prefixes, p);
    }
  }

  // A path below a child of the deleted group reaches the node's new address
  // exactly when that address does not lie under the group's old one; else it
  // is erased after having been carried.
  lemma ChildPathsFollowOrVanish(c: Config, gone: string, k: nat, m: string, field: string, paths: set<string>)
    requires BelowChild(c, gone, k, m) && FieldPath(c, m, field) in paths
    ensures
      var q := FieldPath(Deleted(c, gone), m, field);
      q in PathsWithout(c, gone, paths) <==> !Paths.Under(q, NodePrefix(c, gone))
  {
    FieldThrough(c, gone, k, m, field);
    FollowOrVanish(paths, ChildPrefixes(c, Deleted(c, gone), ChildIds(Nodes(c), gone)), NodePrefix(c, gone), k,
                   FieldPath(c, m, field), FieldPath(Deleted(c, gone), m, field));
  }

  lemma FieldSegments(base: string, own: string, tail: string, field: string) returns (rest: string)
    requires tail == "" || tail[0] == '/'
    ensures "device/" + (base + own + tail) + "/" + field == ("device/" + base) + own + "/" + rest
  {
    rest := (tail + "/" + field)[1..];
    assert tail + "/" + field == "/" + rest;
    assert "device/" + (base + own + tail) + "/" + field == ("device/" + base) + own + (tail + "/" + field);
    assert ("device/" + base) + own + ("/" + rest) == ("device/" + base) + own + "/" + rest;
  }

  // With labels that hold no '/', the paths that vanish are those below the
  // children named like the deleted group.
  lemma NamesDecideWhatVanishes(c: Config, gone: string, k: nat, m: string, field: string)
    requires BelowChild(c, gone, k, m)
    requires '/' !in NameOf(Nodes(c), gone) && '/' !in NameOf(Nodes(c), ChildIds(Nodes(c), gone)[k])
    ensures Paths.Under(FieldPath(Deleted(c, gone), m, field), NodePrefix(c, gone))
       <==> NameOf(Nodes(c), ChildIds(Nodes(c), gone)[k]) == NameOf(Nodes(c), gone)
  {
    var child := ChildIds(Nodes(c), gone)[k];
    var base := PathFrom(c, ParentOf(Nodes(c), gone));
    ChildAddressWithout(c, gone, child);
    FieldBelowNewAddress(c, gone, child, m, field);
    SegmentsUnder(base, NameOf(Nodes(c), child), Tail(Deleted(c, gone), m, child), field, NameOf(Nodes(c), gone));
  }

  lemma SegmentsUnder(base: string, own: string, tail: string, field: string, other: string)
    requires (tail == "" || tail[0] == '/') && '/' !in own && '/' !in other
    ensures Paths.Under("device/" + (base + own + tail) + "/" + field, "device/" + (base + other)) <==> own == other
  {
    var rest := FieldSegments(base, own, tail, field);
    Paths.SegmentsDecide("device/" + base, own, rest, other);
    assert "device/" + (base + other) == ("device/" + base) + other;
  }

  lemma FieldBelowNewAddress(c: Config, gone: string, child: string, m: string, field: string)
    requires Sound(c) && Find(c.groups, gone).Some? && child in ChildIds(Nodes(c), gone)
    requires m != gone && Find(Nodes(c), m).Some?
    requires Acyclic(GroupForest(c)) && Acyclic(GroupForest(Deleted(c, gone))) && Inside(c, m, child)
    ensures FieldPath(Deleted(c, gone), m, field)
         == "device/" + (Address(Deleted(c, gone), child) + Tail(Deleted(c, gone), m, child)) + "/" + field
  {
    DeletionKeepsSound(c, gone);
    ChildFacts(c, gone, child);
    ChildTailStays(c, Deleted(c, gone), gone, child, m);
    InsideAddress(Deleted(c, gone), m, child);
  }

  // Nothing is left under the group's old address, and paths that were not
  // under it stay.
  lemma PathsElsewhereStay(c: Config, gone: string, paths: set<string>, p: string)
    requires Sound(c) && Find(c.groups, gone).Some?
    ensures Acyclic(GroupForest(c)) && Acyclic(GroupForest(Deleted(c, gone)))
    ensures Paths.Under(p, NodePrefix(c, gone)) ==> p !in PathsWithout(c, gone, paths)
    ensures !Paths.Under(p, NodePrefix(c, gone)) && p in paths ==> p in PathsWithout(c, gone, paths)
  {
    DeletionKeepsSound(c, gone);
    var ids := ChildIds(Nodes(c), gone);
    var prefixes := ChildPrefixes(c, Deleted(c, gone), ids);
    forall i | 0 <= i < |ids| ensures Find(Nodes(c), ids[i]).Some? && ParentOf(Nodes(c), ids[i]) == gone {
      ChildFacts(c, gone, ids[i]);
    }
    ChildPrefixesBelow(c, Deleted(c, gone), gone, ids);
    if !Paths.Under(p, NodePrefix(c, gone)) && p in paths {
      Paths.OutsideIsUntouched(p, prefixes, NodePrefix(c, gone));
      Paths.ThroughIsCarried(paths, prefixes, p);
    }
  }

  lemma AddressElsewhereStays(c: Config, d: Config, gone: string, m: string)
    requires DeletesGroup(c, d, gone) && m != gone && Find(Nodes(c), m).Some? && gone !in Above(c, m)
    ensures Address(d, m) == Address(c, m)
  {
    AncestorsLoseOnlyTheGroup(c, d, gone, m);
    JoinedWithoutName(NamesOf(c.groups), Above(c, m), gone);
    AddressOf(c, m);
    AddressOf(d, m);
  }

  lemma LikeNamedChildLosesPath(c: Config, gone: string, k: nat, m: string, field: string, paths: set<string>)
    requires BelowChild(c, gone, k, m) && FieldPath(c, m, field) in paths
    requires '/' !in NameOf(Nodes(c), gone) && NameOf(Nodes(c), ChildIds(Nodes(c), gone)[k]) == NameOf(Nodes(c), gone)
    ensures FieldPath(Deleted(c, gone), m, field) !in PathsWithout(c, gone, paths)
  {
    NamesDecideWhatVanishes(c, gone, k, m, field);
    ChildPathsFollowOrVanish(c, gone, k, m, field, paths);
  }

  // ---- which paths survive, whosever they are ----

  lemma PathElsewhereSurvivesIff(c: Config, gone: string, m: string, field: string, paths: set<string>)
    requires Sound(c) && Find(c.groups, gone).Some? && m != gone && Find(Nodes(c), m).Some?
    requires Acyclic(GroupForest(c)) && gone !in Above(c, m) && FieldPath(c, m, field) in paths
    ensures Acyclic(GroupForest(Deleted(c, gone))) && FieldPath(Deleted(c, gone), m, field) == FieldPath(c, m, field)
    ensures FieldPath(c, m, field) in PathsWithout(c, gone, paths) <==>
              !Paths.Under(FieldPath(c, m, field), NodePrefix(c, gone))
  {
    DeletionKeepsSound(c, gone);
    AddressElsewhereStays(c, Deleted(c, gone), gone, m);
    PathsElsewhereStay(c, gone, paths, FieldPath(c, m, field));
  }

  lemma {:induction false} ChildIsListed(nodes: seq<Node>, p: string, n: Node) returns (k: nat)
    requires n in nodes && n.parentId == p
    ensures k < |ChildIds(nodes, p)| && ChildIds(nodes, p)[k] == n.id
    decreases |nodes|
  {
    var front, last := nodes[..|nodes| - 1], nodes[|nodes| - 1];
    if n in front { k := ChildIsListed(front, p, n); } else { k := |ChildIds(front, p)|; }
  }

  // A node with the group above it is at or below one of the group's children.
  lemma IsBelowAChild(c: Config, gone: string, m: string) returns (k: nat)
    requires Sound(c) && Find(c.groups, gone).Some? && m != gone && Find(Nodes(c), m).Some?
    requires Acyclic(GroupForest(c)) && Acyclic(GroupForest(Deleted(c, gone))) && gone in Above(c, m)
    ensures BelowChild(c, gone, k, m)
  {
    var g, p := GroupForest(c), ParentOf(Nodes(c), m);
    var child := m;
    if p != gone {
      child := ChildOnWalk(g, p, gone);
      FindInBoth(c.groups, c.devices, child);
    }
    k := ChildIsListed(Nodes(c), gone, Find(Nodes(c), child).value);
  }

  // Whatever a node left behind is called and wherever it hangs, its path is
  // published at its address afterwards exactly when that does not lie under
  // the group's old one.
  lemma PathSurvivesIff(c: Config, gone: string, m: string, field: string, paths: set<string>)
    requires Sound(c) && Find(c.groups, gone).Some? && m != gone && Find(Nodes(c), m).Some?
    requires Acyclic(GroupForest(c)) && FieldPath(c, m, field) in paths
    ensures Acyclic(GroupForest(Deleted(c, gone)))
    ensures
      var q := FieldPath(Deleted(c, gone), m, field);
      q in PathsWithout(c, gone, paths) <==> !Paths.Under(q, NodePrefix(c, gone))
  {
    DeletionKeepsSound(c, gone);
    GroupsAreAcyclic(Deleted(c, gone));
    if gone in Above(c, m) {
      var k := IsBelowAChild(c, gone, m);
      ChildPathsFollowOrVanish(c, gone, k, m, field, paths);
    } else {
      PathElsewhereSurvivesIff(c, gone, m, field, paths);
    }
  }

  // So no path of a subtree is left whose root has the group's address, as a
  // copy of the group beside it does, although nothing in it moves.
  lemma TwinSubtreeLosesPaths(c: Config, gone: string, twin: string, m: string, field: string, paths: set<string>)
    requires Sound(c) && Find(c.groups, gone).Some? && m != gone && Find(Nodes(c), m).Some?
    requires Acyclic(GroupForest(c)) && gone !in Above(c, m)
    requires Inside(c, m, twin) && Address(c, twin) == Address(c, gone)
    ensures Acyclic(GroupForest(Deleted(c, gone))) && FieldPath(Deleted(c, gone), m, field) == FieldPath(c, m, field)
    ensures FieldPath(c, m, field) !in PathsWithout(c, gone, paths)
  {
    DeletionKeepsSound(c, gone);
    AddressElsewhereStays(c, Deleted(c, gone), gone, m);
    InsideAddress(c, m, twin);
    CarriedTail(Address(c, twin), Address(c, twin), Tail(c, m, twin), field);
    PathsElsewhereStay(c, gone, paths, FieldPath(c, m, field));
  }
}
