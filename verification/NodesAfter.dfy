// What each operation on the device tree leaves of every node: which nodes are
// there, in which order they are listed, and which of their fields have changed.
module NodesAfter {
  import opened Common
  import opened Forests
  import opened Matrices
  import opened Siblings
  import opened DeviceTree
  import opened NodeMoves
  import opened NodePaths
  import opened GroupDeletion
  import opened NodeCopies
  import opened WorkspaceModel

  // ---- moving ----

  // One list of nodes before and after a move: only the moved node's parent
  // changes, and only orders of the new siblings.
  predicate OnlyPlaceMoved(before: seq<Node>, after: seq<Node>, id: string, parent: string) {
    |after| == |before|
    && forall i :: 0 <= i < |before| ==>
         var n, m := before[i], after[i];
         && m == n.(parentId := m.parentId, order := m.order)
         && m.parentId == (if n.id == id then parent else n.parentId)
         && (n.id != id && n.parentId != parent ==> m.order == n.order)
  }

  lemma MovedListKeepsTheRest(c: Config, nodes: seq<Node>, id: string, parent: string, before: string)
    requires Sound(c) && forall n :: n in nodes ==> n in Nodes(c)
    ensures OnlyPlaceMoved(nodes, MovedNodes(nodes, id, parent, Ordered(c, id, parent, before)), id, parent)
  {
    var ordered := Ordered(c, id, parent, before);
    OrderedIsDistinct(c, id, parent, before);
    forall n | n in nodes && n.id != id && n.parentId != parent ensures n.id !in ordered {
      NotShownElsewhere(c, n, parent);
    }
    OthersKeepOrders(nodes, id, parent, ordered);
  }

  lemma OthersKeepOrders(nodes: seq<Node>, id: string, parent: string, ordered: seq<string>)
    requires forall n :: n in nodes && n.id != id && n.parentId != parent ==> n.id !in ordered
    ensures OnlyPlaceMoved(nodes, MovedNodes(nodes, id, parent, ordered), id, parent)
  {}

  lemma NotShownElsewhere(c: Config, n: Node, parent: string)
    requires Sound(c) && n in Nodes(c) && n.parentId != parent
    ensures n.id !in Visible(c, parent)
  {
    VisibleMembers(c, parent, n.id);
    if m :| m in Nodes(c) && m.id == n.id && m.parentId == parent {
      FoundIsIt(Nodes(c), m);
      FoundIsIt(Nodes(c), n);
    }
  }

  // Nothing is changed by a move but the moved node's parent, its new siblings'
  // orders and the paths.
  lemma MoveKeepsTheRest(c: Config, id: string, parent: string, before: string)
    requires Sound(c) && !Refused(c, id, parent)
    ensures
      var d := Moved(c, id, parent, before);
      && OnlyPlaceMoved(c.groups, d.groups, id, parent) && OnlyPlaceMoved(c.devices, d.devices, id, parent)
      && d.disabled == c.disabled
  {
    MovedListKeepsTheRest(c, c.groups, id, parent, before);
    MovedListKeepsTheRest(c, c.devices, id, parent, before);
  }

  // And the moved node stands right before the sibling named, or last when that
  // is not among its new siblings or is the node itself.
  lemma MovedStandsBefore(c: Config, id: string, parent: string, before: string) returns (k: nat)
    requires Sound(c) && !Refused(c, id, parent)
    ensures
      var shown := Visible(Moved(c, id, parent, before), parent);
      && k < |shown| && shown[k] == id
      && (if before != "" && before != id && before in Visible(c, parent) then k + 1 < |shown| && shown[k + 1] == before
          else k == |shown| - 1)
      && Without(shown, id) == Without(Visible(c, parent), id)
  {
    MoveShowsInserted(c, id, parent, before);
    OrderedIsDistinct(c, id, parent, before);
    k := InsertedStands(Without(Visible(c, parent), id), id, before);
  }

  lemma InsertedStands(rest: seq<string>, id: string, before: string) returns (k: nat)
    ensures
      var shown := InsertBefore(rest, id, before);
      && k < |shown| && shown[k] == id
      && (if before != "" && before in rest then k + 1 < |shown| && shown[k + 1] == before else k == |shown| - 1)
  {
    k := if before != "" && before in rest then Place(rest, before) else |rest|;
  }

  // ---- relabelling ----

  // One list of nodes before and after one of them is given a label.
  predicate OnlyLabelled(before: seq<Node>, after: seq<Node>, id: string, text: string) {
    |after| == |before|
    && forall i :: 0 <= i < |before| ==>
         after[i] == if before[i].id == id then before[i].(labelText := text) else before[i]
  }

  // The node has its new label, by which it is known unless that is empty, and
  // nothing else is changed.
  lemma RelabelShows(c: Config, id: string, text: string)
    requires Sound(c) && Find(Nodes(c), id).Some?
    ensures
      var d := Relabelled(c, id, text);
      && OnlyLabelled(c.groups, d.groups, id, text) && OnlyLabelled(c.devices, d.devices, id, text)
      && d == c.(groups := d.groups, devices := d.devices)
      && Find(Nodes(d), id) == Some(Find(Nodes(c), id).value.(labelText := text))
      && NameOf(Nodes(d), id) == if text == "" then id else text
  {
    var d := Relabelled(c, id, text);
    assert Nodes(d) == WithLabel(Nodes(c), id, text);
    FindWithLabel(Nodes(c), id, text);
  }

  // ---- deleting ----

  lemma {:induction false} RemovedAt(nodes: seq<Node>, id: string) returns (i: nat)
    requires Find(nodes, id).Some?
    ensures i < |nodes| && nodes[i].id == id && Removed(nodes, id) == nodes[..i] + nodes[i + 1..]
  {
    if nodes[0].id == id {
      i := 0;
    } else {
      i := RemovedAt(nodes[1..], id);
      assert [nodes[0]] + (nodes[1..][..i] + nodes[1..][i + 1..]) == nodes[..i + 1] + nodes[i + 2..];
      i := i + 1;
    }
  }

  ghost predicate Forgets(before: seq<set<string>>, after: seq<set<string>>, id: string) {
    |after| == |before| && forall i, x :: 0 <= i < |before| ==> (x in after[i] <==> x in before[i] && x != id)
  }

  lemma ForgottenForgets(before: seq<set<string>>, id: string)
    ensures Forgets(before, Forgotten(before, id), id)
  {}

  // The device is gone from the list and from every session's switches; the
  // other devices are listed as before, and no group is touched.
  lemma DeviceIsGone(c: Config, id: string) returns (i: nat)
    requires Sound(c) && Find(c.devices, id).Some? && Acyclic(GroupForest(c))
    ensures
      var d := WithoutDevice(c, id);
      && i < |c.devices| && c.devices[i].id == id && d.devices == c.devices[..i] + c.devices[i + 1..]
      && OnlyDeviceGone(c, d, id) && Forgets(c.disabled, d.disabled, id)
  {
    i := RemovedAt(c.devices, id);
    DeviceIsForgotten(c, id);
    ForgottenForgets(c.disabled, id);
  }

  // One list of nodes before and after a group's children are given to its
  // parent.
  predicate OnlyAdopted(before: seq<Node>, after: seq<Node>, gone: string, parent: string) {
    |after| == |before|
    && forall i :: 0 <= i < |before| ==>
         after[i] == if before[i].parentId == gone then before[i].(parentId := parent) else before[i]
  }

  lemma AdoptedButOne(nodes: seq<Node>, i: nat, gone: string, parent: string)
    requires i < |nodes|
    ensures OnlyAdopted(nodes[..i] + nodes[i + 1..],
                        AllAdopted(nodes, gone, parent)[..i] + AllAdopted(nodes, gone, parent)[i + 1..], gone, parent)
  {}

  lemma WithoutGroupForgets(c: Config, gone: string)
    requires Acyclic(GroupForest(c)) && Acyclic(GroupForest(Deleted(c, gone)))
    ensures Forgets(c.disabled, WithoutGroup(c, gone).disabled, gone)
  {
    ForgottenForgets(c.disabled, gone);
  }

  lemma GroupTakenOut(groups: seq<Node>, gone: string, parent: string) returns (i: nat)
    requires Find(groups, gone).Some?
    ensures i < |groups| && groups[i].id == gone
    ensures OnlyAdopted(groups[..i] + groups[i + 1..], Removed(AllAdopted(groups, gone, parent), gone), gone, parent)
  {
    FindAdopted(groups, gone, parent, gone);
    i := RemovedAt(AllAdopted(groups, gone, parent), gone);
    AdoptedButOne(groups, i, gone, parent);
  }

  // The group is gone from the list and from every session's switches; the other
  // nodes are listed as before, and of their fields only the parents of the
  // group's children have changed.
  lemma GroupIsGone(c: Config, gone: string) returns (i: nat)
    requires Sound(c) && Find(c.groups, gone).Some?
    requires Acyclic(GroupForest(c)) && Acyclic(GroupForest(Deleted(c, gone)))
    ensures
      var d, parent := WithoutGroup(c, gone), Find(c.groups, gone).value.parentId;
      && i < |c.groups| && c.groups[i].id == gone
      && OnlyAdopted(c.groups[..i] + c.groups[i + 1..], d.groups, gone, parent)
      && OnlyAdopted(c.devices, d.devices, gone, parent)
      && Forgets(c.disabled, d.disabled, gone)
      && Find(Nodes(d), gone).None?
  {
    i := GroupTakenOut(c.groups, gone, ParentOf(c.groups, gone));
    WithoutGroupForgets(c, gone);
    GoneFromNodes(c, gone);
    assert Nodes(WithoutGroup(c, gone)) == Nodes(Deleted(c, gone));
  }

  lemma GoneFromNodes(c: Config, gone: string)
    requires Sound(c) && Find(c.groups, gone).Some?
    ensures Find(Nodes(Deleted(c, gone)), gone).None?
  {
    DeletionOfNodes(c, gone, ParentOf(c.groups, gone));
  }

  // ---- creating ----

  lemma NotAmongGroups(c: Config, id: string)
    requires Unused(ParentsOf(Nodes(c)), id)
    ensures Find(c.groups, id).None?
  {
    FindInBoth(c.groups, c.devices, id);
    ParentInForest(Nodes(c), id);
  }

  lemma GroupIsAdded(c: Config, group: Node)
    requires Sound(c) && Unused(ParentsOf(Nodes(c)), group.id)
    ensures
      var d := WithGroup(c, group);
      && d.groups == c.groups + [group] && d == c.(groups := d.groups)
      && Find(c.groups, group.id).None? && Find(d.groups, group.id) == Some(group)
  {
    NotAmongGroups(c, group.id);
    FindInBoth(c.groups, [group], group.id);
  }

  // ---- duplicating ----

  // Each copy is its original under its new id, hung from its parent's copy if
  // that was copied too; every node there was is there as before, and neither
  // paths nor switches change.
  lemma CopyIsAlike(c: Config, ids: map<string, string>, x: string)
    requires Sound(c) && Fresh(c, ids) && x in ids && Find(Nodes(c), x).Some?
    ensures
      var d, n := Duplicated(c, ids), Find(Nodes(c), x).value;
      var parent := if n.parentId in ids then ids[n.parentId] else n.parentId;
      && Find(Nodes(d), ids[x]) == Some(Node(ids[x], n.labelText, parent, n.order, n.collapsed, n.transform))
      && d == c.(groups := d.groups, devices := d.devices)
      && c.groups <= d.groups && c.devices <= d.devices
  {
    var n := Find(Nodes(c), x).value;
    CopiesAreThere(c, ids, n);
    DuplicateIsUnique(c, ids);
    FoundIsIt(Nodes(Duplicated(c, ids)), CopyOf(n, ids));
  }

  lemma NothingElseIsAdded(c: Config, ids: map<string, string>, y: string)
    requires Sound(c) && Fresh(c, ids) && y !in ids.Values
    ensures Find(Nodes(Duplicated(c, ids)), y) == Find(Nodes(c), y)
  {
    var d := Duplicated(c, ids);
    DuplicateIsUnique(c, ids);
    if Find(Nodes(c), y).Some? {
      FoundIsIt(Nodes(d), Find(Nodes(c), y).value);
    } else if Find(Nodes(d), y).Some? {
      IsOldOrCopy(c, ids, Find(Nodes(d), y).value);
    }
  }

  lemma IsOldOrCopy(c: Config, ids: map<string, string>, m: Node)
    requires m in Nodes(Duplicated(c, ids))
    ensures m in Nodes(c) || m.id in ids.Values
  {
    if m in Copies(c.groups, ids) { var i := CopyOfWhich(c.groups, ids, m); }
    if m in Copies(c.devices, ids) { var i := CopyOfWhich(c.devices, ids, m); }
  }

  // The ids of some siblings replaced, their orders kept.
  function Renamed(s: seq<Sibling>, ids: map<string, string>): (r: seq<Sibling>)
    requires forall x :: x in s ==> x.id in ids
    ensures |r| == |s| && forall i :: 0 <= i < |s| ==> r[i] == Sibling(ids[s[i].id], s[i].order)
    decreases |s|
  {
    if s == [] then []
    else Renamed(s[..|s| - 1], ids) + [Sibling(ids[s[|s| - 1].id], s[|s| - 1].order)]
  }

  lemma {:induction false} InsertRenamed(t: seq<Sibling>, x: Sibling, ids: map<string, string>)
    requires x.id in ids && forall y :: y in t ==> y.id in ids
    ensures Insert(Renamed(t, ids), Sibling(ids[x.id], x.order)) == Renamed(Insert(t, x), ids)
    decreases |t|
  {
    if t == [] || t[|t| - 1].order <= x.order {
      assert (t + [x])[..|t|] == t;
    } else {
      var front, last := t[..|t| - 1], t[|t| - 1];
      InsertRenamed(front, x, ids);
      assert Renamed(t, ids)[..|t| - 1] == Renamed(front, ids);
      assert (Insert(front, x) + [last])[..|t|] == Insert(front, x);
    }
  }

  lemma {:induction false} SortRenamed(s: seq<Sibling>, ids: map<string, string>)
    requires forall x :: x in s ==> x.id in ids
    ensures StableSorted(Renamed(s, ids)) == Renamed(StableSorted(s), ids)
    decreases |s|
  {
    if s == [] {
    } else {
      var front := s[..|s| - 1];
      SortRenamed(front, ids);
      assert Renamed(s, ids)[..|s| - 1] == Renamed(front, ids);
      InsertRenamed(StableSorted(front), s[|s| - 1], ids);
    }
  }

  // The children of p are all copied, and nothing hung from the new id of p.
  ghost predicate CopiesChildren(nodes: seq<Node>, ids: map<string, string>, p: string) {
    p in ids && forall n :: n in nodes ==> n.parentId != ids[p] && (n.parentId == p ==> n.id in ids)
  }

  lemma {:induction false} ChildrenOfCopies(nodes: seq<Node>, ids: map<string, string>, p: string)
    requires CopiesChildren(nodes, ids, p)
    requires forall x, y :: x in ids && y in ids && ids[x] == ids[y] ==> x == y
    ensures forall x :: x in ChildrenOf(nodes, p) ==> x.id in ids
    ensures ChildrenOf(Copies(nodes, ids), ids[p]) == Renamed(ChildrenOf(nodes, p), ids)
    decreases |nodes|
  {
    if nodes == [] {
    } else {
      var front, last := nodes[..|nodes| - 1], nodes[|nodes| - 1];
      ChildrenOfCopies(front, ids, p);
      assert last in nodes;
      CopiedChild(last, ids, p);
      ChildrenOneMore(Copies(front, ids), CopyOfOne(last, ids), ids[p]);
      RenamedConcatenates(ChildrenOf(front, p), Child(last, p), ids);
    }
  }

  function CopyOfOne(n: Node, ids: map<string, string>): seq<Node> {
    if n.id in ids then [CopyOf(n, ids)] else []
  }

  lemma ChildrenOneMore(nodes: seq<Node>, more: seq<Node>, p: string)
    requires |more| <= 1
    ensures ChildrenOf(nodes + more, p) == ChildrenOf(nodes, p) + if more == [] then [] else Child(more[0], p)
  {
    if more == [] { assert nodes + more == nodes; } else { assert (nodes + more)[..|nodes|] == nodes; }
  }

  lemma CopiedChild(n: Node, ids: map<string, string>, p: string)
    requires p in ids && n.parentId != ids[p] && (n.parentId == p ==> n.id in ids)
    requires forall x, y :: x in ids && y in ids && ids[x] == ids[y] ==> x == y
    ensures forall x :: x in Child(n, p) ==> x.id in ids
    ensures (if CopyOfOne(n, ids) == [] then [] else Child(CopyOfOne(n, ids)[0], ids[p])) == Renamed(Child(n, p), ids)
  {
    if n.parentId == p { assert [Sibling(n.id, n.order)][..0] == []; }
  }

  lemma {:induction false} NoChildren(nodes: seq<Node>, p: string)
    requires forall n :: n in nodes ==> n.parentId != p
    ensures ChildrenOf(nodes, p) == []
    decreases |nodes|
  {
    if nodes == [] {
    } else {
      NoChildren(nodes[..|nodes| - 1], p);
    }
  }

  lemma {:induction false} RenamedConcatenates(a: seq<Sibling>, b: seq<Sibling>, ids: map<string, string>)
    requires forall x :: x in a || x in b ==> x.id in ids
    ensures Renamed(a + b, ids) == Renamed(a, ids) + Renamed(b, ids)
  {}

  lemma ChildrenOfCopy(c: Config, ids: map<string, string>, p: string)
    requires CopiesChildren(c.groups, ids, p) && CopiesChildren(c.devices, ids, p)
    requires forall x, y :: x in ids && y in ids && ids[x] == ids[y] ==> x == y
    ensures forall x :: x in ChildrenOf(Nodes(c), p) ==> x.id in ids
    ensures ChildrenOf(Nodes(Duplicated(c, ids)), ids[p]) == Renamed(ChildrenOf(Nodes(c), p), ids)
  {
    var q := ids[p];
    ListWithCopies(c.groups, ids, p);
    ListWithCopies(c.devices, ids, p);
    ChildrenConcatenate(Duplicated(c, ids).groups, Duplicated(c, ids).devices, q);
    ChildrenConcatenate(c.groups, c.devices, p);
    RenamedConcatenates(ChildrenOf(c.groups, p), ChildrenOf(c.devices, p), ids);
  }

  lemma ListWithCopies(nodes: seq<Node>, ids: map<string, string>, p: string)
    requires CopiesChildren(nodes, ids, p)
    requires forall x, y :: x in ids && y in ids && ids[x] == ids[y] ==> x == y
    ensures forall x :: x in ChildrenOf(nodes, p) ==> x.id in ids
    ensures ChildrenOf(nodes + Copies(nodes, ids), ids[p]) == Renamed(ChildrenOf(nodes, p), ids)
  {
    ChildrenOfCopies(nodes, ids, p);
    NoChildren(nodes, ids[p]);
    ChildrenConcatenate(nodes, Copies(nodes, ids), ids[p]);
  }

  // What a copied group shows is what its original shows, copy for child, in the
  // same order.
  lemma CopyShowsAlike(c: Config, root: string, ids: map<string, string>, p: string)
    requires CopiesSubtree(c, root, ids) && p in ids && p in GroupForest(c)
    ensures
      var was, now := Visible(c, p), Visible(Duplicated(c, ids), ids[p]);
      |now| == |was| && forall i :: 0 <= i < |was| ==> was[i] in ids && now[i] == ids[was[i]]
  {
    ChildrenAreCopied(c, root, ids, p);
    ChildrenOfCopy(c, ids, p);
    RenamedShow(ChildrenOf(Nodes(c), p), ids);
  }

  lemma RenamedShow(s: seq<Sibling>, ids: map<string, string>)
    requires forall x :: x in s ==> x.id in ids
    ensures
      var was, now := IdsInOrder(StableSorted(s)), IdsInOrder(StableSorted(Renamed(s, ids)));
      |now| == |was| && forall i :: 0 <= i < |was| ==> was[i] in ids && now[i] == ids[was[i]]
  {
    SortRenamed(s, ids);
    var sorted := StableSorted(s);
    forall i | 0 <= i < |sorted| ensures sorted[i].id in ids { assert sorted[i] in s; }
  }

  lemma ChildrenAreCopied(c: Config, root: string, ids: map<string, string>, p: string)
    requires CopiesSubtree(c, root, ids) && p in ids && p in GroupForest(c)
    ensures CopiesChildren(c.groups, ids, p) && CopiesChildren(c.devices, ids, p)
  {
    SoundGroups(c);
    forall n | n in c.groups || n in c.devices ensures n.parentId != ids[p] && (n.parentId == p ==> n.id in ids) {
      ChildIsCopied(c, root, ids, p, n);
    }
  }

  lemma ChildIsCopied(c: Config, root: string, ids: map<string, string>, p: string, n: Node)
    requires CopiesSubtree(c, root, ids) && p in ids && p in GroupForest(c)
    requires n in Nodes(c) && Find(Nodes(c), n.id) == Some(n)
    ensures n.parentId != ids[p] && (n.parentId == p ==> n.id in ids)
  {
    ParentInForest(Nodes(c), n.id);
    assert Unused(ParentsOf(Nodes(c)), ids[p]);
    if n.parentId == p { BelowACopied(c, root, p, n); }
  }

  lemma BelowACopied(c: Config, root: string, p: string, n: Node)
    requires Acyclic(GroupForest(c)) && p in Subtree(c, root) && p in GroupForest(c)
    requires n in Nodes(c) && Find(Nodes(c), n.id) == Some(n) && n.parentId == p
    ensures n.id in Subtree(c, root)
  {
    InGroups(c, p);
    WalkStep(GroupForest(c), p);
  }

  // ---- where copies stand ----

  lemma {:induction false} WorldTranslated(t: map<string, Matrix>, u: map<string, Matrix>, ids: map<string, string>,
                                           walk: seq<string>)
    requires forall i :: 0 <= i < |walk| ==>
               var y := if walk[i] in ids then ids[walk[i]] else walk[i];
               (y in u <==> walk[i] in t) && (y in u ==> u[y] == t[walk[i]])
    ensures World(u, Translated(ids, walk)) == World(t, walk)
  {
    if walk == [] {
    } else {
      assert Translated(ids, walk)[1..] == Translated(ids, walk[1..]);
      WorldTranslated(t, u, ids, walk[1..]);
    }
  }

  lemma {:induction false} WalkMeetsParents(f: Parents, p: string, y: string)
    requires Acyclic(f) && y in Walk(f, p)
    ensures y == p || exists z :: z in f && f[z] == y
    decreases Height(f, p)
  {
    WalkStep(f, p);
    if y == p {
    } else {
      WalkMeetsParents(f, f[p], y);
      assert p in f && (y == f[p] ==> f[p] == y);
    }
  }

  // The ids above a node are no copy's.
  lemma AboveIsNoCopy(c: Config, ids: map<string, string>, x: string, y: string)
    requires Sound(c) && Acyclic(GroupForest(c)) && Fresh(c, ids) && x in Ids(Nodes(c)) && y in Above(c, x)
    ensures y !in ids.Values
  {
    var p := ParentOf(Nodes(c), x);
    WalkMeetsParents(GroupForest(c), p, y);
    if y == p {
      IdsAreFound(Nodes(c), x);
      ParentInForest(Nodes(c), x);
    } else {
      var z :| z in GroupForest(c) && GroupForest(c)[z] == y;
      GroupIsNode(c, z);
    }
  }

  lemma CopyIsInForest(f: Parents, ids: map<string, string>, g: Parents, x: string)
    requires Copied(f, ids, g) && x in ids
    ensures ids[x] in g
  {
    assert ids[x] in ids.Values;
  }

  lemma CopyHangsFromCopies(c: Config, root: string, ids: map<string, string>, x: string)
    requires CopiesSubtree(c, root, ids) && x in ids
    ensures Acyclic(GroupForest(Duplicated(c, ids)))
    ensures Above(Duplicated(c, ids), ids[x]) == Translated(OfGroups(c, ids), Above(c, x))
  {
    if x in GroupForest(c) {
      var f, g := GroupForest(c), GroupForest(Duplicated(c, ids));
      CopyHangsAlike(c, root, ids, x);
      GroupsAreCopied(c, root, ids);
      CopyIsInForest(f, OfGroups(c, ids), g, x);
      InGroups(c, x);
      InGroups(Duplicated(c, ids), ids[x]);
      WalkStep(f, x);
      WalkStep(g, ids[x]);
      TranslatedStep(OfGroups(c, ids), x, Walk(f, f[x]));
      SameRest(ids[x], Walk(g, g[ids[x]]), Translated(OfGroups(c, ids), Walk(f, f[x])));
    } else {
      CopiedDeviceHangsAlike(c, root, ids, x);
    }
  }

  lemma SameRest(x: string, a: seq<string>, b: seq<string>)
    requires [x] + a == [x] + b
    ensures a == b
  {
    assert a == ([x] + a)[1..];
    assert b == ([x] + b)[1..];
  }

  lemma CopiedTransform(c: Config, ids: map<string, string>, y: string)
    requires Sound(c) && Fresh(c, ids) && y !in ids.Values
    ensures
      var t, u, idsOfGroups := TransformsOf(c.groups), TransformsOf(Duplicated(c, ids).groups), OfGroups(c, ids);
      var z := if y in idsOfGroups then idsOfGroups[y] else y;
      (z in u <==> y in t) && (z in u ==> u[z] == t[y])
  {
    var d := Duplicated(c, ids);
    SoundGroups(c);
    DuplicateIsUnique(c, ids);
    FirstPartIsUnique(d.groups, d.devices);
    IdsAreFound(c.groups, y);
    IdsAreFound(d.groups, y);
    if y in OfGroups(c, ids) {
      var n := Find(c.groups, y).value;
      CopyIsThere(c.groups, ids, n);
      FoundIsIt(d.groups, CopyOf(n, ids));
      IdsAreFound(d.groups, ids[y]);
    } else if Find(c.groups, y).Some? {
      FoundIsIt(d.groups, Find(c.groups, y).value);
    } else if Find(d.groups, y).Some? {
      var i := CopyOfWhich(c.groups, ids, Find(d.groups, y).value);
    }
  }

  // Every copy stands where its original stands, whatever carries the two.
  lemma CopyStandsAlike(c: Config, root: string, ids: map<string, string>, x: string)
    requires CopiesSubtree(c, root, ids) && x in ids
    ensures Acyclic(GroupForest(Duplicated(c, ids)))
    ensures WorldOf(Duplicated(c, ids), ids[x]) == WorldOf(c, x)
  {
    var d, walk := Duplicated(c, ids), Above(c, x);
    assert x in Ids(Nodes(c));
    IdsAreFound(Nodes(c), x);
    CopyHangsFromCopies(c, root, ids, x);
    CopyIsAlike(c, ids, x);
    forall i | 0 <= i < |walk|
      ensures
        var y := if walk[i] in OfGroups(c, ids) then OfGroups(c, ids)[walk[i]] else walk[i];
        && (y in TransformsOf(d.groups) <==> walk[i] in TransformsOf(c.groups))
        && (y in TransformsOf(d.groups) ==> TransformsOf(d.groups)[y] == TransformsOf(c.groups)[walk[i]])
    {
      AboveIsNoCopy(c, ids, x, walk[i]);
      CopiedTransform(c, ids, walk[i]);
    }
    WorldTranslated(TransformsOf(c.groups), TransformsOf(d.groups), OfGroups(c, ids), walk);
  }
}
