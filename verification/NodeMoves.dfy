// Moving a node of the device tree to a place among new siblings: what becomes
// of the parent graph, of every sibling order, and of the nodes themselves.
module NodeMoves {
  import opened Forests
  import opened Siblings
  import opened DeviceTree

  // ---- children in visual order ----

  function Child(n: Node, p: string): seq<Sibling> {
    if n.parentId == p then [Sibling(n.id, n.order)] else []
  }

  function ChildrenOf(nodes: seq<Node>, p: string): seq<Sibling>
    decreases |nodes|
  {
    if nodes == [] then [] else ChildrenOf(nodes[..|nodes| - 1], p) + Child(nodes[|nodes| - 1], p)
  }

  lemma {:induction false} ChildIsListed(nodes: seq<Node>, p: string, n: Node)
    requires n in nodes && n.parentId == p
    ensures Sibling(n.id, n.order) in ChildrenOf(nodes, p)
    decreases |nodes|
  {
    if n == nodes[|nodes| - 1] {
    } else {
      ChildIsListed(nodes[..|nodes| - 1], p, n);
    }
  }

  lemma {:induction false} ListedIsChild(nodes: seq<Node>, p: string, x: Sibling) returns (i: nat)
    requires x in ChildrenOf(nodes, p)
    ensures i < |nodes| && nodes[i].parentId == p && x == Sibling(nodes[i].id, nodes[i].order)
    decreases |nodes|
  {
    i := |nodes| - 1;
    if x in ChildrenOf(nodes[..|nodes| - 1], p) { i := ListedIsChild(nodes[..|nodes| - 1], p, x); }
  }

  lemma {:induction false} ChildrenConcatenate(a: seq<Node>, b: seq<Node>, p: string)
    ensures ChildrenOf(a + b, p) == ChildrenOf(a, p) + ChildrenOf(b, p)
    decreases |b|
  {
    if b == [] {
      assert a + b == a;
    } else {
      assert (a + b)[..|a + b| - 1] == a + b[..|b| - 1];
      ChildrenConcatenate(a, b[..|b| - 1], p);
    }
  }

  // The ids under a parent in the order they are shown.
  function Visible(c: Config, p: string): seq<string> {
    IdsInOrder(StableSorted(ChildrenOf(Nodes(c), p)))
  }

  lemma {:induction false} ChildrenAreDistinct(nodes: seq<Node>, p: string)
    requires UniqueIds(nodes)
    ensures DistinctIds(ChildrenOf(nodes, p))
    decreases |nodes|
  {
    if nodes == [] {
    } else {
      var front, last := nodes[..|nodes| - 1], nodes[|nodes| - 1];
      assert forall n :: n in front ==> n in nodes;
      ChildrenAreDistinct(front, p);
      forall x | x in ChildrenOf(front, p) ensures x.id != last.id { var i := ListedIsChild(front, p, x); }
    }
  }

  lemma VisibleIsDistinct(c: Config, p: string)
    requires UniqueIds(Nodes(c))
    ensures Distinct(Visible(c, p))
  {
    ChildrenAreDistinct(Nodes(c), p);
    SortKeepsDistinct(ChildrenOf(Nodes(c), p));
  }

  lemma VisibleMembers(c: Config, p: string, id: string)
    ensures id in Visible(c, p) <==> exists n :: n in Nodes(c) && n.id == id && n.parentId == p
  {
    var sorted := StableSorted(ChildrenOf(Nodes(c), p));
    if id in Visible(c, p) {
      var i :| 0 <= i < |sorted| && sorted[i].id == id;
      assert sorted[i] in ChildrenOf(Nodes(c), p);
      var k := ListedIsChild(Nodes(c), p, sorted[i]);
      assert Nodes(c)[k] in Nodes(c);
    }
    if n :| n in Nodes(c) && n.id == id && n.parentId == p {
      ChildIsListed(Nodes(c), p, n);
      assert Sibling(n.id, n.order) in sorted;
    }
  }

  // ---- the insertion ----

  function Place(ids: seq<string>, id: string): (k: nat)
    requires id in ids
    ensures k < |ids| && ids[k] == id && id !in ids[..k]
  {
    if ids[0] == id then 0
    else
      assert id in ids[1..];
      var k := Place(ids[1..], id) + 1;
      assert ids[..k] == [ids[0]] + ids[1..][..k - 1];
      k
  }

  function InsertBefore(ids: seq<string>, id: string, before: string): seq<string> {
    if before != "" && before in ids then ids[..Place(ids, before)] + [id] + ids[Place(ids, before)..]
    else ids + [id]
  }

  lemma PlaceIsIt(ids: seq<string>, k: nat)
    requires Distinct(ids) && k < |ids|
    ensures Place(ids, ids[k]) == k
  {}

  lemma InsertIsDistinct(ids: seq<string>, id: string, before: string)
    requires Distinct(ids) && id !in ids
    ensures Distinct(InsertBefore(ids, id, before))
  {}

  lemma InsertKeepsMembers(ids: seq<string>, id: string, before: string, x: string)
    ensures x in InsertBefore(ids, id, before) <==> x in ids || x == id
  {
    if before != "" && before in ids {
      var k := Place(ids, before);
      assert ids == ids[..k] + ids[k..];
    }
  }

  lemma InsertThenTakeOut(ids: seq<string>, id: string, before: string)
    requires id !in ids
    ensures Without(InsertBefore(ids, id, before), id) == ids
  {
    assert Without([id], id) == [];
    if before != "" && before in ids {
      var k := Place(ids, before);
      WithoutConcatenates(ids[..k] + [id], ids[k..], id);
      WithoutConcatenates(ids[..k], [id], id);
      assert ids == ids[..k] + ids[k..];
    } else {
      WithoutConcatenates(ids, [id], id);
    }
  }

  lemma {:induction false} WithoutKeepsDistinct(ids: seq<string>, id: string)
    requires Distinct(ids)
    ensures Distinct(Without(ids, id))
    decreases |ids|
  {
    if ids == [] {
    } else {
      WithoutKeepsDistinct(ids[..|ids| - 1], id);
      assert ids[|ids| - 1] !in ids[..|ids| - 1];
    }
  }

  // ---- the nodes after a move ----

  function WithParent(nodes: seq<Node>, id: string, parent: string): (r: seq<Node>)
    ensures |r| == |nodes|
  {
    seq(|nodes|, i requires 0 <= i < |nodes| =>
      if nodes[i].id == id then nodes[i].(parentId := parent) else nodes[i])
  }

  function WithOrders(nodes: seq<Node>, ordered: seq<string>): (r: seq<Node>)
    ensures |r| == |nodes|
  {
    seq(|nodes|, i requires 0 <= i < |nodes| =>
      if nodes[i].id in ordered then nodes[i].(order := Place(ordered, nodes[i].id)) else nodes[i])
  }

  function MovedNode(n: Node, id: string, parent: string, ordered: seq<string>): (m: Node)
    ensures m.id == n.id && m.parentId == if n.id == id then parent else n.parentId
    ensures Name(m) == Name(n)
  {
    var m := if n.id == id then n.(parentId := parent) else n;
    if n.id in ordered then m.(order := Place(ordered, n.id)) else m
  }

  function MovedNodes(nodes: seq<Node>, id: string, parent: string, ordered: seq<string>): (r: seq<Node>)
    ensures |r| == |nodes|
    ensures forall i :: 0 <= i < |nodes| ==> r[i] == MovedNode(nodes[i], id, parent, ordered)
  {
    seq(|nodes|, i requires 0 <= i < |nodes| => MovedNode(nodes[i], id, parent, ordered))
  }

  lemma MovedInTwoSteps(nodes: seq<Node>, id: string, parent: string, ordered: seq<string>)
    ensures WithOrders(WithParent(nodes, id, parent), ordered) == MovedNodes(nodes, id, parent, ordered)
  {}

  // The destination's siblings after the move.
  function Ordered(c: Config, id: string, parent: string, before: string): seq<string> {
    InsertBefore(Without(Visible(c, parent), id), id, before)
  }

  function Placed(c: Config, id: string, parent: string, before: string): (r: Config) {
    var ordered := Ordered(c, id, parent, before);
    c.(groups := MovedNodes(c.groups, id, parent, ordered), devices := MovedNodes(c.devices, id, parent, ordered))
  }

  lemma PlacedNodes(c: Config, id: string, parent: string, before: string)
    ensures Nodes(Placed(c, id, parent, before)) == MovedNodes(Nodes(c), id, parent, Ordered(c, id, parent, before))
  {}

  // A move is refused without effect: no id, a node onto itself, no such node,
  // or a destination inside the node's own subtree.
  ghost predicate Refused(c: Config, id: string, parent: string)
    requires Sound(c)
  {
    id == "" || id == parent || Find(Nodes(c), id).None? || Under(ParentsOf(Nodes(c)), parent, id)
  }

  lemma ParentsByNode(nodes: seq<Node>)
    requires UniqueIds(nodes)
    ensures ParentsOf(nodes).Keys == Ids(nodes)
    ensures forall n :: n in nodes ==> n.id in ParentsOf(nodes) && ParentsOf(nodes)[n.id] == n.parentId
  {
    forall n | n in nodes ensures n.id in ParentsOf(nodes) && ParentsOf(nodes)[n.id] == n.parentId {
      FoundIsIt(nodes, n);
    }
  }

  // Nodes changed one by one under their own ids.
  predicate SameIds(a: seq<Node>, b: seq<Node>) {
    |a| == |b| && forall i :: 0 <= i < |a| ==> a[i].id == b[i].id
  }

  lemma SameIdSets(a: seq<Node>, b: seq<Node>)
    requires SameIds(a, b)
    ensures Ids(a) == Ids(b)
  {
    forall n | n in b ensures n.id in Ids(a) {
      var i :| 0 <= i < |b| && b[i] == n;
      assert a[i] in a;
    }
    forall n | n in a ensures n.id in Ids(b) {
      var i :| 0 <= i < |a| && a[i] == n;
      assert b[i] in b;
    }
  }

  lemma SameIdsAreUnique(a: seq<Node>, b: seq<Node>)
    requires SameIds(a, b) && UniqueIds(a)
    ensures UniqueIds(b) && Ids(a) == Ids(b)
  {
    SameIdSets(a, b);
    forall n | n in b ensures n.id != "" {
      var i :| 0 <= i < |b| && b[i] == n;
      assert a[i] in a;
    }
  }

  predicate Reparented(nodes: seq<Node>, moved: seq<Node>, id: string, parent: string) {
    SameIds(nodes, moved)
    && forall i :: 0 <= i < |nodes| ==> moved[i].parentId == if nodes[i].id == id then parent else nodes[i].parentId
  }

  lemma ReparentedParent(nodes: seq<Node>, moved: seq<Node>, id: string, parent: string, x: string)
    requires UniqueIds(nodes) && UniqueIds(moved) && Reparented(nodes, moved, id, parent) && x in Ids(nodes)
    ensures ParentOf(moved, x) == if x == id then parent else ParentOf(nodes, x)
  {
    var i :| 0 <= i < |nodes| && nodes[i].id == x;
    FoundIsIt(nodes, nodes[i]);
    FoundIsIt(moved, moved[i]);
  }

  // Only the moved node's parent changes.
  lemma ReparentedParents(nodes: seq<Node>, moved: seq<Node>, id: string, parent: string)
    requires UniqueIds(nodes) && Reparented(nodes, moved, id, parent) && id in Ids(nodes)
    ensures UniqueIds(moved) && ParentsOf(moved) == ParentsOf(nodes)[id := parent]
  {
    SameIdsAreUnique(nodes, moved);
    forall x | x in Ids(nodes) ensures ParentsOf(moved)[x] == ParentsOf(nodes)[id := parent][x] {
      ReparentedParent(nodes, moved, id, parent, x);
    }
  }

  lemma MovedParents(nodes: seq<Node>, id: string, parent: string, ordered: seq<string>)
    requires UniqueIds(nodes) && id in Ids(nodes)
    ensures UniqueIds(MovedNodes(nodes, id, parent, ordered))
    ensures ParentsOf(MovedNodes(nodes, id, parent, ordered)) == ParentsOf(nodes)[id := parent]
  {
    ReparentedParents(nodes, MovedNodes(nodes, id, parent, ordered), id, parent);
  }

  // A move that is carried out keeps the tree sound, and of the moves that find
  // their node those refused are the ones that would have closed a cycle.
  lemma MoveKeepsSound(c: Config, id: string, parent: string, before: string)
    requires Sound(c) && Find(Nodes(c), id).Some?
    ensures Sound(Placed(c, id, parent, before)) <==> !Refused(c, id, parent)
  {
    var f := ParentsOf(Nodes(c));
    PlacedNodes(c, id, parent, before);
    MovedParents(Nodes(c), id, parent, Ordered(c, id, parent, before));
    assert id in Ids(Nodes(c));
    MoveKeepsAcyclic(f, id, parent);
  }

  // ---- what is shown after a move ----

  lemma OrderedIsDistinct(c: Config, id: string, parent: string, before: string)
    requires Sound(c)
    ensures Distinct(Ordered(c, id, parent, before))
    ensures forall x :: x in Ordered(c, id, parent, before) <==> x == id || x in Visible(c, parent)
    ensures Without(Ordered(c, id, parent, before), id) == Without(Visible(c, parent), id)
  {
    VisibleIsDistinct(c, parent);
    WithoutKeepsDistinct(Visible(c, parent), id);
    var rest := Without(Visible(c, parent), id);
    InsertIsDistinct(rest, id, before);
    InsertThenTakeOut(rest, id, before);
    forall x ensures x in Ordered(c, id, parent, before) <==> x == id || x in Visible(c, parent) {
      InsertKeepsMembers(rest, id, before, x);
    }
  }

  // The children of p, but for one node, are no siblings of the destination.
  predicate LeftAlone(nodes: seq<Node>, id: string, ordered: seq<string>, p: string) {
    forall i :: 0 <= i < |nodes| && nodes[i].parentId == p && nodes[i].id != id ==> nodes[i].id !in ordered
  }

  lemma {:induction false} ChildrenLeftBehind(nodes: seq<Node>, id: string, parent: string, ordered: seq<string>,
                                              p: string)
    requires p != parent && LeftAlone(nodes, id, ordered, p)
    ensures ChildrenOf(MovedNodes(nodes, id, parent, ordered), p) == Drop(ChildrenOf(nodes, p), id)
    decreases |nodes|
  {
    if nodes == [] {
    } else {
      var front, last := nodes[..|nodes| - 1], nodes[|nodes| - 1];
      var moved := MovedNodes(nodes, id, parent, ordered);
      assert moved[..|nodes| - 1] == MovedNodes(front, id, parent, ordered);
      ChildrenLeftBehind(front, id, parent, ordered, p);
      calc {
        ChildrenOf(moved, p);
        ChildrenOf(MovedNodes(front, id, parent, ordered), p) + Child(MovedNode(last, id, parent, ordered), p);
        { ChildLeftBehind(last, id, parent, ordered, p); }
        Drop(ChildrenOf(front, p), id) + Drop(Child(last, p), id);
        { DropConcatenates(ChildrenOf(front, p), Child(last, p), id); }
        Drop(ChildrenOf(nodes, p), id);
      }
    }
  }

  lemma ChildLeftBehind(n: Node, id: string, parent: string, ordered: seq<string>, p: string)
    requires p != parent && (n.parentId == p && n.id != id ==> n.id !in ordered)
    ensures Child(MovedNode(n, id, parent, ordered), p) == Drop(Child(n, p), id)
  {}

  lemma OthersAreLeftAlone(c: Config, id: string, parent: string, ordered: seq<string>, p: string)
    requires UniqueIds(Nodes(c)) && p != parent && forall x :: x in ordered <==> x == id || x in Visible(c, parent)
    ensures LeftAlone(Nodes(c), id, ordered, p)
  {
    var nodes := Nodes(c);
    forall i | 0 <= i < |nodes| && nodes[i].parentId == p && nodes[i].id != id ensures nodes[i].id !in ordered {
      VisibleMembers(c, parent, nodes[i].id);
    }
  }

  // Any other parent shows what it showed, less the moved node.
  lemma MoveLeavesOthers(c: Config, id: string, parent: string, before: string, p: string)
    requires Sound(c) && p != parent
    ensures Visible(Placed(c, id, parent, before), p) == Without(Visible(c, p), id)
  {
    var ordered := Ordered(c, id, parent, before);
    PlacedNodes(c, id, parent, before);
    OrderedIsDistinct(c, id, parent, before);
    OthersAreLeftAlone(c, id, parent, ordered, p);
    ChildrenLeftBehind(Nodes(c), id, parent, ordered, p);
    DropCommutesWithSort(ChildrenOf(Nodes(c), p), id);
    IdsOfDrop(StableSorted(ChildrenOf(Nodes(c), p)), id);
  }

  lemma MovedChildIsNumbered(c: Config, id: string, parent: string, ordered: seq<string>, x: Sibling)
    requires UniqueIds(Nodes(c)) && Distinct(ordered)
    requires forall y :: y in ordered <==> y == id || y in Visible(c, parent)
    requires x in ChildrenOf(MovedNodes(Nodes(c), id, parent, ordered), parent)
    ensures 0 <= x.order < |ordered| && ordered[x.order] == x.id
  {
    var nodes := Nodes(c);
    var i := ListedIsChild(MovedNodes(nodes, id, parent, ordered), parent, x);
    var n := nodes[i];
    assert n.id == x.id && (n.id == id || n.parentId == parent);
    VisibleMembers(c, parent, n.id);
    assert n.id in ordered;
  }

  lemma NumberIsMovedChild(c: Config, id: string, parent: string, ordered: seq<string>, k: nat)
    requires UniqueIds(Nodes(c)) && Distinct(ordered) && id in Ids(Nodes(c)) && k < |ordered|
    requires forall y :: y in ordered <==> y == id || y in Visible(c, parent)
    ensures Sibling(ordered[k], k) in ChildrenOf(MovedNodes(Nodes(c), id, parent, ordered), parent)
  {
    var nodes, moved := Nodes(c), MovedNodes(Nodes(c), id, parent, ordered);
    assert ordered[k] in ordered;
    VisibleMembers(c, parent, ordered[k]);
    var i :| 0 <= i < |nodes| && nodes[i].id == ordered[k] && (nodes[i].id == id || nodes[i].parentId == parent);
    PlaceIsIt(ordered, k);
    ChildIsListed(moved, parent, moved[i]);
  }

  lemma MovedAreNumbered(c: Config, id: string, parent: string, before: string)
    requires Sound(c) && Find(Nodes(c), id).Some?
    ensures NumberedBy(ChildrenOf(Nodes(Placed(c, id, parent, before)), parent), Ordered(c, id, parent, before))
  {
    var nodes, ordered := Nodes(c), Ordered(c, id, parent, before);
    var moved := MovedNodes(nodes, id, parent, ordered);
    PlacedNodes(c, id, parent, before);
    MovedParents(nodes, id, parent, ordered);
    ChildrenAreDistinct(moved, parent);
    OrderedIsDistinct(c, id, parent, before);
    forall x | x in ChildrenOf(moved, parent) ensures 0 <= x.order < |ordered| && ordered[x.order] == x.id {
      MovedChildIsNumbered(c, id, parent, ordered, x);
    }
    forall k | 0 <= k < |ordered| ensures Sibling(ordered[k], k) in ChildrenOf(moved, parent) {
      NumberIsMovedChild(c, id, parent, ordered, k);
    }
  }

  // The destination shows its old sequence with the node taken out and put back
  // before the one named, or last; every other sibling, group or device, keeps
  // its place.
  lemma MoveShowsInserted(c: Config, id: string, parent: string, before: string)
    requires Sound(c) && Find(Nodes(c), id).Some?
    ensures Visible(Placed(c, id, parent, before), parent)
         == InsertBefore(Without(Visible(c, parent), id), id, before)
    ensures forall n :: n in Nodes(Placed(c, id, parent, before)) && n.parentId == parent ==>
              0 <= n.order < |Ordered(c, id, parent, before)| && Ordered(c, id, parent, before)[n.order] == n.id
  {
    MovedAreNumbered(c, id, parent, before);
    var moved := Nodes(Placed(c, id, parent, before));
    NumberedSortsAsListed(ChildrenOf(moved, parent), Ordered(c, id, parent, before));
    forall n | n in moved && n.parentId == parent
      ensures 0 <= n.order < |Ordered(c, id, parent, before)| && Ordered(c, id, parent, before)[n.order] == n.id
    {
      ChildIsListed(moved, parent, n);
    }
  }
}
