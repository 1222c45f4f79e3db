// Whether a node that has been moved still has a row in the device list: a move
// onto a device, an unknown node or below a collapsed group is carried out, and
// takes the node out of sight.
module MovedRows {
  import opened Common
  import opened Forests
  import opened DeviceTree
  import opened NodeMoves
  import opened GroupDeletion
  import opened NodePaths
  import opened TreeRows
  import opened WorkspaceModel

  // A walk among groups alone is part of the walk among all nodes.
  lemma {:induction false} UnderInPart(f: Parents, part: Parents, p: string, id: string)
    requires Acyclic(f) && Acyclic(part) && part.Keys <= f.Keys && forall x :: x in part ==> part[x] == f[x]
    requires Under(part, p, id)
    ensures Under(f, p, id)
    decreases Height(part, p)
  {
    if p == id {
    } else {
      UnderInPart(f, part, part[p], id);
    }
  }

  lemma GroupsArePart(c: Config)
    requires Sound(c)
    ensures GroupForest(c).Keys <= ParentsOf(Nodes(c)).Keys
    ensures forall x :: x in GroupForest(c) ==> GroupForest(c)[x] == ParentsOf(Nodes(c))[x]
  {
    forall x | x in GroupForest(c) ensures x in ParentsOf(Nodes(c)) && GroupForest(c)[x] == ParentsOf(Nodes(c))[x] {
      OfItsGroup(c, x);
      IdsAreFound(c.groups, x);
      FindInBoth(c.groups, c.devices, x);
    }
  }

  ghost predicate OpensAlike(c: Config, d: Config) {
    forall x :: IsOpen(d, x) == IsOpen(c, x)
  }

  lemma PlacedOpensAlike(c: Config, id: string, parent: string, before: string)
    ensures OpensAlike(c, Placed(c, id, parent, before))
  {
    var d := Placed(c, id, parent, before);
    forall x ensures IsOpen(d, x) == IsOpen(c, x) { var i := FindTogether(c.groups, d.groups, x); }
  }

  ghost predicate SameWaysBut(g: Parents, h: Parents, id: string) {
    forall x :: x != id ==> (x in g <==> x in h) && (x in g ==> g[x] == h[x])
  }

  lemma UpdateKeepsWays(g: Parents, h: Parents, id: string, parent: string)
    requires h == if id in g then g[id := parent] else g
    ensures SameWaysBut(g, h, id)
  {}

  // A way up that does not lead through the node moved stays as it was.
  lemma {:induction false} OpenWayStays(c: Config, d: Config, id: string, q: string)
    requires Acyclic(GroupForest(c)) && Acyclic(GroupForest(d)) && SameWaysBut(GroupForest(c), GroupForest(d), id)
    requires OpensAlike(c, d) && !Under(GroupForest(c), q, id)
    ensures OpenTo(d, q, "") <==> OpenTo(c, q, "")
    decreases Height(GroupForest(c), q)
  {
    if q == "" {
    } else {
      assert q != id && (q in GroupForest(d) <==> q in GroupForest(c));
      if q in GroupForest(c) { OpenWayStays(c, d, id, GroupForest(c)[q]); }
    }
  }

  lemma NotBelowAmongGroups(c: Config, id: string, parent: string)
    requires Sound(c) && !Refused(c, id, parent) && Acyclic(GroupForest(c))
    ensures !Under(GroupForest(c), parent, id)
  {
    GroupsArePart(c);
    if Under(GroupForest(c), parent, id) { UnderInPart(ParentsOf(Nodes(c)), GroupForest(c), parent, id); }
  }

  ghost predicate HasRow(c: Config, id: string)
    requires Sound(c) && Acyclic(GroupForest(c))
  {
    exists r :: r in Rows(c, "", 0) && r.id == id
  }

  lemma HasRowIff(c: Config, id: string)
    requires Sound(c) && Acyclic(GroupForest(c)) && Find(Nodes(c), id).Some?
    ensures HasRow(c, id) <==> OpenTo(c, ParentOf(Nodes(c), id), "")
  {
    RowsAreTheNodesShown(c);
    IdsAreFound(Nodes(c), id);
    assert ShownBelow(c, id, "") <==> HasRow(c, id);
  }

  lemma RowOfMoved(c: Config, d: Config, id: string, parent: string)
    requires Rehomed(c, d, id) && OpensAlike(c, d) && ParentOf(Nodes(d), id) == parent
    requires !Under(GroupForest(c), parent, id)
    ensures HasRow(d, id) <==> OpenTo(c, parent, "")
  {
    UpdateKeepsWays(GroupForest(c), GroupForest(d), id, parent);
    OpenWayStays(c, d, id, parent);
    HasRowIff(d, id);
  }

  // After a move carried out the node has a row exactly when the way up from
  // its destination was open; onto a device or an unknown node it never is.
  lemma MovedHasRowIff(c: Config, id: string, parent: string, before: string)
    requires Sound(c) && !Refused(c, id, parent) && Acyclic(GroupForest(c))
    ensures
      var d := Placed(c, id, parent, before);
      Sound(d) && Acyclic(GroupForest(d)) && (HasRow(d, id) <==> OpenTo(c, parent, ""))
    ensures parent != "" && parent !in GroupForest(c) ==> !OpenTo(c, parent, "")
  {
    MoveRehomes(c, id, parent, before);
    PlacedParent(c, id, parent, before);
    PlacedOpensAlike(c, id, parent, before);
    NotBelowAmongGroups(c, id, parent);
    RowOfMoved(c, Placed(c, id, parent, before), id, parent);
  }
}
