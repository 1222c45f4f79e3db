// The rows of the device list: the tree walked from the root level down through
// the groups that are not collapsed.
module TreeRows {
  import opened Forests
  import opened Siblings
  import opened DeviceTree
  import opened NodeMoves
  import opened NodeCopies

  datatype Row = Row(id: string, depth: nat)

  function IsOpen(c: Config, id: string): bool {
    Find(c.groups, id).Some? && !Find(c.groups, id).value.collapsed
  }

  // ---- what a walk down from a parent can meet ----

  ghost function Below(c: Config, p: string): set<string>
    requires Acyclic(GroupForest(c))
  {
    set x | x in Ids(Nodes(c)) && (p == "" || Under(GroupForest(c), ParentOf(Nodes(c), x), p))
  }

  lemma LessBelowAChild(c: Config, p: string, child: string)
    requires Acyclic(GroupForest(c)) && child in GroupForest(c) && GroupForest(c)[child] == p
    ensures Below(c, child) < Below(c, p)
  {
    var g := GroupForest(c);
    InGroups(c, child);
    forall x | x in Below(c, child) ensures x in Below(c, p) {
      if p != "" { UnderIsTransitive(g, ParentOf(Nodes(c), x), child, p); }
    }
    if child in Below(c, child) { WalkIsLower(g, p, child); }
    assert child in Below(c, p) by { assert p != "" ==> Walk(g, p)[0] == p; }
  }

  // ---- the rows ----

  // The rows under some ids in turn: each id, and if it is an open group all
  // the rows under it.
  ghost function RowsOf(c: Config, p: string, ids: seq<string>, depth: nat): seq<Row>
    requires Sound(c) && Acyclic(GroupForest(c))
    requires forall id :: id in ids ==> id in Ids(Nodes(c)) && ParentOf(Nodes(c), id) == p
    decreases Below(c, p), |ids|
  {
    if ids == [] then []
    else
      var front, last := ids[..|ids| - 1], ids[|ids| - 1];
      RowsOf(c, p, front, depth) + [Row(last, depth)] + RowsUnder(c, p, last, depth)
  }

  ghost function RowsUnder(c: Config, p: string, id: string, depth: nat): seq<Row>
    requires Sound(c) && Acyclic(GroupForest(c)) && id in Ids(Nodes(c)) && ParentOf(Nodes(c), id) == p
    decreases Below(c, p), 0
  {
    if IsOpen(c, id) then
      OpenIsChild(c, p, id);
      LessBelowAChild(c, p, id);
      Rows(c, id, depth + 1)
    else []
  }

  ghost function Rows(c: Config, p: string, depth: nat): seq<Row>
    requires Sound(c) && Acyclic(GroupForest(c))
    decreases Below(c, p), |Visible(c, p)| + 1
  {
    VisibleAreChildren(c, p);
    RowsOf(c, p, Visible(c, p), depth)
  }

  lemma OpenIsChild(c: Config, p: string, id: string)
    requires IsOpen(c, id) && ParentOf(Nodes(c), id) == p
    ensures id in GroupForest(c) && GroupForest(c)[id] == p
  {
    FindInBoth(c.groups, c.devices, id);
  }

  lemma VisibleAreChildren(c: Config, p: string)
    requires Sound(c)
    ensures forall id :: id in Visible(c, p) ==> id in Ids(Nodes(c)) && ParentOf(Nodes(c), id) == p
  {
    forall id | id in Visible(c, p) ensures id in Ids(Nodes(c)) && ParentOf(Nodes(c), id) == p {
      VisibleMembers(c, p, id);
      var n :| n in Nodes(c) && n.id == id && n.parentId == p;
      FoundIsIt(Nodes(c), n);
    }
  }

  // ---- which nodes are shown ----

  // Whether the way up from q to p leads through open groups only.
  ghost predicate OpenTo(c: Config, q: string, p: string)
    requires Acyclic(GroupForest(c))
    decreases Height(GroupForest(c), q)
  {
    q == p || (q in GroupForest(c) && IsOpen(c, q) && OpenTo(c, GroupForest(c)[q], p))
  }

  ghost function Steps(c: Config, q: string, p: string): nat
    requires Acyclic(GroupForest(c)) && OpenTo(c, q, p)
    decreases Height(GroupForest(c), q)
  {
    if q == p then 0 else 1 + Steps(c, GroupForest(c)[q], p)
  }

  lemma {:induction false} OpenThroughChild(c: Config, q: string, p: string) returns (child: string)
    requires Acyclic(GroupForest(c)) && OpenTo(c, q, p) && q != p
    ensures child in GroupForest(c) && GroupForest(c)[child] == p && IsOpen(c, child) && OpenTo(c, q, child)
    ensures Steps(c, q, p) == Steps(c, q, child) + 1
    decreases Height(GroupForest(c), q)
  {
    if GroupForest(c)[q] == p { return q; }
    child := OpenThroughChild(c, GroupForest(c)[q], p);
    OpenLowers(c, GroupForest(c)[q], child);
  }

  lemma {:induction false} OpenLowers(c: Config, q: string, p: string)
    requires Acyclic(GroupForest(c)) && OpenTo(c, q, p)
    ensures Height(GroupForest(c), p) <= Height(GroupForest(c), q)
    decreases Height(GroupForest(c), q)
  {
    if q == p {
    } else {
      OpenLowers(c, GroupForest(c)[q], p);
    }
  }

  lemma {:induction false} OpenFurther(c: Config, q: string, child: string)
    requires Acyclic(GroupForest(c)) && child in GroupForest(c) && IsOpen(c, child) && OpenTo(c, q, child)
    ensures OpenTo(c, q, GroupForest(c)[child])
    ensures q != GroupForest(c)[child]
    ensures Steps(c, q, GroupForest(c)[child]) == Steps(c, q, child) + 1
    decreases Height(GroupForest(c), q)
  {
    OpenLowers(c, q, child);
    if q == child {
    } else {
      OpenFurther(c, GroupForest(c)[q], child);
    }
  }

  // Only one child of a parent lies on the way up to it.
  lemma {:induction false} OneChildOnTheWay(c: Config, q: string, a: string, b: string)
    requires Acyclic(GroupForest(c)) && a in GroupForest(c) && b in GroupForest(c)
    requires GroupForest(c)[a] == GroupForest(c)[b] && OpenTo(c, q, a) && OpenTo(c, q, b)
    ensures a == b
    decreases Height(GroupForest(c), q)
  {
    if q != a && q != b {
      OneChildOnTheWay(c, GroupForest(c)[q], a, b);
    } else if a != b {
      if q == a { OpenLowers(c, GroupForest(c)[a], b); } else { OpenLowers(c, GroupForest(c)[b], a); }
    }
  }

  // A node is shown below p where the way up from its parent to p is open.
  ghost predicate ShownBelow(c: Config, x: string, p: string)
    requires Acyclic(GroupForest(c))
  {
    x in Ids(Nodes(c)) && OpenTo(c, ParentOf(Nodes(c), x), p)
  }

  // Shown below p through one of some children of p.
  ghost predicate ShownThrough(c: Config, x: string, id: string)
    requires Acyclic(GroupForest(c))
  {
    x == id || (IsOpen(c, id) && ShownBelow(c, x, id))
  }

  lemma ShownThroughOne(c: Config, p: string, x: string)
    requires Sound(c) && Acyclic(GroupForest(c))
    ensures ShownBelow(c, x, p) <==> exists id :: id in Visible(c, p) && ShownThrough(c, x, id)
  {
    var q := ParentOf(Nodes(c), x);
    VisibleAreChildren(c, p);
    if ShownBelow(c, x, p) {
      var id := x;
      if q != p {
        id := OpenThroughChild(c, q, p);
        InGroups(c, id);
      }
      var n :| n in Nodes(c) && n.id == id;
      FoundIsIt(Nodes(c), n);
      VisibleMembers(c, p, id);
      assert ShownThrough(c, x, id);
    }
    if id :| id in Visible(c, p) && ShownThrough(c, x, id) {
      if x != id {
        OpenIsChild(c, p, id);
        OpenFurther(c, q, id);
      }
    }
  }

  lemma DepthThroughOne(c: Config, p: string, x: string, id: string)
    requires Sound(c) && Acyclic(GroupForest(c)) && id in Ids(Nodes(c)) && ParentOf(Nodes(c), id) == p
    requires IsOpen(c, id) && ShownBelow(c, x, id)
    ensures ShownBelow(c, x, p) && Steps(c, ParentOf(Nodes(c), x), p) == Steps(c, ParentOf(Nodes(c), x), id) + 1
  {
    OpenIsChild(c, p, id);
    OpenFurther(c, ParentOf(Nodes(c), x), id);
  }

  // ---- the rows are the nodes shown ----

  ghost predicate ChildrenOnly(c: Config, p: string, ids: seq<string>) {
    forall id :: id in ids ==> id in Ids(Nodes(c)) && ParentOf(Nodes(c), id) == p
  }

  // A row is a node shown, through one of the ids, at its own depth.
  lemma {:induction false} RowIsShown(c: Config, p: string, ids: seq<string>, depth: nat, r: Row) returns (id: string)
    requires Sound(c) && Acyclic(GroupForest(c)) && ChildrenOnly(c, p, ids) && r in RowsOf(c, p, ids, depth)
    ensures id in ids && ShownThrough(c, r.id, id) && ShownBelow(c, r.id, p)
    ensures r.depth == depth + Steps(c, ParentOf(Nodes(c), r.id), p)
    decreases Below(c, p), |ids|
  {
    var front, last := ids[..|ids| - 1], ids[|ids| - 1];
    if r in RowsOf(c, p, front, depth) {
      id := RowIsShown(c, p, front, depth, r);
    } else {
      id := last;
      if r != Row(last, depth) { RowUnderIsShown(c, p, last, depth, r); }
    }
  }

  lemma {:induction false} RowUnderIsShown(c: Config, p: string, id: string, depth: nat, r: Row)
    requires Sound(c) && Acyclic(GroupForest(c)) && id in Ids(Nodes(c)) && ParentOf(Nodes(c), id) == p
    requires r in RowsUnder(c, p, id, depth)
    ensures IsOpen(c, id) && ShownBelow(c, r.id, id) && ShownBelow(c, r.id, p)
    ensures r.depth == depth + Steps(c, ParentOf(Nodes(c), r.id), p)
    decreases Below(c, p), 0
  {
    OpenIsChild(c, p, id);
    LessBelowAChild(c, p, id);
    VisibleAreChildren(c, id);
    var through := RowIsShown(c, id, Visible(c, id), depth + 1, r);
    DepthThroughOne(c, p, r.id, id);
  }

  // A node shown through one of the ids has a row.
  lemma {:induction false} ShownIsListed(c: Config, p: string, ids: seq<string>, depth: nat, x: string, id: string)
    returns (r: Row)
    requires Sound(c) && Acyclic(GroupForest(c)) && ChildrenOnly(c, p, ids) && id in ids && ShownThrough(c, x, id)
    ensures r in RowsOf(c, p, ids, depth) && r.id == x
    decreases Below(c, p), |ids|
  {
    var front, last := ids[..|ids| - 1], ids[|ids| - 1];
    if id != last {
      r := ShownIsListed(c, p, front, depth, x, id);
    } else if x == last {
      r := Row(last, depth);
    } else {
      r := ShownUnderIsListed(c, p, last, depth, x);
    }
  }

  lemma {:induction false} ShownUnderIsListed(c: Config, p: string, id: string, depth: nat, x: string) returns (r: Row)
    requires Sound(c) && Acyclic(GroupForest(c)) && id in Ids(Nodes(c)) && ParentOf(Nodes(c), id) == p
    requires IsOpen(c, id) && ShownBelow(c, x, id)
    ensures r in RowsUnder(c, p, id, depth) && r.id == x
    decreases Below(c, p), 0
  {
    OpenIsChild(c, p, id);
    LessBelowAChild(c, p, id);
    VisibleAreChildren(c, id);
    ShownThroughOne(c, id, x);
    var next :| next in Visible(c, id) && ShownThrough(c, x, next);
    r := ShownIsListed(c, id, Visible(c, id), depth + 1, x, next);
  }

  predicate DistinctRows(rows: seq<Row>) {
    forall i, j :: 0 <= i < j < |rows| ==> rows[i].id != rows[j].id
  }

  lemma SiblingIsNotBelow(c: Config, p: string, a: string, b: string)
    requires Sound(c) && Acyclic(GroupForest(c)) && a in Ids(Nodes(c)) && b in Ids(Nodes(c))
    requires ParentOf(Nodes(c), a) == p && ParentOf(Nodes(c), b) == p && IsOpen(c, b)
    ensures !ShownBelow(c, a, b)
  {
    OpenIsChild(c, p, b);
    if OpenTo(c, p, b) { OpenLowers(c, p, b); }
  }

  // Two siblings show no node in common.
  lemma SiblingsShareNothing(c: Config, p: string, a: string, b: string, x: string)
    requires Sound(c) && Acyclic(GroupForest(c)) && a in Ids(Nodes(c)) && b in Ids(Nodes(c)) && a != b
    requires ParentOf(Nodes(c), a) == p && ParentOf(Nodes(c), b) == p
    ensures !(ShownThrough(c, x, a) && ShownThrough(c, x, b))
  {
    if IsOpen(c, a) {
      SiblingIsNotBelow(c, p, b, a);
      OpenIsChild(c, p, a);
    }
    if IsOpen(c, b) {
      SiblingIsNotBelow(c, p, a, b);
      OpenIsChild(c, p, b);
    }
    if IsOpen(c, a) && IsOpen(c, b) && ShownBelow(c, x, a) && ShownBelow(c, x, b) {
      OneChildOnTheWay(c, ParentOf(Nodes(c), x), a, b);
    }
  }

  // No node has two rows.
  lemma {:induction false} RowsAreDistinct(c: Config, p: string, ids: seq<string>, depth: nat)
    requires Sound(c) && Acyclic(GroupForest(c)) && ChildrenOnly(c, p, ids) && Distinct(ids)
    ensures DistinctRows(RowsOf(c, p, ids, depth))
    decreases Below(c, p), |ids|
  {
    if ids == [] {
    } else {
      var front, last := ids[..|ids| - 1], ids[|ids| - 1];
      RowsAreDistinct(c, p, front, depth);
      RowsUnderAreDistinct(c, p, last, depth);
      assert last !in front;
      RowsStayDistinct(c, p, front, last, depth);
    }
  }

  lemma RowsStayDistinct(c: Config, p: string, front: seq<string>, last: string, depth: nat)
    requires Sound(c) && Acyclic(GroupForest(c)) && ChildrenOnly(c, p, front) && last !in front
    requires last in Ids(Nodes(c)) && ParentOf(Nodes(c), last) == p
    requires DistinctRows(RowsOf(c, p, front, depth)) && DistinctRows(RowsUnder(c, p, last, depth))
    ensures DistinctRows(RowsOf(c, p, front, depth) + [Row(last, depth)] + RowsUnder(c, p, last, depth))
  {
    var rows, under := RowsOf(c, p, front, depth), RowsUnder(c, p, last, depth);
    forall r | r in under ensures r.id != last { RowUnderIsBelow(c, p, last, depth, r); }
    forall r, s | r in rows && (s == Row(last, depth) || s in under) ensures r.id != s.id {
      RowsApart(c, p, front, last, depth, r, s);
    }
    DistinctTogether(rows, Row(last, depth), under);
  }

  lemma DistinctTogether(rows: seq<Row>, row: Row, under: seq<Row>)
    requires DistinctRows(rows) && DistinctRows(under) && forall r :: r in under ==> r.id != row.id
    requires forall r, s :: r in rows && (s == row || s in under) ==> r.id != s.id
    ensures DistinctRows(rows + [row] + under)
  {}

  lemma RowUnderIsBelow(c: Config, p: string, id: string, depth: nat, r: Row)
    requires Sound(c) && Acyclic(GroupForest(c)) && id in Ids(Nodes(c)) && ParentOf(Nodes(c), id) == p
    requires r in RowsUnder(c, p, id, depth)
    ensures r.id != id
  {
    RowUnderIsShown(c, p, id, depth, r);
    SiblingIsNotBelow(c, p, id, id);
  }

  lemma RowsApart(c: Config, p: string, ids: seq<string>, id: string, depth: nat, r: Row, s: Row)
    requires Sound(c) && Acyclic(GroupForest(c)) && ChildrenOnly(c, p, ids) && id !in ids
    requires id in Ids(Nodes(c)) && ParentOf(Nodes(c), id) == p
    requires r in RowsOf(c, p, ids, depth) && (s == Row(id, depth) || s in RowsUnder(c, p, id, depth))
    ensures r.id != s.id
  {
    var through := RowIsShown(c, p, ids, depth, r);
    if s in RowsUnder(c, p, id, depth) { RowUnderIsShown(c, p, id, depth, s); }
    SiblingsShareNothing(c, p, through, id, r.id);
  }

  lemma {:induction false} RowsUnderAreDistinct(c: Config, p: string, id: string, depth: nat)
    requires Sound(c) && Acyclic(GroupForest(c)) && id in Ids(Nodes(c)) && ParentOf(Nodes(c), id) == p
    ensures DistinctRows(RowsUnder(c, p, id, depth))
    decreases Below(c, p), 0
  {
    if IsOpen(c, id) {
      OpenIsChild(c, p, id);
      LessBelowAChild(c, p, id);
      VisibleAreChildren(c, id);
      VisibleIsDistinct(c, id);
      RowsAreDistinct(c, id, Visible(c, id), depth + 1);
    }
  }

  // The device list shows every node whose way up to the root level is open,
  // once and at the depth that way is long, and no other: what hangs from a
  // device, from a missing group or below a collapsed one is not there.
  lemma RowsAreTheNodesShown(c: Config)
    requires Sound(c)
    ensures Acyclic(GroupForest(c))
    ensures forall x :: ShownBelow(c, x, "") <==> exists r :: r in Rows(c, "", 0) && r.id == x
    ensures forall r :: r in Rows(c, "", 0) ==>
              ShownBelow(c, r.id, "") && r.depth == Steps(c, ParentOf(Nodes(c), r.id), "")
    ensures DistinctRows(Rows(c, "", 0))
  {
    GroupsAreAcyclic(c);
    RowsAreShown(c);
    ShownHaveRows(c);
    VisibleAreChildren(c, "");
    VisibleIsDistinct(c, "");
    RowsAreDistinct(c, "", Visible(c, ""), 0);
  }

  lemma RowsAreShown(c: Config)
    requires Sound(c) && Acyclic(GroupForest(c))
    ensures forall r :: r in Rows(c, "", 0) ==>
              ShownBelow(c, r.id, "") && r.depth == Steps(c, ParentOf(Nodes(c), r.id), "")
  {
    VisibleAreChildren(c, "");
    forall r | r in Rows(c, "", 0)
      ensures ShownBelow(c, r.id, "") && r.depth == Steps(c, ParentOf(Nodes(c), r.id), "")
    {
      var id := RowIsShown(c, "", Visible(c, ""), 0, r);
    }
  }

  lemma ShownHaveRows(c: Config)
    requires Sound(c) && Acyclic(GroupForest(c))
    ensures forall x :: ShownBelow(c, x, "") ==> exists r :: r in Rows(c, "", 0) && r.id == x
  {
    VisibleAreChildren(c, "");
    forall x | ShownBelow(c, x, "") ensures exists r :: r in Rows(c, "", 0) && r.id == x {
      ShownThroughOne(c, "", x);
      var id :| id in Visible(c, "") && ShownThrough(c, x, id);
      var r := ShownIsListed(c, "", Visible(c, ""), 0, x, id);
    }
  }

  // ---- the walk ----

  lemma ChildrenOneMore(nodes: seq<Node>, i: nat, p: string)
    requires i < |nodes|
    ensures ChildrenOf(nodes[..i + 1], p) == ChildrenOf(nodes[..i], p) + Child(nodes[i], p)
  {
    assert nodes[..i + 1][..i] == nodes[..i];
  }

  method GatherEntries(c: Config, p: string) returns (entries: seq<Sibling>)
    ensures entries == ChildrenOf(Nodes(c), p)
  {
    var nodes := c.groups + c.devices;
    entries := [];
    for i := 0 to |nodes|
      invariant entries == ChildrenOf(nodes[..i], p)
    {
      ChildrenOneMore(nodes, i, p);
      if nodes[i].parentId == p { entries := entries + [Sibling(nodes[i].id, nodes[i].order)]; }
    }
    assert nodes[..|nodes|] == nodes;
  }

  lemma RowsOneMore(c: Config, p: string, ids: seq<string>, i: nat, depth: nat)
    requires Sound(c) && Acyclic(GroupForest(c)) && ChildrenOnly(c, p, ids) && i < |ids|
    ensures ids[i] in Ids(Nodes(c)) && ParentOf(Nodes(c), ids[i]) == p
    ensures RowsOf(c, p, ids[..i + 1], depth)
         == RowsOf(c, p, ids[..i], depth) + [Row(ids[i], depth)] + RowsUnder(c, p, ids[i], depth)
  {
    assert ids[..i + 1][..i] == ids[..i];
  }

  method DeviceTreeRows(c: Config, p: string, depth: nat) returns (rows: seq<Row>)
    requires Sound(c) && Acyclic(GroupForest(c))
    ensures rows == Rows(c, p, depth)
    decreases Below(c, p)
  {
    var entries := GatherEntries(c, p);
    var ids := IdsInOrder(StableSorted(entries));
    VisibleAreChildren(c, p);
    rows := [];
    for i := 0 to |ids|
      invariant rows == RowsOf(c, p, ids[..i], depth)
    {
      RowsOneMore(c, p, ids, i, depth);
      rows := rows + [Row(ids[i], depth)];
      if IsOpen(c, ids[i]) {
        OpenIsChild(c, p, ids[i]);
        LessBelowAChild(c, p, ids[i]);
        var below := DeviceTreeRows(c, ids[i], depth + 1);
        rows := rows + below;
      }
    }
    assert ids[..|ids|] == ids;
  }
}
