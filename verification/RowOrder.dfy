// The order of the device list's rows: a group stands before all that is shown
// below it, and siblings stand, with all that is shown below them, in the order
// their parent shows them.
module RowOrder {
  import opened Forests
  import opened DeviceTree
  import opened NodeMoves
  import opened NodeCopies
  import opened TreeRows

  // x and y are shown through two children of one parent, the first shown first.
  ghost predicate ThroughSiblings(c: Config, p: string, i: int, j: int, x: string, y: string)
    requires Acyclic(GroupForest(c))
  {
    0 <= i < j < |Visible(c, p)| && ShownThrough(c, x, Visible(c, p)[i]) && ShownThrough(c, y, Visible(c, p)[j])
  }

  ghost predicate Precedes(c: Config, x: string, y: string)
    requires Acyclic(GroupForest(c))
  {
    (IsOpen(c, x) && ShownBelow(c, y, x)) || exists p, i, j :: ThroughSiblings(c, p, i, j, x, y)
  }

  predicate OrderedBy(rows: seq<Row>, r: (string, string) -> bool) {
    forall i, j :: 0 <= i < j < |rows| ==> r(rows[i].id, rows[j].id)
  }

  lemma OrderedTogether(rows: seq<Row>, row: Row, under: seq<Row>, r: (string, string) -> bool)
    requires OrderedBy(rows, r) && OrderedBy(under, r)
    requires forall x, y :: x in rows && (y == row || y in under) ==> r(x.id, y.id)
    requires forall y :: y in under ==> r(row.id, y.id)
    ensures OrderedBy(rows + [row] + under, r)
  {}

  ghost predicate OrderedRows(c: Config, rows: seq<Row>)
    requires Acyclic(GroupForest(c))
  {
    OrderedBy(rows, (x, y) => Precedes(c, x, y))
  }

  lemma {:induction false} RowsInOrder(c: Config, p: string, ids: seq<string>, depth: nat)
    requires Sound(c) && Acyclic(GroupForest(c)) && ChildrenOnly(c, p, ids) && ids <= Visible(c, p)
    ensures OrderedRows(c, RowsOf(c, p, ids, depth))
    decreases Below(c, p), |ids|
  {
    if ids == [] {
    } else {
      var front, last := ids[..|ids| - 1], ids[|ids| - 1];
      RowsInOrder(c, p, front, depth);
      UnderInOrder(c, p, last, depth);
      RowsStayInOrder(c, p, ids, depth);
    }
  }

  lemma RowsStayInOrder(c: Config, p: string, ids: seq<string>, depth: nat)
    requires Sound(c) && Acyclic(GroupForest(c)) && ChildrenOnly(c, p, ids) && ids != [] && ids <= Visible(c, p)
    requires OrderedRows(c, RowsOf(c, p, ids[..|ids| - 1], depth))
    requires OrderedRows(c, RowsUnder(c, p, ids[|ids| - 1], depth))
    ensures OrderedRows(c, RowsOf(c, p, ids, depth))
  {
    var front, last := ids[..|ids| - 1], ids[|ids| - 1];
    var before, under := RowsOf(c, p, front, depth), RowsUnder(c, p, last, depth);
    forall r, s | r in before && (s == Row(last, depth) || s in under) ensures Precedes(c, r.id, s.id) {
      EarlierSibling(c, p, ids, depth, r, s);
    }
    forall s | s in under ensures Precedes(c, last, s.id) { RowUnderIsShown(c, p, last, depth, s); }
    OrderedTogether(before, Row(last, depth), under, (x, y) => Precedes(c, x, y));
  }

  lemma {:induction false} UnderInOrder(c: Config, p: string, id: string, depth: nat)
    requires Sound(c) && Acyclic(GroupForest(c)) && id in Ids(Nodes(c)) && ParentOf(Nodes(c), id) == p
    ensures OrderedRows(c, RowsUnder(c, p, id, depth))
    decreases Below(c, p), 0
  {
    if IsOpen(c, id) {
      OpenIsChild(c, p, id);
      LessBelowAChild(c, p, id);
      VisibleAreChildren(c, id);
      RowsInOrder(c, id, Visible(c, id), depth + 1);
    }
  }

  lemma ShownThroughEarlier(c: Config, p: string, ids: seq<string>, depth: nat, r: Row) returns (k: nat)
    requires Sound(c) && Acyclic(GroupForest(c)) && ChildrenOnly(c, p, ids) && ids != []
    requires r in RowsOf(c, p, ids[..|ids| - 1], depth)
    ensures k < |ids| - 1 && ShownThrough(c, r.id, ids[k])
  {
    var through := RowIsShown(c, p, ids[..|ids| - 1], depth, r);
    k :| 0 <= k < |ids| - 1 && ids[k] == through;
  }

  lemma ShownThroughLast(c: Config, p: string, last: string, depth: nat, s: Row)
    requires Sound(c) && Acyclic(GroupForest(c)) && last in Ids(Nodes(c)) && ParentOf(Nodes(c), last) == p
    requires s == Row(last, depth) || s in RowsUnder(c, p, last, depth)
    ensures ShownThrough(c, s.id, last)
  {
    if s in RowsUnder(c, p, last, depth) { RowUnderIsShown(c, p, last, depth, s); }
  }

  lemma EarlierSibling(c: Config, p: string, ids: seq<string>, depth: nat, r: Row, s: Row)
    requires Sound(c) && Acyclic(GroupForest(c)) && ChildrenOnly(c, p, ids) && ids != [] && ids <= Visible(c, p)
    requires r in RowsOf(c, p, ids[..|ids| - 1], depth)
    requires s == Row(ids[|ids| - 1], depth) || s in RowsUnder(c, p, ids[|ids| - 1], depth)
    ensures Precedes(c, r.id, s.id)
  {
    var k := ShownThroughEarlier(c, p, ids, depth, r);
    ShownThroughLast(c, p, ids[|ids| - 1], depth, s);
    SiblingsInTurn(c, p, ids, k, r.id, s.id);
  }

  lemma SiblingsInTurn(c: Config, p: string, ids: seq<string>, k: nat, x: string, y: string)
    requires Acyclic(GroupForest(c)) && ids <= Visible(c, p) && k < |ids| - 1
    requires ShownThrough(c, x, ids[k]) && ShownThrough(c, y, ids[|ids| - 1])
    ensures Precedes(c, x, y)
  {
    assert ThroughSiblings(c, p, k, |ids| - 1, x, y);
  }

  // ---- one of two rows comes first, not each ----

  // Of two nodes above a third, one is above the other.
  lemma {:induction false} WaysMeet(c: Config, q: string, a: string, b: string)
    requires Acyclic(GroupForest(c)) && OpenTo(c, q, a) && OpenTo(c, q, b)
    ensures OpenTo(c, a, b) || OpenTo(c, b, a)
    decreases Height(GroupForest(c), q)
  {
    if q == a || q == b {
    } else {
      WaysMeet(c, GroupForest(c)[q], a, b);
    }
  }

  lemma {:induction false} OpenOn(c: Config, q: string, a: string, b: string)
    requires Acyclic(GroupForest(c)) && OpenTo(c, q, a) && OpenTo(c, a, b)
    ensures OpenTo(c, q, b)
    decreases Height(GroupForest(c), q)
  {
    if q == a {
    } else {
      OpenOn(c, GroupForest(c)[q], a, b);
    }
  }

  lemma ThroughMeets(c: Config, x: string, a: string, b: string)
    requires Sound(c) && Acyclic(GroupForest(c)) && ShownThrough(c, x, a) && ShownThrough(c, x, b)
    ensures ShownThrough(c, a, b) || ShownThrough(c, b, a)
  {
    if x != a && x != b {
      WaysMeet(c, ParentOf(Nodes(c), x), a, b);
      if OpenTo(c, a, b) { OpenIsThrough(c, a, b); } else { OpenIsThrough(c, b, a); }
    }
  }

  lemma OpenIsThrough(c: Config, a: string, b: string)
    requires Acyclic(GroupForest(c)) && OpenTo(c, a, b) && IsOpen(c, b)
    ensures ShownThrough(c, a, b)
  {
    if a != b { InGroups(c, a); }
  }

  lemma ThroughOn(c: Config, x: string, a: string, b: string)
    requires Acyclic(GroupForest(c)) && ShownThrough(c, x, a) && ShownThrough(c, a, b)
    ensures ShownThrough(c, x, b)
  {
    if x != a && a != b {
      OpenIsChild(c, ParentOf(Nodes(c), a), a);
      OpenOn(c, ParentOf(Nodes(c), x), a, b);
    }
  }

  // Siblings are shown through the same nodes, but for themselves.
  lemma SiblingIsThrough(c: Config, a: string, b: string, z: string)
    requires Acyclic(GroupForest(c)) && b in Ids(Nodes(c)) && ParentOf(Nodes(c), b) == ParentOf(Nodes(c), a)
    requires ShownThrough(c, a, z) && a != z
    ensures ShownThrough(c, b, z)
  {}

  // No node is shown through two siblings.
  lemma OnlyOneSibling(c: Config, p: string, i: int, j: int, y: string)
    requires Sound(c) && Acyclic(GroupForest(c)) && 0 <= i < |Visible(c, p)| && 0 <= j < |Visible(c, p)|
    requires ShownThrough(c, y, Visible(c, p)[i]) && ShownThrough(c, y, Visible(c, p)[j])
    ensures i == j
  {
    var a, b := Visible(c, p)[i], Visible(c, p)[j];
    VisibleAreChildren(c, p);
    VisibleIsDistinct(c, p);
    if a != b { SiblingsShareNothing(c, p, a, b, y); }
  }

  lemma BelowExcludesSiblings(c: Config, p: string, i: int, j: int, x: string, y: string)
    requires Sound(c) && Acyclic(GroupForest(c)) && ThroughSiblings(c, p, i, j, x, y)
    ensures !ShownThrough(c, y, x) && !ShownThrough(c, x, y)
  {
    var a, b := Visible(c, p)[i], Visible(c, p)[j];
    if ShownThrough(c, y, x) {
      ThroughOn(c, y, x, a);
      OnlyOneSibling(c, p, i, j, y);
    } else if ShownThrough(c, x, y) {
      ThroughOn(c, x, y, b);
      OnlyOneSibling(c, p, i, j, x);
    }
  }

  lemma SiblingsGoOneWay(c: Config, p: string, i: int, j: int, q: string, k: int, l: int, x: string, y: string)
    requires Sound(c) && Acyclic(GroupForest(c))
    requires ThroughSiblings(c, p, i, j, x, y)
    ensures !ThroughSiblings(c, q, k, l, y, x)
  {
    if ThroughSiblings(c, q, k, l, y, x) {
      var a, b := Visible(c, p)[i], Visible(c, q)[l];
      AreSiblings(c, p, i, j);
      AreSiblings(c, q, k, l);
      ThroughMeets(c, x, a, b);
      if a == b {
        OnlyOneSibling(c, p, i, l, x);
        OnlyOneSibling(c, p, j, k, y);
      } else if ShownThrough(c, a, b) {
        ThroughASibling(c, a, Visible(c, p)[j], b, y);
        OnlyOneSibling(c, q, k, l, y);
      } else {
        ThroughASibling(c, b, Visible(c, q)[k], a, y);
        OnlyOneSibling(c, p, i, j, y);
      }
    }
  }

  lemma AreSiblings(c: Config, p: string, i: int, j: int)
    requires Sound(c) && 0 <= i < |Visible(c, p)| && 0 <= j < |Visible(c, p)|
    ensures Visible(c, p)[j] in Ids(Nodes(c)) && ParentOf(Nodes(c), Visible(c, p)[j]) == p
    ensures Visible(c, p)[i] in Ids(Nodes(c)) && ParentOf(Nodes(c), Visible(c, p)[i]) == p
  {
    VisibleAreChildren(c, p);
  }

  lemma ThroughASibling(c: Config, a: string, b: string, z: string, y: string)
    requires Acyclic(GroupForest(c)) && b in Ids(Nodes(c)) && ParentOf(Nodes(c), b) == ParentOf(Nodes(c), a)
    requires ShownThrough(c, a, z) && a != z && ShownThrough(c, y, b)
    ensures ShownThrough(c, y, z)
  {
    SiblingIsThrough(c, a, b, z);
    ThroughOn(c, y, b, z);
  }

  lemma NotBelowEachOther(c: Config, x: string, y: string)
    requires Acyclic(GroupForest(c)) && IsOpen(c, x) && ShownBelow(c, y, x)
    ensures !(IsOpen(c, y) && ShownBelow(c, x, y))
  {
    if IsOpen(c, y) && ShownBelow(c, x, y) {
      var f := GroupForest(c);
      OpenIsChild(c, ParentOf(Nodes(c), x), x);
      OpenIsChild(c, ParentOf(Nodes(c), y), y);
      OpenLowers(c, ParentOf(Nodes(c), y), x);
      OpenLowers(c, ParentOf(Nodes(c), x), y);
      WalkStep(f, x);
      WalkStep(f, y);
    }
  }

  lemma PrecedesOneWay(c: Config, x: string, y: string)
    requires Sound(c) && Acyclic(GroupForest(c)) && Precedes(c, x, y)
    ensures !Precedes(c, y, x)
  {
    if IsOpen(c, x) && ShownBelow(c, y, x) {
      NotBelowEachOther(c, x, y);
      if p, i, j :| ThroughSiblings(c, p, i, j, y, x) { BelowExcludesSiblings(c, p, i, j, y, x); }
    } else {
      var p, i, j :| ThroughSiblings(c, p, i, j, x, y);
      BelowExcludesSiblings(c, p, i, j, x, y);
      if q, k, l :| ThroughSiblings(c, q, k, l, y, x) { SiblingsGoOneWay(c, p, i, j, q, k, l, x, y); }
    }
  }

  // One row stands before another exactly when its node is an open group above
  // the other's, or the first to be shown of the two siblings they hang below.
  lemma RowsAreInOrder(c: Config, i: nat, j: nat)
    requires Sound(c) && Acyclic(GroupForest(c)) && i < |Rows(c, "", 0)| && j < |Rows(c, "", 0)| && i != j
    ensures i < j <==> Precedes(c, Rows(c, "", 0)[i].id, Rows(c, "", 0)[j].id)
  {
    VisibleAreChildren(c, "");
    RowsInOrder(c, "", Visible(c, ""), 0);
    var x, y := Rows(c, "", 0)[i].id, Rows(c, "", 0)[j].id;
    if j < i { PrecedesOneWay(c, y, x); }
  }

  // ---- which nodes have rows, by the steps above them ----

  predicate OpenAt(c: Config, a: string) {
    a == "" || (Find(c.groups, a).Some? && !Find(c.groups, a).value.collapsed)
  }

  ghost predicate OpenAtEveryStep(c: Config, q: string) {
    forall k: nat :: OpenAt(c, Up(GroupForest(c), q, k))
  }

  lemma OpenFromParent(c: Config, q: string)
    requires q in GroupForest(c)
    ensures OpenAtEveryStep(c, q) <==> OpenAt(c, q) && OpenAtEveryStep(c, GroupForest(c)[q])
  {
    var f := GroupForest(c);
    if OpenAtEveryStep(c, q) {
      assert OpenAt(c, Up(f, q, 0));
      forall k: nat ensures OpenAt(c, Up(f, f[q], k)) {
        UpFromParent(f, q, k);
        assert OpenAt(c, Up(f, q, k + 1));
      }
    }
    if OpenAt(c, q) && OpenAtEveryStep(c, f[q]) {
      forall k: nat ensures OpenAt(c, Up(f, q, k)) {
        if k > 0 {
          UpFromParent(f, q, k - 1);
          assert OpenAt(c, Up(f, f[q], k - 1));
        }
      }
    }
  }

  lemma OpenFromNone(c: Config, q: string)
    requires Acyclic(GroupForest(c)) && q !in GroupForest(c)
    ensures OpenAtEveryStep(c, q) <==> q == ""
  {
    var f := GroupForest(c);
    ParentInForest(c.groups, q);
    if q == "" {
      forall k: nat ensures OpenAt(c, Up(f, q, k)) { if k > 0 { NothingAbove(f, q, k); } }
    } else {
      assert !OpenAt(c, Up(f, q, 0));
    }
  }

  // The way up is open exactly when every step up is a group that is not
  // collapsed, until there is none.
  lemma {:induction false} OpenIffAtEveryStep(c: Config, q: string)
    requires Acyclic(GroupForest(c))
    ensures OpenTo(c, q, "") <==> OpenAtEveryStep(c, q)
    decreases Height(GroupForest(c), q)
  {
    WalkStep(GroupForest(c), q);
    if q !in GroupForest(c) {
      OpenFromNone(c, q);
    } else {
      ParentInForest(c.groups, q);
      OpenIffAtEveryStep(c, GroupForest(c)[q]);
      OpenFromParent(c, q);
    }
  }

  // And it is as long as it takes to come to the root level.
  lemma {:induction false} StepsLeadToTheRoot(c: Config, q: string)
    requires Acyclic(GroupForest(c)) && OpenTo(c, q, "")
    ensures Up(GroupForest(c), q, Steps(c, q, "")) == ""
    ensures forall j: nat :: j < Steps(c, q, "") ==> Up(GroupForest(c), q, j) != ""
    decreases Height(GroupForest(c), q)
  {
    var f := GroupForest(c);
    WalkStep(f, q);
    if q == "" {
    } else {
      var rest := Steps(c, f[q], "");
      StepsLeadToTheRoot(c, f[q]);
      UpFromParent(f, q, rest);
      forall j: nat | j < rest + 1 ensures Up(f, q, j) != "" {
        if j > 0 { UpFromParent(f, q, j - 1); }
      }
    }
  }

  // A node has a row exactly when every step above it is a group that is not
  // collapsed, and the row is as deep as there are such groups.
  lemma HasRowIffOpenAbove(c: Config, x: string)
    requires Sound(c) && Find(Nodes(c), x).Some?
    ensures Acyclic(GroupForest(c))
    ensures
      var f, p := GroupForest(c), Find(Nodes(c), x).value.parentId;
      && ((exists r :: r in Rows(c, "", 0) && r.id == x) <==> OpenAtEveryStep(c, p))
      && forall r :: r in Rows(c, "", 0) && r.id == x ==>
           Up(f, p, r.depth) == "" && forall j: nat :: j < r.depth ==> Up(f, p, j) != ""
  {
    RowsAreTheNodesShown(c);
    var f, p := GroupForest(c), Find(Nodes(c), x).value.parentId;
    OpenIffAtEveryStep(c, p);
    IdIsListed(Nodes(c), x);
    assert ShownBelow(c, x, "") <==> OpenAtEveryStep(c, p);
    if OpenTo(c, p, "") { StepsLeadToTheRoot(c, p); }
  }

  lemma IdIsListed(nodes: seq<Node>, x: string)
    requires Find(nodes, x).Some?
    ensures x in Ids(nodes) && ParentOf(nodes, x) == Find(nodes, x).value.parentId
  {}
}
