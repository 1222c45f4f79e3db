// The visual order of sibling nodes: a stable sort by order, what a stable sort
// is, and how it takes to leaving one sibling out and to renumbering.
module Siblings {
  import opened Forests

  datatype Sibling = Sibling(id: string, order: int)

  function IdsInOrder(s: seq<Sibling>): (r: seq<string>)
    ensures |r| == |s| && forall i :: 0 <= i < |s| ==> r[i] == s[i].id
  {
    seq(|s|, i requires 0 <= i < |s| => s[i].id)
  }

  predicate DistinctIds(s: seq<Sibling>) {
    forall i, j :: 0 <= i < j < |s| ==> s[i].id != s[j].id
  }

  // ---- the stable sort ----

  // After everything of its own order or less.
  function Insert(t: seq<Sibling>, x: Sibling): (r: seq<Sibling>)
    ensures |r| == |t| + 1 && forall y :: y in r <==> y in t || y == x
    decreases |t|
  {
    if t == [] || t[|t| - 1].order <= x.order then t + [x]
    else
      assert t == t[..|t| - 1] + [t[|t| - 1]];
      Insert(t[..|t| - 1], x) + [t[|t| - 1]]
  }

  function StableSorted(s: seq<Sibling>): (r: seq<Sibling>)
    ensures |r| == |s| && forall y :: y in r <==> y in s
    decreases |s|
  {
    if s == [] then []
    else
      assert s == s[..|s| - 1] + [s[|s| - 1]];
      Insert(StableSorted(s[..|s| - 1]), s[|s| - 1])
  }

  predicate InOrder(t: seq<Sibling>) {
    forall i, j :: 0 <= i < j < |t| ==> t[i].order <= t[j].order
  }

  // The siblings of one order, as they come.
  function Lane(s: seq<Sibling>, k: int): (r: seq<Sibling>)
    ensures forall y :: y in r <==> y in s && y.order == k
    decreases |s|
  {
    if s == [] then []
    else
      assert s == s[..|s| - 1] + [s[|s| - 1]];
      Lane(s[..|s| - 1], k) + (if s[|s| - 1].order == k then [s[|s| - 1]] else [])
  }

  ghost predicate SameLanes(t: seq<Sibling>, s: seq<Sibling>) {
    forall k :: Lane(t, k) == Lane(s, k)
  }

  // Sorted, and the siblings of each order in the order they came.
  ghost predicate IsStableSortOf(t: seq<Sibling>, s: seq<Sibling>) {
    InOrder(t) && SameLanes(t, s)
  }

  // What x adds to a lane.
  function Alone(x: Sibling, k: int): seq<Sibling> {
    if x.order == k then [x] else []
  }

  lemma LaneOfOneMore(s: seq<Sibling>, x: Sibling, k: int)
    ensures Lane(s + [x], k) == Lane(s, k) + Alone(x, k)
  {
    assert (s + [x])[..|s + [x]| - 1] == s;
  }

  lemma LaneIsEmpty(s: seq<Sibling>, k: int)
    requires forall y :: y in s ==> y.order != k
    ensures Lane(s, k) == []
  {
    if Lane(s, k) != [] { assert Lane(s, k)[0] in Lane(s, k); }
  }

  lemma AloneSwaps(l: seq<Sibling>, x: Sibling, y: Sibling, k: int)
    requires x.order != y.order
    ensures l + Alone(x, k) + Alone(y, k) == l + Alone(y, k) + Alone(x, k)
  {
    assert l + [] == l;
  }

  lemma {:induction false} InsertLane(t: seq<Sibling>, x: Sibling, k: int)
    ensures Lane(Insert(t, x), k) == Lane(t, k) + Alone(x, k)
    decreases |t|
  {
    if t == [] || t[|t| - 1].order <= x.order {
      LaneOfOneMore(t, x, k);
    } else {
      var front, last := t[..|t| - 1], t[|t| - 1];
      calc {
        Lane(Insert(t, x), k);
        { assert Insert(t, x) == Insert(front, x) + [last]; LaneOfOneMore(Insert(front, x), last, k); }
        Lane(Insert(front, x), k) + Alone(last, k);
        { InsertLane(front, x, k); }
        Lane(front, k) + Alone(x, k) + Alone(last, k);
        { AloneSwaps(Lane(front, k), x, last, k); }
        Lane(front, k) + Alone(last, k) + Alone(x, k);
        { assert t == front + [last]; LaneOfOneMore(front, last, k); }
        Lane(t, k) + Alone(x, k);
      }
    }
  }

  lemma {:induction false} InsertKeepsOrder(t: seq<Sibling>, x: Sibling)
    requires InOrder(t)
    ensures InOrder(Insert(t, x))
    decreases |t|
  {
    if t != [] && x.order < t[|t| - 1].order {
      InsertKeepsOrder(t[..|t| - 1], x);
      forall y | y in Insert(t[..|t| - 1], x) ensures y.order <= t[|t| - 1].order {}
    }
  }

  lemma {:induction false} SortLane(s: seq<Sibling>, k: int)
    ensures Lane(StableSorted(s), k) == Lane(s, k)
    decreases |s|
  {
    if s == [] {
    } else {
      SortLane(s[..|s| - 1], k);
      InsertLane(StableSorted(s[..|s| - 1]), s[|s| - 1], k);
    }
  }

  lemma {:induction false} SortIsStable(s: seq<Sibling>)
    ensures IsStableSortOf(StableSorted(s), s)
    decreases |s|
  {
    if s == [] {
    } else {
      SortIsStable(s[..|s| - 1]);
      InsertKeepsOrder(StableSorted(s[..|s| - 1]), s[|s| - 1]);
    }
    forall k ensures Lane(StableSorted(s), k) == Lane(s, k) { SortLane(s, k); }
  }

  lemma LaneEndsWith(t: seq<Sibling>, x: Sibling)
    requires t != [] && t[|t| - 1] == x
    ensures Lane(t, x.order) == Lane(t[..|t| - 1], x.order) + [x]
  {}

  lemma LastOrderIsNoLess(t: seq<Sibling>, u: seq<Sibling>)
    requires InOrder(t) && SameLanes(t, u) && u != []
    ensures t != [] && u[|u| - 1].order <= t[|t| - 1].order
  {
    var y := u[|u| - 1];
    assert y in Lane(u, y.order);
    assert y in Lane(t, y.order);
    assert y in t;
  }

  lemma EndsAlike(a: seq<Sibling>, x: Sibling, b: seq<Sibling>, y: Sibling)
    requires a + [x] == b + [y]
    ensures x == y
  {
    assert (a + [x])[|a + [x]| - 1] == x;
    assert (b + [y])[|b + [y]| - 1] == y;
  }

  lemma SameLastOfSameLanes(t: seq<Sibling>, u: seq<Sibling>)
    requires InOrder(t) && InOrder(u) && SameLanes(t, u) && t != []
    ensures u != [] && t[|t| - 1] == u[|u| - 1]
  {
    assert SameLanes(u, t);
    LastOrderIsNoLess(u, t);
    LastOrderIsNoLess(t, u);
    var x, y := t[|t| - 1], u[|u| - 1];
    LaneEndsWith(t, x);
    LaneEndsWith(u, y);
    assert Lane(t, x.order) == Lane(u, x.order);
    EndsAlike(Lane(t[..|t| - 1], x.order), x, Lane(u[..|u| - 1], x.order), y);
  }

  lemma FrontsShareLane(t: seq<Sibling>, u: seq<Sibling>, x: Sibling, k: int)
    requires Lane(t + [x], k) == Lane(u + [x], k)
    ensures Lane(t, k) == Lane(u, k)
  {
    LaneOfOneMore(t, x, k);
    LaneOfOneMore(u, x, k);
    assert Lane(t, k) == Lane(t + [x], k)[..|Lane(t, k)|];
    assert Lane(u, k) == Lane(u + [x], k)[..|Lane(u, k)|];
  }

  // Only one sequence is a stable sort of another.
  lemma {:induction false} SameLanesSameOrder(t: seq<Sibling>, u: seq<Sibling>)
    requires InOrder(t) && InOrder(u) && SameLanes(t, u)
    ensures t == u
    decreases |t|
  {
    if t == [] {
      assert SameLanes(u, t);
      if u != [] { SameLastOfSameLanes(u, t); }
    } else {
      SameLastOfSameLanes(t, u);
      var front, gront, x := t[..|t| - 1], u[..|u| - 1], t[|t| - 1];
      assert t == front + [x] && u == gront + [x];
      forall k ensures Lane(front, k) == Lane(gront, k) {
        assert Lane(t, k) == Lane(u, k);
        FrontsShareLane(front, gront, x, k);
      }
      SameLanesSameOrder(front, gront);
    }
  }

  lemma StableSortIsUnique(t: seq<Sibling>, s: seq<Sibling>)
    ensures IsStableSortOf(t, s) <==> t == StableSorted(s)
  {
    SortIsStable(s);
    if IsStableSortOf(t, s) {
      assert SameLanes(t, s) && SameLanes(StableSorted(s), s);
      forall k ensures Lane(t, k) == Lane(StableSorted(s), k) { assert Lane(t, k) == Lane(s, k); }
      SameLanesSameOrder(t, StableSorted(s));
    }
  }

  lemma {:induction false} SortKeepsDistinct(s: seq<Sibling>)
    requires DistinctIds(s)
    ensures DistinctIds(StableSorted(s))
    decreases |s|
  {
    if s == [] {
    } else {
      SortKeepsDistinct(s[..|s| - 1]);
      InsertKeepsDistinct(StableSorted(s[..|s| - 1]), s[|s| - 1]);
    }
  }

  lemma {:induction false} InsertKeepsDistinct(t: seq<Sibling>, x: Sibling)
    requires DistinctIds(t) && forall y :: y in t ==> y.id != x.id
    ensures DistinctIds(Insert(t, x))
    decreases |t|
  {
    if t != [] && x.order < t[|t| - 1].order {
      InsertKeepsDistinct(t[..|t| - 1], x);
      forall y | y in Insert(t[..|t| - 1], x) ensures y.id != t[|t| - 1].id {}
    }
  }

  // ---- leaving one sibling out ----

  function Drop(s: seq<Sibling>, id: string): (r: seq<Sibling>)
    ensures forall y :: y in r <==> y in s && y.id != id
    decreases |s|
  {
    if s == [] then []
    else
      assert s == s[..|s| - 1] + [s[|s| - 1]];
      Drop(s[..|s| - 1], id) + (if s[|s| - 1].id == id then [] else [s[|s| - 1]])
  }

  lemma DropOfOneMore(s: seq<Sibling>, x: Sibling, id: string)
    ensures Drop(s + [x], id) == if x.id == id then Drop(s, id) else Drop(s, id) + [x]
  {
    assert (s + [x])[..|s + [x]| - 1] == s;
  }

  lemma LaneOfNoneMore(s: seq<Sibling>, x: Sibling, k: int)
    requires x.order != k
    ensures Lane(s + [x], k) == Lane(s, k)
  {
    LaneOfOneMore(s, x, k);
  }

  // Leaving one out of a lane, when one more sibling comes.
  lemma DropFromLaneStep(s: seq<Sibling>, x: Sibling, id: string, k: int)
    requires Lane(Drop(s, id), k) == Drop(Lane(s, k), id)
    ensures Lane(Drop(s + [x], id), k) == Drop(Lane(s + [x], k), id)
  {
    DropOfOneMore(s, x, id);
    if x.order == k {
      LaneOfOneMore(s, x, k);
      DropOfOneMore(Lane(s, k), x, id);
      if x.id != id { LaneOfOneMore(Drop(s, id), x, k); }
    } else {
      LaneOfNoneMore(s, x, k);
      LaneOfNoneMore(Drop(s, id), x, k);
    }
  }

  lemma {:induction false} DropFromLane(s: seq<Sibling>, id: string, k: int)
    ensures Lane(Drop(s, id), k) == Drop(Lane(s, k), id)
    decreases |s|
  {
    if s == [] {
    } else {
      var front, x := s[..|s| - 1], s[|s| - 1];
      assert s == front + [x];
      DropFromLane(front, id, k);
      DropFromLaneStep(front, x, id, k);
    }
  }

  lemma {:induction false} DropKeepsOrder(t: seq<Sibling>, id: string)
    requires InOrder(t)
    ensures InOrder(Drop(t, id))
    decreases |t|
  {
    if t == [] {
    } else {
      DropKeepsOrder(t[..|t| - 1], id);
    }
  }

  lemma {:induction false} DropKeepsDistinct(s: seq<Sibling>, id: string)
    requires DistinctIds(s)
    ensures DistinctIds(Drop(s, id))
    decreases |s|
  {
    if s == [] {
    } else {
      DropKeepsDistinct(s[..|s| - 1], id);
    }
  }

  // The sort of the siblings without one is the sort without that one.
  lemma DropCommutesWithSort(s: seq<Sibling>, id: string)
    ensures StableSorted(Drop(s, id)) == Drop(StableSorted(s), id)
  {
    SortIsStable(s);
    var t := Drop(StableSorted(s), id);
    DropKeepsOrder(StableSorted(s), id);
    forall k ensures Lane(t, k) == Lane(Drop(s, id), k) {
      DropFromLane(StableSorted(s), id, k);
      DropFromLane(s, id, k);
      SortLane(s, k);
    }
    StableSortIsUnique(t, Drop(s, id));
  }

  lemma {:induction false} IdsOfDrop(s: seq<Sibling>, id: string)
    ensures IdsInOrder(Drop(s, id)) == Without(IdsInOrder(s), id)
    decreases |s|
  {
    if s == [] {
    } else {
      IdsOfDrop(s[..|s| - 1], id);
      assert IdsInOrder(s)[..|s| - 1] == IdsInOrder(s[..|s| - 1]);
    }
  }

  lemma {:induction false} DropConcatenates(s: seq<Sibling>, t: seq<Sibling>, id: string)
    ensures Drop(s + t, id) == Drop(s, id) + Drop(t, id)
    decreases |t|
  {
    if t == [] {
      assert s + t == s;
    } else {
      assert (s + t)[..|s + t| - 1] == s + t[..|t| - 1];
      DropConcatenates(s, t[..|t| - 1], id);
    }
  }

  // ---- renumbering ----

  predicate Distinct(ids: seq<string>) {
    forall i, j :: 0 <= i < j < |ids| ==> ids[i] != ids[j]
  }

  // Each sibling numbered by its place among some ids.
  ghost predicate NumberedBy(s: seq<Sibling>, ids: seq<string>) {
    && DistinctIds(s) && Distinct(ids)
    && (forall x :: x in s ==> 0 <= x.order < |ids| && ids[x.order] == x.id)
    && (forall i :: 0 <= i < |ids| ==> Sibling(ids[i], i) in s)
  }

  function Numbered(ids: seq<string>): (r: seq<Sibling>)
    ensures |r| == |ids| && forall i :: 0 <= i < |ids| ==> r[i] == Sibling(ids[i], i)
  {
    seq(|ids|, i requires 0 <= i < |ids| => Sibling(ids[i], i))
  }

  lemma {:induction false} LaneOfOne(s: seq<Sibling>, k: int, x: Sibling)
    requires DistinctIds(s) && x in s && x.order == k
    requires forall y :: y in s && y.order == k ==> y == x
    ensures Lane(s, k) == [x]
    decreases |s|
  {
    var front, last := s[..|s| - 1], s[|s| - 1];
    if last == x {
      LaneIsEmpty(front, k);
    } else {
      LaneOfOne(front, k, x);
    }
  }

  lemma NumberedLane(s: seq<Sibling>, ids: seq<string>, k: int)
    requires NumberedBy(s, ids)
    ensures Lane(s, k) == if 0 <= k < |ids| then [Sibling(ids[k], k)] else []
  {
    if 0 <= k < |ids| { LaneOfOne(s, k, Sibling(ids[k], k)); } else { LaneIsEmpty(s, k); }
  }

  // Numbered siblings sort into the sequence that numbered them, however they
  // lie in the lists of groups and devices.
  lemma NumberedSortsAsListed(s: seq<Sibling>, ids: seq<string>)
    requires NumberedBy(s, ids)
    ensures IdsInOrder(StableSorted(s)) == ids
  {
    var t := Numbered(ids);
    assert NumberedBy(t, ids) by {
      forall i | 0 <= i < |ids| ensures Sibling(ids[i], i) in t { assert t[i] in t; }
    }
    forall k ensures Lane(t, k) == Lane(s, k) {
      NumberedLane(s, ids, k);
      NumberedLane(t, ids, k);
    }
    StableSortIsUnique(t, s);
  }
}
