// Parent graphs: each node's id to the id of its parent, where "" is the root
// level and an id that is no node's ends a walk.
module Forests {
  type Parents = map<string, string>

  // ---- acyclicity, and the walk it makes finite ----

  ghost predicate Ranked(f: Parents, rank: map<string, nat>) {
    && f.Keys <= rank.Keys
    && forall id :: id in f && f[id] in f ==> rank[f[id]] < rank[id]
  }

  ghost predicate Acyclic(f: Parents) {
    "" !in f && exists rank :: Ranked(f, rank)
  }

  ghost function RankOf(f: Parents): map<string, nat>
    requires Acyclic(f)
    ensures Ranked(f, RankOf(f))
  {
    var rank :| Ranked(f, rank);
    rank
  }

  ghost function Height(f: Parents, p: string): nat
    requires Acyclic(f)
  {
    if p in f then RankOf(f)[p] + 1 else 0
  }

  // Every id looked up by a walk towards the root that starts at p: the last
  // one may belong to no node.
  ghost function Walk(f: Parents, p: string): (ids: seq<string>)
    requires Acyclic(f)
    ensures "" !in ids
    decreases Height(f, p)
  {
    if p == "" then [] else if p !in f then [p] else [p] + Walk(f, f[p])
  }

  lemma WalkStep(f: Parents, p: string)
    requires Acyclic(f)
    ensures p == "" ==> Walk(f, p) == []
    ensures p != "" && p !in f ==> Walk(f, p) == [p]
    ensures p in f ==> Walk(f, p) == [p] + Walk(f, f[p]) && Height(f, f[p]) < Height(f, p)
  {
    assert p in f && f[p] in f ==> RankOf(f)[f[p]] < RankOf(f)[p];
  }

  // ---- an independent meaning of acyclic ----

  function Up(f: Parents, id: string, k: nat): string {
    if k == 0 then id
    else var p := Up(f, id, k - 1); if p in f then f[p] else ""
  }

  ghost predicate NoNodeIsItsOwnAncestor(f: Parents) {
    forall id, k: nat :: id in f && 0 < k ==> Up(f, id, k) != id
  }

  lemma {:induction false} UpLowersRank(f: Parents, rank: map<string, nat>, id: string, k: nat)
    requires "" !in f && Ranked(f, rank) && id in f && 0 < k && Up(f, id, k) in f
    ensures rank[Up(f, id, k)] < rank[id]
  {
    if k > 1 {
      assert Up(f, id, k - 1) in f;
      UpLowersRank(f, rank, id, k - 1);
    } else {
      assert Up(f, id, 0) == id;
    }
  }

  lemma {:induction false} UpFromParent(f: Parents, id: string, k: nat)
    requires id in f
    ensures Up(f, f[id], k) == Up(f, id, k + 1)
  {
    if k == 0 { assert Up(f, id, 0) == id; } else { UpFromParent(f, id, k - 1); }
  }

  lemma {:induction false} NothingAbove(f: Parents, id: string, k: nat)
    requires "" !in f && id !in f && k > 0
    ensures Up(f, id, k) == ""
  {
    if k == 1 { assert Up(f, id, 0) == id; } else { NothingAbove(f, id, k - 1); }
  }

  // What a walk meets is what is so many steps up from where it starts.
  lemma {:induction false} WalkIsUp(f: Parents, p: string, x: string)
    requires Acyclic(f) && x != ""
    ensures x in Walk(f, p) <==> exists k: nat :: Up(f, p, k) == x
    decreases Height(f, p)
  {
    WalkStep(f, p);
    assert Up(f, p, 0) == p;
    if p !in f {
      if k: nat :| Up(f, p, k) == x && k > 0 { NothingAbove(f, p, k); }
    } else {
      WalkIsUp(f, f[p], x);
      if k: nat :| Up(f, p, k) == x && k > 0 { UpFromParent(f, p, k - 1); }
      if k: nat :| Up(f, f[p], k) == x { UpFromParent(f, p, k); }
    }
  }

  // The nodes of f met going up from id, itself included.
  ghost function Reached(f: Parents, id: string): set<string> {
    set y | y in f && exists k: nat :: Up(f, id, k) == y
  }

  lemma ParentReachesLess(f: Parents, id: string)
    requires NoNodeIsItsOwnAncestor(f) && id in f
    ensures Reached(f, f[id]) < Reached(f, id)
  {
    var above, here := Reached(f, f[id]), Reached(f, id);
    forall y | y in above ensures y in here && y != id {
      var k: nat :| Up(f, f[id], k) == y;
      UpFromParent(f, id, k);
    }
    assert Up(f, id, 0) == id;
    assert id in here && id !in above;
  }

  lemma {:induction false} SmallerSet<T>(a: set<T>, b: set<T>)
    requires a < b
    ensures |a| < |b|
  {
    var x :| x in b && x !in a;
    var rest := b - {x};
    SubsetIsNoLarger(a, rest);
    assert b == rest + {x};
  }

  lemma {:induction false} SubsetIsNoLarger<T>(a: set<T>, b: set<T>)
    requires a <= b
    ensures |a| <= |b|
    decreases a
  {
    if a == {} {
    } else {
      var x :| x in a;
      SubsetIsNoLarger(a - {x}, b - {x});
    }
  }

  // A rank exists exactly when no node can be reached from itself.
  lemma AcyclicIffNoNodeIsItsOwnAncestor(f: Parents)
    requires "" !in f
    ensures Acyclic(f) <==> NoNodeIsItsOwnAncestor(f)
  {
    if Acyclic(f) {
      forall id, k: nat | id in f && 0 < k ensures Up(f, id, k) != id {
        if Up(f, id, k) in f { UpLowersRank(f, RankOf(f), id, k); }
      }
    }
    if NoNodeIsItsOwnAncestor(f) {
      var rank := map id | id in f :: |Reached(f, id)|;
      forall id | id in f && f[id] in f ensures rank[f[id]] < rank[id] {
        ParentReachesLess(f, id);
        SmallerSet(Reached(f, f[id]), Reached(f, id));
      }
      assert Ranked(f, rank);
    }
  }

  // Fewer nodes cannot close a cycle.
  lemma PartIsAcyclic(f: Parents, part: Parents)
    requires Acyclic(f) && part.Keys <= f.Keys && forall id :: id in part ==> part[id] == f[id]
    ensures Acyclic(part)
  {
    assert Ranked(part, RankOf(f));
  }

  // ---- moving a node ----

  // Whether x is the node itself or lies below it.
  ghost predicate Under(f: Parents, x: string, id: string)
    requires Acyclic(f)
  {
    id in Walk(f, x)
  }

  lemma MovedRank(f: Parents, id: string, parent: string)
    requires Acyclic(f) && id in f && !Under(f, parent, id)
    ensures Acyclic(f[id := parent])
  {
    var moved, before, lift := f[id := parent], RankOf(f), Height(f, parent);
    var rank := map x | x in f :: if Under(f, x, id) then before[x] + lift else before[x];
    forall x | x in moved && moved[x] in moved ensures rank[moved[x]] < rank[x] {
      assert Walk(f, x) == [x] + Walk(f, f[x]);
    }
    assert Ranked(moved, rank);
  }

  lemma {:induction false} MovedBelowItselfClimbs(f: Parents, id: string, parent: string, rank: map<string, nat>,
                                                  p: string)
    requires Acyclic(f) && id in f && Ranked(f[id := parent], rank) && Under(f, p, id)
    ensures p in f && rank[id] <= rank[p]
    decreases Height(f, p)
  {
    if p in f && p != id {
      MovedBelowItselfClimbs(f, id, parent, rank, f[p]);
      assert f[id := parent][p] == f[p];
    }
  }

  // A move keeps the graph acyclic exactly when the new parent does not lie in
  // the moved node's own subtree.
  lemma MoveKeepsAcyclic(f: Parents, id: string, parent: string)
    requires Acyclic(f) && id in f
    ensures Acyclic(f[id := parent]) <==> !Under(f, parent, id)
  {
    if !Under(f, parent, id) {
      MovedRank(f, id, parent);
    } else if Acyclic(f[id := parent]) {
      var moved := f[id := parent];
      var rank, up := RankOf(moved), moved[id];
      assert up in moved ==> rank[up] < rank[id];
      MovedBelowItselfClimbs(f, id, parent, rank, parent);
      assert false;
    }
  }

  // The part of a walk before it meets an id.
  function UpTo(walk: seq<string>, id: string): (r: seq<string>)
    ensures id !in r
  {
    if walk == [] || walk[0] == id then [] else [walk[0]] + UpTo(walk[1..], id)
  }

  // A walk that meets a node goes on as that node's own walk.
  lemma {:induction false} WalkSplits(f: Parents, p: string, id: string)
    requires Acyclic(f) && Under(f, p, id)
    ensures Walk(f, p) == UpTo(Walk(f, p), id) + Walk(f, id)
    decreases Height(f, p)
  {
    if p == id {
    } else {
      WalkSplits(f, f[p], id);
      assert Walk(f, p)[1..] == Walk(f, f[p]);
    }
  }

  // What a walk meets is no higher than where it starts.
  lemma {:induction false} WalkIsLower(f: Parents, p: string, x: string)
    requires Acyclic(f) && x in f && Under(f, p, x)
    ensures Height(f, x) <= Height(f, p)
    decreases Height(f, p)
  {
    if p == x {
    } else {
      WalkIsLower(f, f[p], x);
    }
  }

  // A walk that meets the moved node is the same as before until it does.
  lemma {:induction false} WalkInto(f: Parents, id: string, parent: string, p: string)
    requires Acyclic(f) && id in f && Acyclic(f[id := parent]) && Under(f, p, id)
    ensures Under(f[id := parent], p, id)
    ensures UpTo(Walk(f[id := parent], p), id) == UpTo(Walk(f, p), id)
    decreases Height(f, p)
  {
    if p == id {
    } else {
      WalkInto(f, id, parent, f[p]);
      assert Walk(f, p)[1..] == Walk(f, f[p]);
      assert Walk(f[id := parent], p)[1..] == Walk(f[id := parent], f[p]);
    }
  }

  // Walks that do not meet the moved node are the same as before.
  lemma {:induction false} WalkClearOf(f: Parents, id: string, parent: string, p: string)
    requires Acyclic(f) && id in f && Acyclic(f[id := parent]) && !Under(f, p, id)
    ensures Walk(f[id := parent], p) == Walk(f, p)
    decreases Height(f, p)
  {
    if p !in f {
    } else {
      WalkClearOf(f, id, parent, f[p]);
    }
  }

  // ---- taking a node out, its children going to its parent ----

  function Spliced(f: Parents, gone: string): Parents
    requires gone in f
  {
    map x | x in f && x != gone :: if f[x] == gone then f[gone] else f[x]
  }

  function Without<T(==, !new)>(s: seq<T>, x: T): (r: seq<T>)
    ensures x !in r
    ensures forall y :: y in r <==> y in s && y != x
    ensures x !in s ==> r == s
    decreases |s|
  {
    if s == [] then []
    else
      var front, last := Without(s[..|s| - 1], x), s[|s| - 1];
      assert s == s[..|s| - 1] + [last];
      if last == x then front else front + [last]
  }

  lemma {:induction false} WithoutConcatenates<T(!new)>(s: seq<T>, t: seq<T>, x: T)
    ensures Without(s + t, x) == Without(s, x) + Without(t, x)
    decreases |t|
  {
    if t == [] {
      assert s + t == s;
    } else {
      assert (s + t)[..|s + t| - 1] == s + t[..|t| - 1];
      WithoutConcatenates(s, t[..|t| - 1], x);
    }
  }

  lemma SpliceKeepsAcyclic(f: Parents, gone: string)
    requires Acyclic(f) && gone in f
    ensures Acyclic(Spliced(f, gone))
  {
    assert Ranked(Spliced(f, gone), RankOf(f));
  }

  // Every walk loses exactly the node taken out.
  lemma {:induction false} SpliceWalk(f: Parents, gone: string, p: string)
    requires Acyclic(f) && gone in f && Acyclic(Spliced(f, gone))
    ensures p != gone ==> Walk(Spliced(f, gone), p) == Without(Walk(f, p), gone)
    ensures p == gone ==> Walk(Spliced(f, gone), f[gone]) == Without(Walk(f, gone), gone)
    decreases Height(f, p)
  {
    WalkStep(f, p);
    if p !in f {
    } else {
      SpliceWalk(f, gone, f[p]);
      WithoutFirst(p, Walk(f, f[p]), gone);
      NotItsOwnParent(f, gone);
      if p != gone { WalkStep(Spliced(f, gone), p); }
    }
  }

  lemma WithoutFirst<T(!new)>(x: T, t: seq<T>, gone: T)
    ensures Without([x] + t, gone) == if x == gone then Without(t, gone) else [x] + Without(t, gone)
  {
    WithoutConcatenates([x], t, gone);
    assert [x][..0] == [];
  }

  lemma NotItsOwnParent(f: Parents, id: string)
    requires Acyclic(f) && id in f
    ensures f[id] != id
  {
    assert f[id] in f ==> RankOf(f)[f[id]] < RankOf(f)[id];
  }

  // ---- adding a node ----

  ghost predicate Unused(f: Parents, id: string) {
    id != "" && id !in f && forall x :: x in f ==> f[x] != id
  }

  lemma AddKeepsAcyclic(f: Parents, id: string, parent: string)
    requires Acyclic(f) && Unused(f, id) && parent != id
    ensures Acyclic(f[id := parent])
  {
    assert Ranked(f[id := parent], RankOf(f)[id := Height(f, parent)]);
  }

  // ---- copying nodes under new ids ----

  // Copies hang from the copy of their parent where that was copied too, and
  // otherwise from the parent itself.
  function CopiedParent(f: Parents, ids: map<string, string>, x: string): string
    requires x in f
  {
    if f[x] in ids then ids[f[x]] else f[x]
  }

  ghost predicate Copied(f: Parents, ids: map<string, string>, g: Parents) {
    && ids.Keys <= f.Keys
    && (forall x :: x in ids ==> Unused(f, ids[x]))
    && (forall x, y :: x in ids && y in ids && ids[x] == ids[y] ==> x == y)
    && g.Keys == f.Keys + ids.Values
    && (forall x :: x in f ==> g[x] == f[x])
    && (forall x :: x in ids ==> g[ids[x]] == CopiedParent(f, ids, x))
  }

  ghost function Original(ids: map<string, string>, copy: string): (x: string)
    requires copy in ids.Values
    ensures x in ids && ids[x] == copy
  {
    var x :| x in ids && ids[x] == copy;
    x
  }

  // A copy ranks as its original does.
  lemma CopiesRank(f: Parents, ids: map<string, string>, g: Parents, before: map<string, nat>, rank: map<string, nat>)
    requires Ranked(f, before) && Copied(f, ids, g) && g.Keys <= rank.Keys
    requires forall y :: y in f ==> rank[y] == before[y]
    requires forall x :: x in ids ==> ids[x] in rank && rank[ids[x]] == before[x]
    ensures Ranked(g, rank)
  {
    forall y | y in g && g[y] in g ensures rank[g[y]] < rank[y] {
      if y !in f {
        var x :| x in ids && ids[x] == y;
        assert g[y] == CopiedParent(f, ids, x);
      }
    }
  }

  lemma CopyKeepsAcyclic(f: Parents, ids: map<string, string>, g: Parents)
    requires Acyclic(f) && Copied(f, ids, g)
    ensures Acyclic(g)
  {
    var before := RankOf(f);
    var rank := map y | y in g :: if y in f then before[y] else before[Original(ids, y)];
    CopiesRank(f, ids, g, before, rank);
    assert "" !in g;
  }

  // A walk of originals, each copied node replaced by its copy.
  ghost function Translated(ids: map<string, string>, walk: seq<string>): (r: seq<string>)
    ensures |r| == |walk|
  {
    seq(|walk|, i requires 0 <= i < |walk| => if walk[i] in ids then ids[walk[i]] else walk[i])
  }

  lemma TranslatedStep(ids: map<string, string>, p: string, rest: seq<string>)
    requires p in ids
    ensures Translated(ids, [p] + rest) == [ids[p]] + Translated(ids, rest)
  {}

  lemma TranslatedElsewhere(ids: map<string, string>, p: string, rest: seq<string>)
    requires p in ids && forall y :: y in rest ==> y !in ids
    ensures Translated(ids, [p] + rest) == [ids[p]] + rest
  {}

  // Copying a node copies all that hangs from it.
  ghost predicate WholeSubtrees(f: Parents, ids: map<string, string>) {
    forall x :: x in f && f[x] in ids ==> x in ids
  }

  lemma {:induction false} NothingCopiedAbove(f: Parents, ids: map<string, string>, p: string)
    requires Acyclic(f) && WholeSubtrees(f, ids) && p !in ids
    ensures forall y :: y in Walk(f, p) ==> y !in ids
    decreases Height(f, p)
  {
    if p !in f {
    } else {
      NothingCopiedAbove(f, ids, f[p]);
    }
  }

  lemma {:induction false} CopiesAreOffTheWalk(f: Parents, ids: map<string, string>, g: Parents, p: string)
    requires Acyclic(f) && Acyclic(g) && Copied(f, ids, g) && p !in ids.Values
    ensures Walk(g, p) == Walk(f, p)
    decreases Height(f, p)
  {
    if p !in f {
    } else {
      CopiesAreOffTheWalk(f, ids, g, f[p]);
    }
  }

  // A copy hangs as its original does: its walk is the original's, copies in
  // place of the nodes copied.
  lemma {:induction false} CopyWalk(f: Parents, ids: map<string, string>, g: Parents, p: string)
    requires Acyclic(f) && Acyclic(g) && Copied(f, ids, g) && WholeSubtrees(f, ids) && p in ids
    ensures Walk(g, ids[p]) == Translated(ids, Walk(f, p))
    decreases Height(f, p)
  {
    var up := f[p];
    CopysParent(f, ids, g, p);
    if up in ids {
      CopyWalk(f, ids, g, up);
      TranslatedStep(ids, p, Walk(f, up));
    } else {
      NothingCopiedAbove(f, ids, up);
      CopiesAreOffTheWalk(f, ids, g, up);
      TranslatedElsewhere(ids, p, Walk(f, up));
    }
  }

  lemma CopysParent(f: Parents, ids: map<string, string>, g: Parents, p: string)
    requires Acyclic(g) && Copied(f, ids, g) && p in ids
    ensures ids[p] != "" && ids[p] in g && g[ids[p]] == CopiedParent(f, ids, p) && f[p] !in ids.Values
    ensures Walk(g, ids[p]) == [ids[p]] + Walk(g, CopiedParent(f, ids, p))
  {}

  // Above a node on the way to another, the child through which it was reached.
  lemma {:induction false} ChildOnWalk(f: Parents, p: string, id: string) returns (child: string)
    requires Acyclic(f) && id in f && Under(f, p, id) && p != id
    ensures child in f && f[child] == id && Under(f, p, child)
    decreases Height(f, p)
  {
    if f[p] == id { return p; }
    child := ChildOnWalk(f, f[p], id);
  }
}
