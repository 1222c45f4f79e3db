// Configuration paths: which lie under a prefix, and carrying a set of them
// from one prefix to another.
module Paths {
  predicate Under(path: string, prefix: string) {
    |prefix| < |path| && prefix <= path && path[|prefix|] == '/'
  }

  function Carried(path: string, from: string, to: string): string {
    if Under(path, from) then to + path[|from|..] else path
  }

  function CarriedAll(paths: set<string>, from: string, to: string): set<string> {
    set p | p in paths :: Carried(p, from, to)
  }

  lemma CarriedAllOfOne(path: string, from: string, to: string)
    ensures CarriedAll({path}, from, to) == {Carried(path, from, to)}
  {}

  // The loop that builds the carried set, one path at a time.
  method RerootPaths(paths: set<string>, from: string, to: string) returns (rerooted: set<string>)
    ensures rerooted == CarriedAll(paths, from, to)
  {
    rerooted := {};
    var rest := paths;
    while rest != {}
      invariant rest <= paths && rerooted == CarriedAll(paths - rest, from, to)
    {
      var path :| path in rest;
      rest := rest - {path};
      assert paths - rest == (paths - (rest + {path})) + {path};
      if |from| < |path| && from <= path && path[|from|] == '/' {
        rerooted := rerooted + {to + path[|from|..]};
      } else {
        rerooted := rerooted + {path};
      }
    }
    assert paths - {} == paths;
  }

  function Erased(paths: set<string>, prefix: string): set<string> {
    set p | p in paths && !Under(p, prefix)
  }

  // ---- what lies under a prefix ----

  lemma BelowPrefix(prefix: string, rest: string)
    ensures Under(prefix + "/" + rest, prefix)
    ensures (prefix + "/" + rest)[|prefix|..] == "/" + rest
  {
    assert (prefix + "/" + rest)[|prefix|] == '/';
  }

  lemma UnderIsBelow(path: string, prefix: string)
    requires Under(path, prefix)
    ensures path == prefix + "/" + path[|prefix| + 1..]
  {}

  lemma UnderTransitive(path: string, inner: string, outer: string)
    requires Under(path, inner) && (inner == outer || Under(inner, outer))
    ensures Under(path, outer)
  {
    if inner != outer { assert path[|outer|] == inner[|outer|]; }
  }

  lemma CarriedBelow(from: string, to: string, rest: string)
    ensures Carried(from + "/" + rest, from, to) == to + "/" + rest
  {
    BelowPrefix(from, rest);
  }

  // Labels with no '/' are one segment each: under a prefix that ends in one
  // label lie just the paths whose next segment is that label.
  lemma SegmentsDecide(base: string, own: string, rest: string, other: string)
    requires '/' !in own && '/' !in other
    ensures Under(base + own + "/" + rest, base + other) <==> own == other
  {
    var path, prefix, tail := base + own + "/" + rest, base + other, own + "/" + rest;
    assert path == base + tail;
    if own == other {
      BelowPrefix(prefix, rest);
    } else {
      assert path[|base|..] == tail && prefix[|base|..] == other;
      assert Under(path, prefix) ==> other + "/" <= tail;
      TailsDiffer(own, rest, other);
    }
  }

  lemma TailsDiffer(own: string, rest: string, other: string)
    requires '/' !in own && '/' !in other && own != other
    ensures !(other + "/" <= own + "/" + rest)
  {
    var tail := own + "/" + rest;
    assert tail[|own|] == '/' && tail[..|own|] == own;
    if |other| < |own| {
      assert (other + "/")[|other|] == '/' && tail[|other|] == own[|other|];
    } else if |own| < |other| {
      assert (other + "/")[|own|] == other[|own|];
    } else {
      var i :| 0 <= i < |own| && own[i] != other[i];
      assert (other + "/")[i] == other[i] && tail[i] == own[i];
    }
  }

  // ---- one prefix after another ----

  function CarriedThrough(path: string, prefixes: seq<(string, string)>): string
    decreases |prefixes|
  {
    if prefixes == [] then path
    else
      var last := prefixes[|prefixes| - 1];
      Carried(CarriedThrough(path, prefixes[..|prefixes| - 1]), last.0, last.1)
  }

  function CarriedAllThrough(paths: set<string>, prefixes: seq<(string, string)>): set<string>
    decreases |prefixes|
  {
    if prefixes == [] then paths
    else
      var last := prefixes[|prefixes| - 1];
      CarriedAll(CarriedAllThrough(paths, prefixes[..|prefixes| - 1]), last.0, last.1)
  }

  lemma {:induction false} ThroughIsCarried(paths: set<string>, prefixes: seq<(string, string)>, p: string)
    requires p in paths
    ensures CarriedThrough(p, prefixes) in CarriedAllThrough(paths, prefixes)
    decreases |prefixes|
  {
    if prefixes == [] {
    } else {
      ThroughIsCarried(paths, prefixes[..|prefixes| - 1], p);
    }
  }

  lemma {:induction false} CarriedIsThrough(paths: set<string>, prefixes: seq<(string, string)>, q: string)
    returns (p: string)
    requires q in CarriedAllThrough(paths, prefixes)
    ensures p in paths && q == CarriedThrough(p, prefixes)
    decreases |prefixes|
  {
    if prefixes == [] { return q; }
    var front, last := prefixes[..|prefixes| - 1], prefixes[|prefixes| - 1];
    var r :| r in CarriedAllThrough(paths, front) && q == Carried(r, last.0, last.1);
    p := CarriedIsThrough(paths, front, r);
  }

  // Prefixes that all lie below one other.
  predicate AllBelow(prefixes: seq<(string, string)>, outer: string) {
    forall j :: 0 <= j < |prefixes| ==> Under(prefixes[j].0, outer)
  }

  // Whichever prefix holds a path carries it to the same place.
  predicate ActAlike(path: string, prefixes: seq<(string, string)>, to: string) {
    forall j :: 0 <= j < |prefixes| && Under(path, prefixes[j].0) ==> Carried(path, prefixes[j].0, prefixes[j].1) == to
  }

  // Prefixes that share what they start with, and end alike, act alike.
  lemma CarriedByEnd(path: string, fromBase: string, toBase: string, end: string)
    requires Under(path, fromBase + end)
    ensures Carried(path, fromBase + end, toBase + end) == toBase + path[|fromBase|..]
  {
    assert path == (fromBase + end) + path[|fromBase + end|..];
    assert path[|fromBase|..] == end + path[|fromBase + end|..];
  }

  lemma {:induction false} OutsideIsUntouched(path: string, prefixes: seq<(string, string)>, outer: string)
    requires AllBelow(prefixes, outer) && !Under(path, outer)
    ensures CarriedThrough(path, prefixes) == path
    decreases |prefixes|
  {
    if prefixes == [] {
    } else {
      var front, last := prefixes[..|prefixes| - 1], prefixes[|prefixes| - 1];
      OutsideIsUntouched(path, front, outer);
      if Under(path, last.0) { UnderTransitive(path, last.0, outer); }
    }
  }

  predicate HeldByAny(path: string, prefixes: seq<(string, string)>)
    decreases |prefixes|
  {
    prefixes != [] && (HeldByAny(path, prefixes[..|prefixes| - 1]) || Under(path, prefixes[|prefixes| - 1].0))
  }

  lemma {:induction false} HeldIsHeld(path: string, prefixes: seq<(string, string)>, k: nat)
    requires k < |prefixes| && Under(path, prefixes[k].0)
    ensures HeldByAny(path, prefixes)
    decreases |prefixes|
  {
    if k == |prefixes| - 1 {
    } else {
      HeldIsHeld(path, prefixes[..|prefixes| - 1], k);
    }
  }

  // A path is carried once, if that takes it out from below all the prefixes.
  lemma {:induction false} CarriedOnce(path: string, prefixes: seq<(string, string)>, outer: string, to: string)
    requires AllBelow(prefixes, outer) && ActAlike(path, prefixes, to) && !Under(to, outer)
    ensures CarriedThrough(path, prefixes) == if HeldByAny(path, prefixes) then to else path
    decreases |prefixes|
  {
    if prefixes == [] {
    } else {
      var n := |prefixes| - 1;
      CarriedOnce(path, prefixes[..n], outer, to);
      if Under(to, prefixes[n].0) { UnderTransitive(to, prefixes[n].0, outer); }
    }
  }

  // ---- there and back ----

  lemma CarriedBack(p: string, from: string, to: string)
    ensures Under(p, from) || !Under(p, to) ==> Carried(Carried(p, from, to), to, from) == p
    ensures !Under(p, from) && Under(p, to) ==> Under(Carried(Carried(p, from, to), to, from), from)
  {
    if Under(p, from) {
      UnderIsBelow(p, from);
      CarriedBelow(from, to, p[|from| + 1..]);
      CarriedBelow(to, from, p[|from| + 1..]);
    } else if Under(p, to) {
      UnderIsBelow(p, to);
      CarriedBelow(to, from, p[|to| + 1..]);
      BelowPrefix(from, p[|to| + 1..]);
    }
  }

  function ThereAndBack(paths: set<string>, from: string, to: string): set<string> {
    CarriedAll(CarriedAll(paths, from, to), to, from)
  }

  lemma InThereAndBack(paths: set<string>, from: string, to: string, p: string)
    ensures p in ThereAndBack(paths, from, to) <==>
              exists q :: q in paths && Carried(Carried(q, from, to), to, from) == p
  {
    if q :| q in paths && Carried(Carried(q, from, to), to, from) == p {
      assert Carried(q, from, to) in CarriedAll(paths, from, to);
    }
  }

  // Renaming and renaming back restores a set of paths exactly when none of
  // them, outside the renamed node, already lay where the node went.
  lemma ThereAndBackRestores(paths: set<string>, from: string, to: string)
    ensures ThereAndBack(paths, from, to) == paths <==> forall p :: p in paths && Under(p, to) ==> Under(p, from)
  {
    if p :| p in paths && Under(p, to) && !Under(p, from) {
      forall q | q in paths ensures Carried(Carried(q, from, to), to, from) != p { CarriedBack(q, from, to); }
      InThereAndBack(paths, from, to, p);
    } else {
      forall p ensures p in ThereAndBack(paths, from, to) <==> p in paths {
        InThereAndBack(paths, from, to, p);
        if p in paths { CarriedBack(p, from, to); }
        forall q | q in paths ensures Carried(Carried(q, from, to), to, from) == q { CarriedBack(q, from, to); }
      }
    }
  }

  // ---- sets that carrying leaves alone ----

  lemma {:induction false} Extreme(paths: set<string>, longest: bool) returns (p: string)
    requires paths != {}
    ensures p in paths && forall q :: q in paths ==> if longest then |q| <= |p| else |p| <= |q|
    decreases |paths|
  {
    p :| p in paths;
    if paths != {p} {
      var q := Extreme(paths - {p}, longest);
      if (if longest then |p| <= |q| else |q| <= |p|) { p := q; }
    }
  }

  lemma CarriedFrom(p: string, from: string, to: string)
    requires Under(p, from) && Under(Carried(p, from, to), from)
    ensures |Carried(p, from, to)| == |p| - |from| + |to|
    ensures |from| == |to| ==> from == to
  {
    if |from| == |to| { assert Carried(p, from, to)[..|to|] == to; }
  }

  // A set cannot be carried onto itself: its longest or its shortest path under
  // the prefix would have to come from a longer or a shorter one.
  lemma NotOntoItself(paths: set<string>, from: string, to: string, moved: set<string>)
    requires moved == set p | p in paths && Under(p, from)
    requires moved != {} && CarriedAll(paths, from, to) == paths
    ensures from == to
  {
    var p := Extreme(moved, |to| < |from|);
    assert p in CarriedAll(paths, from, to);
    var q :| q in paths && p == Carried(q, from, to);
    assert q in moved;
    CarriedFrom(q, from, to);
  }

  lemma CarriedIsSame(paths: set<string>, from: string, to: string)
    requires forall p :: p in paths ==> Carried(p, from, to) == p
    ensures CarriedAll(paths, from, to) == paths
  {
    forall p | p in paths ensures p in CarriedAll(paths, from, to) { assert Carried(p, from, to) == p; }
  }

  // Carrying changes a set of paths exactly when it moves one of them.
  lemma CarriedAllFixes(paths: set<string>, from: string, to: string)
    ensures CarriedAll(paths, from, to) == paths <==> from == to || forall p :: p in paths ==> !Under(p, from)
  {
    var moved := set p | p in paths && Under(p, from);
    if from == to || moved == {} {
      forall p | p in paths ensures Carried(p, from, to) == p { assert p !in moved ==> !Under(p, from); }
      CarriedIsSame(paths, from, to);
    } else if CarriedAll(paths, from, to) == paths {
      NotOntoItself(paths, from, to, moved);
    }
    if p :| p in paths && Under(p, from) { assert p in moved; }
  }
}
