// Field paths rooted at node addresses, and how they follow a node that moves
// or is renamed.
module NodePaths {
  import opened Forests
  import opened DeviceTree
  import Paths

  // The registry prefix a node's fields live under.
  ghost function NodePrefix(c: Config, id: string): string
    requires Acyclic(GroupForest(c))
  {
    "device/" + Address(c, id)
  }

  ghost function FieldPath(c: Config, id: string, field: string): string
    requires Acyclic(GroupForest(c))
  {
    NodePrefix(c, id) + "/" + field
  }

  // ---- addresses below a node ----

  ghost predicate Inside(c: Config, m: string, id: string)
    requires Acyclic(GroupForest(c))
  {
    m == id || (id in GroupForest(c) && Under(GroupForest(c), ParentOf(Nodes(c), m), id))
  }

  // What a node's address adds to that of a node it is inside.
  ghost function Tail(c: Config, m: string, id: string): (tail: string)
    requires Acyclic(GroupForest(c))
    ensures tail == "" || tail[0] == '/'
  {
    if m == id then ""
    else "/" + Joined(NamesOf(c.groups), UpTo(Walk(GroupForest(c), ParentOf(Nodes(c), m)), id)) + NameOf(Nodes(c), m)
  }

  lemma {:induction false} JoinedConcatenates(names: map<string, string>, a: seq<string>, b: seq<string>)
    ensures Joined(names, a + b) == Joined(names, b) + Joined(names, a)
  {
    if a == [] {
      assert a + b == b;
    } else {
      assert (a + b)[1..] == a[1..] + b;
      JoinedConcatenates(names, a[1..], b);
    }
  }

  lemma {:induction false} JoinedIgnores(names: map<string, string>, walk: seq<string>, id: string, name: string)
    requires id !in walk
    ensures Joined(names[id := name], walk) == Joined(names, walk)
  {
    if walk == [] {
    } else {
      JoinedIgnores(names, walk[1..], id, name);
    }
  }

  lemma GroupPath(c: Config, id: string)
    requires Acyclic(GroupForest(c)) && id in GroupForest(c)
    ensures PathFrom(c, id) == Address(c, id) + "/"
  {
    FindInBoth(c.groups, c.devices, id);
    PathStep(c, id);
    AddressOf(c, id);
    ClosedBySlash(PathFrom(c, ParentOf(Nodes(c), id)), NameOf(Nodes(c), id));
  }

  lemma ClosedBySlash(a: string, b: string)
    ensures a + (b + "/") == a + b + "/"
  {}

  lemma PathThrough(c: Config, p: string, id: string)
    requires Acyclic(GroupForest(c)) && Under(GroupForest(c), p, id)
    ensures PathFrom(c, p) == PathFrom(c, id) + Joined(NamesOf(c.groups), UpTo(Walk(GroupForest(c), p), id))
  {
    WalkSplits(GroupForest(c), p, id);
    JoinedConcatenates(NamesOf(c.groups), UpTo(Walk(GroupForest(c), p), id), Walk(GroupForest(c), id));
  }

  lemma AddressOf(c: Config, m: string)
    requires Acyclic(GroupForest(c)) && Find(Nodes(c), m).Some?
    ensures Address(c, m) == PathFrom(c, ParentOf(Nodes(c), m)) + NameOf(Nodes(c), m)
  {}

  lemma InsideAddress(c: Config, m: string, id: string)
    requires Sound(c) && Acyclic(GroupForest(c)) && Find(Nodes(c), m).Some? && Inside(c, m, id)
    ensures Address(c, m) == Address(c, id) + Tail(c, m, id)
  {
    if m != id {
      var p, name := ParentOf(Nodes(c), m), NameOf(Nodes(c), m);
      var low := Joined(NamesOf(c.groups), UpTo(Walk(GroupForest(c), p), id));
      assert Tail(c, m, id) == "/" + low + name;
      assert Address(c, m) == Address(c, id) + "/" + low + name by {
        PathThrough(c, p, id);
        GroupPath(c, id);
        AddressOf(c, m);
      }
      Regroup(Address(c, id), low, name);
    }
  }

  lemma Regroup(a: string, b: string, c: string)
    ensures a + "/" + b + c == a + ("/" + b + c)
  {}

  // ---- a node with a new parent or a new name ----

  // Two trees that differ at most in one node's parent and name.
  ghost predicate Rehomed(c: Config, d: Config, id: string) {
    && Sound(c) && Sound(d) && Acyclic(GroupForest(c)) && Acyclic(GroupForest(d))
    && Find(Nodes(c), id).Some? && Find(Nodes(d), id).Some?
    && GroupForest(d) == (if id in GroupForest(c) then GroupForest(c)[id := ParentOf(Nodes(d), id)] else GroupForest(c))
    && NamesOf(d.groups)
         == (if id in GroupForest(c) then NamesOf(c.groups)[id := NameOf(Nodes(d), id)] else NamesOf(c.groups))
    && forall x :: x != id ==> SameAt(c, d, x)
  }

  predicate SameAt(c: Config, d: Config, x: string) {
    && Find(Nodes(d), x).Some? == Find(Nodes(c), x).Some?
    && ParentOf(Nodes(d), x) == ParentOf(Nodes(c), x) && NameOf(Nodes(d), x) == NameOf(Nodes(c), x)
  }

  lemma TailStays(c: Config, d: Config, m: string, id: string)
    requires Rehomed(c, d, id) && Inside(c, m, id)
    ensures Inside(d, m, id) && Tail(d, m, id) == Tail(c, m, id)
  {
    if m != id {
      var g, p := GroupForest(c), ParentOf(Nodes(c), m);
      assert SameAt(c, d, m);
      WalkInto(g, id, ParentOf(Nodes(d), id), p);
      JoinedIgnores(NamesOf(c.groups), UpTo(Walk(g, p), id), id, NameOf(Nodes(d), id));
    }
  }

  lemma OutsidePath(c: Config, d: Config, p: string, id: string)
    requires Rehomed(c, d, id) && (id in GroupForest(c) ==> !Under(GroupForest(c), p, id))
    ensures PathFrom(d, p) == PathFrom(c, p)
  {
    if id in GroupForest(c) {
      WalkClearOf(GroupForest(c), id, ParentOf(Nodes(d), id), p);
      JoinedIgnores(NamesOf(c.groups), Walk(GroupForest(c), p), id, NameOf(Nodes(d), id));
    }
  }

  lemma OutsideAddress(c: Config, d: Config, m: string, id: string)
    requires Rehomed(c, d, id) && !Inside(c, m, id)
    ensures Address(d, m) == Address(c, m)
  {
    assert SameAt(c, d, m);
    if Find(Nodes(c), m).Some? {
      AddressOf(c, m);
      AddressOf(d, m);
      OutsidePath(c, d, ParentOf(Nodes(c), m), id);
    }
  }

  lemma PrefixDecides(prefix: string, other: string, rest: string)
    ensures prefix + rest == other + rest <==> prefix == other
  {
    if prefix + rest == other + rest {
      assert prefix == (prefix + rest)[..|prefix|];
      assert other == (other + rest)[..|other|];
    }
  }

  lemma CarriedElsewhere(path: string, from: string, to: string)
    ensures Paths.Carried(path, from, to) == path <==> from == to || !Paths.Under(path, from)
  {
    if Paths.Under(path, from) {
      assert path == from + path[|from|..];
      PrefixDecides(to, from, path[|from|..]);
    }
  }

  lemma CarriedTail(a: string, b: string, tail: string, field: string)
    requires tail == "" || tail[0] == '/'
    ensures Paths.Under("device/" + (a + tail) + "/" + field, "device/" + a)
    ensures Paths.Carried("device/" + (a + tail) + "/" + field, "device/" + a, "device/" + b)
         == "device/" + (b + tail) + "/" + field
  {
    var rest := tail + "/" + field;
    var path := "device/" + (a + tail) + "/" + field;
    assert path == ("device/" + a) + rest;
    assert path[|"device/" + a|] == rest[0] == '/';
    assert path[|"device/" + a|..] == rest;
  }

  // The paths of every node that moved along are carried to that node's own new
  // address, whatever the field.
  lemma FieldPathFollows(c: Config, d: Config, id: string, m: string, field: string)
    requires Rehomed(c, d, id) && Find(Nodes(c), m).Some? && Inside(c, m, id)
    ensures Paths.Carried(FieldPath(c, m, field), NodePrefix(c, id), NodePrefix(d, id)) == FieldPath(d, m, field)
  {
    assert m != id ==> SameAt(c, d, m);
    TailStays(c, d, m, id);
    InsideAddress(c, m, id);
    InsideAddress(d, m, id);
    CarriedTail(Address(c, id), Address(d, id), Tail(c, m, id), field);
  }

  // Any other node's path is left right exactly when it does not happen to lie
  // under the old address of the node that changed.
  lemma OtherFieldPathStays(c: Config, d: Config, id: string, m: string, field: string)
    requires Rehomed(c, d, id) && !Inside(c, m, id)
    ensures Paths.Carried(FieldPath(c, m, field), NodePrefix(c, id), NodePrefix(d, id)) == FieldPath(d, m, field)
       <==> NodePrefix(c, id) == NodePrefix(d, id) || !Paths.Under(FieldPath(c, m, field), NodePrefix(c, id))
  {
    OutsideAddress(c, d, m, id);
    CarriedElsewhere(FieldPath(c, m, field), NodePrefix(c, id), NodePrefix(d, id));
  }

  // So a node elsewhere that shares this node's address, as a copy beside its
  // original does, has its paths carried along, to where this node went.
  lemma TwinPathGoesAlong(c: Config, d: Config, id: string, m: string, field: string)
    requires Rehomed(c, d, id) && !Inside(c, m, id) && Address(c, m) == Address(c, id)
    ensures Paths.Carried(FieldPath(c, m, field), NodePrefix(c, id), NodePrefix(d, id)) == FieldPath(d, id, field)
    ensures FieldPath(d, id, field) == FieldPath(d, m, field) <==> NodePrefix(c, id) == NodePrefix(d, id)
  {
    Paths.CarriedBelow(NodePrefix(c, id), NodePrefix(d, id), field);
    Paths.BelowPrefix(NodePrefix(c, id), field);
    OtherFieldPathStays(c, d, id, m, field);
  }

  lemma LikeNamedSiblings(c: Config, a: string, b: string)
    requires Acyclic(GroupForest(c)) && Find(Nodes(c), a).Some? && Find(Nodes(c), b).Some?
    requires ParentOf(Nodes(c), a) == ParentOf(Nodes(c), b) && NameOf(Nodes(c), a) == NameOf(Nodes(c), b)
    ensures Address(c, a) == Address(c, b)
  {
    AddressOf(c, a);
    AddressOf(c, b);
  }

  ghost function FieldPaths(c: Config, fields: set<(string, string)>): set<string>
    requires Acyclic(GroupForest(c))
  {
    set f | f in fields :: FieldPath(c, f.0, f.1)
  }

  // No path of a node elsewhere lies under this node's address.
  ghost predicate Clear(c: Config, fields: set<(string, string)>, id: string)
    requires Acyclic(GroupForest(c))
  {
    forall f :: f in fields && !Inside(c, f.0, id) ==> !Paths.Under(FieldPath(c, f.0, f.1), NodePrefix(c, id))
  }

  lemma FieldRerooted(c: Config, d: Config, id: string, fields: set<(string, string)>, f: (string, string))
    requires Rehomed(c, d, id) && Clear(c, fields, id) && f in fields && Find(Nodes(c), f.0).Some?
    ensures Paths.Carried(FieldPath(c, f.0, f.1), NodePrefix(c, id), NodePrefix(d, id)) == FieldPath(d, f.0, f.1)
  {
    if Inside(c, f.0, id) { FieldPathFollows(c, d, id, f.0, f.1); } else { OtherFieldPathStays(c, d, id, f.0, f.1); }
  }

  // Sets of paths given field by field.
  lemma CarriedFieldwise(fields: set<(string, string)>, was: map<(string, string), string>,
                         now: map<(string, string), string>, from: string, to: string)
    requires was.Keys == now.Keys == fields
    requires forall f :: f in fields ==> Paths.Carried(was[f], from, to) == now[f]
    ensures Paths.CarriedAll(set f | f in fields :: was[f], from, to) == set f | f in fields :: now[f]
  {
    var olds, news := set f | f in fields :: was[f], set f | f in fields :: now[f];
    forall q | q in Paths.CarriedAll(olds, from, to) ensures q in news {
      var p :| p in olds && q == Paths.Carried(p, from, to);
      var f :| f in fields && p == was[f];
    }
    forall q | q in news ensures q in Paths.CarriedAll(olds, from, to) {
      var f :| f in fields && q == now[f];
      assert was[f] in olds;
    }
  }

  // Rerooting commutes with addressing: the carried paths of some fields are
  // the paths those fields have in the new tree.
  lemma RerootCommutes(c: Config, d: Config, id: string, fields: set<(string, string)>)
    requires Rehomed(c, d, id) && Clear(c, fields, id)
    requires forall f :: f in fields ==> Find(Nodes(c), f.0).Some?
    ensures Paths.CarriedAll(FieldPaths(c, fields), NodePrefix(c, id), NodePrefix(d, id)) == FieldPaths(d, fields)
  {
    var was := FieldPathsByField(c, fields);
    var now := FieldPathsByField(d, fields);
    forall f | f in fields ensures Paths.Carried(was[f], NodePrefix(c, id), NodePrefix(d, id)) == now[f] {
      FieldRerooted(c, d, id, fields, f);
    }
    CarriedFieldwise(fields, was, now, NodePrefix(c, id), NodePrefix(d, id));
  }

  lemma FieldPathsByField(c: Config, fields: set<(string, string)>) returns (paths: map<(string, string), string>)
    requires Acyclic(GroupForest(c))
    ensures paths.Keys == fields && forall f :: f in fields ==> paths[f] == FieldPath(c, f.0, f.1)
    ensures FieldPaths(c, fields) == set f | f in fields :: paths[f]
  {
    paths := map f | f in fields :: FieldPath(c, f.0, f.1);
  }
}
