// Concrete trees on which deleting a group or a device loses the path of a
// device that stays.
module TwinNames {
  import opened Common
  import opened Forests
  import opened Matrices
  import opened DeviceTree
  import opened NodePaths
  import opened GroupDeletion
  import opened WorkspaceModel
  import RenameExamples

  // A device named like the group it is in.
  const TWIN_GROUP := Node("g", "a", "", 0, false, IDENTITY_MATRIX)
  const TWIN_DEVICE := Node("d", "a", "g", 0, false, IDENTITY_MATRIX)

  function Twins(): Config {
    Config([TWIN_GROUP], [TWIN_DEVICE], {}, {}, {}, [])
  }

  lemma GroupAndDevice(nodes: seq<Node>, g: Node, d: Node)
    requires nodes == [g, d] && g.id != d.id && g.id != "" && d.id != "" && g.parentId == "" && d.parentId == g.id
    ensures UniqueIds(nodes) && Acyclic(ParentsOf(nodes)) && Find(nodes, g.id) == Some(g)
    ensures Find(nodes, d.id) == Some(d)
    ensures ChildIds(nodes, g.id) == [d.id]
  {
    assert nodes[1..] == [d] && nodes[..1] == [g];
    assert ChildIds([g], g.id) == [];
    FoundIsIt(nodes, nodes[0]);
    FoundIsIt(nodes, nodes[1]);
    assert Ranked(ParentsOf(nodes), map[g.id := 0, d.id := 1]);
  }

  lemma TwinsAreSound()
    ensures Sound(Twins()) && Find(Twins().groups, "g") == Some(TWIN_GROUP)
    ensures Find(Nodes(Twins()), "d") == Some(TWIN_DEVICE) && Find(Nodes(Twins()), "g") == Some(TWIN_GROUP)
    ensures ChildIds(Nodes(Twins()), "g") == ["d"]
  {
    assert Nodes(Twins()) == [TWIN_GROUP, TWIN_DEVICE];
    GroupAndDevice(Nodes(Twins()), TWIN_GROUP, TWIN_DEVICE);
  }

  lemma TwinIsBelow()
    ensures BelowChild(Twins(), "g", 0, "d")
  {
    TwinsAreSound();
    GroupsAreAcyclic(Twins());
    DeletionKeepsSound(Twins(), "g");
    GroupsAreAcyclic(Deleted(Twins(), "g"));
  }

  lemma TwinsShareAName(c: Config)
    requires Find(Nodes(c), "d") == Some(TWIN_DEVICE) && Find(Nodes(c), "g") == Some(TWIN_GROUP)
    requires ChildIds(Nodes(c), "g") == ["d"]
    ensures '/' !in NameOf(Nodes(c), "g") && NameOf(Nodes(c), ChildIds(Nodes(c), "g")[0]) == NameOf(Nodes(c), "g")
  {}

  // A path of the device is carried to where the group's own paths were, and
  // is erased with them.
  lemma TwinLosesItsPath()
    ensures Sound(Twins()) && Acyclic(GroupForest(Twins())) && Acyclic(GroupForest(Deleted(Twins(), "g")))
    ensures FieldPath(Deleted(Twins(), "g"), "d", "x") !in PathsWithout(Twins(), "g", {FieldPath(Twins(), "d", "x")})
  {
    TwinIsBelow();
    TwinsAreSound();
    TwinsShareAName(Twins());
    LikeNamedChildLosesPath(Twins(), "g", 0, "d", "x", {FieldPath(Twins(), "d", "x")});
  }

  // ---- a copy beside what is deleted ----

  // Two groups of one label, as duplicating the one gives, and a device in the
  // second.
  const FIRST_GROUP := Node("g", "a", "", 0, false, IDENTITY_MATRIX)
  const SECOND_GROUP := Node("h", "a", "", 0, false, IDENTITY_MATRIX)
  const INNER_DEVICE := Node("d", "x", "h", 0, false, IDENTITY_MATRIX)

  const TWO_GROUPS := Config([FIRST_GROUP, SECOND_GROUP], [INNER_DEVICE], {}, {}, {}, [])

  lemma TwoGroupsAreSound(c: Config, g: Node, h: Node, d: Node)
    requires c.groups == [g, h] && c.devices == [d] && g.id != h.id && g.id != d.id && h.id != d.id
    requires g.id != "" && h.id != "" && d.id != "" && g.parentId == h.parentId == "" && d.parentId == h.id
    ensures Sound(c) && Acyclic(GroupForest(c))
    ensures Find(c.groups, g.id) == Some(g) && Find(Nodes(c), g.id) == Some(g)
    ensures Find(Nodes(c), h.id) == Some(h) && Find(Nodes(c), d.id) == Some(d)
    ensures h.id in GroupForest(c) && GroupForest(c)[h.id] == ""
  {
    assert Nodes(c) == [g, h, d];
    ThreeNodes(Nodes(c), g, h, d);
    ParentInForest(c.groups, h.id);
    GroupsAreAcyclic(c);
  }

  lemma ThreeNodes(nodes: seq<Node>, g: Node, h: Node, d: Node)
    requires nodes == [g, h, d] && g.id != h.id && g.id != d.id && h.id != d.id
    requires g.id != "" && h.id != "" && d.id != "" && g.parentId == h.parentId == "" && d.parentId == h.id
    ensures UniqueIds(nodes) && Acyclic(ParentsOf(nodes))
    ensures Find(nodes, g.id) == Some(g) && Find(nodes, h.id) == Some(h) && Find(nodes, d.id) == Some(d)
  {
    FoundIsIt(nodes, nodes[0]);
    FoundIsIt(nodes, nodes[1]);
    FoundIsIt(nodes, nodes[2]);
    assert Ranked(ParentsOf(nodes), map[g.id := 0, h.id := 0, d.id := 1]);
  }

  lemma InTheSecondOnly(c: Config, g: string, h: string, d: string)
    requires Acyclic(GroupForest(c)) && h in GroupForest(c) && GroupForest(c)[h] == "" && g != h && h != ""
    requires ParentOf(Nodes(c), d) == h
    ensures g !in Above(c, d) && Inside(c, d, h)
  {
    assert Walk(GroupForest(c), "") == [];
    assert Above(c, d) == [h];
  }

  // Deleting the first erases the path of a device in the second, although
  // nothing there has moved and none of it hung from the first.
  lemma DeletedGroupTakesTwinsPaths(field: string, paths: set<string>)
    ensures Sound(TWO_GROUPS) && Acyclic(GroupForest(TWO_GROUPS)) && Acyclic(GroupForest(Deleted(TWO_GROUPS, "g")))
    ensures "g" !in Above(TWO_GROUPS, "d")
    ensures FieldPath(Deleted(TWO_GROUPS, "g"), "d", field) == FieldPath(TWO_GROUPS, "d", field)
    ensures FieldPath(TWO_GROUPS, "d", field) !in PathsWithout(TWO_GROUPS, "g", paths)
  {
    TwoGroupsAreSound(TWO_GROUPS, FIRST_GROUP, SECOND_GROUP, INNER_DEVICE);
    InTheSecondOnly(TWO_GROUPS, "g", "h", "d");
    LikeNamedSiblings(TWO_GROUPS, "g", "h");
    TwinSubtreeLosesPaths(TWO_GROUPS, "g", "h", "d", field, paths);
  }

  // Deleting a device takes the published path of its copy.
  lemma DeletedDeviceTakesCopysPath(published: set<string>, field: string)
    ensures
      var c := RenameExamples.Pair("a", published);
      && Sound(c) && Acyclic(GroupForest(c)) && Acyclic(GroupForest(WithoutDevice(c, "d")))
      && Find(Nodes(c), "e").Some?
      && FieldPath(WithoutDevice(c, "d"), "e", field) == FieldPath(c, "e", field)
      && FieldPath(c, "e", field) !in WithoutDevice(c, "d").publishPaths
  {
    var c := RenameExamples.Pair("a", published);
    RenameExamples.PairIsSound("a", published);
    TwinDeviceLosesPaths(c, "d", "e", field);
  }
}
