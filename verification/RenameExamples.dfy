// Concrete trees on which a rename or a move takes a path to the wrong address,
// leaves one at an address nobody has, or is undone with more than it did.
module RenameExamples {
  import opened Common
  import opened Forests
  import opened Matrices
  import opened DeviceTree
  import opened NodeMoves
  import opened NodeCopies
  import opened NodePaths
  import opened WorkspaceModel

  const GROUP := Node("g", "g", "", 0, false, IDENTITY_MATRIX)
  const DEVICE := Node("d", "a", "", 0, false, IDENTITY_MATRIX)
  const COPY := Node("e", "a", "", 0, false, IDENTITY_MATRIX)

  function Tree(groups: seq<Node>, devices: seq<Node>, publishPaths: set<string>, renderPaths: set<string>): Config {
    Config(groups, devices, publishPaths, {}, renderPaths, [])
  }

  lemma FlatIsSound(c: Config)
    requires UniqueIds(Nodes(c)) && forall n :: n in Nodes(c) ==> n.parentId == ""
    ensures Sound(c) && Acyclic(GroupForest(c))
  {
    var f := ParentsOf(Nodes(c));
    assert Ranked(f, map id | id in f :: 0);
    GroupsAreAcyclic(c);
  }

  lemma RootAddress(c: Config, n: Node)
    requires Acyclic(GroupForest(c)) && Find(Nodes(c), n.id) == Some(n) && n.parentId == ""
    ensures Address(c, n.id) == Name(n)
  {}

  // Paths at root addresses that are one letter each.
  lemma OneLetter(a: char, b: char, x: string, y: string)
    requires a != b
    ensures "device/" + [a] + "/" + x != "device/" + [b] + "/" + y
    ensures "device/" + [a] != "device/" + [b]
  {
    assert ("device/" + [a] + "/" + x)[7] == a && ("device/" + [b] + "/" + y)[7] == b;
    assert ("device/" + [a])[7] == a && ("device/" + [b])[7] == b;
  }

  // A device whose field x is drawn, before and after it is renamed.
  function Drawn(labelText: string, drawn: set<string>): Config {
    Tree([], [DEVICE.(labelText := labelText)], {}, drawn)
  }

  lemma DrawnAddress(labelText: string, drawn: set<string>)
    requires labelText != ""
    ensures Sound(Drawn(labelText, drawn)) && Acyclic(GroupForest(Drawn(labelText, drawn)))
    ensures Find(Nodes(Drawn(labelText, drawn)), "d") == Some(DEVICE.(labelText := labelText))
    ensures NodePrefix(Drawn(labelText, drawn), "d") == "device/" + labelText
    ensures forall m :: Find(Nodes(Drawn(labelText, drawn)), m).Some? ==> m == "d"
  {
    var c := Drawn(labelText, drawn);
    assert Nodes(c) == [DEVICE.(labelText := labelText)];
    FlatIsSound(c);
    RootAddress(c, DEVICE.(labelText := labelText));
  }

  lemma DrawnRelabelled(drawn: set<string>)
    ensures Relabelled(Drawn("a", drawn), "d", "b") == Drawn("b", drawn)
  {}

  lemma NothingAtOldAddress(drawn: set<string>, path: string)
    requires path == "device/" + "a" + "/" + "x"
    ensures Acyclic(GroupForest(Drawn("b", drawn)))
    ensures forall m, field :: Find(Nodes(Drawn("b", drawn)), m).Some? ==>
              FieldPath(Drawn("b", drawn), m, field) != path
  {
    DrawnAddress("b", drawn);
    forall m, field | Find(Nodes(Drawn("b", drawn)), m).Some? ensures FieldPath(Drawn("b", drawn), m, field) != path {
      assert m == "d";
      OneLetter('b', 'a', field, "x");
    }
  }

  // The command that renames a device in a tree that publishes nothing.
  lemma QuietCommand(c: Config, device: Node, text: string) returns (command: LabelCommand)
    requires Acyclic(GroupForest(c)) && Acyclic(GroupForest(Relabelled(c, device.id, text)))
    requires c.publishPaths == c.pushPaths == {}
    ensures MadeBy(command, c, device, text)
    ensures Applied(command, command.after) == c.(devices := WithLabel(c.devices, device.id, text))
  {
    var from, to := NodePrefix(c, device.id), NodePrefix(Relabelled(c, device.id, text), device.id);
    assert Paths.CarriedAll({}, from, to) == {};
    command := LabelCommand(c, device.id, LabelState(device.labelText, {}, {}), LabelState(text, {}, {}));
  }

  // Renaming the device leaves its drawn path at an address that no node has.
  lemma DrawnPathIsLeft(drawn: set<string>, path: string) returns (command: LabelCommand)
    requires path == "device/" + "a" + "/" + "x" && drawn == {path}
    ensures Sound(Drawn("a", drawn)) && Find(Drawn("a", drawn).devices, "d") == Some(DEVICE)
    ensures Acyclic(GroupForest(Drawn("a", drawn))) && Acyclic(GroupForest(Relabelled(Drawn("a", drawn), "d", "b")))
    ensures path == FieldPath(Drawn("a", drawn), "d", "x") && MadeBy(command, Drawn("a", drawn), DEVICE, "b")
    ensures
      var renamed := Applied(command, command.after);
      && Acyclic(GroupForest(renamed)) && path in renamed.renderPaths
      && forall m, field :: Find(Nodes(renamed), m).Some? ==> FieldPath(renamed, m, field) != path
  {
    DrawnAddress("a", drawn);
    NothingAtOldAddress(drawn, path);
    DrawnRelabelled(drawn);
    command := QuietCommand(Drawn("a", drawn), DEVICE, "b");
    assert Applied(command, command.after) == Drawn("b", drawn);
  }

  function Grouped(labelText: string): Config {
    Tree([GROUP], [DEVICE.(labelText := labelText)], {}, {})
  }

  lemma GroupedIsSound(labelText: string)
    ensures
      var c, device := Grouped(labelText), DEVICE.(labelText := labelText);
      && Sound(c) && Acyclic(GroupForest(c)) && Find(c.devices, "d") == Some(device)
      && Find(Nodes(c), "d") == Some(device) && !Under(ParentsOf(Nodes(c)), "g", "d")
  {
    var c := Grouped(labelText);
    assert Nodes(c) == [GROUP, DEVICE.(labelText := labelText)];
    FlatIsSound(c);
    FoundIsIt(Nodes(c), GROUP);
    FoundIsIt(Nodes(c), DEVICE.(labelText := labelText));
    assert Walk(ParentsOf(Nodes(c)), "g") == ["g"];
  }

  lemma GroupedRelabelled()
    ensures Relabelled(Grouped("a"), "d", "b") == Grouped("b")
    ensures Grouped("a").(devices := WithLabel(Grouped("a").devices, "d", "b")) == Grouped("b")
  {}

  lemma IntoTheGroup(c: Config)
    requires c == Grouped("b")
    ensures Sound(c) && !Refused(c, "d", "g")
  {
    GroupedIsSound("b");
  }

  lemma RenamedThenMoved(command: LabelCommand, renamed: Config)
    requires MadeOnItsBase(command) && renamed == Applied(command, command.after)
    requires Sound(renamed) && !Refused(renamed, "d", "g") && ParentOf(Nodes(command.base), "d") == ""
    ensures var moved := Moved(renamed, "d", "g", "");
      ParentOf(Nodes(moved), "d") == "g" && ParentOf(Nodes(Put(moved, command, command.before)), "d") == ""
  {
    UndoTakesBackMoves(command, "d", "g", "");
    UndoLosesNothingElseIff(command, Moved(renamed, "d", "g", ""));
  }

  // Rename, move into the group, undo: the device is out of the group again.
  lemma UndoingARenameUndoesTheMove() returns (command: LabelCommand, renamed: Config)
    ensures MadeOnItsBase(command) && command.base == Grouped("a") && command.id == "d"
    ensures renamed == Applied(command, command.after) && Sound(renamed) && !Refused(renamed, "d", "g")
    ensures var moved := Moved(renamed, "d", "g", "");
      ParentOf(Nodes(moved), "d") == "g" && ParentOf(Nodes(Put(moved, command, command.before)), "d") == ""
  {
    GroupedIsSound("a");
    GroupedRelabelled();
    renamed := Grouped("b");
    IntoTheGroup(renamed);
    GroupsAreAcyclic(renamed);
    command := QuietCommand(Grouped("a"), DEVICE, "b");
    UndoRestoresTheBase(command, Grouped("a"), DEVICE, "b");
    RenamedThenMoved(command, renamed);
  }

  function Pair(labelText: string, published: set<string>): Config {
    Tree([], [DEVICE.(labelText := labelText), COPY], published, {})
  }

  lemma PairNodes(labelText: string, published: set<string>)
    ensures
      var c, device := Pair(labelText, published), DEVICE.(labelText := labelText);
      && Sound(c) && Acyclic(GroupForest(c)) && "d" !in GroupForest(c)
      && Find(Nodes(c), "d") == Some(device) && Find(Nodes(c), "e") == Some(COPY)
  {
    TwoDevices(Pair(labelText, published), DEVICE.(labelText := labelText), COPY);
  }

  lemma TwoDevices(c: Config, a: Node, b: Node)
    requires c.groups == [] && c.devices == [a, b] && a.id != b.id && a.id != "" && b.id != ""
    requires a.parentId == b.parentId == ""
    ensures Sound(c) && Acyclic(GroupForest(c)) && a.id !in GroupForest(c)
    ensures Find(Nodes(c), a.id) == Some(a) && Find(Nodes(c), b.id) == Some(b)
  {
    assert Nodes(c) == [a, b];
    FlatIsSound(c);
    FoundIsIt(Nodes(c), a);
    FoundIsIt(Nodes(c), b);
  }

  lemma RootsApart(c: Config, a: Node, b: Node)
    requires Acyclic(GroupForest(c)) && a.id != b.id && a.id !in GroupForest(c) && a.parentId == b.parentId == ""
    requires Find(Nodes(c), a.id) == Some(a) && Find(Nodes(c), b.id) == Some(b)
    ensures Address(c, a.id) == Name(a) && Address(c, b.id) == Name(b) && !Inside(c, b.id, a.id)
  {
    RootAddress(c, a);
    RootAddress(c, b);
  }

  lemma PairIsSound(labelText: string, published: set<string>)
    requires labelText != ""
    ensures
      var c := Pair(labelText, published);
      && Sound(c) && Acyclic(GroupForest(c)) && Find(Nodes(c), "d").Some? && Find(Nodes(c), "e").Some?
      && Address(c, "d") == labelText && Address(c, "e") == "a" && !Inside(c, "e", "d")
  {
    PairNodes(labelText, published);
    RootsApart(Pair(labelText, published), DEVICE.(labelText := labelText), COPY);
  }

  lemma PairRelabelled(published: set<string>)
    ensures Rehomed(Pair("a", published), Pair("b", published), "d")
  {
    PairRelabels(published);
    PairIsSound("a", published);
    RelabelRehomes(Pair("a", published), "d", "b");
  }

  lemma PairRelabels(published: set<string>)
    ensures Relabelled(Pair("a", published), "d", "b") == Pair("b", published)
  {
    var devices, relabelled := [DEVICE.(labelText := "a"), COPY], [DEVICE.(labelText := "b"), COPY];
    assert WithLabel([], "d", "b") == [];
    assert WithLabel(devices, "d", "b") == relabelled;
  }

  const ALONE := Tree([], [DEVICE], {}, {})

  lemma AloneIsSound()
    ensures Sound(ALONE) && Find(ALONE.devices, "d") == Some(DEVICE)
  {
    assert Nodes(ALONE) == [DEVICE];
    FlatIsSound(ALONE);
  }

  lemma CopyBeside(alone: Config, copied: seq<Node>)
    requires Sound(alone) && Find(alone.devices, "d") == Some(DEVICE) && copied == alone.devices + [COPY]
    ensures Duplicated(alone, map["d" := "e"]).devices == copied
  {
    CopyOfOneDevice(alone, "d", DEVICE, "e");
  }

  // A device and its copy beside it have one address. Renaming the device takes
  // the copy's published path along, although the copy stays where it was.
  lemma RenamingTakesTheCopysPath(published: set<string>, path: string)
    requires path == "device/" + "a" + "/" + "x" && published == {path}
    ensures Duplicated(ALONE, map["d" := "e"]).devices == Pair("a", published).devices
    ensures Sound(Pair("a", published)) && Relabelled(Pair("a", published), "d", "b") == Pair("b", published)
    ensures Rehomed(Pair("a", published), Pair("b", published), "d")
    ensures
      var c, d := Pair("a", published), Pair("b", published);
      && path == FieldPath(c, "e", "x") == FieldPath(d, "e", "x")
      && path !in Rerooted(d, NodePrefix(c, "d"), NodePrefix(d, "d")).publishPaths
      && FieldPath(d, "d", "x") in Rerooted(d, NodePrefix(c, "d"), NodePrefix(d, "d")).publishPaths
  {
    AloneIsSound();
    CopyBeside(ALONE, Pair("a", published).devices);
    PairIsSound("a", published);
    PairIsSound("b", published);
    PairRelabels(published);
    PairRelabelled(published);
    OneLetter('a', 'b', "x", "x");
    TwinsPath(Pair("a", published), Pair("b", published), path);
  }

  lemma TwinsPath(c: Config, d: Config, path: string)
    requires Rehomed(c, d, "d") && !Inside(c, "e", "d")
    requires Address(c, "d") == Address(c, "e") == Address(d, "e") && NodePrefix(c, "d") != NodePrefix(d, "d")
    requires path == FieldPath(c, "e", "x") && d.publishPaths == {path}
    ensures
      var carried := Rerooted(d, NodePrefix(c, "d"), NodePrefix(d, "d")).publishPaths;
      path !in carried && FieldPath(d, "d", "x") in carried
  {
    TwinPathGoesAlong(c, d, "d", "e", "x");
    Paths.CarriedAllOfOne(path, NodePrefix(c, "d"), NodePrefix(d, "d"));
  }
}
