// The workspace model's operations on the device tree: each changes the
// configuration in place, keeps it sound, and is proved against the functions
// that say what the new tree and the new paths are.
module WorkspaceModel {
  import opened Common
  import opened Forests
  import opened Siblings
  import opened DeviceTree
  import opened NodeMoves
  import opened NodePaths
  import opened GroupDeletion
  import opened Matrices
  import opened NodeCopies
  import Labels

  // ---- what a change of one node leaves of the others ----

  lemma {:induction false} FindTogether(a: seq<Node>, b: seq<Node>, x: string) returns (i: int)
    requires SameIds(a, b)
    ensures Find(a, x).None? <==> Find(b, x).None?
    ensures Find(a, x).Some? ==> 0 <= i < |a| && Find(a, x) == Some(a[i]) && Find(b, x) == Some(b[i])
  {
    if a == [] || a[0].id == x {
      i := 0;
    } else {
      assert SameIds(a[1..], b[1..]);
      var k := FindTogether(a[1..], b[1..], x);
      i := k + 1;
    }
  }

  // Nodes that differ at most at one id, and there keep the id.
  predicate DiffersOnlyAt(a: seq<Node>, b: seq<Node>, id: string) {
    SameIds(a, b)
    && forall i :: 0 <= i < |a| && a[i].id != id ==> b[i].parentId == a[i].parentId && Name(b[i]) == Name(a[i])
  }

  lemma SameElsewhere(a: seq<Node>, b: seq<Node>, id: string, x: string)
    requires DiffersOnlyAt(a, b, id)
    ensures Find(a, x).Some? == Find(b, x).Some?
    ensures x != id ==> ParentOf(a, x) == ParentOf(b, x) && NameOf(a, x) == NameOf(b, x)
  {
    var i := FindTogether(a, b, x);
  }

  lemma ForestDiffersAt(a: seq<Node>, b: seq<Node>, id: string)
    requires DiffersOnlyAt(a, b, id)
    ensures ParentsOf(b) == if id in Ids(a) then ParentsOf(a)[id := ParentOf(b, id)] else ParentsOf(a)
  {
    SameIdSets(a, b);
    forall x | x in Ids(a) && x != id ensures ParentOf(b, x) == ParentOf(a, x) { SameElsewhere(a, b, id, x); }
  }

  lemma NamesDifferAt(a: seq<Node>, b: seq<Node>, id: string)
    requires DiffersOnlyAt(a, b, id)
    ensures NamesOf(b) == if id in Ids(a) then NamesOf(a)[id := NameOf(b, id)] else NamesOf(a)
  {
    SameIdSets(a, b);
    forall x | x in Ids(a) && x != id ensures NameOf(b, x) == NameOf(a, x) { SameElsewhere(a, b, id, x); }
  }

  lemma OfItsGroup(c: Config, id: string)
    requires id in Ids(c.groups)
    ensures ParentOf(Nodes(c), id) == ParentOf(c.groups, id) && NameOf(Nodes(c), id) == NameOf(c.groups, id)
  {
    IdsAreFound(c.groups, id);
    FindInBoth(c.groups, c.devices, id);
  }

  lemma RehomesGroups(c: Config, d: Config, id: string)
    requires DiffersOnlyAt(c.groups, d.groups, id)
    ensures GroupForest(d)
         == if id in GroupForest(c) then GroupForest(c)[id := ParentOf(Nodes(d), id)] else GroupForest(c)
    ensures NamesOf(d.groups)
         == if id in GroupForest(c) then NamesOf(c.groups)[id := NameOf(Nodes(d), id)] else NamesOf(c.groups)
  {
    ForestDiffersAt(c.groups, d.groups, id);
    NamesDifferAt(c.groups, d.groups, id);
    SameIdSets(c.groups, d.groups);
    if id in Ids(d.groups) { OfItsGroup(d, id); }
  }

  lemma RehomesNodes(c: Config, d: Config, id: string, x: string)
    requires DiffersOnlyAt(Nodes(c), Nodes(d), id)
    ensures Find(Nodes(c), x).Some? == Find(Nodes(d), x).Some? && (x != id ==> SameAt(c, d, x))
  {
    SameElsewhere(Nodes(c), Nodes(d), id, x);
  }

  lemma DiffersInBoth(c: Config, d: Config, id: string)
    requires DiffersOnlyAt(c.groups, d.groups, id) && DiffersOnlyAt(c.devices, d.devices, id)
    ensures DiffersOnlyAt(Nodes(c), Nodes(d), id)
  {}

  lemma Rehomes(c: Config, d: Config, id: string)
    requires Sound(c) && Sound(d) && Find(Nodes(c), id).Some?
    requires DiffersOnlyAt(c.groups, d.groups, id) && DiffersOnlyAt(c.devices, d.devices, id)
    ensures Rehomed(c, d, id)
  {
    GroupsAreAcyclic(c);
    GroupsAreAcyclic(d);
    RehomesGroups(c, d, id);
    DiffersInBoth(c, d, id);
    RehomesNodes(c, d, id, id);
    forall x | x != id ensures SameAt(c, d, x) { RehomesNodes(c, d, id, x); }
  }

  // ---- moving ----

  lemma PlacedDiffers(c: Config, id: string, parent: string, before: string)
    ensures DiffersOnlyAt(c.groups, Placed(c, id, parent, before).groups, id)
    ensures DiffersOnlyAt(c.devices, Placed(c, id, parent, before).devices, id)
  {}

  // A move carried out leaves every other node's parent and name, so paths
  // follow it as NodePaths says.
  lemma MoveRehomes(c: Config, id: string, parent: string, before: string)
    requires Sound(c) && !Refused(c, id, parent)
    ensures Rehomed(c, Placed(c, id, parent, before), id)
  {
    MoveKeepsSound(c, id, parent, before);
    PlacedDiffers(c, id, parent, before);
    Rehomes(c, Placed(c, id, parent, before), id);
  }

  function Rerooted(c: Config, from: string, to: string): Config {
    c.(publishPaths := Paths.CarriedAll(c.publishPaths, from, to),
       pushPaths := Paths.CarriedAll(c.pushPaths, from, to),
       renderPaths := Paths.CarriedAll(c.renderPaths, from, to))
  }

  ghost function Moved(c: Config, id: string, parent: string, before: string): Config
    requires Sound(c)
  {
    if Refused(c, id, parent) then c
    else
      MoveRehomes(c, id, parent, before);
      var placed := Placed(c, id, parent, before);
      Rerooted(placed, NodePrefix(c, id), NodePrefix(placed, id))
  }

  // Some fields of nodes of the tree, none of them elsewhere under the address of
  // the node moved.
  ghost predicate Movable(c: Config, id: string, fields: set<(string, string)>)
    requires Acyclic(GroupForest(c))
  {
    Clear(c, fields, id) && forall f :: f in fields ==> Find(Nodes(c), f.0).Some?
  }

  // Rerooting all three sets to a node's new address, for a move or a new label.
  lemma RerootCarriesEveryField(c: Config, d: Config, id: string, published: set<(string, string)>,
                                pushed: set<(string, string)>, drawn: set<(string, string)>)
    requires Rehomed(c, d, id)
    requires Movable(c, id, published) && d.publishPaths == c.publishPaths == FieldPaths(c, published)
    requires Movable(c, id, pushed) && d.pushPaths == c.pushPaths == FieldPaths(c, pushed)
    requires Movable(c, id, drawn) && d.renderPaths == c.renderPaths == FieldPaths(c, drawn)
    ensures
      var e := Rerooted(d, NodePrefix(c, id), NodePrefix(d, id));
      && e.groups == d.groups && e.devices == d.devices && e.disabled == d.disabled
      && e.publishPaths == FieldPaths(d, published)
      && e.pushPaths == FieldPaths(d, pushed)
      && e.renderPaths == FieldPaths(d, drawn)
  {
    RerootCommutes(c, d, id, published);
    RerootCommutes(c, d, id, pushed);
    RerootCommutes(c, d, id, drawn);
  }

  // Whatever fields are published, pushed and drawn of whatever nodes, after a
  // move exactly the same fields of the same nodes are, at their new addresses.
  lemma MoveCarriesEveryField(c: Config, id: string, parent: string, before: string, published: set<(string, string)>,
                              pushed: set<(string, string)>, drawn: set<(string, string)>)
    requires Sound(c) && !Refused(c, id, parent) && Acyclic(GroupForest(c))
    requires Movable(c, id, published) && c.publishPaths == FieldPaths(c, published)
    requires Movable(c, id, pushed) && c.pushPaths == FieldPaths(c, pushed)
    requires Movable(c, id, drawn) && c.renderPaths == FieldPaths(c, drawn)
    ensures
      var d, placed := Moved(c, id, parent, before), Placed(c, id, parent, before);
      && d.groups == placed.groups && d.devices == placed.devices && Acyclic(GroupForest(placed))
      && d.publishPaths == FieldPaths(placed, published)
      && d.pushPaths == FieldPaths(placed, pushed)
      && d.renderPaths == FieldPaths(placed, drawn)
  {
    MoveRehomes(c, id, parent, before);
    RerootCarriesEveryField(c, Placed(c, id, parent, before), id, published, pushed, drawn);
  }

  // ---- relabelling ----

  function WithLabel(nodes: seq<Node>, id: string, text: string): (r: seq<Node>)
    ensures |r| == |nodes|
  {
    seq(|nodes|, i requires 0 <= i < |nodes| =>
      if nodes[i].id == id then nodes[i].(labelText := text) else nodes[i])
  }

  function Relabelled(c: Config, id: string, text: string): Config {
    c.(groups := WithLabel(c.groups, id, text), devices := WithLabel(c.devices, id, text))
  }

  lemma RelabelKeepsParents(nodes: seq<Node>, id: string, text: string)
    requires UniqueIds(nodes)
    ensures UniqueIds(WithLabel(nodes, id, text)) && ParentsOf(WithLabel(nodes, id, text)) == ParentsOf(nodes)
  {
    var b := WithLabel(nodes, id, text);
    SameIdsAreUnique(nodes, b);
    forall x | x in Ids(nodes) ensures ParentOf(b, x) == ParentOf(nodes, x) { var i := FindTogether(nodes, b, x); }
  }

  lemma RelabelRehomes(c: Config, id: string, text: string)
    requires Sound(c) && Find(Nodes(c), id).Some?
    ensures Rehomed(c, Relabelled(c, id, text), id)
  {
    var d := Relabelled(c, id, text);
    RelabelKeepsParents(Nodes(c), id, text);
    assert Nodes(d) == WithLabel(Nodes(c), id, text);
    Rehomes(c, d, id);
  }

  // The published and pushed paths, unlike those drawn, travel with a device's
  // label: they are what the undo command keeps.
  datatype LabelState = LabelState(text: string, publishPaths: set<string>, pushPaths: set<string>)

  datatype LabelCommand = LabelCommand(base: Config, id: string, before: LabelState, after: LabelState)

  // The whole configuration the command was made on, with one state put in.
  function Applied(command: LabelCommand, state: LabelState): Config {
    command.base.(devices := WithLabel(command.base.devices, command.id, state.text),
                  publishPaths := state.publishPaths, pushPaths := state.pushPaths)
  }

  ghost predicate MadeBy(command: LabelCommand, c: Config, device: Node, text: string)
    requires Acyclic(GroupForest(c)) && Acyclic(GroupForest(Relabelled(c, device.id, text)))
  {
    var from, to := NodePrefix(c, device.id), NodePrefix(Relabelled(c, device.id, text), device.id);
    && command.base == c && command.id == device.id
    && command.before == LabelState(device.labelText, c.publishPaths, c.pushPaths)
    && command.after == LabelState(text, Paths.CarriedAll(c.publishPaths, from, to),
                                   Paths.CarriedAll(c.pushPaths, from, to))
  }

  // What every command made by a rename keeps of the configuration it was made
  // on.
  ghost predicate MadeOnItsBase(command: LabelCommand) {
    var found := Find(command.base.devices, command.id);
    && Sound(command.base) && found.Some?
    && command.before == LabelState(found.value.labelText, command.base.publishPaths, command.base.pushPaths)
  }

  lemma OwnLabelChangesNothing(nodes: seq<Node>, device: Node)
    requires UniqueIds(nodes) && device in nodes
    ensures WithLabel(nodes, device.id, device.labelText) == nodes
  {
    forall i | 0 <= i < |nodes| && nodes[i].id == device.id ensures nodes[i] == device {
      FoundIsIt(nodes, nodes[i]);
      FoundIsIt(nodes, device);
    }
  }

  lemma GroupsKeepLabels(c: Config, id: string, text: string)
    requires Sound(c) && Find(c.devices, id).Some?
    ensures WithLabel(c.groups, id, text) == c.groups
  {
    NotAGroup(c, id);
  }

  // Undoing a rename gives back the whole configuration it was made on, and so
  // undoes whatever else was done since; doing it again renames the device with
  // its published and pushed paths, and leaves the drawn ones where they were.
  lemma UndoRestoresTheBase(command: LabelCommand, c: Config, device: Node, text: string)
    requires Sound(c) && Find(c.devices, device.id) == Some(device)
    requires Acyclic(GroupForest(c)) && Acyclic(GroupForest(Relabelled(c, device.id, text)))
    requires MadeBy(command, c, device, text)
    ensures MadeOnItsBase(command) && Applied(command, command.before) == c
    ensures
      var d := Relabelled(c, device.id, text);
      Applied(command, command.after)
        == Rerooted(d, NodePrefix(c, device.id), NodePrefix(d, device.id)).(renderPaths := c.renderPaths)
  {
    DevicesAreUnique(c);
    OwnLabelChangesNothing(c.devices, device);
    GroupsKeepLabels(c, device.id, text);
  }

  // The drawn paths do not travel, so renaming leaves the tree fully rerooted
  // exactly when the address stays or nothing drawn lies under it.
  lemma RenameRerootsIffNothingDrawn(command: LabelCommand, c: Config, device: Node, text: string)
    requires Sound(c) && Find(c.devices, device.id) == Some(device)
    requires Acyclic(GroupForest(c)) && Acyclic(GroupForest(Relabelled(c, device.id, text)))
    requires MadeBy(command, c, device, text)
    ensures
      var d := Relabelled(c, device.id, text);
      var from, to := NodePrefix(c, device.id), NodePrefix(d, device.id);
      Applied(command, command.after) == Rerooted(d, from, to) <==>
        (from == to || forall p :: p in c.renderPaths ==> !Paths.Under(p, from))
  {
    UndoRestoresTheBase(command, c, device, text);
    var d := Relabelled(c, device.id, text);
    Paths.CarriedAllFixes(c.renderPaths, NodePrefix(c, device.id), NodePrefix(d, device.id));
  }

  // What undo and redo put in place of the configuration on show, which plays
  // no part unless the device is missing from the command's base.
  function Put(now: Config, command: LabelCommand, state: LabelState): Config {
    if Find(command.base.devices, command.id).None? then now else Applied(command, state)
  }

  // Two configurations that agree in everything a label command does not keep.
  predicate SameButForLabel(a: Config, b: Config, id: string) {
    && a.groups == b.groups && a.renderPaths == b.renderPaths && a.disabled == b.disabled
    && WithLabel(a.devices, id, "") == WithLabel(b.devices, id, "")
  }

  predicate Shows(now: Config, id: string, state: LabelState) {
    && Find(now.devices, id).Some? && Find(now.devices, id).value.labelText == state.text
    && now.publishPaths == state.publishPaths && now.pushPaths == state.pushPaths
  }

  lemma LabelsAside(a: seq<Node>, b: seq<Node>, id: string)
    requires WithLabel(a, id, "") == WithLabel(b, id, "")
    ensures |a| == |b| && forall i :: 0 <= i < |a| ==>
              a[i].id == b[i].id && (a[i].id != id ==> a[i] == b[i]) && a[i].(labelText := "") == b[i].(labelText := "")
  {
    forall i | 0 <= i < |a|
      ensures a[i].id == b[i].id && (a[i].id != id ==> a[i] == b[i]) && a[i].(labelText := "") == b[i].(labelText := "")
    {
      assert WithLabel(a, id, "")[i] == WithLabel(b, id, "")[i];
    }
  }

  lemma SameDevicesWithLabel(a: seq<Node>, b: seq<Node>, id: string, text: string)
    requires UniqueIds(b) && Find(a, id).Some? && Find(a, id).value.labelText == text
    requires WithLabel(a, id, "") == WithLabel(b, id, "")
    ensures a == WithLabel(b, id, text)
  {
    LabelsAside(a, b, id);
    SameIdsAreUnique(b, a);
    forall i | 0 <= i < |a| ensures a[i] == WithLabel(b, id, text)[i] { FoundIsIt(a, a[i]); }
  }

  lemma {:induction false} FindWithLabel(nodes: seq<Node>, id: string, text: string)
    requires Find(nodes, id).Some?
    ensures Find(WithLabel(nodes, id, text), id) == Some(Find(nodes, id).value.(labelText := text))
  {
    if nodes[0].id == id {
    } else {
      FindWithLabel(nodes[1..], id, text);
      assert WithLabel(nodes, id, text)[1..] == WithLabel(nodes[1..], id, text);
    }
  }

  lemma RedoneIsSound(command: LabelCommand)
    requires MadeOnItsBase(command)
    ensures
      var redone := Applied(command, command.after);
      Sound(redone) && Shows(redone, command.id, command.after) && SameButForLabel(redone, command.base, command.id)
  {
    var c, text := command.base, command.after.text;
    FindWithLabel(c.devices, command.id, text);
    assert WithLabel(WithLabel(c.devices, command.id, text), command.id, "") == WithLabel(c.devices, command.id, "");
    FindInBoth(c.groups, c.devices, command.id);
    RelabelRehomes(c, command.id, text);
    GroupsKeepLabels(c, command.id, text);
    SoundDespitePaths(Relabelled(c, command.id, text), Applied(command, command.after));
  }

  lemma ShownIsApplied(command: LabelCommand, now: Config)
    requires MadeOnItsBase(command) && Shows(now, command.id, command.after)
    requires SameButForLabel(now, command.base, command.id)
    ensures now == Applied(command, command.after)
  {
    DevicesAreUnique(command.base);
    SameDevicesWithLabel(now.devices, command.base.devices, command.id, command.after.text);
  }

  lemma UndoneIsBase(command: LabelCommand)
    requires MadeOnItsBase(command)
    ensures Applied(command, command.before) == command.base
  {
    DevicesAreUnique(command.base);
    OwnLabelChangesNothing(command.base.devices, Find(command.base.devices, command.id).value);
  }

  // Undo gives back the command's base whatever has been done since. Nothing
  // else is lost exactly when nothing else has been done, and exactly then does
  // redo bring back what was on show.
  lemma UndoLosesNothingElseIff(command: LabelCommand, now: Config)
    requires MadeOnItsBase(command)
    ensures
      var undone := Put(now, command, command.before);
      && undone == command.base
      && (now == Applied(command, command.after) <==>
            Shows(now, command.id, command.after) && SameButForLabel(now, undone, command.id))
      && (now == Applied(command, command.after) <==> Put(undone, command, command.after) == now)
  {
    UndoneIsBase(command);
    RedoneIsSound(command);
    if Shows(now, command.id, command.after) && SameButForLabel(now, command.base, command.id) {
      ShownIsApplied(command, now);
    }
  }

  // A move is not on the undo stack: one made after a rename is taken back with
  // it. The node is then where it was moved to only if it hung there already.
  lemma UndoTakesBackMoves(command: LabelCommand, x: string, parent: string, before: string)
    requires MadeOnItsBase(command)
    requires var renamed := Applied(command, command.after); Sound(renamed) && !Refused(renamed, x, parent)
    ensures
      var moved := Moved(Applied(command, command.after), x, parent, before);
      && ParentOf(Nodes(moved), x) == parent
      && (ParentOf(Nodes(Put(moved, command, command.before)), x) == parent <==>
            ParentOf(Nodes(command.base), x) == parent)
  {
    var renamed := Applied(command, command.after);
    UndoLosesNothingElseIff(command, Moved(renamed, x, parent, before));
    PlacedParent(renamed, x, parent, before);
  }

  lemma PlacedParent(c: Config, id: string, parent: string, before: string)
    requires Sound(c) && Find(Nodes(c), id).Some?
    ensures ParentOf(Nodes(Placed(c, id, parent, before)), id) == parent
  {
    var d := Placed(c, id, parent, before);
    PlacedNodes(c, id, parent, before);
    var i := FindTogether(Nodes(c), Nodes(d), id);
  }

  // ---- deleting ----

  function Forgotten(disabled: seq<set<string>>, id: string): (r: seq<set<string>>)
    ensures |r| == |disabled| && forall i :: 0 <= i < |r| ==> r[i] == disabled[i] - {id}
  {
    seq(|disabled|, i requires 0 <= i < |disabled| => disabled[i] - {id})
  }

  // Paths carried through one pair of prefixes after another.
  function CarriedWith(d: Config, prefixes: seq<(string, string)>): Config {
    d.(publishPaths := Paths.CarriedAllThrough(d.publishPaths, prefixes),
       pushPaths := Paths.CarriedAllThrough(d.pushPaths, prefixes),
       renderPaths := Paths.CarriedAllThrough(d.renderPaths, prefixes))
  }

  function ErasedUnder(c: Config, prefix: string): Config {
    c.(publishPaths := Paths.Erased(c.publishPaths, prefix),
       pushPaths := Paths.Erased(c.pushPaths, prefix),
       renderPaths := Paths.Erased(c.renderPaths, prefix))
  }

  ghost function WithoutGroup(c: Config, gone: string): (d: Config)
    requires Acyclic(GroupForest(c)) && Acyclic(GroupForest(Deleted(c, gone)))
    ensures d.groups == Deleted(c, gone).groups && d.devices == Deleted(c, gone).devices
  {
    var prefixes := ChildPrefixes(c, Deleted(c, gone), ChildIds(Nodes(c), gone));
    ErasedUnder(CarriedWith(Deleted(c, gone), prefixes), NodePrefix(c, gone)).(disabled := Forgotten(c.disabled, gone))
  }

  lemma ErasedAfterCarrying(d: Config, prefixes: seq<(string, string)>, prefix: string)
    ensures
      var e := ErasedUnder(CarriedWith(d, prefixes), prefix);
      && e.publishPaths == Paths.Erased(Paths.CarriedAllThrough(d.publishPaths, prefixes), prefix)
      && e.pushPaths == Paths.Erased(Paths.CarriedAllThrough(d.pushPaths, prefixes), prefix)
      && e.renderPaths == Paths.Erased(Paths.CarriedAllThrough(d.renderPaths, prefixes), prefix)
  {}

  // The three sets of paths are what GroupDeletion's laws speak of.
  lemma WithoutGroupPaths(c: Config, gone: string)
    requires Acyclic(GroupForest(c)) && Acyclic(GroupForest(Deleted(c, gone)))
    ensures WithoutGroup(c, gone).publishPaths == PathsWithout(c, gone, c.publishPaths)
    ensures WithoutGroup(c, gone).pushPaths == PathsWithout(c, gone, c.pushPaths)
    ensures WithoutGroup(c, gone).renderPaths == PathsWithout(c, gone, c.renderPaths)
  {
    var d := Deleted(c, gone);
    ErasedAfterCarrying(d, ChildPrefixes(c, d, ChildIds(Nodes(c), gone)), NodePrefix(c, gone));
  }

  // ---- deleting a device ----

  ghost function WithoutDevice(c: Config, id: string): Config
    requires Acyclic(GroupForest(c))
  {
    c.(devices := Removed(c.devices, id),
       publishPaths := Paths.Erased(c.publishPaths, NodePrefix(c, id)),
       pushPaths := Paths.Erased(c.pushPaths, NodePrefix(c, id)),
       renderPaths := Paths.Erased(c.renderPaths, NodePrefix(c, id)),
       disabled := Forgotten(c.disabled, id))
  }

  lemma {:induction false} RemovedFromSecond(a: seq<Node>, b: seq<Node>, id: string)
    requires Find(a, id).None?
    ensures Removed(a + b, id) == a + Removed(b, id)
  {
    if a == [] {
      assert a + b == b;
    } else {
      assert (a + b)[1..] == a[1..] + b;
      RemovedFromSecond(a[1..], b, id);
    }
  }

  lemma ParentsWithoutOne(nodes: seq<Node>, rest: seq<Node>, id: string)
    requires forall x :: Find(rest, x) == if x == id then None else Find(nodes, x)
    ensures ParentsOf(rest) == ParentsOf(nodes) - {id}
  {
    forall x ensures x in Ids(rest) <==> x in Ids(nodes) && x != id {
      IdsAreFound(nodes, x);
      IdsAreFound(rest, x);
    }
  }

  lemma RemovedParents(nodes: seq<Node>, id: string)
    requires UniqueIds(nodes)
    ensures UniqueIds(Removed(nodes, id)) && ParentsOf(Removed(nodes, id)) == ParentsOf(nodes) - {id}
  {
    RemovedIsUnique(nodes, id);
    forall x ensures Find(Removed(nodes, id), x) == if x == id then None else Find(nodes, x) {
      FindRemoved(nodes, id, x);
    }
    ParentsWithoutOne(nodes, Removed(nodes, id), id);
  }

  lemma DeviceDeletionKeepsSound(c: Config, id: string)
    requires Sound(c) && Find(c.devices, id).Some?
    ensures Acyclic(GroupForest(c)) && Sound(WithoutDevice(c, id))
  {
    GroupsAreAcyclic(c);
    NotAGroup(c, id);
    RemovedFromSecond(c.groups, c.devices, id);
    RemovedParents(Nodes(c), id);
    PartIsAcyclic(ParentsOf(Nodes(c)), ParentsOf(Nodes(c)) - {id});
    assert Nodes(WithoutDevice(c, id)) == Removed(Nodes(c), id);
  }

  lemma NotAGroup(c: Config, id: string)
    requires Sound(c) && Find(c.devices, id).Some?
    ensures Find(c.groups, id).None?
  {
    SoundGroups(c);
    IdsAreFound(c.groups, id);
    IdsAreFound(c.devices, id);
  }

  // Deleting a device moves no other node.
  lemma DeviceDeletionKeepsAddresses(c: Config, id: string, m: string)
    requires Sound(c) && Find(c.devices, id).Some? && m != id
    ensures Acyclic(GroupForest(c)) && Acyclic(GroupForest(WithoutDevice(c, id)))
    ensures Address(WithoutDevice(c, id), m) == Address(c, m) && WorldOf(WithoutDevice(c, id), m) == WorldOf(c, m)
  {
    GroupsAreAcyclic(c);
    NotAGroup(c, id);
    RemovedFromSecond(c.groups, c.devices, id);
    FindRemoved(Nodes(c), id, m);
    assert Nodes(WithoutDevice(c, id)) == Removed(Nodes(c), id);
  }

  // Any other node keeps its path, in each of the three sets, exactly when that
  // does not lie under the device's address.
  lemma DevicePathSurvivesIff(c: Config, id: string, m: string, field: string)
    requires Sound(c) && Find(c.devices, id).Some? && m != id && Acyclic(GroupForest(c))
    ensures Acyclic(GroupForest(WithoutDevice(c, id)))
    ensures
      var d, p := WithoutDevice(c, id), FieldPath(WithoutDevice(c, id), m, field);
      && p == FieldPath(c, m, field)
      && (p in d.publishPaths <==> p in c.publishPaths && !Paths.Under(p, NodePrefix(c, id)))
      && (p in d.pushPaths <==> p in c.pushPaths && !Paths.Under(p, NodePrefix(c, id)))
      && (p in d.renderPaths <==> p in c.renderPaths && !Paths.Under(p, NodePrefix(c, id)))
  {
    DeviceDeletionKeepsAddresses(c, id, m);
  }

  // So a device with the same address, as a copy beside it has, loses them all.
  lemma TwinDeviceLosesPaths(c: Config, id: string, m: string, field: string)
    requires Sound(c) && Find(c.devices, id).Some? && m != id && Acyclic(GroupForest(c))
    requires Address(c, m) == Address(c, id)
    ensures Acyclic(GroupForest(WithoutDevice(c, id)))
    ensures
      var d, p := WithoutDevice(c, id), FieldPath(WithoutDevice(c, id), m, field);
      p == FieldPath(c, m, field) && p !in d.publishPaths && p !in d.pushPaths && p !in d.renderPaths
  {
    DevicePathSurvivesIff(c, id, m, field);
    Paths.BelowPrefix(NodePrefix(c, id), field);
  }

  // ---- creating a group ----

  function WithGroup(c: Config, group: Node): Config {
    c.(groups := c.groups + [group])
  }

  lemma CreationKeepsSound(c: Config, group: Node)
    requires Sound(c) && Unused(ParentsOf(Nodes(c)), group.id) && group.parentId != group.id
    ensures Sound(WithGroup(c, group))
    ensures ParentsOf(Nodes(WithGroup(c, group))) == ParentsOf(Nodes(c))[group.id := group.parentId]
  {
    var was, now := Nodes(c), Nodes(WithGroup(c, group));
    CreationIsUnique(c, group);
    AddKeepsAcyclic(ParentsOf(was), group.id, group.parentId);
    forall n ensures n in now <==> n in was || n == group {}
    AddedParents(was, now, group);
  }

  lemma CreationIsUnique(c: Config, group: Node)
    requires Sound(c) && Unused(ParentsOf(Nodes(c)), group.id)
    ensures UniqueIds(Nodes(WithGroup(c, group))) && group.id !in Ids(Nodes(c))
  {
    var nodes := Nodes(c);
    forall n | n in nodes ensures n.id != group.id { assert n.id in ParentsOf(nodes); }
    InsertedIsUnique(c.groups, c.devices, group);
  }

  lemma InsertedIsUnique(a: seq<Node>, b: seq<Node>, n: Node)
    requires UniqueIds(a + b) && n.id != "" && n.id !in Ids(a + b)
    ensures UniqueIds(a + [n] + b)
  {
    var now, was := a + [n] + b, a + b;
    forall i | 0 <= i < |now| ensures now[i] == n || (now[i] in was && now[i].id in Ids(was)) {
      if i < |a| { assert now[i] == was[i]; } else if i > |a| { assert now[i] == was[i - 1]; }
    }
    forall i, j | 0 <= i < j < |now| ensures now[i].id != now[j].id {
      var x, y := if i < |a| then i else i - 1, if j < |a| then j else j - 1;
      if i != |a| && j != |a| { assert now[i] == was[x] && now[j] == was[y]; }
    }
  }

  lemma AddedParents(was: seq<Node>, now: seq<Node>, n: Node)
    requires UniqueIds(was) && UniqueIds(now) && n.id !in Ids(was)
    requires forall m :: m in now <==> m in was || m == n
    ensures ParentsOf(now) == ParentsOf(was)[n.id := n.parentId]
  {
    assert Ids(now) == Ids(was) + {n.id} by {
      forall x | x in Ids(was) ensures x in Ids(now) { var m :| m in was && m.id == x; assert m in now; }
      assert n in now;
    }
    forall x | x in Ids(now) ensures ParentOf(now, x) == if x == n.id then n.parentId else ParentOf(was, x) {
      var m :| m in now && m.id == x;
      FoundIsIt(now, m);
      if m in was { FoundIsIt(was, m); }
    }
  }

  // ---- duplicating ----

  ghost function DuplicatedNode(c: Config, id: string, word: string -> string): Config
    requires Acyclic(GroupForest(c))
  {
    if id == "" || Find(Nodes(c), id).None? then c
    else if Find(c.devices, id).Some? then Duplicated(c, map[id := word(id)])
    else Duplicated(c, NewIds(Subtree(c, id), word))
  }

  function NewIds(nodes: set<string>, word: string -> string): map<string, string> {
    map x | x in nodes :: word(x)
  }

  // Words no node has for its id or its parent's, a different one each time.
  ghost predicate Supply(c: Config, word: string -> string) {
    && (forall x, y :: word(x) == word(y) ==> x == y)
    && (forall x :: Unused(ParentsOf(Nodes(c)), word(x)))
  }

  lemma CopyOfOneDevice(c: Config, id: string, device: Node, word: string)
    requires Sound(c) && Find(c.devices, id) == Some(device)
    ensures Duplicated(c, map[id := word]) == c.(devices := c.devices + [device.(id := word)])
  {
    var ids := map[id := word];
    NotAGroup(c, id);
    NoCopies(c.groups, ids);
    DevicesAreUnique(c);
    OneCopy(c.devices, ids, device);
    NotItsOwnParent(c, device);
    assert CopyOf(device, ids) == device.(id := word);
    assert c.groups + [] == c.groups;
  }

  lemma DevicesAreUnique(c: Config)
    requires Sound(c)
    ensures UniqueIds(c.devices)
  {
    SoundGroups(c);
  }

  lemma NotItsOwnParent(c: Config, n: Node)
    requires Sound(c) && n in Nodes(c)
    ensures n.parentId != n.id
  {
    ParentsByNode(Nodes(c));
    var f := ParentsOf(Nodes(c));
    assert f[n.id] in f ==> RankOf(f)[f[n.id]] < RankOf(f)[n.id];
  }

  lemma {:induction false} NoCopies(nodes: seq<Node>, ids: map<string, string>)
    requires forall n :: n in nodes ==> n.id !in ids
    ensures Copies(nodes, ids) == []
    decreases |nodes|
  {
    if nodes == [] {
    } else {
      NoCopies(nodes[..|nodes| - 1], ids);
    }
  }

  lemma {:induction false} OneCopy(nodes: seq<Node>, ids: map<string, string>, device: Node)
    requires UniqueIds(nodes) && device in nodes && ids.Keys == {device.id}
    ensures Copies(nodes, ids) == [CopyOf(device, ids)]
    decreases |nodes|
  {
    var front, last := nodes[..|nodes| - 1], nodes[|nodes| - 1];
    assert UniqueIds(front) by { assert forall n :: n in front ==> n in nodes; }
    if last.id == device.id {
      assert device == last by { FoundIsIt(nodes, device); FoundIsIt(nodes, last); }
      NoCopies(front, ids);
    } else {
      OneCopy(front, ids, device);
    }
  }

  method CopyNodes(nodes: seq<Node>, ids: map<string, string>) returns (copies: seq<Node>)
    ensures copies == Copies(nodes, ids)
  {
    copies := [];
    for i := 0 to |nodes|
      invariant copies == Copies(nodes[..i], ids)
    {
      assert nodes[..i + 1][..i] == nodes[..i];
      var n := nodes[i];
      if n.id !in ids { continue; }
      var copy := n.(id := ids[n.id]);
      if n.parentId in ids { copy := copy.(parentId := ids[n.parentId]); }
      copies := copies + [copy];
    }
    assert nodes[..|nodes|] == nodes;
  }

  // ---- steps shared by the operations ----

  lemma CarriedNowhere(paths: set<string>, prefix: string)
    ensures Paths.CarriedAll(paths, prefix, prefix) == paths
  {
    forall p | p in paths ensures Paths.Carried(p, prefix, prefix) == p { CarriedElsewhere(p, prefix, prefix); }
  }

  // Paths are carried to a node's present address, unless that is where they
  // were.
  method RerootNodePaths(c: Config, previousPrefix: string, id: string) returns (d: Config)
    requires Acyclic(GroupForest(c))
    ensures d == Rerooted(c, previousPrefix, NodePrefix(c, id))
  {
    var address := DeviceAddress(c, id);
    var newPrefix := "device/" + address;
    if newPrefix == previousPrefix {
      CarriedNowhere(c.publishPaths, newPrefix);
      CarriedNowhere(c.pushPaths, newPrefix);
      CarriedNowhere(c.renderPaths, newPrefix);
      return c;
    }
    var publish := Paths.RerootPaths(c.publishPaths, previousPrefix, newPrefix);
    var push := Paths.RerootPaths(c.pushPaths, previousPrefix, newPrefix);
    var render := Paths.RerootPaths(c.renderPaths, previousPrefix, newPrefix);
    d := c.(publishPaths := publish, pushPaths := push, renderPaths := render);
  }

  lemma OneOfAnId(c: Config, index: nat)
    requires UniqueIds(Nodes(c)) && index < |c.groups|
    ensures forall j :: 0 <= j < |c.groups| && j != index ==> c.groups[j].id != c.groups[index].id
    ensures forall j :: 0 <= j < |c.devices| ==> c.devices[j].id != c.groups[index].id
  {
    var nodes := Nodes(c);
    assert forall j :: 0 <= j < |c.groups| ==> nodes[j] == c.groups[j];
    assert forall j :: 0 <= j < |c.devices| ==> nodes[|c.groups| + j] == c.devices[j];
  }

  function NumberedAt(nodes: seq<Node>, id: string, k: int): (r: seq<Node>)
    ensures |r| == |nodes|
  {
    seq(|nodes|, i requires 0 <= i < |nodes| => if nodes[i].id == id then nodes[i].(order := k) else nodes[i])
  }

  lemma OrdersOneByOne(nodes: seq<Node>, ordered: seq<string>, i: nat)
    requires Distinct(ordered) && i < |ordered|
    ensures NumberedAt(WithOrders(nodes, ordered[..i]), ordered[i], i) == WithOrders(nodes, ordered[..i + 1])
  {
    var a, b := NumberedAt(WithOrders(nodes, ordered[..i]), ordered[i], i), WithOrders(nodes, ordered[..i + 1]);
    forall j | 0 <= j < |nodes| ensures a[j] == b[j] {
      var x := nodes[j].id;
      assert ordered[..i + 1] == ordered[..i] + [ordered[i]];
      if x in ordered[..i] {
        PlaceIsIt(ordered[..i], Place(ordered[..i], x));
        PlaceIsIt(ordered[..i + 1], Place(ordered[..i], x));
      } else if x == ordered[i] {
        PlaceIsIt(ordered[..i + 1], i);
      }
    }
  }

  lemma NoOrders(nodes: seq<Node>)
    ensures WithOrders(nodes, []) == nodes
  {}

  lemma {:induction false} SiblingsDespiteMove(nodes: seq<Node>, id: string, parent: string)
    ensures Drop(ChildrenOf(WithParent(nodes, id, parent), parent), id) == Drop(ChildrenOf(nodes, parent), id)
    decreases |nodes|
  {
    if nodes == [] {
    } else {
      var front, last := nodes[..|nodes| - 1], nodes[|nodes| - 1];
      var moved := WithParent(nodes, id, parent);
      assert moved[..|nodes| - 1] == WithParent(front, id, parent);
      SiblingsDespiteMove(front, id, parent);
      DropConcatenates(ChildrenOf(moved[..|nodes| - 1], parent), Child(moved[|nodes| - 1], parent), id);
      DropConcatenates(ChildrenOf(front, parent), Child(last, parent), id);
    }
  }

  lemma SiblingsOneMore(nodes: seq<Node>, i: nat, id: string, parent: string)
    requires i < |nodes|
    ensures Drop(ChildrenOf(nodes[..i + 1], parent), id)
         == Drop(ChildrenOf(nodes[..i], parent), id)
            + if nodes[i].id != id && nodes[i].parentId == parent then [Sibling(nodes[i].id, nodes[i].order)] else []
  {
    assert nodes[..i + 1][..i] == nodes[..i];
    DropConcatenates(ChildrenOf(nodes[..i], parent), Child(nodes[i], parent), id);
  }

  method GatherFrom(nodes: seq<Node>, id: string, parent: string, before: seq<Sibling>) returns (siblings: seq<Sibling>)
    ensures siblings == before + Drop(ChildrenOf(nodes, parent), id)
  {
    siblings := before;
    ghost var gathered: seq<Sibling> := [];
    for i := 0 to |nodes|
      invariant siblings == before + gathered && gathered == Drop(ChildrenOf(nodes[..i], parent), id)
    {
      SiblingsOneMore(nodes, i, id, parent);
      if nodes[i].id == id { continue; }
      if nodes[i].parentId == parent {
        siblings := siblings + [Sibling(nodes[i].id, nodes[i].order)];
        gathered := gathered + [Sibling(nodes[i].id, nodes[i].order)];
      }
    }
    assert nodes[..|nodes|] == nodes;
  }

  lemma SiblingsConcatenate(c: Config, id: string, parent: string)
    ensures Drop(ChildrenOf(Nodes(c), parent), id)
         == Drop(ChildrenOf(c.groups, parent), id) + Drop(ChildrenOf(c.devices, parent), id)
  {
    ChildrenConcatenate(c.groups, c.devices, parent);
    DropConcatenates(ChildrenOf(c.groups, parent), ChildrenOf(c.devices, parent), id);
  }

  // The siblings at a destination, without the node moved, groups first.
  method GatherSiblings(c: Config, id: string, parent: string) returns (siblings: seq<Sibling>)
    ensures siblings == Drop(ChildrenOf(Nodes(c), parent), id)
  {
    siblings := GatherFrom(c.groups, id, parent, []);
    assert siblings == Drop(ChildrenOf(c.groups, parent), id);
    siblings := GatherFrom(c.devices, id, parent, siblings);
    SiblingsConcatenate(c, id, parent);
  }

  lemma SiblingsAsShown(c: Config, id: string, parent: string)
    ensures IdsInOrder(StableSorted(Drop(ChildrenOf(Nodes(c), parent), id))) == Without(Visible(c, parent), id)
  {
    DropCommutesWithSort(ChildrenOf(Nodes(c), parent), id);
    IdsOfDrop(StableSorted(ChildrenOf(Nodes(c), parent)), id);
  }

  method ReparentDevices(devices: seq<Node>, id: string, parent: string) returns (r: seq<Node>)
    ensures r == WithParent(devices, id, parent)
  {
    r := devices;
    for i := 0 to |devices|
      invariant |r| == |devices| && r[i..] == devices[i..]
      invariant forall j :: 0 <= j < i ==> r[j] == WithParent(devices, id, parent)[j]
    {
      assert r[i] == r[i..][0] == devices[i];
      if r[i].id == id { r := r[i := r[i].(parentId := parent)]; }
    }
  }

  method RenumberDevices(devices: seq<Node>, id: string, k: int) returns (r: seq<Node>)
    ensures r == NumberedAt(devices, id, k)
  {
    r := devices;
    for i := 0 to |devices|
      invariant |r| == |devices| && r[i..] == devices[i..]
      invariant forall j :: 0 <= j < i ==> r[j] == NumberedAt(devices, id, k)[j]
    {
      assert r[i] == r[i..][0] == devices[i];
      if r[i].id == id { r := r[i := r[i].(order := k)]; }
    }
  }

  // The moved id let in before the sibling named, or after them all.
  method OrderWith(siblings: seq<Sibling>, id: string, before: string) returns (ordered: seq<string>)
    ensures ordered == InsertBefore(IdsInOrder(siblings), id, before)
  {
    ghost var ids := IdsInOrder(siblings);
    var insertAt := |siblings|;
    if before != "" {
      for i := 0 to |siblings|
        invariant insertAt == |siblings| && before !in ids[..i]
      {
        if siblings[i].id == before {
          insertAt := i;
          assert Place(ids, before) == i;
          break;
        }
      }
      assert ids[..|ids|] == ids;
    }
    assert insertAt == if before != "" && before in ids then Place(ids, before) else |ids|;
    ordered := [];
    for i := 0 to |siblings|
      invariant ordered == if i <= insertAt then ids[..i] else ids[..insertAt] + [id] + ids[insertAt..i]
    {
      if i == insertAt { ordered := ordered + [id]; }
      assert ids[..i + 1] == ids[..i] + [ids[i]];
      assert i >= insertAt ==> ids[insertAt..i + 1] == ids[insertAt..i] + [ids[i]];
      ordered := ordered + [siblings[i].id];
    }
    if insertAt >= |siblings| { ordered := ordered + [id]; }
  }

  method DeviceIndexById(c: Config, id: string) returns (index: int)
    ensures index < 0 ==> Find(c.devices, id).None?
    ensures index >= 0 ==> index < |c.devices| && Find(c.devices, id) == Some(c.devices[index])
                           && Find(c.devices[..index], id).None?
  {
    for i := 0 to |c.devices|
      invariant Find(c.devices, id) == Find(c.devices[i..], id) && Find(c.devices[..i], id).None?
    {
      if c.devices[i].id == id { return i; }
      assert c.devices[..i + 1] == c.devices[..i] + [c.devices[i]];
      FindInBoth(c.devices[..i], [c.devices[i]], id);
    }
    return -1;
  }

  method RemoveAt(nodes: seq<Node>, index: nat, id: string) returns (r: seq<Node>)
    requires index < |nodes| && nodes[index].id == id && Find(nodes[..index], id).None?
    ensures r == Removed(nodes, id)
  {
    assert nodes == nodes[..index] + nodes[index..];
    RemovedFromSecond(nodes[..index], nodes[index..], id);
    r := nodes[..index] + nodes[index + 1..];
  }

  method ForgetNode(disabled: seq<set<string>>, id: string) returns (r: seq<set<string>>)
    ensures r == Forgotten(disabled, id)
  {
    r := [];
    for i := 0 to |disabled|
      invariant r == Forgotten(disabled, id)[..i]
    {
      r := r + [disabled[i] - {id}];
    }
  }

  method GroupLabels(groups: seq<Node>) returns (labels: seq<string>)
    ensures |labels| == |groups| && forall i :: 0 <= i < |groups| ==> labels[i] == groups[i].labelText
  {
    labels := seq(|groups|, i requires 0 <= i < |groups| => groups[i].labelText);
  }

  method LabelGroup(c: Config, index: nat, text: string) returns (d: Config)
    requires UniqueIds(Nodes(c)) && index < |c.groups|
    ensures d == Relabelled(c, c.groups[index].id, text)
  {
    OneOfAnId(c, index);
    d := c.(groups := c.groups[index := c.groups[index].(labelText := text)]);
    assert d.groups == WithLabel(c.groups, c.groups[index].id, text);
    assert d.devices == WithLabel(c.devices, c.groups[index].id, text);
  }

  method CopyDevice(c: Config, id: string, index: nat, word: string -> string) returns (d: Config)
    requires Sound(c) && Supply(c, word) && index < |c.devices| && Find(c.devices, id) == Some(c.devices[index])
    ensures Sound(d) && d == Duplicated(c, map[id := word(id)])
  {
    var device := c.devices[index];
    assert device in Nodes(c);
    CopyOfOneDevice(c, id, device, word(id));
    DuplicateKeepsSound(c, map[id := word(id)]);
    d := c.(devices := c.devices + [device.(id := word(id))]);
  }

  lemma SupplyIsFresh(c: Config, ids: map<string, string>, word: string -> string)
    requires Supply(c, word) && Drawn(ids, word)
    ensures Fresh(c, ids)
  {}

  method CopySubtree(c: Config, id: string, word: string -> string) returns (d: Config)
    requires Sound(c) && Supply(c, word) && Find(c.groups, id).Some?
    ensures Acyclic(GroupForest(c)) && Sound(d) && d == Duplicated(c, NewIds(Subtree(c, id), word))
  {
    GroupsAreAcyclic(c);
    IdsAreFound(c.groups, id);
    var ids := CollectSubtree(c, id, map[], word);
    DrawnIsNewIds(ids, Subtree(c, id), word);
    SubtreeCopyIsSound(c, id, word);
    var groups := CopyNodes(c.groups, ids);
    var devices := CopyNodes(c.devices, ids);
    d := c.(groups := c.groups + groups, devices := c.devices + devices);
  }

  lemma DrawnIsNewIds(ids: map<string, string>, nodes: set<string>, word: string -> string)
    requires Drawn(ids, word) && ids.Keys == nodes
    ensures ids == NewIds(nodes, word)
  {}

  lemma SubtreeCopyIsSound(c: Config, id: string, word: string -> string)
    requires Sound(c) && Supply(c, word) && Acyclic(GroupForest(c))
    ensures Sound(Duplicated(c, NewIds(Subtree(c, id), word)))
  {
    SupplyIsFresh(c, NewIds(Subtree(c, id), word), word);
    DuplicateKeepsSound(c, NewIds(Subtree(c, id), word));
  }

  lemma NodePrefixesOneMore(c: Config, ids: seq<string>, id: string)
    requires Acyclic(GroupForest(c))
    ensures NodePrefixes(c, ids + [id]) == NodePrefixes(c, ids) + [NodePrefix(c, id)]
  {
    NodePrefixesConcatenate(c, ids, [id]);
    ChildPrefixAt(c, c, [id], 0);
  }

  // The prefixes of the group's children, before they are reparented.
  method ChildPrefixesIn(c: Config, nodes: seq<Node>, gone: string) returns (ids: seq<string>, prefixes: seq<string>)
    requires Acyclic(GroupForest(c))
    ensures ids == ChildIds(nodes, gone) && prefixes == NodePrefixes(c, ids)
  {
    ids, prefixes := [], [];
    for i := 0 to |nodes|
      invariant ids == ChildIds(nodes[..i], gone) && prefixes == NodePrefixes(c, ids)
    {
      assert nodes[..i + 1][..i] == nodes[..i];
      if nodes[i].parentId == gone {
        NodePrefixesOneMore(c, ids, nodes[i].id);
        var address := DeviceAddress(c, nodes[i].id);
        ids, prefixes := ids + [nodes[i].id], prefixes + ["device/" + address];
      }
    }
    assert nodes[..|nodes|] == nodes;
  }

  lemma {:induction false} ChildIdsConcatenate(a: seq<Node>, b: seq<Node>, p: string)
    ensures ChildIds(a + b, p) == ChildIds(a, p) + ChildIds(b, p)
    decreases |b|
  {
    if b == [] {
      assert a + b == a;
    } else {
      assert (a + b)[..|a + b| - 1] == a + b[..|b| - 1];
      ChildIdsConcatenate(a, b[..|b| - 1], p);
    }
  }

  method AdoptChildren(nodes: seq<Node>, gone: string, parent: string) returns (r: seq<Node>)
    ensures r == AllAdopted(nodes, gone, parent)
  {
    r := nodes;
    for i := 0 to |nodes|
      invariant |r| == |nodes| && r[i..] == nodes[i..]
      invariant forall j :: 0 <= j < i ==> r[j] == AllAdopted(nodes, gone, parent)[j]
    {
      assert r[i] == r[i..][0] == nodes[i];
      if r[i].parentId == gone { r := r[i := r[i].(parentId := parent)]; }
    }
  }

  lemma CarriedWithOneMore(d: Config, prefixes: seq<(string, string)>, i: nat)
    requires i < |prefixes|
    ensures Rerooted(CarriedWith(d, prefixes[..i]), prefixes[i].0, prefixes[i].1) == CarriedWith(d, prefixes[..i + 1])
  {
    assert prefixes[..i + 1][..i] == prefixes[..i];
  }

  method RerootChildren(d: Config, ids: seq<string>, previous: seq<string>, ghost prefixes: seq<(string, string)>)
    returns (e: Config)
    requires Acyclic(GroupForest(d)) && |previous| == |ids| == |prefixes|
    requires forall i :: 0 <= i < |ids| ==> prefixes[i] == (previous[i], NodePrefix(d, ids[i]))
    ensures e == CarriedWith(d, prefixes)
  {
    e := d;
    for i := 0 to |ids|
      invariant e == CarriedWith(d, prefixes[..i])
    {
      CarriedWithOneMore(d, prefixes, i);
      SameTreeSamePrefix(d, e, ids[i]);
      e := RerootNodePaths(e, previous[i], ids[i]);
    }
    assert prefixes[..|ids|] == prefixes;
  }

  lemma SameTreeSamePrefix(d: Config, e: Config, id: string)
    requires d.groups == e.groups && d.devices == e.devices && Acyclic(GroupForest(d))
    ensures Acyclic(GroupForest(e)) && NodePrefix(e, id) == NodePrefix(d, id)
  {}

  method AdoptAndRemove(c: Config, index: nat) returns (d: Config)
    requires Sound(c) && index < |c.groups|
    ensures d == Deleted(c, c.groups[index].id)
  {
    var gone, parent := c.groups[index].id, c.groups[index].parentId;
    OneOfAnId(c, index);
    assert Find(c.groups, gone) == Some(c.groups[index]) by { SoundGroups(c); }
    var groups := AdoptChildren(c.groups, gone, parent);
    var devices := AdoptChildren(c.devices, gone, parent);
    groups := RemoveAt(groups, index, gone);
    d := c.(groups := groups, devices := devices);
  }

  method EraseNodePaths(c: Config, prefix: string) returns (d: Config)
    ensures d == ErasedUnder(c, prefix)
  {
    var publish := set p | p in c.publishPaths && !Paths.Under(p, prefix);
    var push := set p | p in c.pushPaths && !Paths.Under(p, prefix);
    var render := set p | p in c.renderPaths && !Paths.Under(p, prefix);
    d := c.(publishPaths := publish, pushPaths := push, renderPaths := render);
  }

  lemma SoundDespitePaths(d: Config, e: Config)
    requires Sound(d) && d.groups == e.groups && d.devices == e.devices
    ensures Sound(e)
  {}

  method GroupRemoved(c: Config, index: nat) returns (d: Config)
    requires Sound(c) && index < |c.groups|
    requires Acyclic(GroupForest(c)) && Acyclic(GroupForest(Deleted(c, c.groups[index].id)))
    ensures d == WithoutGroup(c, c.groups[index].id)
  {
    var gone := c.groups[index].id;
    var address := DeviceAddress(c, gone);
    var ids, previous := AllChildPrefixes(c, gone);
    d := AdoptAndRemove(c, index);
    d := ChildrenRerooted(c, d, ids, previous);
    d := EraseNodePaths(d, "device/" + address);
    var disabled := ForgetNode(d.disabled, gone);
    d := d.(disabled := disabled);
  }

  method AllChildPrefixes(c: Config, gone: string) returns (ids: seq<string>, prefixes: seq<string>)
    requires Acyclic(GroupForest(c))
    ensures ids == ChildIds(Nodes(c), gone) && prefixes == NodePrefixes(c, ids)
  {
    ids, prefixes := ChildPrefixesIn(c, c.groups, gone);
    var deviceIds, devicePrefixes := ChildPrefixesIn(c, c.devices, gone);
    ChildIdsConcatenate(c.groups, c.devices, gone);
    NodePrefixesConcatenate(c, ids, deviceIds);
    ids, prefixes := ids + deviceIds, prefixes + devicePrefixes;
  }

  method ChildrenRerooted(c: Config, d: Config, ids: seq<string>, previous: seq<string>) returns (e: Config)
    requires Acyclic(GroupForest(c)) && Acyclic(GroupForest(d)) && previous == NodePrefixes(c, ids)
    ensures e == CarriedWith(d, ChildPrefixes(c, d, ids))
  {
    forall i | 0 <= i < |ids| ensures ChildPrefixes(c, d, ids)[i] == (previous[i], NodePrefix(d, ids[i])) {
      ChildPrefixAt(c, d, ids, i);
    }
    e := RerootChildren(d, ids, previous, ChildPrefixes(c, d, ids));
  }

  lemma UndoRestoresTheBaseOf(c: Config, index: nat, text: string)
    requires Sound(c) && index < |c.devices| && Find(c.devices, c.devices[index].id) == Some(c.devices[index])
    requires Rehomed(c, Relabelled(c, c.devices[index].id, text), c.devices[index].id)
    ensures forall made :: MadeBy(made, c, c.devices[index], text) ==>
              MadeOnItsBase(made) && Sound(Applied(made, made.after))
  {
    forall made | MadeBy(made, c, c.devices[index], text)
      ensures MadeOnItsBase(made) && Sound(Applied(made, made.after))
    {
      UndoRestoresTheBase(made, c, c.devices[index], text);
      SoundDespitePaths(Relabelled(c, c.devices[index].id, text), Applied(made, made.after));
    }
  }

  // Renames a copy first, so that the new address can be read out of it.
  method RenameCommand(c: Config, index: nat, text: string) returns (command: LabelCommand)
    requires Sound(c) && index < |c.devices| && Find(c.devices, c.devices[index].id) == Some(c.devices[index])
    requires Acyclic(GroupForest(c)) && Acyclic(GroupForest(Relabelled(c, c.devices[index].id, text)))
    ensures MadeBy(command, c, c.devices[index], text)
  {
    var device := c.devices[index];
    var address := DeviceAddress(c, device.id);
    var renamed := c.(devices := WithLabel(c.devices, device.id, text));
    GroupsKeepLabels(c, device.id, text);
    assert renamed == Relabelled(c, device.id, text);
    renamed := RerootNodePaths(renamed, "device/" + address, device.id);
    command := LabelCommand(c, device.id, LabelState(device.labelText, c.publishPaths, c.pushPaths),
                            LabelState(text, renamed.publishPaths, renamed.pushPaths));
  }

  lemma OthersAreFound(nodes: seq<Node>, id: string)
    requires UniqueIds(nodes)
    ensures forall x :: Find(Removed(nodes, id), x) == if x == id then None else Find(nodes, x)
  {
    forall x ensures Find(Removed(nodes, id), x) == if x == id then None else Find(nodes, x) {
      FindRemoved(nodes, id, x);
    }
  }

  // No device has the id, whatever else was a device is the one it was, and the
  // groups are what they were.
  ghost predicate OnlyDeviceGone(before: Config, after: Config, id: string) {
    && after.groups == before.groups
    && forall x :: Find(after.devices, x) == if x == id then None else Find(before.devices, x)
  }

  lemma DeviceIsForgotten(c: Config, id: string)
    requires Sound(c) && Acyclic(GroupForest(c))
    ensures OnlyDeviceGone(c, WithoutDevice(c, id), id)
  {
    SoundGroups(c);
    OthersAreFound(c.devices, id);
  }

  class WorkspaceModel {
    var config: Config

    constructor (initial: Config)
      ensures config == initial
    {
      config := initial;
    }

    method SetParent(id: string, parent: string)
      requires UniqueIds(Nodes(config))
      modifies this
      ensures config == old(config).(groups := WithParent(old(config).groups, id, parent),
                                     devices := WithParent(old(config).devices, id, parent))
    {
      var groupIndex := GroupIndexById(config, id);
      if groupIndex >= 0 {
        OneOfAnId(config, groupIndex);
        config := config.(groups := config.groups[groupIndex := config.groups[groupIndex].(parentId := parent)]);
        assert config.groups == WithParent(old(config).groups, id, parent);
        assert config.devices == WithParent(old(config).devices, id, parent);
        return;
      }
      assert WithParent(config.groups, id, parent) == config.groups;
      var devices := ReparentDevices(config.devices, id, parent);
      config := config.(devices := devices);
    }

    method SetOrder(id: string, k: int)
      requires UniqueIds(Nodes(config))
      modifies this
      ensures config == old(config).(groups := NumberedAt(old(config).groups, id, k),
                                     devices := NumberedAt(old(config).devices, id, k))
    {
      var groupIndex := GroupIndexById(config, id);
      if groupIndex >= 0 {
        OneOfAnId(config, groupIndex);
        config := config.(groups := config.groups[groupIndex := config.groups[groupIndex].(order := k)]);
        assert config.groups == NumberedAt(old(config).groups, id, k);
        assert config.devices == NumberedAt(old(config).devices, id, k);
        return;
      }
      assert NumberedAt(config.groups, id, k) == config.groups;
      var devices := RenumberDevices(config.devices, id, k);
      config := config.(devices := devices);
    }

    // Whether the search from the new parent up through groups and devices
    // comes to the node that is to move.
    method WouldCycle(id: string, newParent: string) returns (cycles: bool)
      requires Sound(config)
      ensures cycles <==> Under(ParentsOf(Nodes(config)), newParent, id)
    {
      ghost var f := ParentsOf(Nodes(config));
      var p := newParent;
      while p != ""
        invariant Under(f, newParent, id) <==> Under(f, p, id)
        decreases Height(f, p)
      {
        if p == id { return true; }
        var found := FindNode(config, p);
        IdsAreFound(Nodes(config), p);
        if found.None? { break; }
        p := found.value.parentId;
      }
      return false;
    }

    // Orders 0, 1, 2 and so on, given to the ids in turn.
    method SetOrders(ordered: seq<string>)
      requires UniqueIds(Nodes(config)) && Distinct(ordered)
      modifies this
      ensures config == old(config).(groups := WithOrders(old(config).groups, ordered),
                                     devices := WithOrders(old(config).devices, ordered))
    {
      ghost var groups, devices := config.groups, config.devices;
      NoOrders(groups);
      NoOrders(devices);
      assert ordered[..0] == [];
      for i := 0 to |ordered|
        invariant config == old(config).(groups := WithOrders(groups, ordered[..i]),
                                         devices := WithOrders(devices, ordered[..i]))
        invariant UniqueIds(Nodes(config))
      {
        OrdersOneByOne(groups, ordered, i);
        OrdersOneByOne(devices, ordered, i);
        ghost var nodes := Nodes(config);
        SetOrder(ordered[i], i);
        SameIdsAreUnique(nodes, Nodes(config));
      }
      assert ordered[..|ordered|] == ordered;
    }

    // Reparents a node and renumbers all its new siblings.
    method PlaceNode(id: string, newParent: string, before: string)
      requires Sound(config)
      modifies this
      ensures config == Placed(old(config), id, newParent, before)
    {
      ghost var was := config;
      SetParent(id, newParent);
      SameIdsAreUnique(Nodes(was), Nodes(config));
      assert Nodes(config) == WithParent(Nodes(was), id, newParent);
      var siblings := GatherSiblings(config, id, newParent);
      SiblingsDespiteMove(Nodes(was), id, newParent);
      SiblingsAsShown(was, id, newParent);
      var ordered := OrderWith(StableSorted(siblings), id, before);
      OrderedIsDistinct(was, id, newParent, before);
      SetOrders(ordered);
      MovedInTwoSteps(was.groups, id, newParent, ordered);
      MovedInTwoSteps(was.devices, id, newParent, ordered);
    }

    method MoveDeviceNode(id: string, newParent: string, before: string)
      requires Sound(config)
      modifies this
      ensures Sound(config) && config == Moved(old(config), id, newParent, before)
    {
      if id == "" || id == newParent { return; }
      var found := FindNode(config, id);
      if found.None? { return; }
      SoundGroups(config);
      var address := DeviceAddress(config, id);
      var previousPrefix := "device/" + address;
      var cycles := WouldCycle(id, newParent);
      if cycles { return; }
      MoveRehomes(config, id, newParent, before);
      PlaceNode(id, newParent, before);
      config := RerootNodePaths(config, previousPrefix, id);
    }

    method SetDeviceGroupLabel(id: string, text: string)
      requires Sound(config)
      modifies this
      ensures Sound(config)
      ensures Find(old(config).groups, id).None? ==> config == old(config)
      ensures Find(old(config).groups, id).Some? ==>
                var d := Relabelled(old(config), id, text);
                && Rehomed(old(config), d, id)
                && config == Rerooted(d, NodePrefix(old(config), id), NodePrefix(d, id))
    {
      var groupIndex := GroupIndexById(config, id);
      if groupIndex < 0 { return; }
      GroupsAreAcyclic(config);
      FindInBoth(config.groups, config.devices, id);
      RelabelRehomes(config, id, text);
      var address := DeviceAddress(config, id);
      var relabelled := LabelGroup(config, groupIndex, text);
      config := RerootNodePaths(relabelled, "device/" + address, id);
    }

    method CreateDeviceGroup(parentId: string, newId: string) returns (index: nat)
      requires Sound(config) && Unused(ParentsOf(Nodes(config)), newId) && parentId != newId
      modifies this
      ensures Sound(config)
      ensures parentId != "" && Find(old(config).groups, parentId).None? ==> config == old(config)
      ensures parentId == "" || Find(old(config).groups, parentId).Some? ==>
                && config == WithGroup(old(config),
                     Node(newId, Labels.Candidate("group", index), parentId, 0, false, IDENTITY_MATRIX))
                && index >= 1
                && (forall n :: n in old(config).groups ==> n.labelText != Labels.Candidate("group", index))
                && forall j :: 1 <= j < index ==>
                     exists n :: n in old(config).groups && n.labelText == Labels.Candidate("group", j)
    {
      index := 0;
      if parentId != "" {
        var groupIndex := GroupIndexById(config, parentId);
        if groupIndex < 0 { return; }
      }
      var labels := GroupLabels(config.groups);
      var text;
      text, index := Labels.NextAvailableLabel("group", labels);
      var group := Node(newId, text, parentId, 0, false, IDENTITY_MATRIX);
      CreationKeepsSound(config, group);
      config := WithGroup(config, group);
    }

    method DuplicateDeviceNode(id: string, word: string -> string)
      requires Sound(config) && Supply(config, word)
      modifies this
      ensures Sound(config) && Acyclic(GroupForest(old(config))) && config == DuplicatedNode(old(config), id, word)
      ensures id == "" || Find(Nodes(old(config)), id).None? ==> config == old(config)
      ensures id != "" && Find(old(config).devices, id).Some? ==>
                var copy := Find(old(config).devices, id).value.(id := word(id));
                config == old(config).(devices := old(config).devices + [copy])
      ensures id != "" && Find(old(config).groups, id).Some? && Find(old(config).devices, id).None? ==>
                config == Duplicated(old(config), NewIds(Subtree(old(config), id), word))
    {
      GroupsAreAcyclic(config);
      if id == "" { return; }
      FindInBoth(config.groups, config.devices, id);
      var deviceIndex := DeviceIndexById(config, id);
      if deviceIndex >= 0 {
        CopyOfOneDevice(config, id, config.devices[deviceIndex], word(id));
        config := CopyDevice(config, id, deviceIndex, word);
        return;
      }
      var groupIndex := GroupIndexById(config, id);
      if groupIndex < 0 { return; }
      config := CopySubtree(config, id, word);
    }

    method DeleteDevice(id: string)
      requires Sound(config)
      modifies this
      ensures Sound(config) && Acyclic(GroupForest(old(config)))
      ensures config == if Find(old(config).devices, id).None? then old(config) else WithoutDevice(old(config), id)
      ensures OnlyDeviceGone(old(config), config, id)
    {
      GroupsAreAcyclic(config);
      var deviceIndex := DeviceIndexById(config, id);
      if deviceIndex < 0 { return; }
      DeviceDeletionKeepsSound(config, id);
      DeviceIsForgotten(config, id);
      var address := DeviceAddress(config, id);
      var devices := RemoveAt(config.devices, deviceIndex, id);
      var disabled := ForgetNode(config.disabled, id);
      config := config.(
        devices := devices,
        publishPaths := Paths.Erased(config.publishPaths, "device/" + address),
        pushPaths := Paths.Erased(config.pushPaths, "device/" + address),
        renderPaths := Paths.Erased(config.renderPaths, "device/" + address),
        disabled := disabled);
    }

    method DeleteDeviceGroup(groupId: string) returns (deleted: bool)
      requires Sound(config)
      modifies this
      ensures Sound(config) && (deleted <==> Find(old(config).groups, groupId).Some?)
      ensures !deleted ==> config == old(config)
      ensures deleted ==>
                && DeletesGroup(old(config), config, groupId)
                && Acyclic(GroupForest(Deleted(old(config), groupId)))
                && config == WithoutGroup(old(config), groupId)
    {
      var groupIndex := GroupIndexById(config, groupId);
      if groupIndex < 0 { return false; }
      GroupsAreAcyclic(config);
      DeletionKeepsSound(config, groupId);
      SoundDespitePaths(Deleted(config, groupId), WithoutGroup(config, groupId));
      config := GroupRemoved(config, groupIndex);
      return true;
    }

    method SetDeviceLabel(id: string, text: string) returns (command: Option<LabelCommand>)
      requires Sound(config)
      modifies this
      ensures Sound(config)
      ensures command.None? <==>
                Find(old(config).devices, id).None? || Find(old(config).devices, id).value.labelText == text
      ensures command.None? ==> config == old(config)
      ensures command.Some? ==>
                var c, device := old(config), Find(old(config).devices, id).value;
                && Rehomed(c, Relabelled(c, id, text), id)
                && MadeBy(command.value, c, device, text) && MadeOnItsBase(command.value)
                && config == Applied(command.value, command.value.after)
    {
      var index := DeviceIndexById(config, id);
      if index < 0 || config.devices[index].labelText == text { return None; }
      GroupsAreAcyclic(config);
      NotAGroup(config, id);
      FindInBoth(config.groups, config.devices, id);
      RelabelRehomes(config, id, text);
      UndoRestoresTheBaseOf(config, index, text);
      var made := RenameCommand(config, index, text);
      config := Applied(made, made.after);
      return Some(made);
    }

    // One state of a command put in place of the present configuration.
    method ApplyLabelState(command: LabelCommand, state: LabelState)
      modifies this
      ensures config == Put(old(config), command, state)
    {
      var restored := command.base;
      var index := DeviceIndexById(restored, command.id);
      if index < 0 { return; }
      config := restored.(devices := WithLabel(restored.devices, command.id, state.text),
                          publishPaths := state.publishPaths, pushPaths := state.pushPaths);
    }

    method UndoSetDeviceLabel(command: LabelCommand)
      modifies this
      ensures Find(command.base.devices, command.id).None? ==> config == old(config)
      ensures MadeOnItsBase(command) ==> config == command.base && Sound(config)
    {
      ApplyLabelState(command, command.before);
      if MadeOnItsBase(command) { UndoneIsBase(command); }
    }

    method RedoSetDeviceLabel(command: LabelCommand)
      modifies this
      ensures Find(command.base.devices, command.id).None? ==> config == old(config)
      ensures MadeOnItsBase(command) ==>
                && Shows(config, command.id, command.after) && SameButForLabel(config, command.base, command.id)
                && Sound(config)
    {
      ApplyLabelState(command, command.after);
      if MadeOnItsBase(command) { RedoneIsSound(command); }
    }
  }
}
