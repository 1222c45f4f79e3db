// The device tree: groups and devices that name their parents, and what is read
// off them by walking towards the root. Addresses, world transforms, whether a
// node is switched on for a session, and which devices a group holds.
module DeviceTree {
  import opened Common
  import opened Forests
  import opened Matrices

  // A group or a device; a device leaves collapsed and transform unused.
  datatype Node = Node(id: string, labelText: string, parentId: string, order: int, collapsed: bool, transform: Matrix)

  datatype Config = Config(
    groups: seq<Node>, devices: seq<Node>,
    publishPaths: set<string>, pushPaths: set<string>, renderPaths: set<string>,
    disabled: seq<set<string>>)

  function Nodes(c: Config): seq<Node> {
    c.groups + c.devices
  }

  // ---- nodes by id ----

  function Find(nodes: seq<Node>, id: string): (r: Option<Node>)
    ensures r.Some? ==> r.value in nodes && r.value.id == id
    ensures r.None? ==> forall n :: n in nodes ==> n.id != id
  {
    if nodes == [] then None
    else if nodes[0].id == id then Some(nodes[0])
    else
      assert forall n :: n in nodes ==> n == nodes[0] || n in nodes[1..];
      Find(nodes[1..], id)
  }

  predicate UniqueIds(nodes: seq<Node>) {
    && (forall i, j :: 0 <= i < j < |nodes| ==> nodes[i].id != nodes[j].id)
    && (forall n :: n in nodes ==> n.id != "")
  }

  lemma FoundIsIt(nodes: seq<Node>, n: Node)
    requires UniqueIds(nodes) && n in nodes
    ensures Find(nodes, n.id) == Some(n)
  {}

  lemma {:induction false} FindInBoth(a: seq<Node>, b: seq<Node>, id: string)
    ensures Find(a + b, id) == if Find(a, id).Some? then Find(a, id) else Find(b, id)
  {
    if a == [] {
      assert a + b == b;
    } else {
      assert (a + b)[1..] == a[1..] + b;
      FindInBoth(a[1..], b, id);
    }
  }

  function Ids(nodes: seq<Node>): set<string> {
    set n | n in nodes :: n.id
  }

  function ParentOf(nodes: seq<Node>, id: string): string {
    match Find(nodes, id)
    case None => ""
    case Some(n) => n.parentId
  }

  function ParentsOf(nodes: seq<Node>): Parents {
    map id | id in Ids(nodes) :: ParentOf(nodes, id)
  }

  // A node is known by its label, or by its id when it has none.
  function Name(n: Node): string {
    if n.labelText != "" then n.labelText else n.id
  }

  function NameOf(nodes: seq<Node>, id: string): string {
    match Find(nodes, id)
    case None => ""
    case Some(n) => Name(n)
  }

  function NamesOf(nodes: seq<Node>): map<string, string> {
    map id | id in Ids(nodes) :: NameOf(nodes, id)
  }

  function TransformOf(nodes: seq<Node>, id: string): Matrix {
    match Find(nodes, id)
    case None => IDENTITY_MATRIX
    case Some(n) => n.transform
  }

  function TransformsOf(nodes: seq<Node>): map<string, Matrix> {
    map id | id in Ids(nodes) :: TransformOf(nodes, id)
  }

  // Unique non-empty ids, and no node among its own ancestors. Devices are part
  // of the graph: a node may hang from anything, and the search for cycles
  // before a move follows devices too.
  ghost predicate Sound(c: Config) {
    UniqueIds(Nodes(c)) && Acyclic(ParentsOf(Nodes(c)))
  }

  function GroupForest(c: Config): Parents {
    ParentsOf(c.groups)
  }

  lemma SoundGroups(c: Config)
    requires Sound(c)
    ensures UniqueIds(c.groups) && UniqueIds(c.devices) && Ids(c.groups) !! Ids(c.devices)
    ensures Acyclic(GroupForest(c))
    ensures forall n :: n in c.groups || n in c.devices ==> Find(Nodes(c), n.id) == Some(n)
    ensures forall n :: n in c.groups ==> Find(c.groups, n.id) == Some(n)
  {
    var nodes := Nodes(c);
    assert forall i :: 0 <= i < |c.groups| ==> nodes[i] == c.groups[i];
    assert forall i :: 0 <= i < |c.devices| ==> nodes[|c.groups| + i] == c.devices[i];
    forall n | n in c.groups || n in c.devices ensures Find(nodes, n.id) == Some(n) { FoundIsIt(nodes, n); }
    forall n | n in c.groups ensures Find(c.groups, n.id) == Some(n) { FoundIsIt(c.groups, n); }
    assert "" !in ParentsOf(nodes);
    PartIsAcyclic(ParentsOf(nodes), GroupForest(c));
  }

  lemma GroupsAreAcyclic(c: Config)
    requires Sound(c)
    ensures Acyclic(GroupForest(c))
  {
    SoundGroups(c);
  }

  // The ids looked up above a node.
  ghost function Above(c: Config, id: string): (ids: seq<string>)
    requires Acyclic(GroupForest(c))
    ensures "" !in ids
  {
    Walk(GroupForest(c), ParentOf(Nodes(c), id))
  }

  // ---- lookups ----

  method GroupIndexById(c: Config, id: string) returns (index: int)
    ensures index < 0 ==> index == -1 && Find(c.groups, id).None?
    ensures index >= 0 ==> index < |c.groups| && Find(c.groups, id) == Some(c.groups[index])
  {
    index := 0;
    while index < |c.groups|
      invariant 0 <= index <= |c.groups| && Find(c.groups, id) == Find(c.groups[index..], id)
    {
      if c.groups[index].id == id { return; }
      index := index + 1;
    }
    index := -1;
  }

  // A group of the id, or else the first device of it.
  method FindNode(c: Config, id: string) returns (found: Option<Node>)
    ensures found == Find(Nodes(c), id)
  {
    FindInBoth(c.groups, c.devices, id);
    var groupIndex := GroupIndexById(c, id);
    if groupIndex >= 0 { return Some(c.groups[groupIndex]); }
    for i := 0 to |c.devices|
      invariant Find(c.devices, id) == Find(c.devices[i..], id)
    {
      if c.devices[i].id == id { return Some(c.devices[i]); }
    }
    return None;
  }

  lemma ParentInForest(nodes: seq<Node>, id: string)
    ensures id in ParentsOf(nodes) <==> Find(nodes, id).Some?
    ensures Find(nodes, id).Some? ==> ParentsOf(nodes)[id] == Find(nodes, id).value.parentId
  {}

  lemma WalkFromGroup(c: Config, p: string)
    requires Acyclic(GroupForest(c))
    ensures p == "" ==> Walk(GroupForest(c), p) == []
    ensures p != "" && Find(c.groups, p).None? ==> Walk(GroupForest(c), p) == [p]
    ensures Find(c.groups, p).Some? ==>
              var up := Find(c.groups, p).value.parentId;
              && p != "" && p in GroupForest(c) && GroupForest(c)[p] == up
              && Walk(GroupForest(c), p) == [p] + Walk(GroupForest(c), up)
              && Height(GroupForest(c), up) < Height(GroupForest(c), p)
  {
    ParentInForest(c.groups, p);
    WalkStep(GroupForest(c), p);
  }

  // ---- addresses ----

  // The names along a walk, root first, each closed by a '/'.
  function Joined(names: map<string, string>, walk: seq<string>): string {
    if walk == [] then ""
    else Joined(names, walk[1..]) + (if walk[0] in names then names[walk[0]] + "/" else "")
  }

  ghost function Address(c: Config, id: string): string
    requires Acyclic(GroupForest(c))
  {
    match Find(Nodes(c), id)
    case None => id
    case Some(n) => PathFrom(c, n.parentId) + Name(n)
  }

  // The part of an address above a node whose parent is p.
  ghost function PathFrom(c: Config, p: string): string
    requires Acyclic(GroupForest(c))
  {
    Joined(NamesOf(c.groups), Walk(GroupForest(c), p))
  }

  lemma PathStep(c: Config, p: string)
    requires Acyclic(GroupForest(c))
    ensures p == "" || Find(c.groups, p).None? ==> PathFrom(c, p) == ""
    ensures Find(c.groups, p).Some? ==>
              var group := Find(c.groups, p).value;
              PathFrom(c, p) == PathFrom(c, group.parentId) + (Name(group) + "/")
  {
    WalkFromGroup(c, p);
    if Find(c.groups, p).Some? {
      assert Walk(GroupForest(c), p)[1..] == Walk(GroupForest(c), Find(c.groups, p).value.parentId);
    } else if p != "" {
      assert p !in NamesOf(c.groups);
      assert [p][1..] == [] && Joined(NamesOf(c.groups), [p]) == "";
    }
  }

  // Some labels from the last to the first, each closed by a '/'.
  function Backwards(labels: seq<string>): string {
    if labels == [] then "" else Backwards(labels[1..]) + labels[0] + "/"
  }

  lemma {:induction false} BackwardsExtends(labels: seq<string>, last: string)
    ensures Backwards(labels + [last]) == last + "/" + Backwards(labels)
  {
    if labels == [] {
      assert Backwards([last]) == Backwards([]) + last + "/";
    } else {
      assert (labels + [last])[1..] == labels[1..] + [last];
      BackwardsExtends(labels[1..], last);
    }
  }

  // One climb's worth of an address.
  lemma AddressClimbs(c: Config, start: string, p: string, labels: seq<string>)
    requires Acyclic(GroupForest(c)) && Find(c.groups, p).Some?
    requires PathFrom(c, start) == PathFrom(c, p) + Backwards(labels)
    ensures
      var group := Find(c.groups, p).value;
      PathFrom(c, start) == PathFrom(c, group.parentId) + Backwards(labels + [Name(group)])
  {
    var group := Find(c.groups, p).value;
    PathStep(c, p);
    LabelGoesAlong(PathFrom(c, group.parentId), labels, Name(group));
  }

  lemma LabelGoesAlong(base: string, labels: seq<string>, name: string)
    ensures base + (name + "/") + Backwards(labels) == base + Backwards(labels + [name])
  {
    BackwardsExtends(labels, name);
  }

  lemma ClimbLowersHeight(c: Config, p: string)
    requires Acyclic(GroupForest(c)) && Find(c.groups, p).Some?
    ensures Height(GroupForest(c), Find(c.groups, p).value.parentId) < Height(GroupForest(c), p)
  {
    WalkFromGroup(c, p);
  }

  method AncestorLabels(c: Config, start: string) returns (labels: seq<string>)
    requires Acyclic(GroupForest(c))
    ensures PathFrom(c, start) == Backwards(labels)
  {
    labels := [];
    var ancestorId := start;
    while ancestorId != ""
      invariant PathFrom(c, start) == PathFrom(c, ancestorId) + Backwards(labels)
      decreases Height(GroupForest(c), ancestorId)
    {
      var groupIndex := GroupIndexById(c, ancestorId);
      if groupIndex < 0 { break; }
      var group := c.groups[groupIndex];
      AddressClimbs(c, start, ancestorId, labels);
      ClimbLowersHeight(c, ancestorId);
      labels := labels + [if group.labelText != "" then group.labelText else group.id];
      ancestorId := group.parentId;
    }
    PathStep(c, ancestorId);
  }

  method DeviceAddress(c: Config, id: string) returns (address: string)
    requires Acyclic(GroupForest(c))
    ensures address == Address(c, id)
  {
    var found := FindNode(c, id);
    if found.None? { return id; }
    var ancestorLabels := AncestorLabels(c, found.value.parentId);
    address := "";
    var k := |ancestorLabels|;
    while k > 0
      invariant 0 <= k <= |ancestorLabels| && address == Backwards(ancestorLabels[k..])
    {
      k := k - 1;
      assert ancestorLabels[k..][1..] == ancestorLabels[k + 1..];
      address := address + ancestorLabels[k];
      address := address + "/";
    }
    assert ancestorLabels[0..] == ancestorLabels;
    address := address + (if found.value.labelText != "" then found.value.labelText else found.value.id);
  }

  // ---- world transforms ----

  // The transforms along a walk, the root's leftmost.
  ghost function World(transforms: map<string, Matrix>, walk: seq<string>): Matrix {
    if walk == [] then IDENTITY_MATRIX
    else if walk[0] in transforms then Product(World(transforms, walk[1..]), transforms[walk[0]])
    else World(transforms, walk[1..])
  }

  // The world of a node whose parent is p.
  ghost function WorldFrom(c: Config, p: string): Matrix
    requires Acyclic(GroupForest(c))
  {
    World(TransformsOf(c.groups), Walk(GroupForest(c), p))
  }

  ghost function WorldOf(c: Config, id: string): Matrix
    requires Acyclic(GroupForest(c))
  {
    match Find(Nodes(c), id)
    case None => IDENTITY_MATRIX
    case Some(n) => WorldFrom(c, n.parentId)
  }

  lemma WorldStep(c: Config, p: string)
    requires Acyclic(GroupForest(c))
    ensures p == "" || Find(c.groups, p).None? ==> WorldFrom(c, p) == IDENTITY_MATRIX
    ensures Find(c.groups, p).Some? ==>
              var group := Find(c.groups, p).value;
              WorldFrom(c, p) == Product(WorldFrom(c, group.parentId), group.transform)
  {
    WalkFromGroup(c, p);
    if Find(c.groups, p).Some? {
      assert Walk(GroupForest(c), p)[1..] == Walk(GroupForest(c), Find(c.groups, p).value.parentId);
    } else if p != "" {
      assert p !in TransformsOf(c.groups);
      assert [p][1..] == [] && World(TransformsOf(c.groups), [p]) == IDENTITY_MATRIX;
    }
  }

  // A child's world is its parent group's world times that group's transform.
  lemma WorldRecurses(c: Config, id: string, parent: Node)
    requires Sound(c) && Find(Nodes(c), id).Some? && parent in c.groups && ParentOf(Nodes(c), id) == parent.id
    ensures Acyclic(GroupForest(c)) && WorldOf(c, id) == Product(WorldOf(c, parent.id), parent.transform)
  {
    SoundGroups(c);
    WorldStep(c, parent.id);
  }

  lemma WorldClimbs(c: Config, start: string, p: string, world: Matrix)
    requires Acyclic(GroupForest(c)) && Find(c.groups, p).Some?
    requires WorldFrom(c, start) == Product(WorldFrom(c, p), world)
    ensures
      var group := Find(c.groups, p).value;
      WorldFrom(c, start) == Product(WorldFrom(c, group.parentId), Product(group.transform, world))
  {
    WorldStep(c, p);
    var group := Find(c.groups, p).value;
    ProductAssociates(WorldFrom(c, group.parentId), group.transform, world);
  }

  // The loop multiplies on the left as it climbs; the world it ends with is the
  // product read from the root down.
  method EffectiveWorldTransform(c: Config, id: string) returns (world: Matrix)
    requires Acyclic(GroupForest(c))
    ensures world == WorldOf(c, id)
  {
    var found := FindNode(c, id);
    if found.None? { return IDENTITY_MATRIX; }
    world := IDENTITY_MATRIX;
    var p := found.value.parentId;
    IdentityIsNeutral(WorldFrom(c, p));
    while p != ""
      invariant WorldFrom(c, found.value.parentId) == Product(WorldFrom(c, p), world)
      decreases Height(GroupForest(c), p)
    {
      var groupIndex := GroupIndexById(c, p);
      if groupIndex < 0 { break; }
      var group := c.groups[groupIndex];
      WorldClimbs(c, found.value.parentId, p, world);
      ClimbLowersHeight(c, p);
      world := Multiply(group.transform, world);
      p := group.parentId;
    }
    WorldStep(c, p);
    IdentityIsNeutral(world);
  }

  // ---- sessions ----

  ghost predicate EnabledIn(c: Config, disabled: set<string>, id: string)
    requires Acyclic(GroupForest(c))
  {
    id !in disabled && (Find(Nodes(c), id).Some? ==> forall a :: a in Above(c, id) ==> a !in disabled)
  }

  // A node is on exactly when neither it nor anything so many steps above it is
  // switched off; for an id that is no node's there is nothing above.
  lemma EnabledIffNothingAboveIsOff(c: Config, disabled: set<string>, id: string)
    requires Acyclic(GroupForest(c))
    ensures EnabledIn(c, disabled, id) <==>
              && id !in disabled
              && (Find(Nodes(c), id).Some? ==>
                    OnAtEveryStep(GroupForest(c), Find(Nodes(c), id).value.parentId, disabled))
  {
    if Find(Nodes(c), id).Some? { OnAllTheWay(GroupForest(c), Find(Nodes(c), id).value.parentId, disabled); }
  }

  lemma OnAllTheWay(f: Parents, p: string, disabled: set<string>)
    requires Acyclic(f)
    ensures (forall a :: a in Walk(f, p) ==> a !in disabled) <==> OnAtEveryStep(f, p, disabled)
  {
    if OnAtEveryStep(f, p, disabled) {
      forall a | a in Walk(f, p) ensures a !in disabled {
        WalkIsUp(f, p, a);
        var k: nat :| Up(f, p, k) == a;
        assert OnAt(Up(f, p, k), disabled);
      }
    } else {
      var k: nat :| !OnAt(Up(f, p, k), disabled);
      StepIsOnWalk(f, p, k, Up(f, p, k));
    }
  }

  lemma StepIsOnWalk(f: Parents, p: string, k: nat, x: string)
    requires Acyclic(f) && Up(f, p, k) == x != ""
    ensures x in Walk(f, p)
  {
    WalkIsUp(f, p, x);
  }

  ghost predicate OnAtEveryStep(f: Parents, p: string, disabled: set<string>) {
    forall k: nat :: OnAt(Up(f, p, k), disabled)
  }

  predicate OnAt(id: string, disabled: set<string>) {
    id == "" || id !in disabled
  }

  method EffectiveSessionEnabled(c: Config, disabled: set<string>, id: string) returns (enabled: bool)
    requires Acyclic(GroupForest(c))
    ensures enabled <==> EnabledIn(c, disabled, id)
  {
    if disabled == {} { return true; }
    if id in disabled { return false; }
    var found := FindNode(c, id);
    if found.None? { return true; }
    ghost var g := GroupForest(c);
    var ancestorId := found.value.parentId;
    while ancestorId != ""
      invariant forall a :: a in Above(c, id) && a !in Walk(g, ancestorId) ==> a !in disabled
      invariant forall a :: a in Walk(g, ancestorId) ==> a in Above(c, id)
      decreases Height(g, ancestorId)
    {
      WalkFromGroup(c, ancestorId);
      if ancestorId in disabled { return false; }
      var groupIndex := GroupIndexById(c, ancestorId);
      if groupIndex < 0 { return true; }
      ancestorId := c.groups[groupIndex].parentId;
    }
    return true;
  }

  // ---- the devices of a group ----

  ghost function OwnIdBelow(c: Config, device: Node, groupId: string): seq<string>
    requires Acyclic(GroupForest(c))
  {
    if device.id != "" && Under(GroupForest(c), device.parentId, groupId) then [device.id] else []
  }

  ghost function DeviceIdsBelow(c: Config, devices: seq<Node>, groupId: string): seq<string>
    requires Acyclic(GroupForest(c))
    decreases |devices|
  {
    if devices == [] then []
    else DeviceIdsBelow(c, devices[..|devices| - 1], groupId) + OwnIdBelow(c, devices[|devices| - 1], groupId)
  }

  // One device after others: its id is listed last exactly when it has one and
  // the group is so many steps up from its parent, and the order is the list's.
  lemma DeviceIdsOneMore(c: Config, devices: seq<Node>, device: Node, groupId: string)
    requires Acyclic(GroupForest(c)) && groupId != ""
    ensures DeviceIdsBelow(c, [], groupId) == []
    ensures DeviceIdsBelow(c, devices + [device], groupId)
         == DeviceIdsBelow(c, devices, groupId)
              + if device.id != "" && exists k: nat :: Up(GroupForest(c), device.parentId, k) == groupId
                then [device.id] else []
  {
    assert (devices + [device])[..|devices|] == devices;
    WalkIsUp(GroupForest(c), device.parentId, groupId);
  }

  // Whether a walk from an id meets another: the loop of isDescendantOf and of
  // device_ids_in_group.
  lemma MeetsStep(c: Config, p: string, target: string)
    requires Acyclic(GroupForest(c))
    ensures p == "" ==> !Under(GroupForest(c), p, target)
    ensures p != "" && Find(c.groups, p).None? ==> (Under(GroupForest(c), p, target) <==> p == target)
    ensures Find(c.groups, p).Some? ==>
              (Under(GroupForest(c), p, target)
               <==> p == target || Under(GroupForest(c), Find(c.groups, p).value.parentId, target))
    ensures p != "" && p == target ==> Under(GroupForest(c), p, target)
  {
    WalkFromGroup(c, p);
  }

  method WalkMeets(c: Config, start: string, target: string) returns (meets: bool)
    requires Acyclic(GroupForest(c))
    ensures meets <==> Under(GroupForest(c), start, target)
  {
    var currentId := start;
    while currentId != ""
      invariant Under(GroupForest(c), start, target) <==> Under(GroupForest(c), currentId, target)
      decreases Height(GroupForest(c), currentId)
    {
      MeetsStep(c, currentId, target);
      if currentId == target { return true; }
      var groupIndex := GroupIndexById(c, currentId);
      if groupIndex < 0 { return false; }
      ClimbLowersHeight(c, currentId);
      currentId := c.groups[groupIndex].parentId;
    }
    return false;
  }

  method OwnIdInGroup(c: Config, device: Node, groupId: string) returns (own: seq<string>)
    requires Acyclic(GroupForest(c))
    ensures own == OwnIdBelow(c, device, groupId)
  {
    if device.id == "" { return []; }
    var meets := WalkMeets(c, device.parentId, groupId);
    return if meets then [device.id] else [];
  }

  method DeviceIdsInGroup(c: Config, groupId: string) returns (result: seq<string>)
    requires Acyclic(GroupForest(c))
    ensures result == DeviceIdsBelow(c, c.devices, groupId)
  {
    result := [];
    for i := 0 to |c.devices|
      invariant result == DeviceIdsBelow(c, c.devices[..i], groupId)
    {
      assert c.devices[..i + 1][..i] == c.devices[..i];
      var own := OwnIdInGroup(c, c.devices[i], groupId);
      result := result + own;
    }
    assert c.devices[..|c.devices|] == c.devices;
  }

  // A group counts as its own descendant, a device does not.
  method IsDescendantOf(c: Config, nodeId: string, maybeAncestorId: string) returns (descends: bool)
    requires Acyclic(GroupForest(c))
    ensures descends <==>
              if Find(c.groups, nodeId).Some? then Under(GroupForest(c), nodeId, maybeAncestorId)
              else Find(c.devices, nodeId).Some? && Under(GroupForest(c), ParentOf(c.devices, nodeId), maybeAncestorId)
  {
    var start := nodeId;
    var groupIndex := GroupIndexById(c, nodeId);
    if groupIndex < 0 {
      FindInBoth(c.groups, c.devices, nodeId);
      var found := FindNode(c, nodeId);
      if found.None? { return false; }
      start := found.value.parentId;
    }
    descends := WalkMeets(c, start, maybeAncestorId);
  }
}
