// Point clouds: positions, colours, bounds and named per-point attributes in
// one of several storages, and the merge of two clouds.
module PointClouds {
  import opened Common
  import opened Quantisation

  datatype Position = Position(x: int, y: int, z: int)
  datatype Color = Color(r: int, g: int, b: int, a: int)

  const ORIGIN := Position(0, 0, 0)
  const BLACK := Color(0, 0, 0, 0)

  // ---- bounds ----

  datatype Bounds = Bounds(min: Position, max: Position)

  // Bounds around nothing: the smallest coordinate is the largest a 16-bit
  // integer holds, and the other way about.
  const NOTHING := Bounds(Position(32767, 32767, 32767), Position(-32768, -32768, -32768))

  function Encompass(b: Bounds, p: Position): Bounds {
    Bounds(
      Position(if p.x < b.min.x then p.x else b.min.x,
               if p.y < b.min.y then p.y else b.min.y,
               if p.z < b.min.z then p.z else b.min.z),
      Position(if p.x > b.max.x then p.x else b.max.x,
               if p.y > b.max.y then p.y else b.max.y,
               if p.z > b.max.z then p.z else b.max.z))
  }

  function EncompassAll(b: Bounds, ps: seq<Position>): Bounds
    decreases |ps|
  {
    if ps == [] then b else Encompass(EncompassAll(b, ps[..|ps| - 1]), ps[|ps| - 1])
  }

  predicate Encloses(b: Bounds, p: Position) {
    b.min.x <= p.x <= b.max.x && b.min.y <= p.y <= b.max.y && b.min.z <= p.z <= b.max.z
  }

  lemma {:induction false} EncompassAllConcatenates(b: Bounds, ps: seq<Position>, qs: seq<Position>)
    ensures EncompassAll(b, ps + qs) == EncompassAll(EncompassAll(b, ps), qs)
    decreases |qs|
  {
    if qs == [] {
      assert ps + qs == ps;
    } else {
      assert (ps + qs)[..|ps + qs| - 1] == ps + qs[..|qs| - 1];
      EncompassAllConcatenates(b, ps, qs[..|qs| - 1]);
    }
  }

  predicate InInt16(p: Position) {
    Encloses(Bounds(Position(-32768, -32768, -32768), Position(32767, 32767, 32767)), p)
  }

  lemma EncompassCovers(b: Bounds, p: Position, q: Position)
    requires q == p || Encloses(b, q)
    ensures Encloses(Encompass(b, p), q)
  {}

  lemma EncompassIsLeast(b: Bounds, p: Position, c: Bounds)
    requires Encloses(c, p)
    requires (b == NOTHING && InInt16(p)) || (Encloses(c, b.min) && Encloses(c, b.max))
    ensures Encloses(c, Encompass(b, p).min) && Encloses(c, Encompass(b, p).max)
  {}

  // The bounds of some points are the tightest box around them.
  lemma {:induction false} BoundsAreTightest(ps: seq<Position>, c: Bounds)
    requires forall p :: p in ps ==> InInt16(p)
    ensures forall p :: p in ps ==> Encloses(EncompassAll(NOTHING, ps), p)
    ensures ps != [] && (forall p :: p in ps ==> Encloses(c, p)) ==>
              Encloses(c, EncompassAll(NOTHING, ps).min) && Encloses(c, EncompassAll(NOTHING, ps).max)
    decreases |ps|
  {
    if ps == [] {
    } else {
      var front, p := ps[..|ps| - 1], ps[|ps| - 1];
      assert ps == front + [p];
      BoundsAreTightest(front, c);
      forall q | q in ps ensures Encloses(EncompassAll(NOTHING, ps), q) {
        EncompassCovers(EncompassAll(NOTHING, front), p, q);
      }
      if forall q :: q in ps ==> Encloses(c, q) { EncompassIsLeast(EncompassAll(NOTHING, front), p, c); }
    }
  }

  // ---- attributes ----

  datatype RawKind = U8 | U16 | I8 | I16

  function RangeOf(k: RawKind): RawRange {
    match k
    case U8 => RawRange(0, 255)
    case U16 => RawRange(0, 65535)
    case I8 => RawRange(-128, 127)
    case I16 => RawRange(-32768, 32767)
  }

  datatype Storage =
    | Positions(positions: seq<Position>)
    | Floats(floats: seq<real>)
    | Raws(kind: RawKind, raws: seq<int>)

  datatype Attribute = Attribute(storage: Storage, encoding: Encoding)

  function Length(s: Storage): nat {
    match s
    case Positions(ps) => |ps|
    case Floats(fs) => |fs|
    case Raws(_, rs) => |rs|
  }

  predicate SameAlternative(s: Storage, t: Storage) {
    match s
    case Positions(_) => t.Positions?
    case Floats(_) => t.Floats?
    case Raws(k, _) => t.Raws? && t.kind == k
  }

  predicate HoldsScalar(a: Attribute) {
    !a.storage.Positions?
  }

  // A scalar attribute's values read back through its encoding.
  function ScalarValues(a: Attribute): seq<real> {
    match a.storage
    case Positions(_) => []
    case Floats(fs) => Mapped(fs, Reader(a.encoding))
    case Raws(_, rs) => Mapped(rs, RawReader(a.encoding))
  }

  function Reader(e: Encoding): real -> real {
    x => ToValue(e, x)
  }

  function RawReader(e: Encoding): int -> real {
    raw => ToValue(e, raw as real)
  }

  const POINT_SCALE := "point_scale"
  const DEFAULT_POINT_RADIUS_MM := 2.5

  // The real value a point takes for an attribute its cloud did not carry.
  function Default(name: string): real {
    if name == POINT_SCALE then DEFAULT_POINT_RADIUS_MM else 0.0
  }

  function DefaultRaw(name: string, k: RawKind, e: Encoding): int
    requires e.step != 0.0
  {
    Quantise(Default(name), e, RangeOf(k))
  }

  // An encoding that can be quantised through.
  predicate Usable(a: Attribute) {
    a.storage.Raws? ==> a.encoding.step != 0.0
  }

  function Fill<T>(n: nat, x: T): seq<T> {
    seq(n, _ => x)
  }

  function Resized<T>(s: seq<T>, n: nat, fill: T): seq<T> {
    if n <= |s| then s[..n] else s + Fill(n - |s|, fill)
  }

  // Values from the right when it has exactly one a point, else defaults.
  function Extended<T>(left: seq<T>, n: nat, m: nat, right: Option<seq<T>>, zero: T, missing: T): seq<T> {
    var grown := Resized(left, n, zero);
    if right.Some? && |right.value| == m then grown + right.value else Resized(grown, n + m, missing)
  }

  // ---- a cloud's value, and the merge of two ----

  datatype Cloud = Cloud(
    positions: seq<Position>,
    colors: seq<Color>,
    bounds: Bounds,
    attributes: map<string, Attribute>)

  const EMPTY := Cloud([], [], NOTHING, map[])

  function Size(c: Cloud): nat {
    |c.positions|
  }

  ghost predicate AllUsable(c: Cloud) {
    forall name :: name in c.attributes ==> Usable(c.attributes[name])
  }

  predicate PromotesToFloat(left: Attribute, right: Option<Attribute>) {
    right.Some?
    && !(SameAlternative(left.storage, right.value.storage) && left.encoding == right.value.encoding)
    && HoldsScalar(left) && HoldsScalar(right.value)
  }

  // An attribute the left cloud holds, over n points, after m more.
  function GrownAttribute(name: string, left: Attribute, n: nat, m: nat, right: Option<Attribute>): Attribute
    requires Usable(left)
  {
    if PromotesToFloat(left, right) then
      var merged := Resized(ScalarValues(left), n, Default(name)) + ScalarValues(right.value);
      Attribute(Floats(Resized(merged, n + m, Default(name))), IDENTITY)
    else
      var same :=
        right.Some? && SameAlternative(left.storage, right.value.storage) && left.encoding == right.value.encoding;
      match left.storage
      case Positions(ps) =>
        var from := if same then Some(right.value.storage.positions) else None;
        Attribute(Positions(Extended(ps, n, m, from, ORIGIN, ORIGIN)), left.encoding)
      case Floats(fs) =>
        var from := if same then Some(right.value.storage.floats) else None;
        Attribute(Floats(Extended(fs, n, m, from, 0.0, Default(name))), left.encoding)
      case Raws(k, rs) =>
        var from := if same then Some(right.value.storage.raws) else None;
        Attribute(Raws(k, Extended(rs, n, m, from, 0, DefaultRaw(name, k, left.encoding))), left.encoding)
  }

  // An attribute only the right cloud holds, defaulted across n points.
  function AdoptedAttribute(name: string, right: Attribute, n: nat, m: nat): Attribute
    requires Usable(right)
  {
    match right.storage
    case Positions(ps) => Attribute(Positions(Resized(Fill(n, ORIGIN) + ps, n + m, ORIGIN)), right.encoding)
    case Floats(fs) =>
      Attribute(Floats(Resized(Fill(n, Default(name)) + fs, n + m, Default(name))), right.encoding)
    case Raws(k, rs) =>
      var missing := DefaultRaw(name, k, right.encoding);
      Attribute(Raws(k, Resized(Fill(n, missing) + rs, n + m, missing)), right.encoding)
  }

  function Lookup(c: Cloud, name: string): Option<Attribute> {
    if name in c.attributes then Some(c.attributes[name]) else None
  }

  ghost function MergedAttribute(l: Cloud, r: Cloud, name: string): Attribute
    requires AllUsable(l) && AllUsable(r) && (name in l.attributes || name in r.attributes)
  {
    if name in l.attributes then GrownAttribute(name, l.attributes[name], Size(l), Size(r), Lookup(r, name))
    else AdoptedAttribute(name, r.attributes[name], Size(l), Size(r))
  }

  ghost predicate MergedOver(attributes: map<string, Attribute>, names: set<string>, l: Cloud, r: Cloud)
    requires AllUsable(l) && AllUsable(r) && names <= l.attributes.Keys + r.attributes.Keys
  {
    attributes.Keys == names && forall name :: name in names ==> attributes[name] == MergedAttribute(l, r, name)
  }

  lemma MergedOverOneMore(attributes: map<string, Attribute>, names: set<string>, l: Cloud, r: Cloud, name: string)
    requires AllUsable(l) && AllUsable(r) && l.attributes.Keys <= names <= l.attributes.Keys + r.attributes.Keys
    requires MergedOver(attributes, names, l, r) && name in r.attributes && name !in names
    ensures MergedOver(attributes[name := AdoptedAttribute(name, r.attributes[name], Size(l), Size(r))],
                       names + {name}, l, r)
  {}

  ghost function Merge(l: Cloud, r: Cloud): Cloud
    requires AllUsable(l) && AllUsable(r)
  {
    if Size(r) == 0 then l else
      Cloud(l.positions + r.positions, l.colors + r.colors, EncompassAll(l.bounds, r.positions),
            map name | name in l.attributes.Keys + r.attributes.Keys :: MergedAttribute(l, r, name))
  }

  class PointCloud {
    var positions: seq<Position>
    var colors: seq<Color>
    var bounds: Bounds
    var attributes: map<string, Attribute>

    constructor ()
      ensures Value() == EMPTY
    {
      positions, colors, bounds, attributes := [], [], NOTHING, map[];
    }

    function Value(): Cloud
      reads this
    {
      Cloud(positions, colors, bounds, attributes)
    }

    // operator+=. A cloud cannot be appended to itself: the program inserts
    // from the right's vectors while growing the left's.
    method Append(rhs: PointCloud)
      requires rhs != this && AllUsable(Value()) && AllUsable(rhs.Value())
      modifies this
      ensures Value() == Merge(old(Value()), rhs.Value())
    {
      var appendedSize := |rhs.positions|;
      if appendedSize == 0 { return; }
      var originalSize := |positions|;
      ghost var l, r := Value(), rhs.Value();
      positions := positions + rhs.positions;
      colors := colors + rhs.colors;
      for i := 0 to |rhs.positions|
        invariant bounds == EncompassAll(l.bounds, rhs.positions[..i])
        invariant (positions, colors, attributes) == (l.positions + r.positions, l.colors + r.colors, l.attributes)
      {
        bounds := Encompass(bounds, rhs.positions[i]);
        assert rhs.positions[..i + 1][..i] == rhs.positions[..i];
      }
      assert rhs.positions[..|rhs.positions|] == rhs.positions;
      GrowAttributes(rhs, originalSize, appendedSize, l);
      AdoptAttributes(rhs, originalSize, appendedSize, l);
    }

    // Grow what the left cloud already holds.
    method GrowAttributes(rhs: PointCloud, n: nat, m: nat, ghost l: Cloud)
      requires rhs != this && AllUsable(l) && AllUsable(rhs.Value())
      requires attributes == l.attributes && n == Size(l) && m == Size(rhs.Value())
      modifies this`attributes
      ensures MergedOver(attributes, l.attributes.Keys, l, rhs.Value())
    {
      var left := attributes.Keys;
      while left != {}
        invariant left <= l.attributes.Keys && attributes.Keys == l.attributes.Keys
        invariant forall name :: name in left ==> attributes[name] == l.attributes[name]
        invariant forall name :: name in attributes && name !in left ==>
          attributes[name] == MergedAttribute(l, rhs.Value(), name)
        decreases |left|
      {
        var name :| name in left;
        left := left - {name};
        var right := if name in rhs.attributes then Some(rhs.attributes[name]) else None;
        attributes := attributes[name := GrownAttribute(name, attributes[name], n, m, right)];
      }
    }

    // Take on what only the right cloud holds.
    method AdoptAttributes(rhs: PointCloud, n: nat, m: nat, ghost l: Cloud)
      requires rhs != this && AllUsable(l) && AllUsable(rhs.Value())
      requires MergedOver(attributes, l.attributes.Keys, l, rhs.Value())
      requires n == Size(l) && m == Size(rhs.Value())
      modifies this`attributes
      ensures MergedOver(attributes, l.attributes.Keys + rhs.attributes.Keys, l, rhs.Value())
    {
      var left := rhs.attributes.Keys;
      ghost var r, names := rhs.Value(), l.attributes.Keys;
      while left != {}
        invariant left <= r.attributes.Keys && rhs.Value() == r
        invariant l.attributes.Keys <= names <= l.attributes.Keys + r.attributes.Keys
        invariant forall name :: name in r.attributes && name !in left ==> name in names
        invariant MergedOver(attributes, names, l, r)
        decreases |left|
      {
        var name :| name in left;
        left := left - {name};
        if name !in attributes {
          MergedOverOneMore(attributes, names, l, r, name);
          attributes := attributes[name := AdoptedAttribute(name, rhs.attributes[name], n, m)];
          names := names + {name};
        }
      }
      assert names == l.attributes.Keys + r.attributes.Keys;
    }
  }

  // ---- what a merge means ----

  ghost predicate WellFormedAttribute(a: Attribute, n: nat) {
    && Length(a.storage) == n
    && (a.storage.Floats? ==> a.encoding == IDENTITY)
    && (a.storage.Raws? ==>
          a.encoding.step > 0.0
          && forall i :: 0 <= i < n ==>
              RangeOf(a.storage.kind).lowest <= a.storage.raws[i] <= RangeOf(a.storage.kind).highest)
  }

  ghost predicate WellFormed(c: Cloud) {
    && |c.colors| == Size(c)
    && forall name :: name in c.attributes ==> WellFormedAttribute(c.attributes[name], Size(c))
  }

  // The default of a name as an attribute's storage can hold it.
  function StoredDefault(name: string, a: Attribute): real
    requires Usable(a)
  {
    if a.storage.Raws? then ToValue(a.encoding, DefaultRaw(name, a.storage.kind, a.encoding) as real)
    else Default(name)
  }

  // It is the default itself to within half a step, when that is representable.
  lemma StoredDefaultIsNearDefault(name: string, a: Attribute)
    requires a.storage.Raws? && a.encoding.step > 0.0
    requires
      var t := RangeOf(a.storage.kind);
      ToValue(a.encoding, t.lowest as real - 0.5) <= Default(name) <= ToValue(a.encoding, t.highest as real + 0.5)
    ensures Abs(StoredDefault(name, a) - Default(name)) <= 0.5 * a.encoding.step
  {
    QuantiseErrorIsHalfAStep(Default(name), a.encoding, RangeOf(a.storage.kind));
  }

  lemma DefaultRawInRange(name: string, k: RawKind, e: Encoding)
    requires e.step > 0.0
    ensures RangeOf(k).lowest <= DefaultRaw(name, k, e) <= RangeOf(k).highest
  {
    QuantiseIsNearest(Default(name), e, RangeOf(k), 0);
  }

  lemma ResizedExactly<T>(s: seq<T>, fill: T)
    ensures Resized(s, |s|, fill) == s
  {}

  lemma PromotedDecodes(name: string, left: Attribute, n: nat, m: nat, right: Attribute)
    requires WellFormedAttribute(left, n) && WellFormedAttribute(right, m) && PromotesToFloat(left, Some(right))
    ensures
      var grown := GrownAttribute(name, left, n, m, Some(right));
      grown == Attribute(Floats(ScalarValues(left) + ScalarValues(right)), IDENTITY)
  {
    ResizedExactly(ScalarValues(left), Default(name));
    ResizedExactly(ScalarValues(left) + ScalarValues(right), Default(name));
  }

  lemma FloatsReadAsTheyAre(fs: seq<real>)
    ensures ScalarValues(Attribute(Floats(fs), IDENTITY)) == fs
  {
    forall x | x in fs ensures Reader(IDENTITY)(x) == x {}
    MappedFixes(fs, Reader(IDENTITY));
  }

  lemma {:induction false} FilledRawsRead(n: nat, raw: int, e: Encoding)
    ensures Mapped(Fill(n, raw), RawReader(e)) == Fill(n, ToValue(e, raw as real))
  {
    if n == 0 {
    } else {
      assert Fill(n, raw)[1..] == Fill(n - 1, raw);
      FilledRawsRead(n - 1, raw, e);
      assert [ToValue(e, raw as real)] + Fill(n - 1, ToValue(e, raw as real)) == Fill(n, ToValue(e, raw as real));
    }
  }

  lemma ExtendedExactly<T>(left: seq<T>, m: nat, right: Option<seq<T>>, zero: T, missing: T)
    requires right.Some? ==> |right.value| == m
    ensures Extended(left, |left|, m, right, zero, missing)
         == left + (if right.Some? then right.value else Fill(m, missing))
  {
    ResizedExactly(left, zero);
  }

  lemma GrownRawsDecode(name: string, left: Attribute, n: nat, m: nat, right: Option<Attribute>)
    requires left.storage.Raws? && WellFormedAttribute(left, n) && !PromotesToFloat(left, right)
    requires right.Some? ==> HoldsScalar(right.value) && WellFormedAttribute(right.value, m)
    ensures
      var grown := GrownAttribute(name, left, n, m, right);
      && grown.storage.Raws? && grown.storage.kind == left.storage.kind && grown.encoding == left.encoding
      && WellFormedAttribute(grown, n + m)
      && ScalarValues(grown)
           == ScalarValues(left)
               + (if right.Some? then ScalarValues(right.value) else Fill(m, StoredDefault(name, left)))
  {
    var e, missing := left.encoding, DefaultRaw(name, left.storage.kind, left.encoding);
    var raws, from := left.storage.raws, if right.Some? then Some(right.value.storage.raws) else None;
    DefaultRawInRange(name, left.storage.kind, e);
    ExtendedExactly(raws, m, from, 0, missing);
    MappedConcatenates(raws, if from.Some? then from.value else Fill(m, missing), RawReader(e));
    FilledRawsRead(m, missing, e);
  }

  lemma GrownFloatsDecode(name: string, left: Attribute, n: nat, m: nat, right: Option<Attribute>)
    requires left.storage.Floats? && WellFormedAttribute(left, n) && !PromotesToFloat(left, right)
    requires right.Some? ==> HoldsScalar(right.value) && WellFormedAttribute(right.value, m)
    ensures
      var grown := GrownAttribute(name, left, n, m, right);
      && grown.storage.Floats? && WellFormedAttribute(grown, n + m)
      && ScalarValues(grown)
           == ScalarValues(left)
               + (if right.Some? then ScalarValues(right.value) else Fill(m, StoredDefault(name, left)))
  {
    var floats, from := left.storage.floats, if right.Some? then Some(right.value.storage.floats) else None;
    ExtendedExactly(floats, m, from, 0.0, Default(name));
    FloatsReadAsTheyAre(floats);
    if from.Some? { FloatsReadAsTheyAre(from.value); }
    FloatsReadAsTheyAre(floats + (if from.Some? then from.value else Fill(m, Default(name))));
  }

  // Growing a scalar attribute keeps every value, takes the right's where it
  // has them, in the same storage or promoted, and defaults the rest.
  lemma GrownScalarDecodes(name: string, left: Attribute, n: nat, m: nat, right: Option<Attribute>)
    requires HoldsScalar(left) && WellFormedAttribute(left, n)
    requires right.Some? ==> HoldsScalar(right.value) && WellFormedAttribute(right.value, m)
    ensures
      var grown := GrownAttribute(name, left, n, m, right);
      && HoldsScalar(grown) && WellFormedAttribute(grown, n + m)
      && ScalarValues(grown)
           == ScalarValues(left)
               + (if right.Some? then ScalarValues(right.value) else Fill(m, StoredDefault(name, left)))
      && StoredDefault(name, grown) in {StoredDefault(name, left), Default(name)}
  {
    if PromotesToFloat(left, right) {
      PromotedDecodes(name, left, n, m, right.value);
      FloatsReadAsTheyAre(ScalarValues(left) + ScalarValues(right.value));
    } else if left.storage.Raws? {
      GrownRawsDecode(name, left, n, m, right);
    } else {
      GrownFloatsDecode(name, left, n, m, right);
    }
  }

  lemma AdoptedScalarDecodes(name: string, right: Attribute, n: nat, m: nat)
    requires HoldsScalar(right) && WellFormedAttribute(right, m)
    ensures
      var adopted := AdoptedAttribute(name, right, n, m);
      && HoldsScalar(adopted) && WellFormedAttribute(adopted, n + m)
      && ScalarValues(adopted) == Fill(n, StoredDefault(name, right)) + ScalarValues(right)
      && StoredDefault(name, adopted) == StoredDefault(name, right)
  {
    if right.storage.Raws? {
      AdoptedRawsDecode(name, right, n, m);
    } else {
      var missing := Fill(n, Default(name));
      ResizedExactly(missing + right.storage.floats, Default(name));
      FloatsReadAsTheyAre(missing + right.storage.floats);
      FloatsReadAsTheyAre(right.storage.floats);
    }
  }

  lemma AdoptedRawsDecode(name: string, right: Attribute, n: nat, m: nat)
    requires right.storage.Raws? && WellFormedAttribute(right, m)
    ensures
      var adopted := AdoptedAttribute(name, right, n, m);
      && adopted.storage.Raws? && adopted.storage.kind == right.storage.kind && adopted.encoding == right.encoding
      && WellFormedAttribute(adopted, n + m)
      && ScalarValues(adopted) == Fill(n, StoredDefault(name, right)) + ScalarValues(right)
  {
    var e, missing := right.encoding, DefaultRaw(name, right.storage.kind, right.encoding);
    DefaultRawInRange(name, right.storage.kind, e);
    ResizedExactly(Fill(n, missing) + right.storage.raws, missing);
    MappedConcatenates(Fill(n, missing), right.storage.raws, RawReader(e));
    FilledRawsRead(n, missing, e);
  }

  // An attribute of points joins only attributes of points; a clash of points
  // and scalars keeps the left's kind and defaults the right's share.
  lemma GrownPositions(name: string, left: Attribute, n: nat, m: nat, right: Option<Attribute>)
    requires left.storage.Positions? && WellFormedAttribute(left, n)
    requires right.Some? ==> WellFormedAttribute(right.value, m)
    ensures
      var grown := GrownAttribute(name, left, n, m, right);
      && grown.storage.Positions? && WellFormedAttribute(grown, n + m)
      && grown.storage.positions == left.storage.positions
           + (if right.Some? && right.value.storage.Positions? && right.value.encoding == left.encoding
              then right.value.storage.positions else Fill(m, ORIGIN))
  {}

  lemma GrownScalarOverPositions(name: string, left: Attribute, n: nat, m: nat, right: Attribute)
    requires HoldsScalar(left) && WellFormedAttribute(left, n) && right.storage.Positions?
    ensures
      var grown := GrownAttribute(name, left, n, m, Some(right));
      WellFormedAttribute(grown, n + m) && grown == GrownAttribute(name, left, n, m, None)
  {
    if left.storage.Raws? { DefaultRawInRange(name, left.storage.kind, left.encoding); }
  }

  // Each range is its integer type's: as many numbers as the bits can tell apart,
  // from zero, or for a signed type from the negative of what follows the largest.
  lemma RangesAreTheTypes(k: RawKind)
    ensures RangeOf(k).highest - RangeOf(k).lowest + 1 == if k.U8? || k.I8? then 256 else 65536
    ensures RangeOf(k).lowest == if k.U8? || k.U16? then 0 else -(RangeOf(k).highest + 1)
  {}

  // An attribute of points that only the right holds has the origin for the
  // left's points, and then its own.
  lemma AdoptedPositions(name: string, right: Attribute, n: nat, m: nat)
    requires right.storage.Positions? && WellFormedAttribute(right, m)
    ensures
      var adopted := AdoptedAttribute(name, right, n, m);
      && adopted.storage.Positions? && adopted.encoding == right.encoding && WellFormedAttribute(adopted, n + m)
      && adopted.storage.positions == Fill(n, Position(0, 0, 0)) + right.storage.positions
  {}

  // Whatever the attributes held before, after a merge each has one element for
  // each point, and each of the left's keeps those it had for the left's points.
  lemma MergedIsSized(l: Cloud, r: Cloud, name: string)
    requires AllUsable(l) && AllUsable(r) && Size(r) > 0 && name in Merge(l, r).attributes
    ensures Length(Merge(l, r).attributes[name].storage) == Size(l) + Size(r)
    ensures name in l.attributes || name in r.attributes
    ensures name in l.attributes && l.attributes[name].storage.Positions? ==>
              var was, now := l.attributes[name].storage.positions, Merge(l, r).attributes[name].storage;
              now.Positions? && forall i :: 0 <= i < Size(l) ==>
                now.positions[i] == if i < |was| then was[i] else Position(0, 0, 0)
  {}

  lemma MergeIsWellFormed(l: Cloud, r: Cloud)
    requires WellFormed(l) && WellFormed(r)
    ensures AllUsable(l) && AllUsable(r) && WellFormed(Merge(l, r))
  {
    assert AllUsable(l) && AllUsable(r);
    if Size(r) != 0 {
      var n, m := Size(l), Size(r);
      forall name | name in l.attributes || name in r.attributes
        ensures WellFormedAttribute(MergedAttribute(l, r, name), n + m)
      {
        var right := Lookup(r, name);
        if name !in l.attributes {
          if HoldsScalar(r.attributes[name]) { AdoptedScalarDecodes(name, r.attributes[name], n, m); }
        } else if !HoldsScalar(l.attributes[name]) {
          GrownPositions(name, l.attributes[name], n, m, right);
        } else if right.Some? && !HoldsScalar(right.value) {
          GrownScalarOverPositions(name, l.attributes[name], n, m, right.value);
        } else {
          GrownScalarDecodes(name, l.attributes[name], n, m, right);
        }
      }
    }
  }

  // ---- merging any number of clouds ----

  ghost predicate AllWellFormed(clouds: seq<Cloud>) {
    forall i :: 0 <= i < |clouds| ==> WellFormed(clouds[i])
  }

  ghost function MergeAll(clouds: seq<Cloud>): (c: Cloud)
    requires AllWellFormed(clouds)
    ensures WellFormed(c)
    decreases |clouds|
  {
    if clouds == [] then EMPTY else
      var front, last := MergeAll(clouds[..|clouds| - 1]), clouds[|clouds| - 1];
      MergeIsWellFormed(front, last);
      Merge(front, last)
  }

  // Where a cloud's points start in the merged cloud.
  function Offset(clouds: seq<Cloud>, k: nat): nat
    requires k <= |clouds|
  {
    if k == 0 then 0 else Offset(clouds, k - 1) + Size(clouds[k - 1])
  }

  lemma {:induction false} OffsetOfPrefix(clouds: seq<Cloud>, j: nat, k: nat)
    requires k <= j <= |clouds|
    ensures Offset(clouds[..j], k) == Offset(clouds, k)
    decreases k
  {
    if k == 0 {
    } else {
      OffsetOfPrefix(clouds, j, k - 1);
    }
  }

  ghost predicate AlwaysScalar(clouds: seq<Cloud>, name: string) {
    forall i :: 0 <= i < |clouds| && name in clouds[i].attributes ==> HoldsScalar(clouds[i].attributes[name])
  }

  // The merged cloud has everyone's points, and the bounds of all of them.
  lemma {:induction false} MergeAllSize(clouds: seq<Cloud>)
    requires AllWellFormed(clouds)
    ensures Size(MergeAll(clouds)) == Offset(clouds, |clouds|)
    ensures MergeAll(clouds).bounds == EncompassAll(NOTHING, MergeAll(clouds).positions)
    decreases |clouds|
  {
    if clouds == [] {
    } else {
      var n := |clouds| - 1;
      MergeAllSize(clouds[..n]);
      OffsetOfPrefix(clouds, n, n);
      EncompassAllConcatenates(NOTHING, MergeAll(clouds[..n]).positions, clouds[n].positions);
    }
  }

  // Point j of cloud k is one point of the merged cloud, in order, position and
  // colour together.
  lemma {:induction false} MergeAllKeepsPoints(clouds: seq<Cloud>, k: nat, j: nat)
    requires AllWellFormed(clouds) && k < |clouds| && j < Size(clouds[k])
    ensures
      var c, i := MergeAll(clouds), Offset(clouds, k) + j;
      i < Size(c) == |c.colors| && c.positions[i] == clouds[k].positions[j] && c.colors[i] == clouds[k].colors[j]
    decreases |clouds|
  {
    var n := |clouds| - 1;
    var front := clouds[..n];
    if k < n {
      MergeAllKeepsPoints(front, k, j);
      OffsetOfPrefix(clouds, n, k);
    } else {
      MergeAllSize(front);
      OffsetOfPrefix(clouds, n, n);
    }
  }

  // One cloud's share of a scalar attribute in a merge.
  function Share(c: Cloud, name: string, default: real): seq<real> {
    if name in c.attributes then ScalarValues(c.attributes[name]) else Fill(Size(c), default)
  }

  lemma MergeDecodes(l: Cloud, r: Cloud, name: string)
    requires WellFormed(l) && WellFormed(r) && Size(r) > 0
    requires name in l.attributes || name in r.attributes
    requires name in l.attributes ==> HoldsScalar(l.attributes[name])
    requires name in r.attributes ==> HoldsScalar(r.attributes[name])
    ensures AllUsable(l) && AllUsable(r) && name in Merge(l, r).attributes
    ensures
      var a := Merge(l, r).attributes[name];
      var from := if name in l.attributes then l.attributes[name] else r.attributes[name];
      && HoldsScalar(a) && Usable(a)
      && ScalarValues(a) == Share(l, name, StoredDefault(name, from)) + Share(r, name, StoredDefault(name, from))
      && StoredDefault(name, a) in {StoredDefault(name, from), Default(name)}
  {
    if name in l.attributes {
      GrownScalarDecodes(name, l.attributes[name], Size(l), Size(r), Lookup(r, name));
    } else {
      AdoptedScalarDecodes(name, r.attributes[name], Size(l), Size(r));
    }
  }

  // ---- what a point reads as whose own cloud lacks the name ----

  // Merging passes over empty clouds.
  predicate Carries(c: Cloud, name: string) {
    Size(c) > 0 && name in c.attributes
  }

  // The first cloud that brings the name, or the number of clouds.
  function FirstCarrier(clouds: seq<Cloud>, name: string): (k: nat)
    ensures k <= |clouds| && (k < |clouds| ==> Carries(clouds[k], name))
    ensures forall i :: 0 <= i < k ==> !Carries(clouds[i], name)
    decreases |clouds|
  {
    if clouds == [] then 0 else
      var n := |clouds| - 1;
      var k := FirstCarrier(clouds[..n], name);
      if k < n || Carries(clouds[n], name) then k else n + 1
  }

  predicate Alike(a: Attribute, b: Attribute) {
    SameAlternative(a.storage, b.storage) && a.encoding == b.encoding
  }

  // Some cloud before k stores the name otherwise than the first that brought
  // it, so it has been promoted to floats by then.
  predicate Promoted(clouds: seq<Cloud>, name: string, k: nat)
    requires FirstCarrier(clouds, name) < |clouds| && k <= |clouds|
  {
    var first := FirstCarrier(clouds, name);
    exists i :: first < i < k && Carries(clouds[i], name)
                && !Alike(clouds[first].attributes[name], clouds[i].attributes[name])
  }

  // What the points of cloud k are given: the default as the first cloud that
  // brought the name stores it, or the default itself once it was promoted.
  ghost function MissingValue(clouds: seq<Cloud>, name: string, k: nat): real
    requires AllWellFormed(clouds) && FirstCarrier(clouds, name) < |clouds| && k <= |clouds|
  {
    var first := FirstCarrier(clouds, name);
    if first < k && Promoted(clouds, name, k) then Default(name)
    else StoredDefault(name, clouds[first].attributes[name])
  }

  lemma FirstOfPrefix(clouds: seq<Cloud>, name: string)
    requires clouds != []
    ensures
      var n := |clouds| - 1;
      var front := FirstCarrier(clouds[..n], name);
      FirstCarrier(clouds, name) == if front < n || Carries(clouds[n], name) then front else n + 1
  {}

  lemma PromotedWithin(clouds: seq<Cloud>, name: string, k: nat)
    requires clouds != [] && FirstCarrier(clouds[..|clouds| - 1], name) < |clouds| - 1 && k <= |clouds| - 1
    ensures FirstCarrier(clouds, name) == FirstCarrier(clouds[..|clouds| - 1], name)
    ensures Promoted(clouds, name, k) <==> Promoted(clouds[..|clouds| - 1], name, k)
  {
    var n := |clouds| - 1;
    forall i | 0 <= i < n ensures clouds[..n][i] == clouds[i] {}
  }

  lemma PromotedStep(clouds: seq<Cloud>, name: string, k: nat)
    requires FirstCarrier(clouds, name) < k < |clouds|
    ensures
      var first := FirstCarrier(clouds, name);
      Promoted(clouds, name, k + 1) <==>
        (Promoted(clouds, name, k)
         || (Carries(clouds[k], name) && !Alike(clouds[first].attributes[name], clouds[k].attributes[name])))
  {}

  lemma PromotedOneOn(clouds: seq<Cloud>, name: string)
    requires clouds != [] && FirstCarrier(clouds[..|clouds| - 1], name) < |clouds| - 1
    ensures FirstCarrier(clouds, name) == FirstCarrier(clouds[..|clouds| - 1], name)
    ensures
      var n := |clouds| - 1;
      Promoted(clouds, name, n + 1) <==>
        (Promoted(clouds[..n], name, n)
         || (Carries(clouds[n], name)
             && !Alike(clouds[FirstCarrier(clouds, name)].attributes[name], clouds[n].attributes[name])))
  {
    PromotedWithin(clouds, name, |clouds| - 1);
    PromotedStep(clouds, name, |clouds| - 1);
  }

  // How the merged cloud stores the name.
  ghost predicate StoredAs(clouds: seq<Cloud>, c: Cloud, name: string) {
    var first := FirstCarrier(clouds, name);
    && (name in c.attributes <==> first < |clouds|)
    && (name in c.attributes ==>
          if Promoted(clouds, name, |clouds|)
          then c.attributes[name].storage.Floats? && c.attributes[name].encoding == IDENTITY
          else Alike(c.attributes[name], clouds[first].attributes[name]))
  }

  ghost predicate ScalarAs(clouds: seq<Cloud>, l: Cloud, name: string)
    requires AllWellFormed(clouds)
  {
    && StoredAs(clouds, l, name)
    && (name in l.attributes ==>
          var a := l.attributes[name];
          HoldsScalar(a) && Usable(a) && StoredDefault(name, a) == MissingValue(clouds, name, |clouds|))
  }

  lemma GrownIsAlike(name: string, left: Attribute, n: nat, m: nat, right: Option<Attribute>)
    requires HoldsScalar(left) && WellFormedAttribute(left, n) && (right.Some? ==> HoldsScalar(right.value))
    ensures
      var grown := GrownAttribute(name, left, n, m, right);
      if right.Some? && !Alike(left, right.value) then grown.storage.Floats? && grown.encoding == IDENTITY
      else Alike(grown, left)
  {}

  lemma AdoptedIsAlike(name: string, right: Attribute, n: nat, m: nat)
    requires Usable(right)
    ensures Alike(AdoptedAttribute(name, right, n, m), right)
  {}

  lemma StoredAsOneMore(clouds: seq<Cloud>, l: Cloud, name: string)
    requires clouds != [] && AllWellFormed(clouds) && AlwaysScalar(clouds, name) && WellFormed(l)
    requires StoredAs(clouds[..|clouds| - 1], l, name) && (name in l.attributes ==> HoldsScalar(l.attributes[name]))
    ensures AllUsable(l) && AllUsable(clouds[|clouds| - 1])
    ensures StoredAs(clouds, Merge(l, clouds[|clouds| - 1]), name)
  {
    var n := |clouds| - 1;
    var r := clouds[n];
    FirstOfPrefix(clouds, name);
    if name in l.attributes {
      PromotedOneOn(clouds, name);
      if Size(r) > 0 { GrownIsAlike(name, l.attributes[name], Size(l), Size(r), Lookup(r, name)); }
    } else if Carries(r, name) {
      AdoptedIsAlike(name, r.attributes[name], Size(l), Size(r));
    }
  }

  lemma AlikeKeepsScalar(a: Attribute, b: Attribute, name: string)
    requires Alike(a, b) && Usable(a) && Usable(b)
    ensures HoldsScalar(a) == HoldsScalar(b) && StoredDefault(name, a) == StoredDefault(name, b)
  {}

  lemma {:induction false} MergedIsStoredAs(clouds: seq<Cloud>, name: string)
    requires AllWellFormed(clouds) && AlwaysScalar(clouds, name)
    ensures ScalarAs(clouds, MergeAll(clouds), name)
    decreases |clouds|
  {
    if clouds == [] {
    } else {
      MergedIsStoredAs(clouds[..|clouds| - 1], name);
      StoredAsOneMore(clouds, MergeAll(clouds[..|clouds| - 1]), name);
    }
    if name in MergeAll(clouds).attributes && !Promoted(clouds, name, |clouds|) {
      AlikeKeepsScalar(MergeAll(clouds).attributes[name], clouds[FirstCarrier(clouds, name)].attributes[name], name);
    }
  }

  // What a cloud's own attribute says of its point j, if it has the attribute.
  function OwnValue(c: Cloud, name: string, j: nat): Option<real> {
    if name in c.attributes && j < |ScalarValues(c.attributes[name])| then Some(ScalarValues(c.attributes[name])[j])
    else None
  }

  // What point j of cloud k should read as in the merged cloud.
  ghost function Expected(clouds: seq<Cloud>, name: string, k: nat, j: nat): Option<real>
    requires AllWellFormed(clouds) && k < |clouds|
  {
    if OwnValue(clouds[k], name, j).Some? then OwnValue(clouds[k], name, j)
    else if FirstCarrier(clouds, name) < |clouds| then Some(MissingValue(clouds, name, k))
    else None
  }

  // Reading an attribute whose values are one part after another.
  lemma ReadsOfParts(c: Cloud, name: string, left: seq<real>, right: seq<real>, i: nat)
    requires name in c.attributes && ScalarValues(c.attributes[name]) == left + right && i < |left| + |right|
    ensures OwnValue(c, name, i) == Some(if i < |left| then left[i] else right[i - |left|])
  {}

  // What a share brings for a point.
  lemma ShareIsFull(c: Cloud, name: string, default: real)
    requires WellFormed(c) && (name in c.attributes ==> HoldsScalar(c.attributes[name]))
    ensures |Share(c, name, default)| == Size(c)
  {}

  lemma ShareReads(c: Cloud, name: string, default: real, j: nat)
    requires WellFormed(c) && (name in c.attributes ==> HoldsScalar(c.attributes[name])) && j < Size(c)
    ensures |Share(c, name, default)| == Size(c)
    ensures OwnValue(c, name, j) == if name in c.attributes then Some(Share(c, name, default)[j]) else None
    ensures name !in c.attributes ==> Share(c, name, default)[j] == default
  {}

  // In a cloud that holds both shares, one after the other.
  lemma ReadsLeftShare(m: Cloud, l: Cloud, r: Cloud, name: string, default: real, i: nat)
    requires WellFormed(l) && (name in l.attributes ==> HoldsScalar(l.attributes[name])) && i < Size(l)
    requires name in m.attributes
    requires ScalarValues(m.attributes[name]) == Share(l, name, default) + Share(r, name, default)
    ensures OwnValue(m, name, i) == if name in l.attributes then OwnValue(l, name, i) else Some(default)
  {
    ShareReads(l, name, default, i);
    ReadsOfParts(m, name, Share(l, name, default), Share(r, name, default), i);
  }

  lemma ReadsRightShare(m: Cloud, l: Cloud, r: Cloud, name: string, default: real, j: nat)
    requires WellFormed(l) && (name in l.attributes ==> HoldsScalar(l.attributes[name]))
    requires WellFormed(r) && (name in r.attributes ==> HoldsScalar(r.attributes[name])) && j < Size(r)
    requires name in m.attributes
    requires ScalarValues(m.attributes[name]) == Share(l, name, default) + Share(r, name, default)
    ensures OwnValue(m, name, Size(l) + j) == if name in r.attributes then OwnValue(r, name, j) else Some(default)
  {
    ShareIsFull(l, name, default);
    ShareReads(r, name, default, j);
    ReadsOfParts(m, name, Share(l, name, default), Share(r, name, default), Size(l) + j);
  }

  lemma MergeLacks(l: Cloud, r: Cloud, name: string)
    requires WellFormed(l) && WellFormed(r)
    ensures AllUsable(l) && AllUsable(r)
    ensures name !in l.attributes && (name !in r.attributes || Size(r) == 0) ==> name !in Merge(l, r).attributes
    ensures Size(r) == 0 ==> Merge(l, r) == l
  {}

  // A merge keeps what an earlier point reads as, and defaults it when the
  // right brings the name.
  lemma MergeReadsLeft(l: Cloud, r: Cloud, name: string, i: nat)
    requires WellFormed(l) && WellFormed(r) && i < Size(l)
    requires name in l.attributes ==> HoldsScalar(l.attributes[name])
    requires name in r.attributes ==> HoldsScalar(r.attributes[name])
    ensures AllUsable(l) && AllUsable(r)
    ensures OwnValue(Merge(l, r), name, i)
         == if name !in l.attributes && Carries(r, name) then Some(StoredDefault(name, r.attributes[name]))
            else OwnValue(l, name, i)
  {
    MergeLacks(l, r, name);
    if Size(r) > 0 && (name in l.attributes || name in r.attributes) {
      MergeDecodes(l, r, name);
      var from := if name in l.attributes then l.attributes[name] else r.attributes[name];
      ReadsLeftShare(Merge(l, r), l, r, name, StoredDefault(name, from), i);
    }
  }

  lemma MergeReadsRight(l: Cloud, r: Cloud, name: string, j: nat)
    requires WellFormed(l) && WellFormed(r) && j < Size(r)
    requires name in l.attributes ==> HoldsScalar(l.attributes[name])
    requires name in r.attributes ==> HoldsScalar(r.attributes[name])
    ensures AllUsable(l) && AllUsable(r)
    ensures OwnValue(Merge(l, r), name, Size(l) + j)
         == if name in l.attributes && name !in r.attributes then Some(StoredDefault(name, l.attributes[name]))
            else OwnValue(r, name, j)
  {
    MergeLacks(l, r, name);
    if name in l.attributes || name in r.attributes {
      MergeDecodes(l, r, name);
      var from := if name in l.attributes then l.attributes[name] else r.attributes[name];
      ReadsRightShare(Merge(l, r), l, r, name, StoredDefault(name, from), j);
    }
  }

  lemma MergeAllStep(clouds: seq<Cloud>)
    requires AllWellFormed(clouds) && clouds != []
    ensures
      var l, last := MergeAll(clouds[..|clouds| - 1]), clouds[|clouds| - 1];
      && AllUsable(l) && AllUsable(last) && MergeAll(clouds) == Merge(l, last)
      && Size(l) == Offset(clouds[..|clouds| - 1], |clouds| - 1) == Offset(clouds, |clouds| - 1)
  {
    LastIsMerged(clouds);
    FrontSize(clouds, clouds[..|clouds| - 1]);
  }

  lemma LastIsMerged(clouds: seq<Cloud>)
    requires AllWellFormed(clouds) && clouds != []
    ensures
      var l, last := MergeAll(clouds[..|clouds| - 1]), clouds[|clouds| - 1];
      AllUsable(l) && AllUsable(last) && MergeAll(clouds) == Merge(l, last)
  {
    MergeIsWellFormed(MergeAll(clouds[..|clouds| - 1]), clouds[|clouds| - 1]);
  }

  lemma FrontSize(clouds: seq<Cloud>, front: seq<Cloud>)
    requires AllWellFormed(clouds) && clouds != [] && front == clouds[..|clouds| - 1]
    ensures Size(MergeAll(front)) == Offset(front, |front|) == Offset(clouds, |front|)
  {
    MergeAllSize(front);
    OffsetOfPrefix(clouds, |front|, |front|);
  }

  lemma {:induction false} OffsetGrows(clouds: seq<Cloud>, j: nat, k: nat)
    requires j <= k <= |clouds|
    ensures Offset(clouds, j) <= Offset(clouds, k)
  {
    if j == k {
    } else {
      OffsetGrows(clouds, j, k - 1);
    }
  }

  lemma OffsetWithinFront(clouds: seq<Cloud>, k: nat, j: nat)
    requires k < |clouds| - 1 && j < Size(clouds[k])
    ensures Offset(clouds[..|clouds| - 1], k) == Offset(clouds, k)
    ensures Offset(clouds, k) + j < Offset(clouds[..|clouds| - 1], |clouds| - 1)
  {
    OffsetOfPrefix(clouds, |clouds| - 1, k);
    OffsetOfPrefix(clouds, |clouds| - 1, |clouds| - 1);
    OffsetGrows(clouds, k + 1, |clouds| - 1);
  }

  // What is expected of an earlier point when one more cloud is merged.
  lemma ExpectedOneMore(clouds: seq<Cloud>, name: string, k: nat, j: nat)
    requires AllWellFormed(clouds) && k < |clouds| - 1 && j < Size(clouds[k]) && clouds[..|clouds| - 1][k] == clouds[k]
    ensures
      var n := |clouds| - 1;
      Expected(clouds, name, k, j)
        == if FirstCarrier(clouds[..n], name) == n && Carries(clouds[n], name) && OwnValue(clouds[k], name, j).None?
           then Some(StoredDefault(name, clouds[n].attributes[name]))
           else Expected(clouds[..n], name, k, j)
  {
    var n := |clouds| - 1;
    FirstOfPrefix(clouds, name);
    if FirstCarrier(clouds[..n], name) < n { PromotedWithin(clouds, name, k); }
  }

  lemma ExpectedOfLast(clouds: seq<Cloud>, name: string, j: nat)
    requires AllWellFormed(clouds) && clouds != []
    ensures
      var n := |clouds| - 1;
      Expected(clouds, name, n, j)
        == if OwnValue(clouds[n], name, j).Some? then OwnValue(clouds[n], name, j)
           else if FirstCarrier(clouds[..n], name) < n then Some(MissingValue(clouds[..n], name, n))
           else if Carries(clouds[n], name) then Some(StoredDefault(name, clouds[n].attributes[name]))
           else None
  {
    var n := |clouds| - 1;
    FirstOfPrefix(clouds, name);
    if FirstCarrier(clouds[..n], name) < n { PromotedWithin(clouds, name, n); }
  }

  // A cloud that carries the name has a value of its own for each point.
  lemma CarriedMeansOwned(c: Cloud, name: string, j: nat)
    requires WellFormed(c) && j < Size(c) && name in c.attributes && HoldsScalar(c.attributes[name])
    ensures OwnValue(c, name, j).Some?
  {}

  lemma EarlierPoint(clouds: seq<Cloud>, l: Cloud, name: string, k: nat, j: nat, i: nat)
    requires AllWellFormed(clouds) && AlwaysScalar(clouds, name) && k < |clouds| - 1 && j < Size(clouds[k])
    requires WellFormed(l) && ScalarAs(clouds[..|clouds| - 1], l, name) && i < Size(l)
    requires clouds[..|clouds| - 1][k] == clouds[k]
    requires OwnValue(l, name, i) == Expected(clouds[..|clouds| - 1], name, k, j)
    ensures AllUsable(l) && AllUsable(clouds[|clouds| - 1])
    ensures OwnValue(Merge(l, clouds[|clouds| - 1]), name, i) == Expected(clouds, name, k, j)
  {
    MergeReadsLeft(l, clouds[|clouds| - 1], name, i);
    ExpectedOneMore(clouds, name, k, j);
  }

  lemma LastReads(clouds: seq<Cloud>, l: Cloud, name: string, j: nat)
    requires clouds != [] && AllWellFormed(clouds) && AlwaysScalar(clouds, name) && j < Size(clouds[|clouds| - 1])
    requires ScalarAs(clouds[..|clouds| - 1], l, name)
    ensures
      var last := clouds[|clouds| - 1];
      Expected(clouds, name, |clouds| - 1, j)
        == if name in l.attributes && name !in last.attributes then Some(StoredDefault(name, l.attributes[name]))
           else OwnValue(last, name, j)
  {
    var last := clouds[|clouds| - 1];
    if name in last.attributes { CarriedMeansOwned(last, name, j); }
    ExpectedOfLast(clouds, name, j);
  }

  lemma LastPoint(clouds: seq<Cloud>, l: Cloud, name: string, j: nat)
    requires clouds != [] && AllWellFormed(clouds) && AlwaysScalar(clouds, name) && j < Size(clouds[|clouds| - 1])
    requires WellFormed(l) && ScalarAs(clouds[..|clouds| - 1], l, name)
    ensures AllUsable(l) && AllUsable(clouds[|clouds| - 1])
    ensures OwnValue(Merge(l, clouds[|clouds| - 1]), name, Size(l) + j) == Expected(clouds, name, |clouds| - 1, j)
  {
    MergeReadsRight(l, clouds[|clouds| - 1], name, j);
    LastReads(clouds, l, name, j);
  }

  ghost predicate Decodes(clouds: seq<Cloud>, name: string, k: nat, j: nat)
    requires AllWellFormed(clouds) && k < |clouds|
  {
    OwnValue(MergeAll(clouds), name, Offset(clouds, k) + j) == Expected(clouds, name, k, j)
  }

  lemma EarlierDecodes(clouds: seq<Cloud>, name: string, k: nat, j: nat)
    requires AllWellFormed(clouds) && AlwaysScalar(clouds, name) && k < |clouds| - 1 && j < Size(clouds[k])
    requires Decodes(clouds[..|clouds| - 1], name, k, j)
    ensures Decodes(clouds, name, k, j)
  {
    var front := clouds[..|clouds| - 1];
    MergeAllStep(clouds);
    MergedIsStoredAs(front, name);
    OffsetWithinFront(clouds, k, j);
    EarlierPoint(clouds, MergeAll(front), name, k, j, Offset(clouds, k) + j);
  }

  lemma ReadsAtOffset(c: Cloud, merged: Cloud, name: string, size: nat, offset: nat, j: nat)
    requires c == merged && size == offset
    ensures OwnValue(c, name, offset + j) == OwnValue(merged, name, size + j)
  {}

  lemma LastDecodes(clouds: seq<Cloud>, name: string, j: nat)
    requires clouds != [] && AllWellFormed(clouds) && AlwaysScalar(clouds, name) && j < Size(clouds[|clouds| - 1])
    ensures Decodes(clouds, name, |clouds| - 1, j)
  {
    MergeAllStep(clouds);
    MergedIsStoredAs(clouds[..|clouds| - 1], name);
    var n, l := |clouds| - 1, MergeAll(clouds[..|clouds| - 1]);
    LastPoint(clouds, l, name, j);
    ReadsAtOffset(MergeAll(clouds), Merge(l, clouds[n]), name, Size(l), Offset(clouds, n), j);
  }

  // What a cloud without the name gets when the other brings it as plain floats:
  // 2.5 for the point scale, and zero for any other name.
  lemma BroughtFloatsDefault(l: Cloud, r: Cloud, name: string, i: nat)
    requires WellFormed(l) && WellFormed(r) && i < Size(l) && Size(r) > 0
    requires name !in l.attributes && name in r.attributes && r.attributes[name].storage.Floats?
    ensures AllUsable(l) && AllUsable(r)
    ensures OwnValue(Merge(l, r), name, i) == Some(if name == "point_scale" then 2.5 else 0.0)
  {
    MergeReadsLeft(l, r, name, i);
  }

  // Whatever the clouds, their order and their storages, point j of cloud k
  // reads back in the merged cloud with the value it had in its own, or with
  // exactly that default where its own cloud had none.
  lemma {:induction false} MergeAllDecodes(clouds: seq<Cloud>, name: string, k: nat, j: nat)
    requires AllWellFormed(clouds) && AlwaysScalar(clouds, name) && k < |clouds| && j < Size(clouds[k])
    ensures Decodes(clouds, name, k, j)
    decreases |clouds|
  {
    if k < |clouds| - 1 {
      MergeAllDecodes(clouds[..|clouds| - 1], name, k, j);
      EarlierDecodes(clouds, name, k, j);
    } else {
      LastDecodes(clouds, name, j);
    }
  }

  // ---- starting from a copy of the first cloud ----

  ghost function MergeOnto(first: Cloud, clouds: seq<Cloud>): (c: Cloud)
    requires WellFormed(first) && AllWellFormed(clouds)
    ensures WellFormed(c)
    decreases |clouds|
  {
    if clouds == [] then first else
      var front, last := MergeOnto(first, clouds[..|clouds| - 1]), clouds[|clouds| - 1];
      MergeIsWellFormed(front, last);
      Merge(front, last)
  }

  lemma AdoptedByNone(name: string, a: Attribute, m: nat)
    requires WellFormedAttribute(a, m)
    ensures AdoptedAttribute(name, a, 0, m) == a
  {}

  lemma MergeOntoEmpty(c: Cloud)
    requires WellFormed(c) && Size(c) > 0
    ensures AllUsable(EMPTY) && AllUsable(c) && Merge(EMPTY, c) == c.(bounds := EncompassAll(NOTHING, c.positions))
  {
    forall name | name in c.attributes ensures MergedAttribute(EMPTY, c, name) == c.attributes[name] {
      AdoptedByNone(name, c.attributes[name], Size(c));
    }
    assert Merge(EMPTY, c).attributes == c.attributes;
  }

  lemma MergeIgnoresBounds(l: Cloud, r: Cloud, b: Bounds)
    requires WellFormed(l) && WellFormed(r)
    ensures AllUsable(l) && AllUsable(r)
    ensures Merge(l.(bounds := b), r) == Merge(l, r).(bounds := Merge(l.(bounds := b), r).bounds)
    ensures b == l.bounds ==> Merge(l.(bounds := b), r) == Merge(l, r)
  {
    forall name | name in l.attributes.Keys + r.attributes.Keys
      ensures MergedAttribute(l.(bounds := b), r, name) == MergedAttribute(l, r, name)
    {}
  }

  // A group's stream starts from a copy of its first cloud that has points. It
  // is the merge of them all, but for the bounds the first one came with.
  lemma {:induction false} StartingFromFirst(first: Cloud, clouds: seq<Cloud>)
    requires WellFormed(first) && Size(first) > 0 && AllWellFormed(clouds) && AllWellFormed([first] + clouds)
    ensures
      var started, merged := MergeOnto(first, clouds), MergeAll([first] + clouds);
      && started == merged.(bounds := started.bounds)
      && (first.bounds == EncompassAll(NOTHING, first.positions) ==> started == merged)
    decreases |clouds|
  {
    if clouds == [] {
      assert [first] + clouds == [first] && [first][..0] == [];
      MergeOntoEmpty(first);
    } else {
      var n := |clouds| - 1;
      assert ([first] + clouds)[..n + 1] == [first] + clouds[..n];
      assert AllWellFormed([first] + clouds[..n]);
      StartingFromFirst(first, clouds[..n]);
      MergeIgnoresBounds(MergeAll([first] + clouds[..n]), clouds[n], MergeOnto(first, clouds[..n]).bounds);
    }
  }
}
