// Dropping from a cloud the points seen through a mask of camera pixels, the
// cloud compacted in place.
module CameraFilter {
  import opened PointClouds

  // A float as far as the depth test tells floats apart.
  datatype Depth = Finite(z: real) | PlusInfinity | MinusInfinity | NotANumber

  datatype PixelHit = PixelHit(pointIndex: int, depth: Depth)

  datatype CameraFrame = CameraFrame(
    width: nat, height: nat,
    floatBuffers: map<string, seq<Depth>>, intBuffers: map<string, seq<int>>,
    pixelHits: seq<seq<PixelHit>>)

  datatype Outcome = Filtered | Nothing | MaskMismatch | NoDepth | NoIndex | IndexMismatch

  // ---- which points are dropped ----

  predicate TooDeep(hit: Depth, front: Depth, range: real) {
    range > 0.0 && front.Finite?
    && match hit
       case Finite(z) => z - front.z > range
       case PlusInfinity => true
       case MinusInfinity => false
       case NotANumber => false
  }

  predicate HitDrops(hit: PixelHit, front: Depth, range: real, k: nat) {
    hit.pointIndex == k && !TooDeep(hit.depth, front, range)
  }

  // Some hit of a masked pixel, near enough to what is in front of it there.
  ghost predicate SeenThroughMask(f: CameraFrame, mask: seq<bool>, range: real, k: nat)
    requires |mask| <= |f.pixelHits| && "depth" in f.floatBuffers && |mask| <= |f.floatBuffers["depth"]|
  {
    exists i, j :: 0 <= i < |mask| && mask[i] && 0 <= j < |f.pixelHits[i]|
                   && HitDrops(f.pixelHits[i][j], f.floatBuffers["depth"][i], range, k)
  }

  ghost predicate FrontmostAtMask(indices: seq<int>, mask: seq<bool>, k: nat)
    requires |mask| <= |indices|
  {
    exists i :: 0 <= i < |mask| && mask[i] && indices[i] == k
  }

  // What the method does, before it looks at any point.
  function OutcomeOf(f: CameraFrame, mask: seq<bool>, size: nat): Outcome {
    if |mask| != f.width * f.height then MaskMismatch
    else if size == 0 then Nothing
    else if f.pixelHits != [] then (if "depth" in f.floatBuffers then Filtered else NoDepth)
    else if "index" !in f.intBuffers then NoIndex
    else if |f.intBuffers["index"]| != |mask| then IndexMismatch
    else Filtered
  }

  // Frames are made with one list of hits and one depth a pixel.
  predicate SizedToPixels(f: CameraFrame) {
    f.pixelHits != [] ==>
      |f.pixelHits| >= f.width * f.height
      && ("depth" in f.floatBuffers ==> |f.floatBuffers["depth"]| >= f.width * f.height)
  }

  ghost predicate Dropped(f: CameraFrame, mask: seq<bool>, range: real, size: nat, k: nat)
    requires SizedToPixels(f) && OutcomeOf(f, mask, size) == Filtered
  {
    if f.pixelHits != [] then SeenThroughMask(f, mask, range, k)
    else FrontmostAtMask(f.intBuffers["index"], mask, k)
  }

  ghost function Kept(f: CameraFrame, mask: seq<bool>, range: real, size: nat): (keep: seq<bool>)
    requires SizedToPixels(f) && OutcomeOf(f, mask, size) == Filtered
    ensures |keep| == size
  {
    seq(size, k requires 0 <= k < size => !Dropped(f, mask, range, size, k))
  }

  // ---- the points kept, in order ----

  function KeptIndices(keep: seq<bool>): (r: seq<nat>)
    ensures |r| <= |keep|
    ensures forall i :: 0 <= i < |r| ==> i <= r[i] < |keep|
    ensures forall i, j :: 0 <= i < j < |r| ==> r[i] < r[j]
    decreases |keep|
  {
    if keep == [] then []
    else KeptIndices(keep[..|keep| - 1]) + (if keep[|keep| - 1] then [|keep| - 1] else [])
  }

  function Gathered<T>(s: seq<T>, indices: seq<nat>, zero: T): (r: seq<T>)
    ensures |r| == |indices|
  {
    seq(|indices|, i requires 0 <= i < |indices| => if indices[i] < |s| then s[indices[i]] else zero)
  }

  function GatheredStorage(s: Storage, indices: seq<nat>): Storage {
    match s
    case Positions(ps) => Positions(Gathered(ps, indices, ORIGIN))
    case Floats(fs) => Floats(Gathered(fs, indices, 0.0))
    case Raws(k, rs) => Raws(k, Gathered(rs, indices, 0))
  }

  function GatheredAttributes(attributes: map<string, Attribute>, indices: seq<nat>): map<string, Attribute> {
    map name | name in attributes ::
      Attribute(GatheredStorage(attributes[name].storage, indices), attributes[name].encoding)
  }

  function Selected(c: Cloud, indices: seq<nat>): Cloud {
    Cloud(Gathered(c.positions, indices, ORIGIN), Gathered(c.colors, indices, BLACK), c.bounds,
          GatheredAttributes(c.attributes, indices))
  }

  // ---- points as wholes ----

  datatype Element = AsPosition(position: Position) | AsFloat(float: real) | AsRaw(raw: int)

  function ElementAt(s: Storage, k: nat): Element
    requires k < Length(s)
  {
    match s
    case Positions(ps) => AsPosition(ps[k])
    case Floats(fs) => AsFloat(fs[k])
    case Raws(_, rs) => AsRaw(rs[k])
  }

  datatype Point = Point(position: Position, color: Color, elements: map<string, Element>)

  predicate Sized(c: Cloud) {
    |c.colors| == |c.positions|
    && forall name :: name in c.attributes ==> Length(c.attributes[name].storage) == |c.positions|
  }

  function PointAt(c: Cloud, k: nat): Point
    requires Sized(c) && k < Size(c)
  {
    Point(c.positions[k], c.colors[k], map name | name in c.attributes :: ElementAt(c.attributes[name].storage, k))
  }

  function Points(c: Cloud): (r: seq<Point>)
    requires Sized(c)
    ensures |r| == Size(c)
  {
    seq(Size(c), k requires 0 <= k < Size(c) => PointAt(c, k))
  }

  function FilteredBy<T>(s: seq<T>, keep: seq<bool>): seq<T>
    requires |keep| == |s|
    decreases |s|
  {
    if s == [] then []
    else FilteredBy(s[..|s| - 1], keep[..|keep| - 1]) + (if keep[|keep| - 1] then [s[|s| - 1]] else [])
  }

  lemma {:induction false} FilterByIndices<T>(s: seq<T>, keep: seq<bool>)
    requires |keep| == |s|
    ensures |FilteredBy(s, keep)| == |KeptIndices(keep)|
    ensures forall i :: 0 <= i < |KeptIndices(keep)| ==> FilteredBy(s, keep)[i] == s[KeptIndices(keep)[i]]
    decreases |s|
  {
    if s == [] {
    } else {
      FilterByIndices(s[..|s| - 1], keep[..|keep| - 1]);
    }
  }

  lemma SelectedPoint(c: Cloud, indices: seq<nat>, i: nat)
    requires Sized(c) && i < |indices| && forall j :: 0 <= j < |indices| ==> indices[j] < Size(c)
    ensures Sized(Selected(c, indices)) && PointAt(Selected(c, indices), i) == PointAt(c, indices[i])
  {
    var d, k := Selected(c, indices), indices[i];
    forall name | name in c.attributes
      ensures ElementAt(d.attributes[name].storage, i) == ElementAt(c.attributes[name].storage, k)
    {}
  }

  // Position, colour and every attribute of a point are kept or dropped
  // together, and the points kept stay in order.
  lemma SelectionFiltersPoints(c: Cloud, keep: seq<bool>)
    requires Sized(c) && |keep| == Size(c)
    ensures Sized(Selected(c, KeptIndices(keep)))
    ensures Points(Selected(c, KeptIndices(keep))) == FilteredBy(Points(c), keep)
  {
    var indices := KeptIndices(keep);
    FilterByIndices(Points(c), keep);
    forall i | 0 <= i < |indices|
      ensures Sized(Selected(c, indices)) && PointAt(Selected(c, indices), i) == FilteredBy(Points(c), keep)[i]
    {
      SelectedPoint(c, indices, i);
    }
  }

  // What else the selection keeps: the bounds, and each attribute's alternative
  // and encoding, with zeros where the attribute had no element for a point.
  lemma SelectionKeepsTheRest(c: Cloud, indices: seq<nat>, name: string, i: nat)
    requires name in c.attributes && i < |indices|
    ensures
      var d, a := Selected(c, indices), c.attributes[name];
      && d.bounds == c.bounds && d.attributes.Keys == c.attributes.Keys
      && SameAlternative(d.attributes[name].storage, a.storage) && d.attributes[name].encoding == a.encoding
      && Length(d.attributes[name].storage) == |indices|
      && ElementAt(d.attributes[name].storage, i)
           == if indices[i] < Length(a.storage) then ElementAt(a.storage, indices[i])
              else match a.storage
                   case Positions(_) => AsPosition(Position(0, 0, 0))
                   case Floats(_) => AsFloat(0.0)
                   case Raws(_, _) => AsRaw(0)
  {}

  lemma {:induction false} KeptIffMember(keep: seq<bool>, k: nat)
    requires k < |keep|
    ensures k in KeptIndices(keep) <==> keep[k]
    decreases |keep|
  {
    var last := |keep| - 1;
    var front := KeptIndices(keep[..last]);
    if k == last {
      assert k !in front;
      if keep[last] { assert KeptIndices(keep) == front + [last]; }
    } else {
      KeptIffMember(keep[..last], k);
      assert KeptIndices(keep) == front + if keep[last] then [last] else [];
    }
  }

  // Which points those are where a pixel lists its hits. A point is gone exactly
  // when a masked pixel has a hit on it that no depth range excuses: there is
  // none, nothing finite is in front to measure from, or the hit is no further
  // behind it than the range, which a NaN and minus infinity never are.
  lemma GoneIffHit(f: CameraFrame, mask: seq<bool>, range: real, size: nat, k: nat)
    requires SizedToPixels(f) && OutcomeOf(f, mask, size) == Filtered && f.pixelHits != [] && k < size
    ensures k !in KeptIndices(Kept(f, mask, range, size)) <==>
              exists i, j ::
                0 <= i < |mask| && mask[i] && 0 <= j < |f.pixelHits[i]| && f.pixelHits[i][j].pointIndex == k
                && var front, hit := f.floatBuffers["depth"][i], f.pixelHits[i][j].depth;
                   (range <= 0.0 || !front.Finite? || hit.MinusInfinity? || hit.NotANumber?
                    || (hit.Finite? && hit.z <= front.z + range))
  {
    KeptIffMember(Kept(f, mask, range, size), k);
  }

  // And where it only says which point is in front.
  lemma GoneIffInFront(f: CameraFrame, mask: seq<bool>, range: real, size: nat, k: nat)
    requires SizedToPixels(f) && OutcomeOf(f, mask, size) == Filtered && f.pixelHits == [] && k < size
    ensures k !in KeptIndices(Kept(f, mask, range, size)) <==>
              exists i :: 0 <= i < |mask| && mask[i] && f.intBuffers["index"][i] == k
  {
    KeptIffMember(Kept(f, mask, range, size), k);
  }

  // ---- the loops ----

  // The hits looked at so far, of the pixels before p and the first j of p's.
  ghost predicate DroppedSoFar(f: CameraFrame, mask: seq<bool>, range: real, p: nat, j: nat, k: nat)
    requires |mask| <= |f.pixelHits| && "depth" in f.floatBuffers && |mask| <= |f.floatBuffers["depth"]|
    requires p <= |mask|
  {
    exists i, h :: 0 <= i <= p && i < |mask| && mask[i] && 0 <= h < |f.pixelHits[i]| && (i < p || h < j)
                   && HitDrops(f.pixelHits[i][h], f.floatBuffers["depth"][i], range, k)
  }

  lemma NextPixel(f: CameraFrame, mask: seq<bool>, range: real, p: nat, k: nat)
    requires |mask| <= |f.pixelHits| && "depth" in f.floatBuffers && |mask| <= |f.floatBuffers["depth"]| && p < |mask|
    ensures mask[p] ==>
              (DroppedSoFar(f, mask, range, p + 1, 0, k) <==> DroppedSoFar(f, mask, range, p, |f.pixelHits[p]|, k))
    ensures !mask[p] ==> (DroppedSoFar(f, mask, range, p + 1, 0, k) <==> DroppedSoFar(f, mask, range, p, 0, k))
  {}

  lemma NextHit(f: CameraFrame, mask: seq<bool>, range: real, p: nat, j: nat, k: nat)
    requires |mask| <= |f.pixelHits| && "depth" in f.floatBuffers && |mask| <= |f.floatBuffers["depth"]|
    requires p < |mask| && mask[p] && j < |f.pixelHits[p]|
    ensures DroppedSoFar(f, mask, range, p, j + 1, k)
       <==> DroppedSoFar(f, mask, range, p, j, k) || HitDrops(f.pixelHits[p][j], f.floatBuffers["depth"][p], range, k)
  {}

  method MarkPixel(f: CameraFrame, mask: seq<bool>, range: real, p: nat, keep: array<bool>)
    requires |mask| <= |f.pixelHits| && "depth" in f.floatBuffers && |mask| <= |f.floatBuffers["depth"]|
    requires p < |mask| && mask[p]
    requires forall k :: 0 <= k < keep.Length ==> (keep[k] <==> !DroppedSoFar(f, mask, range, p, 0, k))
    modifies keep
    ensures forall k :: 0 <= k < keep.Length ==>
              (keep[k] <==> !DroppedSoFar(f, mask, range, p, |f.pixelHits[p]|, k))
  {
    var front := f.floatBuffers["depth"][p];
    for j := 0 to |f.pixelHits[p]|
      invariant forall k :: 0 <= k < keep.Length ==> (keep[k] <==> !DroppedSoFar(f, mask, range, p, j, k))
    {
      var hit := f.pixelHits[p][j];
      forall k | 0 <= k < keep.Length
        ensures DroppedSoFar(f, mask, range, p, j + 1, k)
           <==> DroppedSoFar(f, mask, range, p, j, k) || HitDrops(hit, front, range, k)
      {
        NextHit(f, mask, range, p, j, k);
      }
      if hit.pointIndex < 0 || hit.pointIndex >= keep.Length { continue; }
      if TooDeep(hit.depth, front, range) { continue; }
      keep[hit.pointIndex] := false;
    }
  }

  method MarkHits(f: CameraFrame, mask: seq<bool>, range: real, keep: array<bool>)
    requires |mask| <= |f.pixelHits| && "depth" in f.floatBuffers && |mask| <= |f.floatBuffers["depth"]|
    requires forall k :: 0 <= k < keep.Length ==> keep[k]
    modifies keep
    ensures forall k :: 0 <= k < keep.Length ==> (keep[k] <==> !SeenThroughMask(f, mask, range, k))
  {
    for p := 0 to |mask|
      invariant forall k :: 0 <= k < keep.Length ==> (keep[k] <==> !DroppedSoFar(f, mask, range, p, 0, k))
    {
      if mask[p] { MarkPixel(f, mask, range, p, keep); }
      forall k | 0 <= k < keep.Length ensures keep[k] <==> !DroppedSoFar(f, mask, range, p + 1, 0, k) {
        NextPixel(f, mask, range, p, k);
      }
    }
  }

  lemma NextFrontmost(indices: seq<int>, mask: seq<bool>, p: nat, k: nat)
    requires p < |mask| <= |indices|
    ensures FrontmostAtMask(indices, mask[..p + 1], k)
       <==> FrontmostAtMask(indices, mask[..p], k) || (mask[p] && indices[p] == k)
  {
    if i :| 0 <= i < p && mask[i] && indices[i] == k { assert mask[..p][i] && mask[..p + 1][i]; }
    if mask[p] && indices[p] == k { assert mask[..p + 1][p]; }
  }

  method MarkFrontmost(indices: seq<int>, mask: seq<bool>, keep: array<bool>)
    requires |indices| == |mask| && forall k :: 0 <= k < keep.Length ==> keep[k]
    modifies keep
    ensures forall k :: 0 <= k < keep.Length ==> (keep[k] <==> !FrontmostAtMask(indices, mask, k))
  {
    for p := 0 to |mask|
      invariant forall k :: 0 <= k < keep.Length ==> (keep[k] <==> !FrontmostAtMask(indices, mask[..p], k))
    {
      if mask[p] && 0 <= indices[p] < keep.Length { keep[indices[p]] := false; }
      forall k | 0 <= k < keep.Length ensures keep[k] <==> !FrontmostAtMask(indices, mask[..p + 1], k) {
        NextFrontmost(indices, mask, p, k);
      }
    }
    assert mask[..|mask|] == mask;
  }

  method CollectKept(keep: array<bool>) returns (indices: seq<nat>)
    ensures indices == KeptIndices(keep[..])
  {
    indices := [];
    for read := 0 to keep.Length
      invariant indices == KeptIndices(keep[..read])
    {
      assert keep[..read + 1][..read] == keep[..read];
      if keep[read] { indices := indices + [read]; }
    }
    assert keep[..keep.Length] == keep[..];
  }

  // Each kept element moved down to its place. Reading runs ahead of writing,
  // so nothing is overwritten before it is read.
  method Compact<T>(values: array<T>, indices: seq<nat>)
    requires forall i :: 0 <= i < |indices| ==> i <= indices[i] < values.Length
    requires forall i, j :: 0 <= i < j < |indices| ==> indices[i] < indices[j]
    modifies values
    ensures |indices| <= values.Length
    ensures forall i :: 0 <= i < |indices| ==> values[i] == old(values[indices[i]])
  {
    for i := 0 to |indices|
      invariant i <= values.Length
      invariant forall j :: 0 <= j < i ==> values[j] == old(values[indices[j]])
      invariant forall j :: i <= j < values.Length ==> values[j] == old(values[j])
    {
      var initialIndex := indices[i];
      if initialIndex == i { continue; }
      values[i] := values[initialIndex];
    }
  }

  method Packed<T>(s: seq<T>, indices: seq<nat>, zero: T) returns (r: seq<T>)
    requires forall i :: 0 <= i < |indices| ==> i <= indices[i] < |s|
    requires forall i, j :: 0 <= i < j < |indices| ==> indices[i] < indices[j]
    ensures r == Gathered(s, indices, zero)
  {
    var values := new T[|s|](k requires 0 <= k < |s| => s[k]);
    Compact(values, indices);
    r := values[..|indices|];
  }

  method GatherAttributes(attributes: map<string, Attribute>, indices: seq<nat>)
    returns (gathered: map<string, Attribute>)
    ensures gathered == GatheredAttributes(attributes, indices)
  {
    gathered := map[];
    var left := attributes.Keys;
    while left != {}
      invariant left <= attributes.Keys && gathered.Keys == attributes.Keys - left
      invariant forall name :: name in gathered ==>
        gathered[name] == Attribute(GatheredStorage(attributes[name].storage, indices), attributes[name].encoding)
      decreases |left|
    {
      var name :| name in left;
      left := left - {name};
      gathered := gathered[name := Attribute(GatheredStorage(attributes[name].storage, indices),
                                             attributes[name].encoding)];
    }
  }

  // The attributes are gathered from the cloud into itself, after its points
  // have moved: that reads only attributes, and they are replaced at the end.
  method FilterCloudByPixelMask(f: CameraFrame, mask: seq<bool>, cloud: PointCloud, range: real)
    returns (outcome: Outcome)
    requires SizedToPixels(f) && |cloud.colors| == |cloud.positions|
    modifies cloud
    ensures outcome == OutcomeOf(f, mask, old(|cloud.positions|))
    ensures outcome == MaskMismatch <==> |mask| != f.width * f.height
    ensures outcome == Nothing <==> |mask| == f.width * f.height && old(|cloud.positions|) == 0
    ensures |mask| == f.width * f.height && old(|cloud.positions|) > 0 ==>
              && (outcome == NoDepth <==> f.pixelHits != [] && "depth" !in f.floatBuffers)
              && (outcome == NoIndex <==> f.pixelHits == [] && "index" !in f.intBuffers)
              && (outcome == IndexMismatch <==>
                    f.pixelHits == [] && "index" in f.intBuffers && |f.intBuffers["index"]| != |mask|)
    ensures outcome != Filtered ==> cloud.Value() == old(cloud.Value())
    ensures outcome == Filtered ==>
              cloud.Value() == Selected(old(cloud.Value()), KeptIndices(Kept(f, mask, range, old(|cloud.positions|))))
  {
    var n := f.width * f.height;
    if |mask| != n { return MaskMismatch; }
    var cloudSize := |cloud.positions|;
    if cloudSize == 0 { return Nothing; }
    var keep := new bool[cloudSize](_ => true);
    if f.pixelHits != [] {
      if "depth" !in f.floatBuffers { return NoDepth; }
      MarkHits(f, mask, range, keep);
    } else {
      if "index" !in f.intBuffers { return NoIndex; }
      var indices := f.intBuffers["index"];
      if |indices| != n { return IndexMismatch; }
      MarkFrontmost(indices, mask, keep);
    }
    assert keep[..] == Kept(f, mask, range, cloudSize);
    var keptIndices := CollectKept(keep);
    var positions := Packed(cloud.positions, keptIndices, ORIGIN);
    var colors := Packed(cloud.colors, keptIndices, BLACK);
    var gathered := GatherAttributes(cloud.attributes, keptIndices);
    cloud.positions, cloud.colors, cloud.attributes := positions, colors, gathered;
    return Filtered;
  }
}
