// The meshopt point cloud codec over an abstract lossless vertex coder: element
// streams padded to whole vertices, attributes tagged with the alternative they
// are rebuilt as, and the packet around them.
module MeshoptCodec {
  import opened Common
  import opened PointClouds
  import opened Quantisation

  newtype byte = x: int | 0 <= x < 256

  type Bytes = seq<byte>

  // ---- the foreign parts ----

  // The vertex coder, the serializer of payloads and the clock's place in a
  // packet are calls into other libraries.
  datatype Coder = Coder(
    encodeVertices: (Bytes, nat, nat, int) -> Bytes,
    decodeVertices: (Bytes, nat, nat) -> Option<Bytes>)

  // Whole vertices of a size the coder takes come back as they were.
  ghost predicate Lossless(coder: Coder) {
    forall data: Bytes, count: nat, size: nat, level: int ::
      0 < count && 0 < size && size % 4 == 0 && |data| == count * size ==>
        coder.decodeVertices(coder.encodeVertices(data, count, size, level), count, size) == Some(data)
  }

  // What the coder fills in is the buffer it was given.
  ghost predicate FillsBuffer(coder: Coder) {
    forall encoded: Bytes, count: nat, size: nat ::
      coder.decodeVertices(encoded, count, size).Some? ==>
        |coder.decodeVertices(encoded, count, size).value| == count * size
  }

  // Both are promises a coder can keep: one that copies keeps them.
  lemma CopyingKeepsThem(coder: Coder)
    requires coder == Coder((data, count, size, level) => data,
                            (encoded, count, size) => if |encoded| == count * size then Some(encoded) else None)
    ensures Lossless(coder) && FillsBuffer(coder)
  {}

  // ---- elements and their bytes ----

  // Elements as they lie in memory, each as many bytes as its type takes.
  type Elements = seq<Bytes>

  predicate EachOf(elements: Elements, size: nat) {
    forall i :: 0 <= i < |elements| ==> |elements[i]| == size
  }

  function Flat(elements: Elements): Bytes
    decreases |elements|
  {
    if elements == [] then [] else Flat(elements[..|elements| - 1]) + elements[|elements| - 1]
  }

  lemma {:induction false} FlatSize(elements: Elements, size: nat)
    requires EachOf(elements, size)
    ensures |Flat(elements)| == |elements| * size
    decreases |elements|
  {
    if elements == [] {
    } else {
      FlatSize(elements[..|elements| - 1], size);
    }
  }

  // The first so many elements found in some bytes.
  function Unflat(bytes: Bytes, count: nat, size: nat): (r: Elements)
    requires count * size <= |bytes|
    ensures |r| == count
    decreases count
  {
    if count == 0 then []
    else
      assert count * size == (count - 1) * size + size;
      Unflat(bytes, count - 1, size) + [bytes[(count - 1) * size..count * size]]
  }

  lemma {:induction false} UnflatOfLonger(bytes: Bytes, more: Bytes, count: nat, size: nat)
    requires count * size <= |bytes|
    ensures count * size <= |bytes + more| && Unflat(bytes + more, count, size) == Unflat(bytes, count, size)
    decreases count
  {
    if count == 0 {
    } else {
      assert count * size == (count - 1) * size + size;
      UnflatOfLonger(bytes, more, count - 1, size);
      assert (bytes + more)[(count - 1) * size..count * size] == bytes[(count - 1) * size..count * size];
    }
  }

  lemma {:induction false} UnflatInvertsFlat(elements: Elements, size: nat)
    requires EachOf(elements, size)
    ensures |elements| * size <= |Flat(elements)| && Unflat(Flat(elements), |elements|, size) == elements
    decreases |elements|
  {
    FlatSize(elements, size);
    if elements == [] {
    } else {
      var n := |elements| - 1;
      var front, last := elements[..n], elements[n];
      UnflatInvertsFlat(front, size);
      FlatSize(front, size);
      UnflatOfLonger(Flat(front), last, n, size);
      assert (n + 1) * size == n * size + size;
      assert Flat(elements)[n * size..(n + 1) * size] == last;
      assert elements == front + [last];
    }
  }

  // ---- stream shapes ----

  function VertexSize(size: nat): (v: nat)
    requires size > 0
    ensures v > 0 && v % 4 == 0
  {
    if size % 4 == 0 then size else 4
  }

  function VertexCount(count: nat, size: nat): nat
    requires size > 0
  {
    (count * size + VertexSize(size) - 1) / VertexSize(size)
  }

  lemma RoundedUp(total: nat, v: nat)
    requires v > 0
    ensures total <= (total + v - 1) / v * v < total + v
    ensures total > 0 ==> (total + v - 1) / v > 0
  {
    var q, r := (total + v - 1) / v, (total + v - 1) % v;
    assert total + v - 1 == v * q + r;
    assert v * q == q * v;
    assert q == 0 ==> v * q == 0;
  }

  lemma RoundedExactly(count: nat, v: nat)
    requires v > 0
    ensures (count * v + v - 1) / v == count
  {
    RoundedUp(count * v, v);
    MultiplesInOrder((count * v + v - 1) / v, count, v);
  }

  lemma MultiplesInOrder(p: nat, q: nat, v: nat)
    requires v > 0
    ensures p > q ==> p * v >= q * v + v
    ensures p < q ==> p * v < q * v
  {
    var d: int := p - q;
    assert p * v == q * v + d * v;
    assert d >= 1 ==> d * v >= v;
    assert d <= -1 ==> d * v < 0;
  }

  // Whole vertices hold every element with less than a vertex to spare, and
  // nothing to spare when elements are whole words.
  lemma ShapeHoldsElements(count: nat, size: nat)
    requires size > 0
    ensures count * size <= VertexCount(count, size) * VertexSize(size) < count * size + VertexSize(size)
    ensures size % 4 == 0 ==> VertexSize(size) == size && VertexCount(count, size) == count
    ensures count > 0 ==> VertexCount(count, size) > 0
  {
    RoundedUp(count * size, VertexSize(size));
    if size % 4 == 0 { RoundedExactly(count, size); }
    if count > 0 { assert count * size >= 1 by { MoreThanNothing(count, size); } }
  }

  lemma MoreThanNothing(a: nat, b: nat)
    requires a > 0 && b > 0
    ensures a * b > 0
  {}

  function Zeros(n: nat): (r: Bytes)
    ensures |r| == n
  {
    seq(n, _ => 0 as byte)
  }

  // ---- one stream ----

  method EncodeStream(coder: Coder, elements: Elements, size: nat, level: int) returns (encoded: Bytes)
    requires size > 0 && EachOf(elements, size)
    ensures encoded == Encoded(coder, elements, size, level)
  {
    FlatSize(elements, size);
    ShapeHoldsElements(|elements|, size);
    var vertexSize, vertexCount := VertexSize(size), VertexCount(|elements|, size);
    var totalBytes, paddedBytes := |elements| * size, vertexCount * vertexSize;
    var source := Flat(elements);
    if paddedBytes != totalBytes { source := source + Zeros(paddedBytes - totalBytes); }
    assert source == Padded(elements, size);
    encoded := coder.encodeVertices(source, vertexCount, vertexSize, level);
  }

  function Padded(elements: Elements, size: nat): (r: Bytes)
    requires size > 0 && EachOf(elements, size)
    ensures |r| == VertexCount(|elements|, size) * VertexSize(size)
  {
    FlatSize(elements, size);
    ShapeHoldsElements(|elements|, size);
    Flat(elements) + Zeros(VertexCount(|elements|, size) * VertexSize(size) - |elements| * size)
  }

  function Encoded(coder: Coder, elements: Elements, size: nat, level: int): Bytes
    requires size > 0 && EachOf(elements, size)
  {
    coder.encodeVertices(Padded(elements, size), VertexCount(|elements|, size), VertexSize(size), level)
  }

  method DecodeStream(coder: Coder, count: nat, size: nat, encoded: Bytes) returns (elements: Option<Elements>)
    requires size > 0 && FillsBuffer(coder)
    ensures elements == Decoded(coder, count, size, encoded)
  {
    ShapeHoldsElements(count, size);
    var vertexSize, vertexCount := VertexSize(size), VertexCount(count, size);
    var result := coder.decodeVertices(encoded, vertexCount, vertexSize);
    if result.None? { return None; }
    var padded := result.value;
    if vertexCount * vertexSize == count * size {
      elements := Some(Unflat(padded, count, size));
    } else {
      UnflatOfLonger(padded[..count * size], padded[count * size..], count, size);
      assert padded == padded[..count * size] + padded[count * size..];
      elements := Some(Unflat(padded[..count * size], count, size));
    }
  }

  function Decoded(coder: Coder, count: nat, size: nat, encoded: Bytes): Option<Elements>
    requires size > 0
  {
    match coder.decodeVertices(encoded, VertexCount(count, size), VertexSize(size))
    case None => None
    case Some(padded) => if |padded| >= count * size then Some(Unflat(padded, count, size)) else None
  }

  // Any elements, of any size whether or not it is whole words, come back from
  // their stream.
  lemma StreamRoundTrip(coder: Coder, elements: Elements, size: nat, level: int)
    requires Lossless(coder) && size > 0 && EachOf(elements, size) && elements != []
    ensures Decoded(coder, |elements|, size, Encoded(coder, elements, size, level)) == Some(elements)
  {
    var n := |elements|;
    ShapeHoldsElements(n, size);
    FlatSize(elements, size);
    UnflatInvertsFlat(elements, size);
    UnflatOfLonger(Flat(elements), Zeros(VertexCount(n, size) * VertexSize(size) - n * size), n, size);
    var padded := Padded(elements, size);
    assert coder.decodeVertices(coder.encodeVertices(padded, VertexCount(n, size), VertexSize(size), level),
                                VertexCount(n, size), VertexSize(size)) == Some(padded);
  }

  // ---- clouds ----

  const POSITION_BYTES := 8
  const COLOR_BYTES := 4

  // The element sizes of the alternatives an attribute can be stored as:
  // positions, floats, and the four integer kinds.
  const ALTERNATIVES: seq<nat> := [8, 4, 1, 2, 1, 2]

  datatype StoredAttribute = StoredAttribute(alternative: nat, elements: Elements, encoding: Encoding)

  datatype StoredCloud = StoredCloud(positions: Elements, colors: Elements, bounds: Bounds,
                                     attributes: map<string, StoredAttribute>)

  predicate ShapedAttribute(a: StoredAttribute) {
    a.alternative < |ALTERNATIVES| && EachOf(a.elements, ALTERNATIVES[a.alternative])
  }

  predicate ShapedCloud(c: StoredCloud) {
    && EachOf(c.positions, POSITION_BYTES) && EachOf(c.colors, COLOR_BYTES) && |c.colors| == |c.positions|
    && forall name :: name in c.attributes ==> ShapedAttribute(c.attributes[name])
  }

  datatype AttributeStream = AttributeStream(name: string, alternative: nat, encoding: Encoding, encoded: Bytes)

  datatype Payload = Payload(positions: Bytes, colors: Bytes, bounds: Bounds, attributes: seq<AttributeStream>)

  function StreamOf(coder: Coder, name: string, a: StoredAttribute, level: int): AttributeStream
    requires ShapedAttribute(a)
  {
    AttributeStream(name, a.alternative, a.encoding, Encoded(coder, a.elements, ALTERNATIVES[a.alternative], level))
  }

  // The attributes with as many elements as the cloud has points.
  function Matching(c: StoredCloud): map<string, StoredAttribute> {
    map name | name in c.attributes && |c.attributes[name].elements| == |c.positions| :: c.attributes[name]
  }

  function StreamNames(streams: seq<AttributeStream>): set<string> {
    set s | s in streams :: s.name
  }

  function Streams(coder: Coder, attributes: map<string, StoredAttribute>, level: int): map<string, AttributeStream>
    requires forall name :: name in attributes ==> ShapedAttribute(attributes[name])
  {
    map name | name in attributes :: StreamOf(coder, name, attributes[name], level)
  }

  predicate EachFrom(wanted: map<string, AttributeStream>, streams: seq<AttributeStream>) {
    forall i :: 0 <= i < |streams| ==> streams[i].name in wanted && streams[i] == wanted[streams[i].name]
  }

  // Some streams listed once each, for all the names in a set.
  ghost predicate ListedFor(wanted: map<string, AttributeStream>, names: set<string>, streams: seq<AttributeStream>) {
    EachFrom(wanted, streams) && StreamNames(streams) == names && |streams| == |names|
  }

  ghost predicate ListOf(wanted: map<string, AttributeStream>, streams: seq<AttributeStream>) {
    ListedFor(wanted, wanted.Keys, streams)
  }

  ghost predicate Encodes(coder: Coder, c: StoredCloud, level: int, payload: Payload)
    requires ShapedCloud(c)
  {
    && payload.positions == Encoded(coder, c.positions, POSITION_BYTES, level)
    && payload.colors == Encoded(coder, c.colors, COLOR_BYTES, level)
    && payload.bounds == c.bounds && ListOf(Streams(coder, Matching(c), level), payload.attributes)
  }

  method EncodeMeshopt(coder: Coder, c: StoredCloud, level: int) returns (payload: Payload)
    requires ShapedCloud(c)
    ensures Encodes(coder, c, level, payload)
  {
    var positions := EncodeStream(coder, c.positions, POSITION_BYTES, level);
    var colors := EncodeStream(coder, c.colors, COLOR_BYTES, level);
    var streams := EncodeAttributes(coder, c, level);
    payload := Payload(positions, colors, c.bounds, streams);
  }

  lemma WantedStream(coder: Coder, c: StoredCloud, level: int, name: string)
    requires ShapedCloud(c) && name in c.attributes
    ensures
      var wanted := Streams(coder, Matching(c), level);
      && (name in wanted <==> |c.attributes[name].elements| == |c.positions|)
      && (name in wanted ==> wanted[name] == StreamOf(coder, name, c.attributes[name], level))
  {}

  lemma ListOneMore(wanted: map<string, AttributeStream>, names: set<string>, streams: seq<AttributeStream>,
                    s: AttributeStream)
    requires ListedFor(wanted, names, streams) && s.name in wanted && s == wanted[s.name] && s.name !in names
    ensures ListedFor(wanted, names + {s.name}, streams + [s])
  {
    OneMoreName(streams, s);
  }

  // What a name's stream is to be, if its attribute matches the cloud.
  ghost predicate Wanted(coder: Coder, c: StoredCloud, level: int, wanted: map<string, AttributeStream>, name: string)
    requires ShapedCloud(c) && name in c.attributes
  {
    && (name in wanted <==> |c.attributes[name].elements| == |c.positions|)
    && (name in wanted ==> wanted[name] == StreamOf(coder, name, c.attributes[name], level))
  }

  ghost predicate AllWanted(coder: Coder, c: StoredCloud, level: int, wanted: map<string, AttributeStream>)
    requires ShapedCloud(c)
  {
    forall name {:trigger Wanted(coder, c, level, wanted, name)} ::
      name in c.attributes ==> Wanted(coder, c, level, wanted, name)
  }

  method EncodeAttributes(coder: Coder, c: StoredCloud, level: int) returns (streams: seq<AttributeStream>)
    requires ShapedCloud(c)
    ensures ListOf(Streams(coder, Matching(c), level), streams)
  {
    ghost var wanted := Streams(coder, Matching(c), level);
    forall name | name in c.attributes ensures Wanted(coder, c, level, wanted, name) {
      WantedStream(coder, c, level, name);
    }
    streams := EncodeWanted(coder, c, level, wanted);
  }

  method EncodeWanted(coder: Coder, c: StoredCloud, level: int, ghost wanted: map<string, AttributeStream>)
    returns (streams: seq<AttributeStream>)
    requires ShapedCloud(c) && wanted.Keys <= c.attributes.Keys && AllWanted(coder, c, level, wanted)
    ensures ListOf(wanted, streams)
  {
    streams := [];
    var left := c.attributes.Keys;
    NothingListed(wanted, left);
    while left != {}
      invariant left <= c.attributes.Keys && ListedFor(wanted, wanted.Keys - left, streams)
      decreases |left|
    {
      var name :| name in left;
      var stream := EncodeMatching(coder, c, level, name, wanted);
      OneFewerLeft(wanted, left, name, streams, stream);
      if stream.Some? { streams := streams + [stream.value]; }
      left := left - {name};
    }
    NothingLeft(wanted, streams);
  }

  lemma NothingListed(wanted: map<string, AttributeStream>, left: set<string>)
    requires wanted.Keys <= left
    ensures ListedFor(wanted, wanted.Keys - left, [])
  {
    assert wanted.Keys - left == {};
  }

  lemma NothingLeft(wanted: map<string, AttributeStream>, streams: seq<AttributeStream>)
    requires ListedFor(wanted, wanted.Keys - {}, streams)
    ensures ListOf(wanted, streams)
  {
    assert wanted.Keys - {} == wanted.Keys;
  }

  lemma OneFewerLeft(wanted: map<string, AttributeStream>, left: set<string>, name: string,
                     streams: seq<AttributeStream>, s: Option<AttributeStream>)
    requires ListedFor(wanted, wanted.Keys - left, streams) && name in left && (s.Some? <==> name in wanted)
    requires s.Some? ==> s.value == wanted[name] && s.value.name == name
    ensures ListedFor(wanted, wanted.Keys - (left - {name}), if s.Some? then streams + [s.value] else streams)
  {
    if s.Some? {
      ListOneMore(wanted, wanted.Keys - left, streams, s.value);
      assert wanted.Keys - (left - {name}) == wanted.Keys - left + {name};
    } else {
      assert wanted.Keys - (left - {name}) == wanted.Keys - left;
    }
  }

  method EncodeMatching(coder: Coder, c: StoredCloud, level: int, name: string,
                        ghost wanted: map<string, AttributeStream>)
    returns (s: Option<AttributeStream>)
    requires ShapedCloud(c) && name in c.attributes && AllWanted(coder, c, level, wanted)
    ensures s.Some? <==> name in wanted
    ensures s.Some? ==> s.value == wanted[name] && s.value.name == name
  {
    assert Wanted(coder, c, level, wanted, name);
    var attribute := c.attributes[name];
    if |attribute.elements| != |c.positions| { return None; }
    var encoded := EncodeStream(coder, attribute.elements, ALTERNATIVES[attribute.alternative], level);
    return Some(AttributeStream(name, attribute.alternative, attribute.encoding, encoded));
  }

  lemma OneMoreName(streams: seq<AttributeStream>, s: AttributeStream)
    ensures StreamNames(streams + [s]) == StreamNames(streams) + {s.name}
  {
    assert s in streams + [s];
    forall x | x in StreamNames(streams) ensures x in StreamNames(streams + [s]) {
      var t :| t in streams && t.name == x;
      assert t in streams + [s];
    }
  }

  // ---- decoding ----

  // The alternative a tag names, if it names one.
  function Rebuilt(coder: Coder, n: nat, s: AttributeStream): Option<StoredAttribute> {
    if s.alternative >= |ALTERNATIVES| then None
    else
      assert ALTERNATIVES[s.alternative] > 0;
      match Decoded(coder, n, ALTERNATIVES[s.alternative], s.encoded)
      case None => None
      case Some(elements) => Some(StoredAttribute(s.alternative, elements, s.encoding))
  }

  // Attributes put into the map one after another, all or nothing.
  function Inserted(streams: seq<AttributeStream>, rebuilt: seq<Option<StoredAttribute>>)
    : Option<map<string, StoredAttribute>>
    requires |rebuilt| == |streams|
    decreases |streams|
  {
    if streams == [] then Some(map[])
    else
      var n := |streams| - 1;
      var front := Inserted(streams[..n], rebuilt[..n]);
      if front.Some? && rebuilt[n].Some? then Some(front.value[streams[n].name := rebuilt[n].value]) else None
  }

  function EachRebuilt(coder: Coder, n: nat, streams: seq<AttributeStream>): (r: seq<Option<StoredAttribute>>)
    ensures |r| == |streams|
  {
    seq(|streams|, i requires 0 <= i < |streams| => Rebuilt(coder, n, streams[i]))
  }

  function RebuiltAll(coder: Coder, n: nat, streams: seq<AttributeStream>): Option<map<string, StoredAttribute>> {
    Inserted(streams, EachRebuilt(coder, n, streams))
  }

  function DecodedCloud(coder: Coder, payload: Payload, n: nat): Option<StoredCloud> {
    var positions := Decoded(coder, n, POSITION_BYTES, payload.positions);
    var colors := Decoded(coder, n, COLOR_BYTES, payload.colors);
    var attributes := RebuiltAll(coder, n, payload.attributes);
    if positions.Some? && colors.Some? && attributes.Some?
    then Some(StoredCloud(positions.value, colors.value, payload.bounds, attributes.value)) else None
  }

  lemma {:induction false} OneFailureFailsAll(streams: seq<AttributeStream>, rebuilt: seq<Option<StoredAttribute>>,
                                              k: nat)
    requires |rebuilt| == |streams| && k < |streams| && rebuilt[k].None?
    ensures Inserted(streams, rebuilt).None?
    decreases |streams|
  {
    var n := |streams| - 1;
    if k == n {
    } else {
      OneFailureFailsAll(streams[..n], rebuilt[..n], k);
    }
  }

  // None stands for the exception a stream that does not decode ends in.
  method DecodeMeshopt(coder: Coder, payload: Payload, n: nat) returns (cloud: Option<StoredCloud>)
    requires FillsBuffer(coder)
    ensures cloud == DecodedCloud(coder, payload, n)
  {
    var positions := DecodeStream(coder, n, POSITION_BYTES, payload.positions);
    if positions.None? { return None; }
    var colors := DecodeStream(coder, n, COLOR_BYTES, payload.colors);
    if colors.None? { return None; }
    var attributes := RebuildAttributes(coder, n, payload.attributes);
    if attributes.None? { return None; }
    return Some(StoredCloud(positions.value, colors.value, payload.bounds, attributes.value));
  }

  method RebuildAttributes(coder: Coder, n: nat, streams: seq<AttributeStream>)
    returns (all: Option<map<string, StoredAttribute>>)
    requires FillsBuffer(coder)
    ensures all == RebuiltAll(coder, n, streams)
  {
    var attributes: map<string, StoredAttribute> := map[];
    ghost var rebuilt := EachRebuilt(coder, n, streams);
    for k := 0 to |streams|
      invariant Inserted(streams[..k], rebuilt[..k]) == Some(attributes)
    {
      assert streams[..k + 1][..k] == streams[..k] && rebuilt[..k + 1][..k] == rebuilt[..k];
      var attribute := RebuildAttribute(coder, n, streams[k]);
      assert attribute == rebuilt[k];
      if attribute.None? {
        OneFailureFailsAll(streams, rebuilt, k);
        return None;
      }
      attributes := attributes[streams[k].name := attribute.value];
    }
    assert streams[..|streams|] == streams && rebuilt[..|streams|] == rebuilt;
    return Some(attributes);
  }

  method RebuildAttribute(coder: Coder, n: nat, s: AttributeStream) returns (a: Option<StoredAttribute>)
    requires FillsBuffer(coder)
    ensures a == Rebuilt(coder, n, s)
  {
    if s.alternative >= |ALTERNATIVES| { return None; }
    assert ALTERNATIVES[s.alternative] > 0;
    var elements := DecodeStream(coder, n, ALTERNATIVES[s.alternative], s.encoded);
    if elements.None? { return None; }
    return Some(StoredAttribute(s.alternative, elements.value, s.encoding));
  }

  // ---- the round trip ----

  lemma AttributeRoundTrip(coder: Coder, name: string, a: StoredAttribute, level: int)
    requires Lossless(coder) && ShapedAttribute(a) && a.elements != []
    ensures Rebuilt(coder, |a.elements|, StreamOf(coder, name, a, level)) == Some(a)
  {
    StreamRoundTrip(coder, a.elements, ALTERNATIVES[a.alternative], level);
  }

  function Restricted(attributes: map<string, StoredAttribute>, names: set<string>): map<string, StoredAttribute> {
    map name | name in attributes && name in names :: attributes[name]
  }

  lemma {:induction false} InsertedGivesBack(attributes: map<string, StoredAttribute>, streams: seq<AttributeStream>,
                                             rebuilt: seq<Option<StoredAttribute>>)
    requires |rebuilt| == |streams|
    requires forall i :: 0 <= i < |streams| ==>
               streams[i].name in attributes && rebuilt[i] == Some(attributes[streams[i].name])
    ensures Inserted(streams, rebuilt) == Some(Restricted(attributes, StreamNames(streams)))
    decreases |streams|
  {
    if streams == [] {
    } else {
      var n := |streams| - 1;
      InsertedGivesBack(attributes, streams[..n], rebuilt[..n]);
      OneMoreName(streams[..n], streams[n]);
      assert streams == streams[..n] + [streams[n]];
      RestrictedOneMore(attributes, StreamNames(streams[..n]), streams[n].name);
    }
  }

  lemma ListedRoundTrip(coder: Coder, attributes: map<string, StoredAttribute>, level: int, s: AttributeStream)
    requires Lossless(coder) && s.name in attributes
    requires ShapedAttribute(attributes[s.name]) && attributes[s.name].elements != []
    requires s == StreamOf(coder, s.name, attributes[s.name], level)
    ensures Rebuilt(coder, |attributes[s.name].elements|, s) == Some(attributes[s.name])
  {
    AttributeRoundTrip(coder, s.name, attributes[s.name], level);
  }

  lemma StreamsRoundTrip(coder: Coder, n: nat, attributes: map<string, StoredAttribute>, level: int,
                         streams: seq<AttributeStream>)
    requires Lossless(coder) && n > 0
    requires forall name :: name in attributes ==> ShapedAttribute(attributes[name]) && |attributes[name].elements| == n
    requires ListOf(Streams(coder, attributes, level), streams)
    ensures RebuiltAll(coder, n, streams) == Some(attributes)
  {
    var rebuilt := EachRebuilt(coder, n, streams);
    forall i | 0 <= i < |streams|
      ensures streams[i].name in attributes && rebuilt[i] == Some(attributes[streams[i].name])
    {
      ListedRoundTrip(coder, attributes, level, streams[i]);
    }
    AllGivenBack(attributes, streams, rebuilt);
  }

  lemma AllGivenBack(attributes: map<string, StoredAttribute>, streams: seq<AttributeStream>,
                     rebuilt: seq<Option<StoredAttribute>>)
    requires |rebuilt| == |streams| && StreamNames(streams) == attributes.Keys
    requires forall i :: 0 <= i < |streams| ==>
               streams[i].name in attributes && rebuilt[i] == Some(attributes[streams[i].name])
    ensures Inserted(streams, rebuilt) == Some(attributes)
  {
    InsertedGivesBack(attributes, streams, rebuilt);
    assert Restricted(attributes, attributes.Keys) == attributes;
  }

  lemma RestrictedOneMore(attributes: map<string, StoredAttribute>, names: set<string>, name: string)
    requires name in attributes
    ensures Restricted(attributes, names)[name := attributes[name]] == Restricted(attributes, names + {name})
  {}

  // A cloud with points comes back with its positions, colours and bounds, and
  // with every attribute that has one element a point: same alternative, same
  // elements, same encoding. The others are gone.
  lemma CloudRoundTrip(coder: Coder, c: StoredCloud, level: int, payload: Payload)
    requires Lossless(coder) && ShapedCloud(c) && c.positions != [] && Encodes(coder, c, level, payload)
    ensures DecodedCloud(coder, payload, |c.positions|) == Some(c.(attributes := Matching(c)))
  {
    StreamRoundTrip(coder, c.positions, POSITION_BYTES, level);
    StreamRoundTrip(coder, c.colors, COLOR_BYTES, level);
    StreamsRoundTrip(coder, |c.positions|, Matching(c), level, payload.attributes);
  }

  // ---- packets ----

  datatype Codec = NoCodec | Meshopt | Draco

  // The serializer's output, field by field: it is taken to be lossless.
  datatype Packet = Packet(timestamp: nat, pointCount: nat, codecId: nat, body: Body)
  datatype Body = Plain(cloud: StoredCloud) | Coded(payload: Payload) | Foreign(bytes: Bytes)

  // Draco's encoder and decoder are functions of another library.
  method Compress(coder: Coder, c: StoredCloud, codec: Codec, level: int, timestamp: nat, draco: StoredCloud -> Bytes)
    returns (packet: Packet)
    requires ShapedCloud(c)
    ensures packet.timestamp == timestamp && packet.pointCount == |c.positions|
    ensures
      var selected := if c.positions == [] then NoCodec else codec;
      match selected
      case NoCodec => packet.codecId == 0 && packet.body == Plain(c)
      case Meshopt => packet.codecId == 1 && packet.body.Coded? && Encodes(coder, c, level, packet.body.payload)
      case Draco => packet.codecId == 2 && packet.body == Foreign(draco(c))
  {
    var selected := if c.positions == [] then NoCodec else codec;
    match selected {
      case NoCodec => packet := Packet(timestamp, |c.positions|, 0, Plain(c));
      case Meshopt =>
        var payload := EncodeMeshopt(coder, c, level);
        packet := Packet(timestamp, |c.positions|, 1, Coded(payload));
      case Draco => packet := Packet(timestamp, |c.positions|, 2, Foreign(draco(c)));
    }
  }

  // A known codec, and a body of its kind.
  predicate Readable(packet: Packet) {
    match packet.body
    case Plain(_) => packet.codecId == 0
    case Coded(_) => packet.codecId == 1
    case Foreign(_) => packet.codecId == 2
  }

  method Decompress(coder: Coder, packet: Packet, draco: (Bytes, nat) -> Option<StoredCloud>)
    returns (cloud: Option<StoredCloud>)
    requires FillsBuffer(coder)
    ensures packet.codecId == 0 && packet.body.Plain? ==> cloud == Some(packet.body.cloud)
    ensures packet.codecId == 1 && packet.body.Coded? ==>
              cloud == DecodedCloud(coder, packet.body.payload, packet.pointCount)
    ensures packet.codecId == 2 && packet.body.Foreign? ==> cloud == draco(packet.body.bytes, packet.pointCount)
    ensures !Readable(packet) ==> cloud == None
  {
    if packet.codecId == 0 {
      return if packet.body.Plain? then Some(packet.body.cloud) else None;
    }
    if packet.codecId == 1 && packet.body.Coded? {
      cloud := DecodeMeshopt(coder, packet.body.payload, packet.pointCount);
    } else if packet.codecId == 2 && packet.body.Foreign? {
      cloud := draco(packet.body.bytes, packet.pointCount);
    } else {
      cloud := None;
    }
  }

  // Compressing and decompressing any cloud, points or none, with no codec or
  // with meshopt.
  method PacketRoundTrip(coder: Coder, c: StoredCloud, codec: Codec, level: int, timestamp: nat,
                         draco: StoredCloud -> Bytes, undraco: (Bytes, nat) -> Option<StoredCloud>)
    returns (cloud: Option<StoredCloud>)
    requires Lossless(coder) && FillsBuffer(coder) && ShapedCloud(c) && !codec.Draco?
    ensures cloud == Some(if codec.Meshopt? && c.positions != [] then c.(attributes := Matching(c)) else c)
  {
    var packet := Compress(coder, c, codec, level, timestamp, draco);
    if packet.body.Coded? { CloudRoundTrip(coder, c, level, packet.body.payload); }
    cloud := Decompress(coder, packet, undraco);
  }
}
