/** The output buffers of parseEXR: the flat legacy Float32Array of
    setupDecoder and one Float32Array per channel group. A cell holds the
    fill value 0 or 1 or a sample, kept as the bytes the sample reader
    consumed (the conversion of those bytes to a float is not modelled). */
module Buffers {
  import opened Common

  datatype Texel = Zero | One | Sample(bytes: seq<Byte>)

  /** A typed array of n cells all holding v, as `new Float32Array(n)`
      followed by an optional `fill(1, 0, n)` leaves it. */
  function Filled(n: nat, v: Texel): (r: seq<Texel>)
    ensures |r| == n && forall k :: 0 <= k < n ==> r[k] == v
  {
    seq(n, _ => v)
  }

  /** The contents of every buffer: the legacy array and the group arrays. */
  datatype Planes = Planes(legacy: seq<Texel>, groups: seq<seq<Texel>>)

  /** Where a sample goes: the legacy array or group g's array. */
  datatype Target = Legacy | Group(g: nat)

  /** `array[index] = value` on a typed array: a write outside the
      array is dropped. */
  function Store(p: Planes, t: Target, index: int, v: Texel): (q: Planes)
    ensures |q.legacy| == |p.legacy| && |q.groups| == |p.groups|
    ensures forall g :: 0 <= g < |p.groups| ==> |q.groups[g]| == |p.groups[g]|
  {
    match t
    case Legacy =>
      if 0 <= index < |p.legacy| then Planes(p.legacy[index := v], p.groups) else p
    case Group(g) =>
      if g < |p.groups| && 0 <= index < |p.groups[g]| then Planes(p.legacy, p.groups[g := p.groups[g][index := v]]) else p
  }

  /** A store changes exactly the one cell it lands on, when it lands. */
  lemma StoreOneCell(p: Planes, t: Target, index: int, v: Texel)
    ensures t.Legacy? ==> forall k :: 0 <= k < |p.legacy| ==>
      Store(p, t, index, v).legacy[k] == (if k == index then v else p.legacy[k])
    ensures t.Legacy? ==> Store(p, t, index, v).groups == p.groups
    ensures t.Group? ==> Store(p, t, index, v).legacy == p.legacy
    ensures t.Group? ==> forall g, k :: 0 <= g < |p.groups| && 0 <= k < |p.groups[g]| ==>
      Store(p, t, index, v).groups[g][k] == (if g == t.g && k == index then v else p.groups[g][k])
  {
  }

  /** The legacy array and the group arrays are distinct objects. */
  predicate Distinct(legacy: array<Texel>, data: seq<array<Texel>>)
  {
    (forall g :: 0 <= g < |data| ==> data[g] != legacy)
    && (forall g, h :: 0 <= g < h < |data| ==> data[g] != data[h])
  }

  /** What the buffers hold. */
  function Snap(legacy: array<Texel>, data: seq<array<Texel>>): (p: Planes)
    reads legacy, data
    ensures |p.legacy| == legacy.Length && |p.groups| == |data|
    ensures forall g :: 0 <= g < |data| ==> |p.groups[g]| == data[g].Length
  {
    Planes(legacy[..], seq(|data|, g reads data requires 0 <= g < |data| => data[g][..]))
  }

  /** One typed-array write. */
  method Put(legacy: array<Texel>, data: seq<array<Texel>>, t: Target, index: int, v: Texel)
    requires Distinct(legacy, data)
    modifies legacy, data
    ensures Snap(legacy, data) == Store(old(Snap(legacy, data)), t, index, v)
  {
    ghost var p := Snap(legacy, data);
    match t
    case Legacy =>
      if 0 <= index < legacy.Length {
        legacy[index] := v;
        assert Snap(legacy, data).groups == p.groups;
      }
    case Group(g) =>
      if g < |data| && 0 <= index < data[g].Length {
        data[g][index] := v;
        assert Snap(legacy, data).groups == p.groups[g := p.groups[g][index := v]];
      } else {
        assert Snap(legacy, data) == p;
      }
  }
}
