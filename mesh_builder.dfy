/** The growing vertex and index buffers a chunk mesh is built in
    (src/mesh_builder.rs). Positions, normals and texture coordinates are
    whole numbers in every mesh this project builds, so they are integer
    vectors here. */
module Meshes {

  /** Values of a `u32`. */
  type U32 = n: int | 0 <= n < 0x1_0000_0000

  /** The `as u32` cast: keeps the low 32 bits. */
  function Wrap32(n: int): (r: U32)
    ensures 0 <= n < 0x1_0000_0000 ==> r == n
  {
    n % 0x1_0000_0000
  }

  /** `Wrap32` applied to each element. */
  function WrapAll(s: seq<int>): (r: seq<U32>)
    ensures |r| == |s|
    ensures forall i :: 0 <= i < |s| ==> r[i] == Wrap32(s[i])
  {
    seq(|s|, i requires 0 <= i < |s| => Wrap32(s[i]))
  }

  lemma WrapAllAppend(a: seq<int>, b: seq<int>)
    ensures WrapAll(a + b) == WrapAll(a) + WrapAll(b)
  {
  }

  /** Without wrap-around the cast changes nothing. */
  lemma WrapAllSmall(s: seq<int>)
    requires forall i :: 0 <= i < |s| ==> 0 <= s[i] < 0x1_0000_0000
    ensures WrapAll(s) == s
  {
  }

  datatype Vec3 = Vec3(x: int, y: int, z: int)

  datatype Vec2 = Vec2(u: int, v: int)

  /** One entry of the four parallel attribute buffers. */
  datatype MeshVertex = MeshVertex(position: Vec3, normal: Vec3, texcoord: Vec2, texindex: U32)

  /** `MeshBuilder`: four per-vertex attribute buffers that grow together,
      and a triangle-list index buffer. */
  class MeshBuilder {
    var positions: seq<Vec3>
    var normals: seq<Vec3>
    var texcoords: seq<Vec2>
    var texindices: seq<U32>
    var indices: seq<U32>

    /** The attribute buffers have one entry per vertex. */
    ghost predicate Valid()
      reads this
    {
      |normals| == |positions| && |texcoords| == |positions| && |texindices| == |positions|
    }

    /** The vertices built so far, one record per attribute row. */
    ghost function Vertices(): (vs: seq<MeshVertex>)
      reads this
      requires Valid()
      ensures |vs| == |positions|
    {
      var p, n, t, k := positions, normals, texcoords, texindices;
      seq(|p|, i requires 0 <= i < |p| => MeshVertex(p[i], n[i], t[i], k[i]))
    }

    /** `MeshBuilder::new`: all five buffers empty. */
    constructor ()
      ensures Valid()
      ensures positions == [] && normals == [] && texcoords == [] && texindices == []
      ensures indices == []
      ensures Vertices() == []
    {
      positions, normals, texcoords, texindices := [], [], [], [];
      indices := [];
    }

    /** `vertex`: appends one row to each attribute buffer and returns the
        row's number, cut to 32 bits by the `as u32` cast. */
    method Vertex(position: Vec3, normal: Vec3, texcoord: Vec2, texindex: U32) returns (index: U32)
      requires Valid()
      modifies this
      ensures Valid()
      ensures index == Wrap32(old(|positions|))
      ensures positions == old(positions) + [position]
      ensures normals == old(normals) + [normal]
      ensures texcoords == old(texcoords) + [texcoord]
      ensures texindices == old(texindices) + [texindex]
      ensures Vertices() == old(Vertices()) + [MeshVertex(position, normal, texcoord, texindex)]
      ensures indices == old(indices)
    {
      var count := |positions|;
      positions := positions + [position];
      normals := normals + [normal];
      texcoords := texcoords + [texcoord];
      texindices := texindices + [texindex];
      index := Wrap32(count);
    }

    /** `indices`: appends the given indices in order; the vertex
        attributes stay as they are. */
    method Indices(index: seq<U32>)
      requires Valid()
      modifies this
      ensures Valid()
      ensures indices == old(indices) + index
      ensures positions == old(positions) && normals == old(normals)
      ensures texcoords == old(texcoords) && texindices == old(texindices)
      ensures Vertices() == old(Vertices())
    {
      indices := indices + index;
    }

    /** `Mesh::count_vertices` of the built mesh: the number of rows. */
    function VertexCount(): (n: nat)
      reads this
      requires Valid()
      ensures n == |positions| && n == |texindices|
    {
      |positions|
    }
  }
}
