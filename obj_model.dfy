/** The older OBJ reader of src/resource/model.cpp: the same line dispatch
    and accessors as Mesh, with int counts and texture coordinates kept
    three-wide. Its reading loop is the one of the Mesh module. */
module ObjModel {
  import opened Geometry
  import opened Mesh

  /** static_cast<int> of a size_t: the value modulo 2^32 as a signed
      32-bit integer. */
  function IntOfSize(n: nat): (r: int)
    ensures -0x8000_0000 <= r <= 0x7fff_ffff
    ensures (n - r) % 0x1_0000_0000 == 0
    ensures n <= 0x7fff_ffff ==> r == n
  {
    var w := n % 0x1_0000_0000;
    if w <= 0x7fff_ffff then w else w - 0x1_0000_0000
  }

  /** Model: the vertices, texture coordinates, normals and faces of an
      OBJ file. `file` is the file's lines as read. */
  class Model {
    var verts: seq<Vec3>
    var uvs: seq<Vec3>
    var normals: seq<Vec3>
    var faces: seq<seq<Vertex>>
    ghost const file: seq<Line>

    ghost predicate Valid()
      reads this
    {
      Obj(verts, uvs, normals, faces) == Read(file)
    }

    /** Model(filename): reads every line when the file opens and stays
        empty when it does not. */
    constructor(loaded: Option<seq<Line>>)
      ensures file == Contents(loaded) && Valid()
      ensures loaded.None? ==> verts == [] && uvs == [] && normals == [] && faces == []
    {
      file := Contents(loaded);
      verts, uvs, normals, faces := [], [], [], [];
      if loaded.Some? {
        var o := ReadLines(loaded.value);
        verts, uvs, normals, faces := o.verts, o.uvs, o.normals, o.faces;
      }
    }

    /** nverts(): the number of `v` lines, cast to int. */
    function NVerts(): (r: int)
      reads this
      requires Valid()
      ensures r == IntOfSize(|Tagged(file, VertexTag)|)
      ensures |Tagged(file, VertexTag)| <= 0x7fff_ffff ==> r == |Tagged(file, VertexTag)|
    {
      ReadSeparates(file);
      IntOfSize(|verts|)
    }

    /** nfaces(): the number of `f` lines, cast to int. */
    function NFaces(): (r: int)
      reads this
      requires Valid()
      ensures r == IntOfSize(|FaceCorners(file)|)
      ensures |FaceCorners(file)| <= 0x7fff_ffff ==> r == |FaceCorners(file)|
    {
      ReadSeparates(file);
      IntOfSize(|faces|)
    }

    /** vert(idx): the coordinates of the idx-th `v` line. */
    function Vert(idx: nat): (r: Vec3)
      reads this
      requires Valid() && idx < |verts|
      ensures idx < |Tagged(file, VertexTag)| && r == Tagged(file, VertexTag)[idx]
    {
      ReadSeparates(file);
      verts[idx]
    }

    /** normal(idx): the coordinates of the idx-th `vn` line. */
    function Normal(idx: nat): (r: Vec3)
      reads this
      requires Valid() && idx < |normals|
      ensures idx < |Tagged(file, NormalTag)| && r == Tagged(file, NormalTag)[idx]
    {
      ReadSeparates(file);
      normals[idx]
    }

    /** uv(idx): all three coordinates of the idx-th `vt` line. */
    function Uv(idx: nat): (r: Vec3)
      reads this
      requires Valid() && idx < |uvs|
      ensures idx < |Tagged(file, UvTag)| && r == Tagged(file, UvTag)[idx]
    {
      ReadSeparates(file);
      uvs[idx]
    }

    /** face(idx): the idx-th `f` line's groups, 0-based. */
    function Face(idx: nat): (r: seq<Vertex>)
      reads this
      requires Valid() && idx < |faces|
      ensures idx < |FaceCorners(file)| && r == FaceOf(FaceCorners(file)[idx])
    {
      ReadSeparates(file);
      faces[idx]
    }

    /** face_vertex(idx): the 0-based vertex index of every group of the
        idx-th `f` line. */
    method FaceVertex(idx: nat) returns (ans: seq<int>)
      requires Valid() && idx < |faces|
      ensures idx < |FaceCorners(file)| && |ans| == |FaceCorners(file)[idx]|
      ensures forall k :: 0 <= k < |ans| ==> ans[k] == FaceCorners(file)[idx][k].v - 1
    {
      ReadSeparates(file);
      ans := VertIndices(Face(idx));
    }

    /** face_uv(idx): the 0-based texture index of every group. */
    method FaceUv(idx: nat) returns (ans: seq<int>)
      requires Valid() && idx < |faces|
      ensures idx < |FaceCorners(file)| && |ans| == |FaceCorners(file)[idx]|
      ensures forall k :: 0 <= k < |ans| ==> ans[k] == FaceCorners(file)[idx][k].vt - 1
    {
      ReadSeparates(file);
      ans := UvIndices(Face(idx));
    }

    /** face_normal(idx): the 0-based normal index of every group. */
    method FaceNormal(idx: nat) returns (ans: seq<int>)
      requires Valid() && idx < |faces|
      ensures idx < |FaceCorners(file)| && |ans| == |FaceCorners(file)[idx]|
      ensures forall k :: 0 <= k < |ans| ==> ans[k] == FaceCorners(file)[idx][k].vn - 1
    {
      ReadSeparates(file);
      ans := NormalIndices(Face(idx));
    }
  }
}
