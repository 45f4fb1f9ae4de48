/** OBJ mesh records: Mesh of include/resource/mesh.h and
    src/resource/mesh.cpp. Reading the file and extracting numbers from a
    line are left out: the file is given as its lines, each already
    tokenised into the numbers the stream would extract. */
module Mesh {
  import opened Geometry

  datatype Option<T> = None | Some(value: T)

  type Triple = s: seq<int> | |s| == 3 witness [0, 0, 0]

  /** Mesh::Vertex: the vertex, texture and normal indices of one corner
      of a face, 0-based. */
  datatype Vertex = Vertex(raw: Triple) {
    function VertIdx(): int { raw[0] }
    function UvIdx(): int { raw[1] }
    function NormalIdx(): int { raw[2] }
  }

  /** The constructor Vertex(vIdx, uvIdx, nIdx). */
  function NewVertex(vIdx: int, uvIdx: int, nIdx: int): (r: Vertex)
    ensures r.VertIdx() == vIdx && r.UvIdx() == uvIdx && r.NormalIdx() == nIdx
  {
    Vertex([vIdx, uvIdx, nIdx])
  }

  /** One `v/vt/vn` group of an `f` line, with the file's 1-based indices. */
  datatype Corner = Corner(v: int, vt: int, vn: int)

  /** One line of the file: its text, the three coordinates a `v`, `vt` or
      `vn` line holds and the groups an `f` line holds. */
  datatype Line = Line(text: string, coords: Vec3, corners: seq<Corner>)

  const VertexTag: string := "v "
  const FaceTag: string := "f "
  const UvTag: string := "vt"
  const NormalTag: string := "vn"

  /** `!line.compare(0, 2, tag)`: the first two characters of the line are
      the tag, so a line shorter than two characters matches none. */
  predicate Starts(text: string, tag: string)
    requires |tag| == 2
  {
    |text| >= 2 && text[..2] == tag
  }

  predicate Recognised(text: string) {
    Starts(text, VertexTag) || Starts(text, FaceTag) || Starts(text, UvTag) || Starts(text, NormalTag)
  }

  /** At most one of the four tags matches a line, so the order in which
      they are tried does not matter. */
  lemma TagsExclusive(text: string)
    ensures Starts(text, VertexTag) ==> !Starts(text, FaceTag) && !Starts(text, UvTag) && !Starts(text, NormalTag)
    ensures Starts(text, FaceTag) ==> !Starts(text, UvTag) && !Starts(text, NormalTag)
    ensures Starts(text, UvTag) ==> !Starts(text, NormalTag)
  {
    if |text| >= 2 {
      assert text[..2][1] == text[1];
    }
  }

  /** The four sequences the constructor fills. */
  datatype Obj = Obj(verts: seq<Vec3>, uvs: seq<Vec3>, normals: seq<Vec3>, faces: seq<seq<Vertex>>)

  function Size(o: Obj): nat {
    |o.verts| + |o.uvs| + |o.normals| + |o.faces|
  }

  /** The face an `f` line describes: each group shifted to 0-based. */
  function FaceOf(corners: seq<Corner>): (face: seq<Vertex>)
  {
    seq(|corners|, k requires 0 <= k < |corners| =>
      NewVertex(corners[k].v - 1, corners[k].vt - 1, corners[k].vn - 1))
  }

  /** The inner loop of the `f` branch: one vertex per group, in order. */
  method ReadFace(corners: seq<Corner>) returns (face: seq<Vertex>)
    ensures face == FaceOf(corners)
    ensures |face| == |corners|
    ensures forall k :: 0 <= k < |corners| ==>
              && face[k].VertIdx() == corners[k].v - 1
              && face[k].UvIdx() == corners[k].vt - 1
              && face[k].NormalIdx() == corners[k].vn - 1
  {
    face := [];
    var i := 0;
    while i < |corners|
      invariant 0 <= i <= |corners| && face == FaceOf(corners[..i])
    {
      var idx, uvIdx, normalIdx := corners[i].v, corners[i].vt, corners[i].vn;
      idx := idx - 1;
      uvIdx := uvIdx - 1;
      normalIdx := normalIdx - 1;
      assert corners[..i + 1] == corners[..i] + [corners[i]];
      face := face + [NewVertex(idx, uvIdx, normalIdx)];
      i := i + 1;
    }
    assert corners[..i] == corners;
  }

  /** One turn of the reading loop. */
  function Step(o: Obj, l: Line): Obj {
    if Starts(l.text, VertexTag) then o.(verts := o.verts + [l.coords])
    else if Starts(l.text, FaceTag) then o.(faces := o.faces + [FaceOf(l.corners)])
    else if Starts(l.text, UvTag) then o.(uvs := o.uvs + [l.coords])
    else if Starts(l.text, NormalTag) then o.(normals := o.normals + [l.coords])
    else o
  }

  /** The sequences after reading the lines in order. */
  function Read(lines: seq<Line>): Obj
    decreases |lines|
  {
    if |lines| == 0 then Obj([], [], [], [])
    else Step(Read(lines[..|lines| - 1]), lines[|lines| - 1])
  }

  /** A recognised line appends one element to exactly one of the four
      sequences, keeping what was there; any other line changes nothing. */
  lemma StepAppendsOne(o: Obj, l: Line)
    ensures var r := Step(o, l);
            && o.verts <= r.verts && o.uvs <= r.uvs && o.normals <= r.normals && o.faces <= r.faces
            && Size(r) == Size(o) + (if Recognised(l.text) then 1 else 0)
    ensures Starts(l.text, VertexTag) ==> Step(o, l).verts == o.verts + [l.coords]
    ensures Starts(l.text, UvTag) ==> Step(o, l).uvs == o.uvs + [l.coords]
    ensures Starts(l.text, NormalTag) ==> Step(o, l).normals == o.normals + [l.coords]
    ensures Starts(l.text, FaceTag) ==> Step(o, l).faces == o.faces + [FaceOf(l.corners)]
    ensures !Recognised(l.text) ==> Step(o, l) == o
  {
    TagsExclusive(l.text);
  }

  // ---------------------------------------------------------------------
  // Reference: each sequence on its own
  // ---------------------------------------------------------------------

  /** The coordinates of the lines with the given tag, in file order. */
  function Tagged(lines: seq<Line>, tag: string): seq<Vec3>
    requires |tag| == 2
  {
    if |lines| == 0 then []
    else (if Starts(lines[0].text, tag) then [lines[0].coords] else []) + Tagged(lines[1..], tag)
  }

  /** The groups of the `f` lines, in file order. */
  function FaceCorners(lines: seq<Line>): seq<seq<Corner>> {
    if |lines| == 0 then []
    else (if Starts(lines[0].text, FaceTag) then [lines[0].corners] else []) + FaceCorners(lines[1..])
  }

  function Faces(corners: seq<seq<Corner>>): (r: seq<seq<Vertex>>)
    ensures |r| == |corners| && forall i :: 0 <= i < |corners| ==> r[i] == FaceOf(corners[i])
  {
    seq(|corners|, i requires 0 <= i < |corners| => FaceOf(corners[i]))
  }

  lemma {:induction false} TaggedSnoc(lines: seq<Line>, l: Line, tag: string)
    requires |tag| == 2
    ensures Tagged(lines + [l], tag) == Tagged(lines, tag) + (if Starts(l.text, tag) then [l.coords] else [])
    decreases |lines|
  {
    if |lines| > 0 {
      assert (lines + [l])[1..] == lines[1..] + [l];
      TaggedSnoc(lines[1..], l, tag);
    }
  }

  lemma {:induction false} FaceCornersSnoc(lines: seq<Line>, l: Line)
    ensures FaceCorners(lines + [l]) == FaceCorners(lines) + (if Starts(l.text, FaceTag) then [l.corners] else [])
    decreases |lines|
  {
    if |lines| > 0 {
      assert (lines + [l])[1..] == lines[1..] + [l];
      FaceCornersSnoc(lines[1..], l);
    }
  }

  /** Reading fills each sequence with exactly the lines of its tag, in
      file order, whatever the interleaving; faces hold the groups
      shifted to 0-based. */
  lemma {:induction false} ReadSeparates(lines: seq<Line>)
    ensures Read(lines).verts == Tagged(lines, VertexTag)
    ensures Read(lines).uvs == Tagged(lines, UvTag)
    ensures Read(lines).normals == Tagged(lines, NormalTag)
    ensures Read(lines).faces == Faces(FaceCorners(lines))
    decreases |lines|
  {
    if |lines| > 0 {
      var init, l := lines[..|lines| - 1], lines[|lines| - 1];
      assert lines == init + [l];
      ReadSeparates(init);
      TaggedSnoc(init, l, VertexTag);
      TaggedSnoc(init, l, UvTag);
      TaggedSnoc(init, l, NormalTag);
      FaceCornersSnoc(init, l);
      TagsExclusive(l.text);
      var fc := FaceCorners(init) + (if Starts(l.text, FaceTag) then [l.corners] else []);
      assert Faces(fc) == Faces(FaceCorners(init)) + (if Starts(l.text, FaceTag) then [FaceOf(l.corners)] else []);
    }
  }

  /** A vertex index of a face is the file's index minus one. */
  lemma FaceIndices(lines: seq<Line>, i: nat, k: nat)
    requires i < |FaceCorners(lines)| && k < |FaceCorners(lines)[i]|
    ensures i < |Read(lines).faces| && k < |Read(lines).faces[i]|
    ensures var c := FaceCorners(lines)[i][k];
            var v := Read(lines).faces[i][k];
            v.VertIdx() == c.v - 1 && v.UvIdx() == c.vt - 1 && v.NormalIdx() == c.vn - 1
  {
    ReadSeparates(lines);
  }

  /** The constructor's loop over the lines of an opened file. */
  method ReadLines(lines: seq<Line>) returns (o: Obj)
    ensures o == Read(lines)
  {
    o := Obj([], [], [], []);
    for i := 0 to |lines|
      invariant o == Read(lines[..i])
    {
      var line := lines[i];
      assert lines[..i + 1][..i] == lines[..i];
      if Starts(line.text, VertexTag) {
        o := o.(verts := o.verts + [line.coords]);
      } else if Starts(line.text, FaceTag) {
        var face := ReadFace(line.corners);
        o := o.(faces := o.faces + [face]);
      } else if Starts(line.text, UvTag) {
        o := o.(uvs := o.uvs + [line.coords]);
      } else if Starts(line.text, NormalTag) {
        o := o.(normals := o.normals + [line.coords]);
      }
    }
    assert lines[..|lines|] == lines;
  }

  /** The lines read: none when the file fails to open. */
  function Contents(file: Option<seq<Line>>): seq<Line> {
    if file.Some? then file.value else []
  }

  /** A face as the indices of one kind, collected by the loops of
      face_vertex, face_uv and face_normal. */
  method VertIndices(face: seq<Vertex>) returns (ans: seq<int>)
    ensures |ans| == |face| && forall k :: 0 <= k < |face| ==> ans[k] == face[k].VertIdx()
  {
    ans := [];
    for k := 0 to |face|
      invariant |ans| == k && forall j :: 0 <= j < k ==> ans[j] == face[j].VertIdx()
    {
      ans := ans + [face[k].VertIdx()];
    }
  }

  method UvIndices(face: seq<Vertex>) returns (ans: seq<int>)
    ensures |ans| == |face| && forall k :: 0 <= k < |face| ==> ans[k] == face[k].UvIdx()
  {
    ans := [];
    for k := 0 to |face|
      invariant |ans| == k && forall j :: 0 <= j < k ==> ans[j] == face[j].UvIdx()
    {
      ans := ans + [face[k].UvIdx()];
    }
  }

  method NormalIndices(face: seq<Vertex>) returns (ans: seq<int>)
    ensures |ans| == |face| && forall k :: 0 <= k < |face| ==> ans[k] == face[k].NormalIdx()
  {
    ans := [];
    for k := 0 to |face|
      invariant |ans| == k && forall j :: 0 <= j < k ==> ans[j] == face[j].NormalIdx()
    {
      ans := ans + [face[k].NormalIdx()];
    }
  }

  /** Mesh: the vertices, texture coordinates, normals and faces of an OBJ
      file. `file` is the file's lines as read. */
  class Mesh {
    var verts: seq<Vec3>
    var uvs: seq<Vec3>
    var normals: seq<Vec3>
    var faces: seq<seq<Vertex>>
    ghost const file: seq<Line>

    ghost predicate Valid()
      reads this
    {
      Obj(verts, uvs, normals, faces) == Read(file)
    }

    /** Mesh(filename): reads every line when the file opens and stays
        empty when it does not. */
    constructor(loaded: Option<seq<Line>>)
      ensures file == Contents(loaded) && Valid()
      ensures loaded.None? ==> verts == [] && uvs == [] && normals == [] && faces == []
    {
      file := Contents(loaded);
      verts, uvs, normals, faces := [], [], [], [];
      if loaded.Some? {
        var o := ReadLines(loaded.value);
        verts, uvs, normals, faces := o.verts, o.uvs, o.normals, o.faces;
      }
    }

    /** nverts(): the number of `v` lines. */
    function NVerts(): (r: nat)
      reads this
      requires Valid()
      ensures r == |Tagged(file, VertexTag)|
    {
      ReadSeparates(file);
      |verts|
    }

    /** nfaces(): the number of `f` lines. */
    function NFaces(): (r: nat)
      reads this
      requires Valid()
      ensures r == |FaceCorners(file)|
    {
      ReadSeparates(file);
      |faces|
    }

    /** vert(idx): the coordinates of the idx-th `v` line. */
    function Vert(idx: nat): (r: Vec3)
      reads this
      requires Valid() && idx < |verts|
      ensures idx < |Tagged(file, VertexTag)| && r == Tagged(file, VertexTag)[idx]
    {
      ReadSeparates(file);
      verts[idx]
    }

    /** normal(idx): the coordinates of the idx-th `vn` line. */
    function Normal(idx: nat): (r: Vec3)
      reads this
      requires Valid() && idx < |normals|
      ensures idx < |Tagged(file, NormalTag)| && r == Tagged(file, NormalTag)[idx]
    {
      ReadSeparates(file);
      normals[idx]
    }

    /** uv(idx): the first two coordinates of the idx-th `vt` line. */
    function Uv(idx: nat): (r: Vec)
      reads this
      requires Valid() && idx < |uvs|
      ensures idx < |Tagged(file, UvTag)|
      ensures |r| == 2 && r == Tagged(file, UvTag)[idx][..2]
    {
      ReadSeparates(file);
      Projection(2, uvs[idx])
    }

    /** face(idx): the idx-th `f` line's groups, 0-based. */
    function Face(idx: nat): (r: seq<Vertex>)
      reads this
      requires Valid() && idx < |faces|
      ensures idx < |FaceCorners(file)| && r == FaceOf(FaceCorners(file)[idx])
    {
      ReadSeparates(file);
      faces[idx]
    }

    /** face_vertex(idx): the 0-based vertex index of every group of the
        idx-th `f` line. */
    method FaceVertex(idx: nat) returns (ans: seq<int>)
      requires Valid() && idx < |faces|
      ensures idx < |FaceCorners(file)| && |ans| == |FaceCorners(file)[idx]|
      ensures forall k :: 0 <= k < |ans| ==> ans[k] == FaceCorners(file)[idx][k].v - 1
    {
      ReadSeparates(file);
      ans := VertIndices(Face(idx));
    }

    /** face_uv(idx): the 0-based texture index of every group. */
    method FaceUv(idx: nat) returns (ans: seq<int>)
      requires Valid() && idx < |faces|
      ensures idx < |FaceCorners(file)| && |ans| == |FaceCorners(file)[idx]|
      ensures forall k :: 0 <= k < |ans| ==> ans[k] == FaceCorners(file)[idx][k].vt - 1
    {
      ReadSeparates(file);
      ans := UvIndices(Face(idx));
    }

    /** face_normal(idx): the 0-based normal index of every group. */
    method FaceNormal(idx: nat) returns (ans: seq<int>)
      requires Valid() && idx < |faces|
      ensures idx < |FaceCorners(file)| && |ans| == |FaceCorners(file)[idx]|
      ensures forall k :: 0 <= k < |ans| ==> ans[k] == FaceCorners(file)[idx][k].vn - 1
    {
      ReadSeparates(file);
      ans := NormalIndices(Face(idx));
    }
  }
}
