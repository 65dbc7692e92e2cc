/**
 * The PR3 model built from loaded geometry (Fbx2Pr3/Pr3Model.cs): one object per geometry, its
 * index list grouped into triangles. The records mirror Pr3Tools/Pr3Object.cs.
 */
module Pr3Models {
  import opened Wrappers
  import opened Collada

  /** A triangle: three indices into the object's vertex list. */
  datatype FacePointer = FacePointer(a: int, b: int, c: int)

  datatype Pr3Object = Pr3Object(name: string, vertices: seq<Vector3>, faces: seq<FacePointer>,
                                 normals: seq<Vector3>, uvs: seq<Vector3>,
                                 transformationMatrix: seq<Float>, materialName: string)

  /** The indices a face list stands for, three per face in order. */
  function Flatten(faces: seq<FacePointer>): (r: seq<int>)
    ensures |r| == 3 * |faces|
  {
    if faces == [] then []
    else [faces[0].a, faces[0].b, faces[0].c] + Flatten(faces[1..])
  }

  /**
   * CreateFaces as a value: face `k` takes indices `3k`, `3k + 1` and `3k + 2`. A list whose
   * length is not a multiple of three makes the last step read past its end, which fails.
   */
  function Faces(indices: seq<int>): Option<seq<FacePointer>> {
    if |indices| % 3 != 0 then None
    else Some(seq(|indices| / 3, k requires 0 <= k < |indices| / 3 =>
                FacePointer(indices[3 * k], indices[3 * k + 1], indices[3 * k + 2])))
  }

  /** The object made from one geometry, or None where CollectObjects throws. */
  function ObjectOf(g: Geometry): Option<Pr3Object> {
    match Faces(g.indices)
    case None => None
    case Some(faces) =>
      match g.uvs
      case None => None
      case Some(uvs) =>
        Some(Pr3Object(g.name, g.vertices, faces, g.normals, uvs, g.transformationMatrix, g.materialName))
  }

  /** CollectObjects as a value: every geometry's object, in order, or None. */
  function Objects(geometry: seq<Geometry>): Option<seq<Pr3Object>> {
    Collect(seq(|geometry|, k requires 0 <= k < |geometry| => ObjectOf(geometry[k])))
  }

  // ---------------------------------------------------------------------------------------------
  // Properties

  /** Entry `3k + j` of a flattened list is component `j` of face `k`. */
  lemma {:induction false} FlattenAt(faces: seq<FacePointer>)
    ensures forall k :: 0 <= k < |faces| ==>
      && Flatten(faces)[3 * k] == faces[k].a
      && Flatten(faces)[3 * k + 1] == faces[k].b
      && Flatten(faces)[3 * k + 2] == faces[k].c
  {
    if faces != [] {
      FlattenAt(faces[1..]);
      var r := Flatten(faces);
      assert r == [faces[0].a, faces[0].b, faces[0].c] + Flatten(faces[1..]);
      forall k | 1 <= k < |faces|
        ensures r[3 * k] == faces[k].a && r[3 * k + 1] == faces[k].b && r[3 * k + 2] == faces[k].c
      {
        assert faces[1..][k - 1] == faces[k];
        assert 3 * k == 3 + 3 * (k - 1);
      }
    }
  }

  /** The faces of an index list give back the list: nothing is dropped or reordered. */
  lemma FacesFlatten(indices: seq<int>)
    ensures Faces(indices).Some? <==> |indices| % 3 == 0
    ensures Faces(indices).Some? ==> Flatten(Faces(indices).value) == indices
  {
    if Faces(indices).Some? {
      var faces := Faces(indices).value;
      var r := Flatten(faces);
      FlattenAt(faces);
      forall i | 0 <= i < |indices|
        ensures r[i] == indices[i]
      {
        var k := i / 3;
        assert k < |faces| && i == 3 * k + i % 3;
        assert faces[k] == FacePointer(indices[3 * k], indices[3 * k + 1], indices[3 * k + 2]);
      }
      assert r == indices;
    }
  }

  /** Grouping a flattened face list gives back the faces. */
  lemma FlattenFaces(faces: seq<FacePointer>)
    ensures Faces(Flatten(faces)) == Some(faces)
  {
    var r := Flatten(faces);
    FlattenAt(faces);
    assert |r| / 3 == |faces|;
    var grouped := Faces(r).value;
    forall k | 0 <= k < |faces|
      ensures grouped[k] == faces[k]
    {
    }
    assert grouped == faces;
  }

  /**
   * CollectObjects yields one object per geometry, in order, with the name, the three arrays,
   * the matrix and the material passed through and the indices grouped into faces; it fails
   * exactly when some geometry has no texture array or an index count that is not a multiple of
   * three.
   */
  lemma ObjectsShape(geometry: seq<Geometry>)
    ensures Objects(geometry).Some? <==>
      forall k :: 0 <= k < |geometry| ==> geometry[k].uvs.Some? && |geometry[k].indices| % 3 == 0
    ensures Objects(geometry).Some? ==>
      var objects := Objects(geometry).value;
      && |objects| == |geometry|
      && forall k :: 0 <= k < |geometry| ==>
        && objects[k].name == geometry[k].name
        && objects[k].vertices == geometry[k].vertices
        && objects[k].normals == geometry[k].normals
        && objects[k].uvs == geometry[k].uvs.value
        && objects[k].transformationMatrix == geometry[k].transformationMatrix
        && objects[k].materialName == geometry[k].materialName
        && Flatten(objects[k].faces) == geometry[k].indices
  {
    var os := seq(|geometry|, k requires 0 <= k < |geometry| => ObjectOf(geometry[k]));
    forall k | 0 <= k < |geometry|
      ensures os[k].Some? <==> geometry[k].uvs.Some? && |geometry[k].indices| % 3 == 0
      ensures os[k].Some? ==> Flatten(os[k].value.faces) == geometry[k].indices
    {
      FacesFlatten(geometry[k].indices);
    }
  }

  /** CreateFaces: one face per three indices, in order. */
  method CreateFaces(indices: seq<int>) returns (faces: Option<seq<FacePointer>>)
    ensures faces == Faces(indices)
  {
    var list: seq<FacePointer> := [];
    var i := 0;
    while i < |indices|
      invariant 0 <= i <= |indices| && i % 3 == 0 && |list| == i / 3
      invariant forall k :: 0 <= k < |list| ==>
        list[k] == FacePointer(indices[3 * k], indices[3 * k + 1], indices[3 * k + 2])
    {
      if i + 2 >= |indices| {
        return None;
      }
      list := list + [FacePointer(indices[i], indices[i + 1], indices[i + 2])];
      i := i + 3;
    }
    assert list == Faces(indices).value;
    return Some(list);
  }

  /** CollectObjects: the object of every geometry, in order. */
  method CollectObjects(geometry: seq<Geometry>) returns (objects: Option<seq<Pr3Object>>)
    ensures objects == Objects(geometry)
  {
    var list: seq<Pr3Object> := [];
    ghost var os := seq(|geometry|, k requires 0 <= k < |geometry| => ObjectOf(geometry[k]));
    for i := 0 to |geometry|
      invariant |list| == i && forall k :: 0 <= k < i ==> os[k] == Some(list[k])
    {
      var obj := geometry[i];
      var faces := CreateFaces(obj.indices);
      if faces.None? || obj.uvs.None? {
        assert os[i].None?;
        return None;
      }
      list := list + [Pr3Object(obj.name, obj.vertices, faces.value, obj.normals, obj.uvs.value,
                                obj.transformationMatrix, obj.materialName)];
    }
    CollectAll(os, list);
    return Some(list);
  }
}
