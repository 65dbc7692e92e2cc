/**
 * The records the geometry loaders read and produce: parsed COLLADA meshes and scene nodes
 * (Fbx2Pr3/NodeData.cs, Pr3Tools/NodeData.cs) and the loaded geometry (Fbx2Pr3/Geometry.cs).
 *
 * A `float` is only copied, never computed with, so it is kept as its 32-bit pattern.
 */
module Collada {
  import opened Wrappers

  /** The IEEE 754 binary32 bit pattern of a `float`. */
  type Float = bv32

  datatype Vector2 = Vector2(x: Float, y: Float)

  datatype Vector3 = Vector3(x: Float, y: Float, z: Float)

  /** A texture coordinate as the loaders store it: `new Vector3(v.X, v.Y, 0)`; 0.0f is all zero bits. */
  function Widen(v: Vector2): Vector3 {
    Vector3(v.x, v.y, 0)
  }

  function WidenAll(vs: seq<Vector2>): (r: seq<Vector3>)
    ensures |r| == |vs|
    ensures forall k :: 0 <= k < |vs| ==> r[k].x == vs[k].x && r[k].y == vs[k].y && r[k].z == 0
  {
    seq(|vs|, k requires 0 <= k < |vs| => Widen(vs[k]))
  }

  /** A scene node: the object it places, its transformation matrix and its material. */
  datatype NodeData = NodeData(objectName: string, transformation: seq<Float>, materialName: string)

  /**
   * A `<mesh>` element after its sources have been read: the positions, the NORMAL and TEXCOORD
   * sources when the triangles have such an input, the number of inputs of the triangles, and
   * the index stream `<p>`.
   */
  datatype Mesh = Mesh(positions: seq<Vector3>, normals: Option<seq<Vector3>>,
                       texCoords: Option<seq<Vector2>>, inputCount: nat, indices: seq<int>)

  /**
   * A loaded object. `uvs` is None where the source leaves the array null; `name`,
   * `transformationMatrix` and `materialName` are filled in from the object's scene node.
   */
  datatype Geometry = Geometry(name: string, vertices: seq<Vector3>, normals: seq<Vector3>,
                               uvs: Option<seq<Vector3>>, indices: seq<int>,
                               transformationMatrix: seq<Float>, materialName: string)

  /** No node before place `k` is for the object `name`. */
  predicate NoneNamedBefore(scene: seq<NodeData>, k: int, name: string)
    requires k <= |scene|
  {
    forall j :: 0 <= j < k ==> scene[j].objectName != name
  }

  /** `First(data => data.ObjectName == name)`: the first node for the object, if any. */
  function FirstNamed(scene: seq<NodeData>, name: string): (r: Option<NodeData>)
    ensures r.None? <==> NoneNamedBefore(scene, |scene|, name)
    ensures r.Some? ==>
      exists k :: 0 <= k < |scene| && scene[k] == r.value && NoneNamedBefore(scene, k, name)
    ensures r.Some? ==> r.value.objectName == name
  {
    if scene == [] then None
    else if scene[0].objectName == name then Some(scene[0])
    else
      var r := FirstNamed(scene[1..], name);
      assert forall k :: 0 <= k < |scene| - 1 ==> scene[1..][k] == scene[k + 1];
      assert r.Some? ==> exists k :: 0 < k < |scene| && scene[k] == r.value && NoneNamedBefore(scene, k, name) by {
        if r.Some? {
          var k :| 0 <= k < |scene| - 1 && scene[1..][k] == r.value && NoneNamedBefore(scene[1..], k, name);
          assert scene[k + 1] == r.value && NoneNamedBefore(scene, k + 1, name);
        }
      }
      r
  }
}
