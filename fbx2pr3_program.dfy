/**
 * The Fbx2Pr3 converter (Fbx2Pr3/Program.cs): import a scene, take the first node named
 * "Armature" out of the node tree, flatten its subtree into a post-order list of bones, and
 * write the meshes and the bones.
 *
 * The importer is not modelled: the scene is a parameter, None where the importer returns null.
 * Nodes are values; the node a lookup finds is named by its path of child positions, so that
 * removing it from its parent's children removes that node and no other.
 */
module Fbx2Pr3Program {
  import opened Wrappers
  import opened Collada
  import opened Tokens

  /** Assimp's 4x4 matrix, entries A1 to D4. */
  datatype Matrix4x4 = Matrix4x4(a1: Float, a2: Float, a3: Float, a4: Float,
                                 b1: Float, b2: Float, b3: Float, b4: Float,
                                 c1: Float, c2: Float, c3: Float, c4: Float,
                                 d1: Float, d2: Float, d3: Float, d4: Float)

  /** A node of the scene tree: its name, transform, the meshes it places and its children. */
  datatype Node = Node(name: string, transform: Matrix4x4, meshIndices: seq<int>, children: seq<Node>)

  /** An imported mesh; `texCoords` is texture coordinate channel 0, `faces` the index lists. */
  datatype SceneMesh = SceneMesh(vertices: seq<Vector3>, normals: seq<Vector3>, texCoords: seq<Vector3>,
                                 faces: seq<seq<int>>)

  datatype Scene = Scene(root: Node, meshes: seq<SceneMesh>)

  /** Pr3Bone. */
  datatype Bone = Bone(name: string, transformation: Matrix4x4, associatedMesh: Option<int>,
                       parent: Option<string>)

  // ---------------------------------------------------------------------------------------------
  // The node tree

  /** Some node of the subtree has the name. */
  predicate Has(node: Node, name: string)
    decreases node
  {
    node.name == name || exists i :: 0 <= i < |node.children| && Has(node.children[i], name)
  }

  /** A path of child positions leading from `node` into its subtree. */
  predicate ValidPath(node: Node, path: seq<nat>)
    decreases |path|
  {
    path == [] || (path[0] < |node.children| && ValidPath(node.children[path[0]], path[1..]))
  }

  function At(node: Node, path: seq<nat>): Node
    requires ValidPath(node, path)
    decreases |path|
  {
    if path == [] then node else At(node.children[path[0]], path[1..])
  }

  /**
   * Node.FindNode, as the path to the node it returns: the node itself when it has the name,
   * otherwise the first match in its children's subtrees, child by child.
   */
  function FindPath(node: Node, name: string): (r: Option<seq<nat>>)
    ensures r.Some? <==> Has(node, name)
    ensures r.Some? ==> ValidPath(node, r.value) && At(node, r.value).name == name
    ensures r.Some? && r.value != [] ==> node.name != name
    decreases node, |node.children| + 1
  {
    if node.name == name then Some([]) else FindPathFrom(node, name, 0)
  }

  /** The search among children `i` onwards: the first child whose subtree has the name. */
  function FindPathFrom(node: Node, name: string, i: nat): (r: Option<seq<nat>>)
    requires i <= |node.children|
    ensures r.Some? <==> exists j :: i <= j < |node.children| && Has(node.children[j], name)
    ensures r.Some? ==>
      && r.value != [] && i <= r.value[0] < |node.children|
      && ValidPath(node, r.value) && At(node, r.value).name == name
      && forall j :: i <= j < r.value[0] ==> !Has(node.children[j], name)
    decreases node, |node.children| - i
  {
    if i == |node.children| then None
    else match FindPath(node.children[i], name)
      case Some(p) =>
        assert ([i] + p)[1..] == p;
        Some([i] + p)
      case None => FindPathFrom(node, name, i + 1)
  }

  function FindNode(node: Node, name: string): Option<Node> {
    match FindPath(node, name)
    case None => None
    case Some(p) => Some(At(node, p))
  }

  /** Node.Children.Remove: child `i` taken out, the others kept in order. */
  function Detach(node: Node, i: nat): Node
    requires i < |node.children|
  {
    node.(children := node.children[..i] + node.children[i + 1..])
  }

  /** The number of nodes of a subtree. */
  function NodeCount(node: Node): nat
    decreases node, |node.children| + 1
  {
    1 + CountFrom(node, 0)
  }

  /** The number of nodes in the subtrees of children `i` onwards. */
  function CountFrom(node: Node, i: nat): nat
    requires i <= |node.children|
    decreases node, |node.children| - i
  {
    if i == |node.children| then 0 else NodeCount(node.children[i]) + CountFrom(node, i + 1)
  }

  // ---------------------------------------------------------------------------------------------
  // CreateBones

  /**
   * `meshes.FindNode(name)?.MeshIndices[0]`: no node, the first mesh of the node found, or a
   * node with no meshes, where the indexing throws.
   */
  datatype MeshLookup = NoNode | FirstMesh(index: int) | NoMeshes

  function LookUpMesh(meshes: Node, name: string): MeshLookup {
    match FindNode(meshes, name)
    case None => NoNode
    case Some(n) => if |n.meshIndices| == 0 then NoMeshes else FirstMesh(n.meshIndices[0])
  }

  function AssociatedMesh(lookup: MeshLookup): Option<int> {
    if lookup.FirstMesh? then Some(lookup.index) else None
  }

  /**
   * CreateBones: the bones of the children's subtrees in child order, then the node's own bone.
   * None where a lookup throws.
   */
  function CreateBones(meshes: Node, armature: Node, parent: Option<string>): Option<seq<Bone>>
    decreases armature, |armature.children| + 1
  {
    match ChildBones(meshes, armature, 0)
    case None => None
    case Some(list) =>
      var lookup := LookUpMesh(meshes, armature.name);
      if lookup.NoMeshes? then None
      else Some(list + [Bone(armature.name, armature.transform, AssociatedMesh(lookup), parent)])
  }

  /** The bones of the subtrees of children `i` onwards, each child with this node as parent. */
  function ChildBones(meshes: Node, armature: Node, i: nat): Option<seq<Bone>>
    requires i <= |armature.children|
    decreases armature, |armature.children| - i
  {
    if i == |armature.children| then Some([])
    else match CreateBones(meshes, armature.children[i], Some(armature.name))
      case None => None
      case Some(bones) =>
        match ChildBones(meshes, armature, i + 1)
        case None => None
        case Some(rest) => Some(bones + rest)
  }

  /** Some node of the subtree has a namesake in the mesh tree that places no mesh. */
  predicate Unmeshed(meshes: Node, node: Node)
    decreases node
  {
    LookUpMesh(meshes, node.name).NoMeshes? ||
    exists i :: 0 <= i < |node.children| && Unmeshed(meshes, node.children[i])
  }

  /** A lookup finds no node exactly when no node has the name; a mesh it finds is a node's first. */
  lemma LookUpMeshFinds(meshes: Node, name: string)
    ensures LookUpMesh(meshes, name).NoNode? <==> !Has(meshes, name)
    ensures LookUpMesh(meshes, name).FirstMesh? ==>
      exists p :: ValidPath(meshes, p) && At(meshes, p).name == name && |At(meshes, p).meshIndices| > 0 &&
        At(meshes, p).meshIndices[0] == LookUpMesh(meshes, name).index
  {
    if FindPath(meshes, name).Some? {
      var p := FindPath(meshes, name).value;
      assert ValidPath(meshes, p) && At(meshes, p).name == name;
    }
  }

  /**
   * CreateBones yields one bone per node of the subtree, ending with the node's own bone, which
   * has the given parent and the mesh the lookup finds; it fails exactly when some node's
   * namesake in the mesh tree places no mesh.
   */
  lemma {:induction false} BonesShape(meshes: Node, armature: Node, parent: Option<string>)
    ensures CreateBones(meshes, armature, parent).Some? <==> !Unmeshed(meshes, armature)
    ensures CreateBones(meshes, armature, parent).Some? ==>
      var bones := CreateBones(meshes, armature, parent).value;
      && |bones| == NodeCount(armature)
      && bones[|bones| - 1] == Bone(armature.name, armature.transform,
                                    AssociatedMesh(LookUpMesh(meshes, armature.name)), parent)
    decreases armature, |armature.children| + 1
  {
    ChildBonesShape(meshes, armature, 0);
  }

  lemma {:induction false} ChildBonesShape(meshes: Node, armature: Node, i: nat)
    requires i <= |armature.children|
    ensures ChildBones(meshes, armature, i).Some? <==>
      forall j :: i <= j < |armature.children| ==> !Unmeshed(meshes, armature.children[j])
    ensures ChildBones(meshes, armature, i).Some? ==>
      |ChildBones(meshes, armature, i).value| == CountFrom(armature, i)
    decreases armature, |armature.children| - i
  {
    if i < |armature.children| {
      BonesShape(meshes, armature.children[i], Some(armature.name));
      ChildBonesShape(meshes, armature, i + 1);
    }
  }

  /**
   * Post-order in child order: the bones of child `j`'s subtree are a block of the list, after
   * the blocks of the children before it, each made with this node as parent.
   */
  lemma BonesPostOrder(meshes: Node, armature: Node, parent: Option<string>)
    requires CreateBones(meshes, armature, parent).Some?
    ensures var bones := CreateBones(meshes, armature, parent).value;
      forall j :: 0 <= j < |armature.children| ==>
        var start := CountFrom(armature, 0) - CountFrom(armature, j);
        && 0 <= start && start + NodeCount(armature.children[j]) < |bones|
        && CreateBones(meshes, armature.children[j], Some(armature.name)) ==
           Some(bones[start..start + NodeCount(armature.children[j])])
  {
    var bones := CreateBones(meshes, armature, parent).value;
    var list := ChildBones(meshes, armature, 0).value;
    ChildBonesShape(meshes, armature, 0);
    forall j | 0 <= j < |armature.children|
      ensures var start := CountFrom(armature, 0) - CountFrom(armature, j);
        && 0 <= start && start + NodeCount(armature.children[j]) < |bones|
        && CreateBones(meshes, armature.children[j], Some(armature.name)) ==
           Some(bones[start..start + NodeCount(armature.children[j])])
    {
      ChildBonesAt(meshes, armature, 0, j);
      var start := CountFrom(armature, 0) - CountFrom(armature, j);
      SliceOfFirst(list, [bones[|bones| - 1]], start, NodeCount(armature.children[j]));
    }
  }

  /** Where child `j`'s block lies in the bones of children `i` onwards. */
  lemma {:induction false} ChildBonesAt(meshes: Node, armature: Node, i: nat, j: nat)
    requires i <= j < |armature.children| && ChildBones(meshes, armature, i).Some?
    ensures var list := ChildBones(meshes, armature, i).value;
      var start := CountFrom(armature, i) - CountFrom(armature, j);
      && 0 <= start && start + NodeCount(armature.children[j]) <= |list|
      && CreateBones(meshes, armature.children[j], Some(armature.name)) ==
         Some(list[start..start + NodeCount(armature.children[j])])
    decreases j - i
  {
    var list := ChildBones(meshes, armature, i).value;
    var own := CreateBones(meshes, armature.children[i], Some(armature.name)).value;
    var rest := ChildBones(meshes, armature, i + 1).value;
    BonesShape(meshes, armature.children[i], Some(armature.name));
    ChildBonesShape(meshes, armature, i + 1);
    if i < j {
      CountFromShrinks(armature, i + 1, j);
      ChildBonesAt(meshes, armature, i + 1, j);
      var start := CountFrom(armature, i + 1) - CountFrom(armature, j);
      SliceOfSecond(own, rest, start, NodeCount(armature.children[j]));
    } else {
      SliceOfFirst(own, rest, 0, |own|);
      assert own[0..|own|] == own;
    }
  }

  /** The subtrees of later children hold no more nodes. */
  lemma {:induction false} CountFromShrinks(node: Node, i: nat, j: nat)
    requires i <= j <= |node.children|
    ensures CountFrom(node, j) <= CountFrom(node, i)
    decreases j - i
  {
    if i < j {
      CountFromShrinks(node, i + 1, j);
    }
  }

  /**
   * Every bone but the last has a parent, and its parent's name is the name of a bone later in
   * the list: a node's bone follows the bones of its descendants.
   */
  lemma {:induction false} BonesParents(meshes: Node, armature: Node, parent: Option<string>)
    requires CreateBones(meshes, armature, parent).Some?
    ensures var bones := CreateBones(meshes, armature, parent).value;
      forall k :: 0 <= k < |bones| - 1 ==>
        bones[k].parent.Some? && exists j :: k < j < |bones| && bones[j].name == bones[k].parent.value
    decreases armature, |armature.children| + 1
  {
    var bones := CreateBones(meshes, armature, parent).value;
    var list := ChildBones(meshes, armature, 0).value;
    ChildBonesParents(meshes, armature, 0);
    assert |bones| == |list| + 1 && bones[|list|].name == armature.name;
    forall k | 0 <= k < |bones| - 1
      ensures bones[k].parent.Some? && exists j :: k < j < |bones| && bones[j].name == bones[k].parent.value
    {
      assert bones[k] == list[k];
      if bones[k].parent.value != armature.name {
        var j :| k < j < |list| && list[j].name == list[k].parent.value;
        assert bones[j] == list[j];
      }
    }
  }

  /** The bones of children `i` onwards name as parent this node or a bone later in the list. */
  lemma {:induction false} ChildBonesParents(meshes: Node, armature: Node, i: nat)
    requires i <= |armature.children| && ChildBones(meshes, armature, i).Some?
    ensures var list := ChildBones(meshes, armature, i).value;
      forall k :: 0 <= k < |list| ==>
        && list[k].parent.Some?
        && (list[k].parent.value == armature.name ||
            exists j :: k < j < |list| && list[j].name == list[k].parent.value)
    decreases armature, |armature.children| - i
  {
    if i < |armature.children| {
      var list := ChildBones(meshes, armature, i).value;
      var child := armature.children[i];
      var own := CreateBones(meshes, child, Some(armature.name)).value;
      var rest := ChildBones(meshes, armature, i + 1).value;
      assert list == own + rest;
      BonesShape(meshes, child, Some(armature.name));
      BonesParents(meshes, child, Some(armature.name));
      ChildBonesParents(meshes, armature, i + 1);
      forall k | 0 <= k < |list|
        ensures && list[k].parent.Some?
                && (list[k].parent.value == armature.name ||
                    exists j :: k < j < |list| && list[j].name == list[k].parent.value)
      {
        if k < |own| - 1 {
          var j :| k < j < |own| && own[j].name == own[k].parent.value;
          assert list[j] == own[j];
        } else if k >= |own| && rest[k - |own|].parent.value != armature.name {
          var j :| k - |own| < j < |rest| && rest[j].name == rest[k - |own|].parent.value;
          assert list[|own| + j] == rest[j];
        }
      }
    }
  }

  // ---------------------------------------------------------------------------------------------
  // The file

  const Magic: string := "PR3"
  const Version: int := 1
  const FlagHasParent: bv8 := 0x01
  const FlagHasMesh: bv8 := 0x02

  /** A bone's flag byte: bit 0 when it has a parent, bit 1 when it has a mesh, no other bit. */
  function Flags(bone: Bone): (r: bv8)
    ensures (r & FlagHasParent != 0) <==> bone.parent.Some?
    ensures (r & FlagHasMesh != 0) <==> bone.associatedMesh.Some?
    ensures r & 0xFC == 0
  {
    (if bone.parent.Some? then FlagHasParent else 0) | (if bone.associatedMesh.Some? then FlagHasMesh else 0)
  }

  /** Four entries of a matrix, in order. */
  function RowTokens(x1: Float, x2: Float, x3: Float, x4: Float): seq<Token> {
    [Single(x1), Single(x2), Single(x3), Single(x4)]
  }

  /** The sixteen entries, A1 to D4. */
  function MatrixTokens(m: Matrix4x4): seq<Token> {
    RowTokens(m.a1, m.a2, m.a3, m.a4) + RowTokens(m.b1, m.b2, m.b3, m.b4)
      + RowTokens(m.c1, m.c2, m.c3, m.c4) + RowTokens(m.d1, m.d2, m.d3, m.d4)
  }

  /** The parent's name, when the bone has a parent. */
  function ParentTokens(bone: Bone): seq<Token> {
    if bone.parent.Some? then NtString(bone.parent.value) else []
  }

  /** The mesh index, when the bone has a mesh. */
  function MeshIndexTokens(bone: Bone): seq<Token> {
    if bone.associatedMesh.Some? then [Int32(bone.associatedMesh.value)] else []
  }

  /** A bone record: name, flags, the parent's name and the mesh when flagged, the matrix. */
  function BoneTokens(bone: Bone): seq<Token> {
    NtString(bone.name) + [Byte(Flags(bone))] + ParentTokens(bone) + MeshIndexTokens(bone)
      + MatrixTokens(bone.transformation)
  }

  /** A texture coordinate: its x and y; z is not written. */
  function UvTokens(v: Vector3): seq<Token> {
    [Single(v.x), Single(v.y)]
  }

  function IndexTokens(i: int): seq<Token> {
    [Int32(i)]
  }

  /** A face: its number of indices, then the indices. */
  function FaceTokens(face: seq<int>): seq<Token> {
    [Int32(|face|)] + Repeat(face, IndexTokens)
  }

  function MeshCounts(mesh: SceneMesh): seq<Token> {
    [Int32(|mesh.vertices|), Int32(|mesh.normals|), Int32(|mesh.texCoords|), Int32(|mesh.faces|)]
  }

  /** A mesh record: the four counts, then vertices, texture coordinates, normals and faces. */
  function MeshTokens(mesh: SceneMesh): seq<Token> {
    MeshCounts(mesh) + Repeat(mesh.vertices, VectorTokens) + Repeat(mesh.texCoords, UvTokens)
      + Repeat(mesh.normals, VectorTokens) + Repeat(mesh.faces, FaceTokens)
  }

  function Header(meshCount: int, boneCount: int): seq<Token> {
    [Chars(Magic), Int32(Version), Int32(meshCount), Int32(boneCount)]
  }

  /** WriteOutputFile: the header, every mesh, then every bone. */
  function FileTokens(meshes: seq<SceneMesh>, bones: seq<Bone>): seq<Token> {
    Header(|meshes|, |bones|) + Repeat(meshes, MeshTokens) + Repeat(bones, BoneTokens)
  }

  /** The name the bone list starts from. */
  const ArmatureName: string := "Armature"

  /**
   * Main: fewer than two arguments exit with -1, no scene or a scene without meshes with -2.
   * Otherwise the first node named "Armature" is looked up and, when it is a child of the root,
   * taken out of the root's children; its bones are made with the rest of the tree as the mesh
   * tree, and the file is written. A missing armature, or a lookup that finds a node with no
   * meshes, throws.
   */
  function Convert(argCount: nat, scene: Option<Scene>): Outcome {
    if argCount < 2 then Exit(-1, None)
    else if scene.None? || |scene.value.meshes| == 0 then Exit(-2, None)
    else
      var root := scene.value.root;
      match FindPath(root, ArmatureName)
      case None => Crash
      case Some(path) =>
        var meshTree := if |path| == 1 then Detach(root, path[0]) else root;
        match CreateBones(meshTree, At(root, path), None)
        case None => Crash
        case Some(bones) => Exit(0, Some(FileTokens(scene.value.meshes, bones)))
  }

  // ---------------------------------------------------------------------------------------------
  // Reading a file back

  /** A mesh as a reader gets it back: texture coordinates have only x and y. */
  datatype MeshRecord = MeshRecord(vertices: seq<Vector3>, uvs: seq<Vector2>, normals: seq<Vector3>,
                                   faces: seq<seq<int>>)

  function Uv(v: Vector3): Vector2 {
    Vector2(v.x, v.y)
  }

  function Record(mesh: SceneMesh): MeshRecord {
    MeshRecord(mesh.vertices, seq(|mesh.texCoords|, k requires 0 <= k < |mesh.texCoords| => Uv(mesh.texCoords[k])),
               mesh.normals, mesh.faces)
  }

  function Records(meshes: seq<SceneMesh>): seq<MeshRecord> {
    seq(|meshes|, k requires 0 <= k < |meshes| => Record(meshes[k]))
  }

  function ReadUv(ts: seq<Token>): Option<(Vector2, seq<Token>)> {
    if |ts| >= 2 && ts[0].Single? && ts[1].Single? then Some((Vector2(ts[0].bits, ts[1].bits), ts[2..]))
    else None
  }

  function ReadFace(ts: seq<Token>): Option<(seq<int>, seq<Token>)> {
    match ReadInt(ts)
    case None => None
    case Some((n, rest)) => if n < 0 then None else ReadRepeat(rest, n, ReadInt)
  }

  function ReadMesh(ts: seq<Token>): Option<(MeshRecord, seq<Token>)> {
    if |ts| < 4 || !ts[0].Int32? || !ts[1].Int32? || !ts[2].Int32? || !ts[3].Int32?
       || ts[0].value < 0 || ts[1].value < 0 || ts[2].value < 0 || ts[3].value < 0 then None
    else
      match ReadRepeat(ts[4..], ts[0].value, ReadVector)
      case None => None
      case Some((vertices, ts1)) =>
        match ReadRepeat(ts1, ts[2].value, ReadUv)
        case None => None
        case Some((uvs, ts2)) =>
          match ReadRepeat(ts2, ts[1].value, ReadVector)
          case None => None
          case Some((normals, ts3)) =>
            match ReadRepeat(ts3, ts[3].value, ReadFace)
            case None => None
            case Some((faces, ts4)) => Some((MeshRecord(vertices, uvs, normals, faces), ts4))
  }

  /** Four floats. */
  function ReadRow(ts: seq<Token>): Option<((Float, Float, Float, Float), seq<Token>)> {
    if |ts| >= 4 && ts[0].Single? && ts[1].Single? && ts[2].Single? && ts[3].Single? then
      Some(((ts[0].bits, ts[1].bits, ts[2].bits, ts[3].bits), ts[4..]))
    else None
  }

  /** Sixteen floats, A1 to D4. */
  function ReadMatrix(ts: seq<Token>): Option<(Matrix4x4, seq<Token>)> {
    match ReadRow(ts)
    case None => None
    case Some((a, ts1)) =>
      match ReadRow(ts1)
      case None => None
      case Some((b, ts2)) =>
        match ReadRow(ts2)
        case None => None
        case Some((c, ts3)) =>
          match ReadRow(ts3)
          case None => None
          case Some((d, ts4)) =>
            Some((Matrix4x4(a.0, a.1, a.2, a.3, b.0, b.1, b.2, b.3,
                            c.0, c.1, c.2, c.3, d.0, d.1, d.2, d.3), ts4))
  }

  function ReadParent(ts: seq<Token>, flagged: bool): Option<(Option<string>, seq<Token>)> {
    if !flagged then Some((None, ts))
    else match ReadNtString(ts)
      case None => None
      case Some((name, rest)) => Some((Some(name), rest))
  }

  function ReadMeshIndex(ts: seq<Token>, flagged: bool): Option<(Option<int>, seq<Token>)> {
    if !flagged then Some((None, ts))
    else match ReadInt(ts)
      case None => None
      case Some((index, rest)) => Some((Some(index), rest))
  }

  /** A bone record, the flag byte deciding which optional fields follow. */
  function ReadBone(ts: seq<Token>): Option<(Bone, seq<Token>)> {
    match ReadNtString(ts)
    case None => None
    case Some((name, ts1)) =>
      match ReadByte(ts1)
      case None => None
      case Some((flags, ts2)) =>
        match ReadParent(ts2, flags & FlagHasParent != 0)
        case None => None
        case Some((parent, ts3)) =>
          match ReadMeshIndex(ts3, flags & FlagHasMesh != 0)
          case None => None
          case Some((mesh, ts4)) =>
            match ReadMatrix(ts4)
            case None => None
            case Some((matrix, ts5)) => Some((Bone(name, matrix, mesh, parent), ts5))
  }

  /** A whole file: the header, the meshes and bones it announces, and nothing after them. */
  function ReadFile(ts: seq<Token>): Option<(seq<MeshRecord>, seq<Bone>)> {
    if |ts| < 4 || ts[0] != Chars(Magic) || ts[1] != Int32(Version) || !ts[2].Int32? || !ts[3].Int32?
       || ts[2].value < 0 || ts[3].value < 0 then None
    else match ReadRepeat(ts[4..], ts[2].value, ReadMesh)
      case None => None
      case Some((meshes, rest)) =>
        match ReadRepeat(rest, ts[3].value, ReadBone)
        case None => None
        case Some((bones, rest')) => if rest' == [] then Some((meshes, bones)) else None
  }

  // ---------------------------------------------------------------------------------------------
  // Properties of the file

  lemma RowRoundTrip(x1: Float, x2: Float, x3: Float, x4: Float, rest: seq<Token>)
    ensures ReadRow(RowTokens(x1, x2, x3, x4) + rest) == Some(((x1, x2, x3, x4), rest))
  {
    assert (RowTokens(x1, x2, x3, x4) + rest)[4..] == rest;
  }

  lemma MatrixRoundTrip(m: Matrix4x4, rest: seq<Token>)
    ensures ReadMatrix(MatrixTokens(m) + rest) == Some((m, rest))
  {
    var a, b := RowTokens(m.a1, m.a2, m.a3, m.a4), RowTokens(m.b1, m.b2, m.b3, m.b4);
    var c, d := RowTokens(m.c1, m.c2, m.c3, m.c4), RowTokens(m.d1, m.d2, m.d3, m.d4);
    AppendAssoc(a + b + c, d, rest);
    AppendAssoc(a + b, c, d + rest);
    AppendAssoc(a, b, c + (d + rest));
    RowRoundTrip(m.a1, m.a2, m.a3, m.a4, b + (c + (d + rest)));
    RowRoundTrip(m.b1, m.b2, m.b3, m.b4, c + (d + rest));
    RowRoundTrip(m.c1, m.c2, m.c3, m.c4, d + rest);
    RowRoundTrip(m.d1, m.d2, m.d3, m.d4, rest);
  }

  lemma FaceRoundTrip(face: seq<int>, rest: seq<Token>)
    ensures ReadFace(FaceTokens(face) + rest) == Some((face, rest))
  {
    forall k, r | 0 <= k < |face|
      ensures ReadInt(IndexTokens(face[k]) + r) == Some((face[k], r))
    {
      assert (IndexTokens(face[k]) + r)[1..] == r;
    }
    RepeatRoundTrip(face, IndexTokens, ReadInt, rest);
    AppendAssoc([Int32(|face|)], Repeat(face, IndexTokens), rest);
  }

  lemma UvsRoundTrip(texCoords: seq<Vector3>, rest: seq<Token>)
    ensures ReadRepeat(Repeat(texCoords, UvTokens) + rest, |texCoords|, ReadUv) ==
      Some((Record(SceneMesh([], [], texCoords, [])).uvs, rest))
  {
    var uvs := Record(SceneMesh([], [], texCoords, [])).uvs;
    forall k, r | 0 <= k < |texCoords|
      ensures ReadUv(UvTokens(texCoords[k]) + r) == Some((uvs[k], r))
    {
      assert (UvTokens(texCoords[k]) + r)[2..] == r;
    }
    RepeatReads(texCoords, uvs, UvTokens, ReadUv, rest);
  }

  /** A mesh's tokens followed by more, grouped from the front as a reader takes them. */
  lemma MeshTokensThen(mesh: SceneMesh, rest: seq<Token>)
    ensures MeshTokens(mesh) + rest ==
      MeshCounts(mesh) + (Repeat(mesh.vertices, VectorTokens) + (Repeat(mesh.texCoords, UvTokens)
        + (Repeat(mesh.normals, VectorTokens) + (Repeat(mesh.faces, FaceTokens) + rest))))
  {
    var p1 := MeshCounts(mesh);
    var p2 := p1 + Repeat(mesh.vertices, VectorTokens);
    var p3 := p2 + Repeat(mesh.texCoords, UvTokens);
    var p4 := p3 + Repeat(mesh.normals, VectorTokens);
    var t4 := Repeat(mesh.faces, FaceTokens) + rest;
    var t3 := Repeat(mesh.normals, VectorTokens) + t4;
    var t2 := Repeat(mesh.texCoords, UvTokens) + t3;
    AppendAssoc(p4, Repeat(mesh.faces, FaceTokens), rest);
    AppendAssoc(p3, Repeat(mesh.normals, VectorTokens), t4);
    AppendAssoc(p2, Repeat(mesh.texCoords, UvTokens), t3);
    AppendAssoc(p1, Repeat(mesh.vertices, VectorTokens), t2);
  }

  /** A mesh reads back with its counts, vertices, normals and faces, and the x and y of its UVs. */
  lemma MeshRoundTrip(mesh: SceneMesh, rest: seq<Token>)
    ensures ReadMesh(MeshTokens(mesh) + rest) == Some((Record(mesh), rest))
  {
    var t4 := Repeat(mesh.faces, FaceTokens) + rest;
    var t3 := Repeat(mesh.normals, VectorTokens) + t4;
    var t2 := Repeat(mesh.texCoords, UvTokens) + t3;
    var t1 := Repeat(mesh.vertices, VectorTokens) + t2;
    MeshTokensThen(mesh, rest);
    assert (MeshCounts(mesh) + t1)[4..] == t1;
    VectorsRoundTrip(mesh.vertices, t2);
    UvsRoundTrip(mesh.texCoords, t3);
    VectorsRoundTrip(mesh.normals, t4);
    FacesRoundTrip(mesh.faces, rest);
    ReadMeshOf(MeshCounts(mesh) + t1, Record(mesh), t2, t3, t4, rest);
  }

  /** A mesh record is read as its four counts and the lists they announce. */
  lemma ReadMeshOf(ts: seq<Token>, m: MeshRecord, t2: seq<Token>, t3: seq<Token>, t4: seq<Token>, rest: seq<Token>)
    requires |ts| >= 4 && ts[0] == Int32(|m.vertices|) && ts[1] == Int32(|m.normals|)
    requires ts[2] == Int32(|m.uvs|) && ts[3] == Int32(|m.faces|)
    requires ReadRepeat(ts[4..], |m.vertices|, ReadVector) == Some((m.vertices, t2))
    requires ReadRepeat(t2, |m.uvs|, ReadUv) == Some((m.uvs, t3))
    requires ReadRepeat(t3, |m.normals|, ReadVector) == Some((m.normals, t4))
    requires ReadRepeat(t4, |m.faces|, ReadFace) == Some((m.faces, rest))
    ensures ReadMesh(ts) == Some((m, rest))
  {
  }

  lemma FacesRoundTrip(faces: seq<seq<int>>, rest: seq<Token>)
    ensures ReadRepeat(Repeat(faces, FaceTokens) + rest, |faces|, ReadFace) == Some((faces, rest))
  {
    forall k, r | 0 <= k < |faces|
      ensures ReadFace(FaceTokens(faces[k]) + r) == Some((faces[k], r))
    {
      FaceRoundTrip(faces[k], r);
    }
    RepeatRoundTrip(faces, FaceTokens, ReadFace, rest);
  }

  /** The optional parts of a bone record, the flag byte included. */
  function BoneMiddle(bone: Bone): seq<Token> {
    [Byte(Flags(bone))] + ParentTokens(bone) + MeshIndexTokens(bone)
  }

  lemma BoneTokensThen(bone: Bone, rest: seq<Token>)
    ensures BoneTokens(bone) + rest == NtString(bone.name) + (BoneMiddle(bone) + (MatrixTokens(bone.transformation) + rest))
  {
    var flags := [Byte(Flags(bone))];
    var parent := ParentTokens(bone);
    var mesh := MeshIndexTokens(bone);
    var matrix := MatrixTokens(bone.transformation);
    var name := NtString(bone.name);
    AppendAssoc(name + flags + parent + mesh, matrix, rest);
    AppendAssoc(name, flags, parent);
    AppendAssoc(name, flags + parent, mesh);
    AppendAssoc(name, BoneMiddle(bone), matrix + rest);
  }

  /** The flag byte decides what follows it, so every bone record reads back as the bone. */
  lemma BoneRoundTrip(bone: Bone, rest: seq<Token>)
    ensures ReadBone(BoneTokens(bone) + rest) == Some((bone, rest))
  {
    var after := MatrixTokens(bone.transformation) + rest;
    var ts1 := BoneMiddle(bone) + after;
    BoneTokensThen(bone, rest);
    NtStringRoundTrip(bone.name, ts1);
    var mesh := MeshIndexTokens(bone);
    FlagsRead(bone, after);
    ParentRoundTrip(bone, mesh + after);
    MeshIndexRoundTrip(bone, after);
    MatrixRoundTrip(bone.transformation, rest);
  }

  /** The flag byte is read first, the optional parts after it. */
  lemma FlagsRead(bone: Bone, after: seq<Token>)
    ensures ReadByte(BoneMiddle(bone) + after) ==
      Some((Flags(bone), ParentTokens(bone) + (MeshIndexTokens(bone) + after)))
  {
    var mesh := MeshIndexTokens(bone);
    AppendAssoc([Byte(Flags(bone))] + ParentTokens(bone), mesh, after);
    AppendAssoc([Byte(Flags(bone))], ParentTokens(bone), mesh + after);
    assert (BoneMiddle(bone) + after)[1..] == ParentTokens(bone) + (mesh + after);
  }

  lemma ParentRoundTrip(bone: Bone, rest: seq<Token>)
    ensures ReadParent(ParentTokens(bone) + rest, bone.parent.Some?) == Some((bone.parent, rest))
  {
    if bone.parent.Some? {
      NtStringRoundTrip(bone.parent.value, rest);
    } else {
      assert ParentTokens(bone) + rest == rest;
    }
  }

  lemma MeshIndexRoundTrip(bone: Bone, rest: seq<Token>)
    ensures ReadMeshIndex(MeshIndexTokens(bone) + rest, bone.associatedMesh.Some?) == Some((bone.associatedMesh, rest))
  {
    if bone.associatedMesh.Some? {
      assert (MeshIndexTokens(bone) + rest)[1..] == rest;
    } else {
      assert MeshIndexTokens(bone) + rest == rest;
    }
  }

  /** A file reads back as its meshes, as records, and its bones. */
  lemma FileRoundTrip(meshes: seq<SceneMesh>, bones: seq<Bone>)
    ensures ReadFile(FileTokens(meshes, bones)) == Some((Records(meshes), bones))
  {
    var ms := Repeat(meshes, MeshTokens);
    var bs := Repeat(bones, BoneTokens);
    var ts := FileTokens(meshes, bones);
    AppendAssoc(Header(|meshes|, |bones|), ms, bs);
    HeaderAt(|meshes|, |bones|, ms + bs);
    MeshesRoundTrip(meshes, bs);
    BonesRoundTrip(bones);
    ReadFileOf(ts, |meshes|, |bones|, Records(meshes), bones, bs);
  }

  lemma HeaderAt(meshCount: int, boneCount: int, rest: seq<Token>)
    ensures var ts := Header(meshCount, boneCount) + rest;
      && |ts| >= 4 && ts[0] == Chars(Magic) && ts[1] == Int32(Version)
      && ts[2] == Int32(meshCount) && ts[3] == Int32(boneCount) && ts[4..] == rest
  {
  }

  /** A file is read as its header's counts of meshes and bones, with nothing after them. */
  lemma ReadFileOf(ts: seq<Token>, meshCount: nat, boneCount: nat, meshes: seq<MeshRecord>, bones: seq<Bone>,
                   rest: seq<Token>)
    requires |ts| >= 4 && ts[0] == Chars(Magic) && ts[1] == Int32(Version)
    requires ts[2] == Int32(meshCount) && ts[3] == Int32(boneCount)
    requires ReadRepeat(ts[4..], meshCount, ReadMesh) == Some((meshes, rest))
    requires ReadRepeat(rest, boneCount, ReadBone) == Some((bones, []))
    ensures ReadFile(ts) == Some((meshes, bones))
  {
  }

  lemma MeshesRoundTrip(meshes: seq<SceneMesh>, rest: seq<Token>)
    ensures ReadRepeat(Repeat(meshes, MeshTokens) + rest, |meshes|, ReadMesh) == Some((Records(meshes), rest))
  {
    forall k, r | 0 <= k < |meshes|
      ensures ReadMesh(MeshTokens(meshes[k]) + r) == Some((Records(meshes)[k], r))
    {
      MeshRoundTrip(meshes[k], r);
    }
    RepeatReads(meshes, Records(meshes), MeshTokens, ReadMesh, rest);
  }

  lemma BonesRoundTrip(bones: seq<Bone>)
    ensures ReadRepeat(Repeat(bones, BoneTokens), |bones|, ReadBone) == Some((bones, []))
  {
    forall k, r | 0 <= k < |bones|
      ensures ReadBone(BoneTokens(bones[k]) + r) == Some((bones[k], r))
    {
      BoneRoundTrip(bones[k], r);
    }
    RepeatRoundTrip(bones, BoneTokens, ReadBone, []);
    assert Repeat(bones, BoneTokens) + [] == Repeat(bones, BoneTokens);
  }

  /** A bone takes its name, the flag byte, the optional parent and mesh, and 64 matrix bytes. */
  lemma BoneSize(bone: Bone)
    ensures Size(BoneTokens(bone)) ==
      Utf8Length(bone.name) + 2
      + (if bone.parent.Some? then Utf8Length(bone.parent.value) + 1 else 0)
      + (if bone.associatedMesh.Some? then 4 else 0)
      + 64
  {
    var name := NtString(bone.name);
    var flags := [Byte(Flags(bone))];
    var parent := ParentTokens(bone);
    var mesh := MeshIndexTokens(bone);
    var matrix := MatrixTokens(bone.transformation);
    SizeAppend(name + flags + parent + mesh, matrix);
    SizeAppend(name + flags + parent, mesh);
    SizeAppend(name + flags, parent);
    SizeAppend(name, flags);
    NtStringSize(bone.name);
    if bone.parent.Some? {
      NtStringSize(bone.parent.value);
    }
    assert [Byte(Flags(bone))][..0] == [];
    if bone.associatedMesh.Some? {
      assert mesh[..0] == [];
    }
    MatrixSize(bone.transformation);
  }

  lemma MatrixSize(m: Matrix4x4)
    ensures Size(MatrixTokens(m)) == 64
  {
    var a, b := RowTokens(m.a1, m.a2, m.a3, m.a4), RowTokens(m.b1, m.b2, m.b3, m.b4);
    var c, d := RowTokens(m.c1, m.c2, m.c3, m.c4), RowTokens(m.d1, m.d2, m.d3, m.d4);
    SizeAppend(a + b + c, d);
    SizeAppend(a + b, c);
    SizeAppend(a, b);
    RowSize(m.a1, m.a2, m.a3, m.a4);
    RowSize(m.b1, m.b2, m.b3, m.b4);
    RowSize(m.c1, m.c2, m.c3, m.c4);
    RowSize(m.d1, m.d2, m.d3, m.d4);
  }

  lemma RowSize(x1: Float, x2: Float, x3: Float, x4: Float)
    ensures Size(RowTokens(x1, x2, x3, x4)) == 16
  {
    SinglesSize(RowTokens(x1, x2, x3, x4));
  }

  lemma NtStringSize(s: string)
    ensures Size(NtString(s)) == Utf8Length(s) + 1
  {
    assert NtString(s)[..1] == [Utf8(s)];
    assert [Utf8(s)][..0] == [];
    assert Size([Utf8(s)]) == Utf8Length(s);
  }

  // ---------------------------------------------------------------------------------------------
  // Main

  /**
   * Main's exit codes: -1 exactly when given fewer than two arguments, -2 exactly when there is
   * no scene or it has no meshes; otherwise an exception exactly when no node is named
   * "Armature" or some armature node has a namesake in the mesh tree that places no mesh, and
   * exit code 0 with the file of the scene's meshes and one bone per armature node, the armature's
   * own bone last and without parent.
   */
  lemma ConvertCodes(argCount: nat, scene: Option<Scene>)
    ensures (Convert(argCount, scene) == Exit(-1, None)) <==> argCount < 2
    ensures (Convert(argCount, scene) == Exit(-2, None)) <==>
      argCount >= 2 && (scene.None? || |scene.value.meshes| == 0)
    ensures Convert(argCount, scene).Crash? <==>
      && argCount >= 2 && scene.Some? && |scene.value.meshes| > 0
      && var root := scene.value.root;
         (!Has(root, ArmatureName) ||
          var path := FindPath(root, ArmatureName).value;
          Unmeshed(if |path| == 1 then Detach(root, path[0]) else root, At(root, path)))
    ensures Convert(argCount, scene).Exit? ==> Convert(argCount, scene).code in {-2, -1, 0}
    ensures Convert(argCount, scene).Exit? && Convert(argCount, scene).code == 0 ==>
      var root := scene.value.root;
      var path := FindPath(root, ArmatureName).value;
      var armature := At(root, path);
      var bones := CreateBones(if |path| == 1 then Detach(root, path[0]) else root, armature, None).value;
      && armature.name == ArmatureName
      && |bones| == NodeCount(armature)
      && bones[|bones| - 1].name == ArmatureName && bones[|bones| - 1].parent.None?
      && Convert(argCount, scene).file == Some(FileTokens(scene.value.meshes, bones))
  {
    if argCount >= 2 && scene.Some? && |scene.value.meshes| > 0 && Has(scene.value.root, ArmatureName) {
      var root := scene.value.root;
      var path := FindPath(root, ArmatureName).value;
      BonesShape(if |path| == 1 then Detach(root, path[0]) else root, At(root, path), None);
    }
  }

  // ---------------------------------------------------------------------------------------------
  // The writer

  /** Main, with the lookups and the writer run as the source runs them. */
  method Run(argCount: nat, scene: Option<Scene>) returns (outcome: Outcome)
    ensures outcome == Convert(argCount, scene)
  {
    if argCount < 2 {
      return Exit(-1, None);
    }
    if scene.None? || |scene.value.meshes| == 0 {
      return Exit(-2, None);
    }
    var root := scene.value.root;
    var path := FindPath(root, ArmatureName);
    if path.None? {
      return Crash;
    }
    var armature := At(root, path.value);
    var meshTree := root;
    if |path.value| == 1 {
      meshTree := Detach(root, path.value[0]);
    }
    var bones := CreateBones(meshTree, armature, None);
    if bones.None? {
      return Crash;
    }
    var file := WriteOutputFile(scene.value.meshes, bones.value);
    return Exit(0, Some(file));
  }

  /** WriteOutputFile: the tokens written to a new file. */
  method WriteOutputFile(meshes: seq<SceneMesh>, bones: seq<Bone>) returns (file: seq<Token>)
    ensures file == FileTokens(meshes, bones)
  {
    var f := new BinaryWriter();
    f.Write(Chars(Magic));
    f.Write(Int32(Version));
    f.Write(Int32(|meshes|));
    f.Write(Int32(|bones|));
    for i := 0 to |meshes|
      invariant f.written == Header(|meshes|, |bones|) + Repeat(meshes[..i], MeshTokens)
    {
      WriteMesh(f, meshes[i]);
      AppendAssoc(Header(|meshes|, |bones|), Repeat(meshes[..i], MeshTokens), MeshTokens(meshes[i]));
      assert meshes[..i + 1][..i] == meshes[..i];
    }
    assert meshes[..|meshes|] == meshes;
    WriteBones(f, bones);
    return f.written;
  }

  /** The bone loop of WriteOutputFile. */
  method WriteBones(f: BinaryWriter, bones: seq<Bone>)
    modifies f
    ensures f.written == old(f.written) + Repeat(bones, BoneTokens)
  {
    for i := 0 to |bones|
      invariant f.written == old(f.written) + Repeat(bones[..i], BoneTokens)
    {
      WriteBone(f, bones[i]);
      AppendAssoc(old(f.written), Repeat(bones[..i], BoneTokens), BoneTokens(bones[i]));
      assert bones[..i + 1][..i] == bones[..i];
    }
    assert bones[..|bones|] == bones;
  }

  /** The body of the mesh loop: the counts, then the four lists. */
  method WriteMesh(f: BinaryWriter, mesh: SceneMesh)
    modifies f
    ensures f.written == old(f.written) + MeshTokens(mesh)
  {
    ghost var start := f.written;
    WriteCounts(f, mesh);
    ghost var p := MeshCounts(mesh);
    WriteVectors(f, mesh.vertices);
    AppendAssoc(start, p, Repeat(mesh.vertices, VectorTokens));
    p := p + Repeat(mesh.vertices, VectorTokens);
    WriteUvs(f, mesh.texCoords);
    AppendAssoc(start, p, Repeat(mesh.texCoords, UvTokens));
    p := p + Repeat(mesh.texCoords, UvTokens);
    WriteVectors(f, mesh.normals);
    AppendAssoc(start, p, Repeat(mesh.normals, VectorTokens));
    p := p + Repeat(mesh.normals, VectorTokens);
    WriteFaces(f, mesh.faces);
    AppendAssoc(start, p, Repeat(mesh.faces, FaceTokens));
  }

  /** The four counts that open a mesh record. */
  method WriteCounts(f: BinaryWriter, mesh: SceneMesh)
    modifies f
    ensures f.written == old(f.written) + MeshCounts(mesh)
  {
    f.Write(Int32(|mesh.vertices|));
    f.Write(Int32(|mesh.normals|));
    f.Write(Int32(|mesh.texCoords|));
    f.Write(Int32(|mesh.faces|));
  }

  method WriteVectors(f: BinaryWriter, vs: seq<Vector3>)
    modifies f
    ensures f.written == old(f.written) + Repeat(vs, VectorTokens)
  {
    for i := 0 to |vs|
      invariant f.written == old(f.written) + Repeat(vs[..i], VectorTokens)
    {
      f.Write(Single(vs[i].x));
      f.Write(Single(vs[i].y));
      f.Write(Single(vs[i].z));
      assert vs[..i + 1][..i] == vs[..i];
    }
    assert vs[..|vs|] == vs;
  }

  method WriteUvs(f: BinaryWriter, texCoords: seq<Vector3>)
    modifies f
    ensures f.written == old(f.written) + Repeat(texCoords, UvTokens)
  {
    for i := 0 to |texCoords|
      invariant f.written == old(f.written) + Repeat(texCoords[..i], UvTokens)
    {
      f.Write(Single(texCoords[i].x));
      f.Write(Single(texCoords[i].y));
      assert texCoords[..i + 1][..i] == texCoords[..i];
    }
    assert texCoords[..|texCoords|] == texCoords;
  }

  method WriteFaces(f: BinaryWriter, faces: seq<seq<int>>)
    modifies f
    ensures f.written == old(f.written) + Repeat(faces, FaceTokens)
  {
    for i := 0 to |faces|
      invariant f.written == old(f.written) + Repeat(faces[..i], FaceTokens)
    {
      WriteFace(f, faces[i]);
      AppendAssoc(old(f.written), Repeat(faces[..i], FaceTokens), FaceTokens(faces[i]));
      assert faces[..i + 1][..i] == faces[..i];
    }
    assert faces[..|faces|] == faces;
  }

  /** The body of the face loop: the number of indices, then the indices. */
  method WriteFace(f: BinaryWriter, face: seq<int>)
    modifies f
    ensures f.written == old(f.written) + FaceTokens(face)
  {
    f.Write(Int32(|face|));
    for j := 0 to |face|
      invariant f.written == old(f.written) + [Int32(|face|)] + Repeat(face[..j], IndexTokens)
    {
      f.Write(Int32(face[j]));
      assert face[..j + 1][..j] == face[..j];
    }
    assert face[..|face|] == face;
    AppendAssoc(old(f.written), [Int32(|face|)], Repeat(face, IndexTokens));
  }

  /** The body of the bone loop: the record, its flag byte built bit by bit. */
  method WriteBone(f: BinaryWriter, bone: Bone)
    modifies f
    ensures f.written == old(f.written) + BoneTokens(bone)
  {
    ghost var start := f.written;
    f.WriteNtString(bone.name);
    var flags: bv8 := 0;
    if bone.parent.Some? {
      flags := flags | FlagHasParent;
    }
    if bone.associatedMesh.Some? {
      flags := flags | FlagHasMesh;
    }
    f.Write(Byte(flags));
    ghost var p := NtString(bone.name) + [Byte(Flags(bone))];
    AppendAssoc(start, NtString(bone.name), [Byte(Flags(bone))]);
    if bone.parent.Some? {
      f.WriteNtString(bone.parent.value);
      AppendAssoc(start, p, NtString(bone.parent.value));
      p := p + NtString(bone.parent.value);
    } else {
      assert p + [] == p;
    }
    if bone.associatedMesh.Some? {
      f.Write(Int32(bone.associatedMesh.value));
      AppendAssoc(start, p, [Int32(bone.associatedMesh.value)]);
      p := p + [Int32(bone.associatedMesh.value)];
    } else {
      assert p + [] == p;
    }
    WriteMatrix(f, bone.transformation);
    AppendAssoc(start, p, MatrixTokens(bone.transformation));
  }

  /** The sixteen entries, A1 to D4, a row at a time. */
  method WriteMatrix(f: BinaryWriter, m: Matrix4x4)
    modifies f
    ensures f.written == old(f.written) + MatrixTokens(m)
  {
    var a, b := RowTokens(m.a1, m.a2, m.a3, m.a4), RowTokens(m.b1, m.b2, m.b3, m.b4);
    var c, d := RowTokens(m.c1, m.c2, m.c3, m.c4), RowTokens(m.d1, m.d2, m.d3, m.d4);
    WriteRow(f, m.a1, m.a2, m.a3, m.a4);
    WriteRow(f, m.b1, m.b2, m.b3, m.b4);
    AppendAssoc(old(f.written), a, b);
    WriteRow(f, m.c1, m.c2, m.c3, m.c4);
    AppendAssoc(old(f.written), a + b, c);
    WriteRow(f, m.d1, m.d2, m.d3, m.d4);
    AppendAssoc(old(f.written), a + b + c, d);
  }

  method WriteRow(f: BinaryWriter, x1: Float, x2: Float, x3: Float, x4: Float)
    modifies f
    ensures f.written == old(f.written) + RowTokens(x1, x2, x3, x4)
  {
    f.Write(Single(x1));
    f.Write(Single(x2));
    f.Write(Single(x3));
    f.Write(Single(x4));
  }
}
