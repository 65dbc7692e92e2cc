/**
 * The geometry loader of the Fbx2Pr3 converter (Fbx2Pr3/GeometryLoader.cs).
 *
 * For every mesh of the COLLADA file, in order, the loader appends one vertex per source
 * position to its vertex list, takes the NORMAL and TEXCOORD sources when the triangles have
 * such inputs, welds the corners of the index stream into vertices (module Welding), gives the
 * vertices no corner used attribute index 0, builds the vertex, normal and texture arrays, and
 * names the result after the first scene node for the mesh. The working lists are emptied after
 * every mesh that loads; a mesh that fails ends the load.
 *
 * The XML reading is not modelled: a mesh arrives as a `Collada.Mesh`. Every exception of the
 * source (an index out of range, a division by zero, a missing scene node, a null list) is the
 * result None.
 */
module Fbx2Pr3Loader {
  import opened Wrappers
  import opened Vertices
  import opened Welding
  import opened Collada

  /** The loader's working fields: `_vertices`, `_polyList`, `_normals` and `_textures`. */
  datatype LoaderState = LoaderState(vertices: seq<Vertex<Vector3>>, polyList: seq<int>,
                                     normals: Option<seq<Vector3>>, textures: Option<seq<Vector3>>)
  {
    predicate Valid() {
      Linked(vertices)
    }
  }

  /** The working fields of a new loader, and after every mesh that loaded. */
  const Idle: LoaderState := LoaderState([], [], None, None)

  /** The geometry ConvertBuffersToGeometry returns, before Load names it. */
  function Unnamed(b: Buffers<Vector3>, indices: seq<int>): Geometry {
    Geometry("", b.vertices, b.normals, b.uvs, indices, [], "")
  }

  /** One mesh's contribution to the working fields before welding: its positions and sources. */
  function Prepare(st: LoaderState, mesh: Mesh): (r: LoaderState)
    requires st.Valid()
    ensures r.Valid()
  {
    OriginalsLinked(st.vertices, mesh.positions);
    LoaderState(st.vertices + Originals(|st.vertices|, mesh.positions), st.polyList,
                if mesh.normals.Some? then mesh.normals else st.normals,
                if mesh.texCoords.Some? then Some(WidenAll(mesh.texCoords.value)) else st.textures)
  }

  /** The geometry loaded from mesh `name` when the working fields are `st`, or None if it fails. */
  function LoadMesh(st: LoaderState, name: string, mesh: Mesh, scene: seq<NodeData>): Option<Geometry>
    requires st.Valid()
  {
    var prepared := Prepare(st, mesh);
    match Assemble(Welded(prepared.vertices, prepared.polyList), mesh.indices, mesh.inputCount,
                   prepared.textures.Some?)
    case None => None
    case Some(w) =>
      match ConvertBuffers(RemoveUnused(w.vertices), prepared.normals, prepared.textures)
      case None => None
      case Some(b) =>
        match FirstNamed(scene, name)
        case None => None
        case Some(node) =>
          Some(Unnamed(b, w.polyList).(name := node.objectName,
                                       transformationMatrix := node.transformation,
                                       materialName := node.materialName))
  }

  /** The working fields mesh `k` of a load starts from: the initial ones, then the emptied ones. */
  function StartOf(st: LoaderState, k: nat): (r: LoaderState)
    ensures st.Valid() ==> r.Valid()
  {
    if k == 0 then st else Idle
  }

  /** What each mesh of a load yields, mesh `k` starting from the fields `StartOf(st, k)`. */
  function Outcomes(st: LoaderState, meshes: seq<(string, Mesh)>, scene: seq<NodeData>)
    : (r: seq<Option<Geometry>>)
    requires st.Valid()
    ensures |r| == |meshes|
  {
    seq(|meshes|, k requires 0 <= k < |meshes| => LoadMesh(StartOf(st, k), meshes[k].0, meshes[k].1, scene))
  }

  /**
   * Load from working fields `st`: one geometry per mesh, in order, or None if a mesh fails (the
   * source's exception ends the load there, and nothing is returned).
   */
  function LoadAll(st: LoaderState, meshes: seq<(string, Mesh)>, scene: seq<NodeData>)
    : Option<seq<Geometry>>
    requires st.Valid()
  {
    Collect(Outcomes(st, meshes, scene))
  }

  /** Every mesh before `n` loaded into the geometry at its place. */
  ghost predicate LoadedUpTo(st: LoaderState, meshes: seq<(string, Mesh)>, scene: seq<NodeData>,
                             gs: seq<Geometry>, n: nat)
    requires st.Valid()
  {
    && n <= |meshes| && n <= |gs|
    && forall k {:trigger LoadMesh(StartOf(st, k), meshes[k].0, meshes[k].1, scene)} :: 0 <= k < n ==>
      LoadMesh(StartOf(st, k), meshes[k].0, meshes[k].1, scene) == Some(gs[k])
  }

  /** A load whose every mesh loaded yields their geometries. */
  lemma LoadAllLoaded(st: LoaderState, meshes: seq<(string, Mesh)>, scene: seq<NodeData>, gs: seq<Geometry>)
    requires st.Valid() && |gs| == |meshes| && LoadedUpTo(st, meshes, scene, gs, |meshes|)
    ensures LoadAll(st, meshes, scene) == Some(gs)
  {
    var os := Outcomes(st, meshes, scene);
    assert forall k :: 0 <= k < |meshes| ==> os[k] == LoadMesh(StartOf(st, k), meshes[k].0, meshes[k].1, scene);
    CollectAll(os, gs);
  }

  /** A load with a mesh that fails yields nothing. */
  lemma LoadAllFails(st: LoaderState, meshes: seq<(string, Mesh)>, scene: seq<NodeData>, n: nat)
    requires st.Valid() && n < |meshes|
    requires LoadMesh(StartOf(st, n), meshes[n].0, meshes[n].1, scene).None?
    ensures LoadAll(st, meshes, scene).None?
  {
    assert Outcomes(st, meshes, scene)[n].None?;
  }

  // ---------------------------------------------------------------------------------------------
  // What a load produces

  /**
   * A loaded mesh is named after the first scene node for it and takes that node's matrix and
   * material; without such a node it does not load.
   */
  lemma LoadMeshNamed(st: LoaderState, name: string, mesh: Mesh, scene: seq<NodeData>)
    requires st.Valid()
    ensures FirstNamed(scene, name).None? ==> LoadMesh(st, name, mesh, scene).None?
    ensures LoadMesh(st, name, mesh, scene).Some? ==>
      var g := LoadMesh(st, name, mesh, scene).value;
      && g.name == name
      && FirstNamed(scene, name) == Some(NodeData(g.name, g.transformationMatrix, g.materialName))
  {
    if LoadMesh(st, name, mesh, scene).Some? {
      var node := FirstNamed(scene, name).value;
      assert node == NodeData(node.objectName, node.transformation, node.materialName);
    }
  }

  /**
   * The normal list is read for every vertex: a mesh without a NORMAL input, loaded while no
   * normal list is left over, fails as soon as there is any vertex.
   */
  lemma LoadMeshNeedsNormals(st: LoaderState, name: string, mesh: Mesh, scene: seq<NodeData>)
    requires st.Valid() && st.normals.None? && mesh.normals.None?
    requires |st.vertices| + |mesh.positions| > 0
    ensures LoadMesh(st, name, mesh, scene).None?
  {
    var prepared := Prepare(st, mesh);
    var w := Assemble(Welded(prepared.vertices, prepared.polyList), mesh.indices, mesh.inputCount,
                      prepared.textures.Some?);
    if w.Some? {
      var cs := ReadCorners(mesh.indices, mesh.inputCount, prepared.textures.Some?,
                            |mesh.indices| / mesh.inputCount).value;
      assert |w.value.vertices| >= |prepared.vertices| > 0;
      assert !Resolves(RemoveUnused(w.value.vertices)[0], prepared.normals, prepared.textures);
    }
  }

  /**
   * A loaded mesh read its index stream in `|indices| / inputCount` whole groups (so the stream
   * had inputs), emitted one index per group after those already in the list, kept every vertex
   * (the left-over ones and one per position), and has one normal per vertex.
   */
  lemma LoadMeshCounts(st: LoaderState, name: string, mesh: Mesh, scene: seq<NodeData>)
    requires st.Valid()
    ensures LoadMesh(st, name, mesh, scene).Some? ==>
      var g := LoadMesh(st, name, mesh, scene).value;
      && mesh.inputCount > 0
      && |g.indices| == |st.polyList| + |mesh.indices| / mesh.inputCount
      && g.indices[..|st.polyList|] == st.polyList
      && |st.vertices| + |mesh.positions| <= |g.vertices| == |g.normals|
  {
    if LoadMesh(st, name, mesh, scene).Some? {
      var prepared := Prepare(st, mesh);
      var withTexture := prepared.textures.Some?;
      var cs := ReadCorners(mesh.indices, mesh.inputCount, withTexture, |mesh.indices| / mesh.inputCount).value;
      var w := Weld(Welded(prepared.vertices, prepared.polyList), cs).value;
      assert |w.vertices| >= |prepared.vertices|;
    }
  }

  /**
   * One mesh loaded from empty working fields, whose corners name its own positions: one index
   * per corner, at least one vertex per position and at most one more per corner, a texture
   * array exactly when the mesh has texture coordinates, and every index names a vertex with
   * the corner's position and, when the corner has a normal, the corner's normal and its
   * texture coordinate widened to three components.
   */
  lemma LoadMeshCorners(name: string, mesh: Mesh, scene: seq<NodeData>, cs: seq<Corner>)
    requires mesh.inputCount > 0
    requires ReadCorners(mesh.indices, mesh.inputCount, mesh.texCoords.Some?,
                         |mesh.indices| / mesh.inputCount) == Some(cs)
    requires forall k :: 0 <= k < |cs| ==> 0 <= cs[k].position < |mesh.positions|
    requires LoadMesh(Idle, name, mesh, scene).Some?
    ensures var g := LoadMesh(Idle, name, mesh, scene).value;
      && |g.indices| == |cs|
      && |mesh.positions| <= |g.vertices| <= |mesh.positions| + |cs|
      && |g.normals| == |g.vertices|
      && (g.uvs.Some? <==> mesh.texCoords.Some?)
      && forall k :: 0 <= k < |cs| ==>
        && 0 <= g.indices[k] < |g.vertices|
        && g.vertices[g.indices[k]] == mesh.positions[cs[k].position]
        && (cs[k].normal != NoIndex ==>
          && mesh.normals.Some? && 0 <= cs[k].normal < |mesh.normals.value|
          && g.normals[g.indices[k]] == mesh.normals.value[cs[k].normal]
          && (mesh.texCoords.Some? ==>
            && 0 <= cs[k].texture < |mesh.texCoords.value|
            && g.uvs.value[g.indices[k]] == Widen(mesh.texCoords.value[cs[k].texture])))
  {
    var prepared := Prepare(Idle, mesh);
    MeshWelds(mesh.positions, cs);
    MeshCornersResolve(mesh.positions, cs, prepared.normals, prepared.textures);
    LoadMeshFromWeld(name, mesh, scene, cs);
    if mesh.texCoords.Some? {
      var widened := WidenAll(mesh.texCoords.value);
      forall t | 0 <= t < |mesh.texCoords.value|
        ensures widened[t] == Widen(mesh.texCoords.value[t])
      {
      }
    }
  }

  /** From empty working fields, a loaded mesh holds the buffers of the welded corners. */
  lemma LoadMeshFromWeld(name: string, mesh: Mesh, scene: seq<NodeData>, cs: seq<Corner>)
    requires mesh.inputCount > 0
    requires ReadCorners(mesh.indices, mesh.inputCount, mesh.texCoords.Some?,
                         |mesh.indices| / mesh.inputCount) == Some(cs)
    requires Weld(Welded(Originals(0, mesh.positions), []), cs).Some?
    requires LoadMesh(Idle, name, mesh, scene).Some?
    ensures var prepared := Prepare(Idle, mesh);
      var w := Weld(Welded(Originals(0, mesh.positions), []), cs).value;
      var b := ConvertBuffers(RemoveUnused(w.vertices), prepared.normals, prepared.textures);
      var g := LoadMesh(Idle, name, mesh, scene).value;
      && b.Some?
      && g.vertices == b.value.vertices && g.normals == b.value.normals && g.uvs == b.value.uvs
      && g.indices == w.polyList
  {
    var prepared := Prepare(Idle, mesh);
    assert prepared.vertices == Originals(0, mesh.positions);
    var start := Welded(Originals(0, mesh.positions), []);
    var w := Weld(start, cs).value;
    assert Assemble(start, mesh.indices, mesh.inputCount, prepared.textures.Some?) == Some(w);
  }

  /**
   * A load yields one geometry per mesh, in order, each named after its own scene node; every
   * mesh after the first is loaded from emptied working fields, as if on its own.
   */
  lemma LoadAllShape(st: LoaderState, meshes: seq<(string, Mesh)>, scene: seq<NodeData>)
    requires st.Valid()
    ensures LoadAll(st, meshes, scene).Some? ==>
      var gs := LoadAll(st, meshes, scene).value;
      && |gs| == |meshes|
      && (forall k :: 0 <= k < |meshes| ==>
        && gs[k].name == meshes[k].0
        && FirstNamed(scene, meshes[k].0) == Some(NodeData(gs[k].name, gs[k].transformationMatrix,
                                                           gs[k].materialName)))
      && forall k :: 0 < k < |meshes| ==> LoadMesh(Idle, meshes[k].0, meshes[k].1, scene) == Some(gs[k])
  {
    var os := Outcomes(st, meshes, scene);
    if Collect(os).Some? {
      var gs := Collect(os).value;
      forall k | 0 <= k < |meshes|
        ensures gs[k].name == meshes[k].0
        ensures FirstNamed(scene, meshes[k].0) == Some(NodeData(gs[k].name, gs[k].transformationMatrix,
                                                                gs[k].materialName))
        ensures k > 0 ==> LoadMesh(Idle, meshes[k].0, meshes[k].1, scene) == Some(gs[k])
      {
        assert os[k] == Some(gs[k]);
        LoadMeshNamed(StartOf(st, k), meshes[k].0, meshes[k].1, scene);
      }
    }
  }

  /** A mesh that has no scene node fails the whole load, wherever it is in the file. */
  lemma LoadAllMissingNode(st: LoaderState, meshes: seq<(string, Mesh)>, scene: seq<NodeData>, n: nat)
    requires st.Valid() && n < |meshes| && FirstNamed(scene, meshes[n].0).None?
    ensures LoadAll(st, meshes, scene).None?
  {
    LoadMeshNamed(StartOf(st, n), meshes[n].0, meshes[n].1, scene);
    LoadAllFails(st, meshes, scene, n);
  }

  class GeometryLoader {
    const meshes: seq<(string, Mesh)>
    const sceneData: seq<NodeData>
    var vertices: seq<Vertex<Vector3>>
    var polyList: seq<int>
    var normals: Option<seq<Vector3>>
    var textures: Option<seq<Vector3>>

    function State(): LoaderState
      reads this
    {
      LoaderState(vertices, polyList, normals, textures)
    }

    predicate Valid()
      reads this
    {
      Linked(vertices)
    }

    constructor (meshes: seq<(string, Mesh)>, sceneData: seq<NodeData>)
      ensures Valid() && State() == Idle
      ensures this.meshes == meshes && this.sceneData == sceneData
    {
      this.meshes := meshes;
      this.sceneData := sceneData;
      vertices := [];
      polyList := [];
      normals := None;
      textures := None;
    }

    /** Load: every mesh in order, each named after its scene node. */
    method Load() returns (objects: Option<seq<Geometry>>)
      requires Valid()
      modifies this
      ensures Valid()
      ensures objects == LoadAll(old(State()), meshes, sceneData)
      ensures objects.Some? ==> State() == if meshes == [] then old(State()) else Idle
    {
      var result: seq<Geometry> := [];
      ghost var st := State();
      for i := 0 to |meshes|
        invariant Valid() && State() == StartOf(st, i)
        invariant |result| == i && LoadedUpTo(st, meshes, sceneData, result, i)
      {
        var (objectName, mesh) := meshes[i];
        var geometry := LoadOne(objectName, mesh);
        if geometry.None? {
          LoadAllFails(st, meshes, sceneData, i);
          return None;
        }
        result := result + [geometry.value];
        vertices := [];
        polyList := [];
        normals := None;
        textures := None;
      }
      LoadAllLoaded(st, meshes, sceneData, result);
      return Some(result);
    }

    /** The body of Load's loop for one mesh, up to emptying the working lists. */
    method LoadOne(objectName: string, mesh: Mesh) returns (geometry: Option<Geometry>)
      requires Valid()
      modifies this
      ensures Valid()
      ensures geometry == LoadMesh(old(State()), objectName, mesh, sceneData)
    {
      ghost var prepared := Prepare(State(), mesh);
      AddPositions(mesh.positions);
      if mesh.normals.Some? {
        normals := mesh.normals;
      }
      if mesh.texCoords.Some? {
        textures := Some(WidenAll(mesh.texCoords.value));
      }
      assert State() == prepared;
      var assembled := AssembleVertices(mesh);
      if !assembled {
        return None;
      }
      RemoveUnusedVertices();
      geometry := ConvertBuffersToGeometry();
      if geometry.None? {
        return None;
      }
      var nodeData := FirstNamed(sceneData, objectName);
      if nodeData.None? {
        return None;
      }
      geometry := Some(geometry.value.(name := nodeData.value.objectName,
                                       transformationMatrix := nodeData.value.transformation,
                                       materialName := nodeData.value.materialName));
    }

    /** `_vertices.Add(new Vertex(_vertices.Count, poly))` for every source position. */
    method AddPositions(positions: seq<Vector3>)
      requires Valid()
      modifies this
      ensures Valid()
      ensures vertices == old(vertices) + Originals(|old(vertices)|, positions)
      ensures polyList == old(polyList) && normals == old(normals) && textures == old(textures)
    {
      ghost var start := |vertices|;
      for k := 0 to |positions|
        invariant vertices == old(vertices) + Originals(start, positions[..k])
        invariant polyList == old(polyList) && normals == old(normals) && textures == old(textures)
      {
        vertices := vertices + [NewVertex(|vertices|, positions[k])];
      }
      assert positions[..|positions|] == positions;
      OriginalsLinked(old(vertices), positions);
    }

    /**
     * AssembleVertices: corner `i` is read from group `i` of the index stream and processed, for
     * every whole group. Returns false where the source throws.
     */
    method AssembleVertices(mesh: Mesh) returns (ok: bool)
      requires Valid()
      modifies this
      ensures Valid() && normals == old(normals) && textures == old(textures)
      ensures ok == Assemble(Welded(old(vertices), old(polyList)), mesh.indices, mesh.inputCount,
                             textures.Some?).Some?
      ensures ok ==> Welded(vertices, polyList) == Assemble(Welded(old(vertices), old(polyList)),
                                                            mesh.indices, mesh.inputCount, textures.Some?).value
    {
      var typeCount := mesh.inputCount;
      var id := mesh.indices;
      if typeCount == 0 {
        return false;
      }
      ghost var start := Welded(vertices, polyList);
      ghost var withTexture := textures.Some?;
      ghost var cs: seq<Corner> := [];
      for i := 0 to |id| / typeCount
        invariant Valid() && normals == old(normals) && textures == old(textures)
        invariant Welds(start, id, typeCount, withTexture, i, cs, Welded(vertices, polyList))
      {
        var textureIndex := NoIndex;
        var base := i * typeCount;
        if base + 1 >= |id| || (textures.Some? && base + 2 >= |id|) {
          ReadFails(start, id, typeCount, withTexture, i);
          return false;
        }
        var posIndex := id[base];
        var normalIndex := id[base + 1];
        if textures.Some? {
          textureIndex := id[base + 2];
        }
        ghost var c := Corner(posIndex, normalIndex, textureIndex);
        WeldsStep(start, id, typeCount, withTexture, i, cs, Welded(vertices, polyList), c);
        var processed := ProcessVertex(posIndex, normalIndex, textureIndex);
        if !processed {
          return false;
        }
        cs := cs + [c];
      }
      WeldsAssemble(start, id, typeCount, withTexture, cs, Welded(vertices, polyList));
      ok := true;
    }

    /** ProcessVertex: claim the vertex at the position, or walk its duplicates. */
    method ProcessVertex(posIndex: int, normalIndex: int, textureIndex: int) returns (ok: bool)
      requires Valid()
      modifies this
      ensures Valid() && normals == old(normals) && textures == old(textures)
      ensures ok == Welding.ProcessVertex(old(vertices), Corner(posIndex, normalIndex, textureIndex)).Some?
      ensures ok ==>
        var step := Welding.ProcessVertex(old(vertices), Corner(posIndex, normalIndex, textureIndex)).value;
        vertices == step.0 && polyList == old(polyList) + [step.1]
    {
      if !(0 <= posIndex < |vertices|) {
        return false;
      }
      var currentVertex := vertices[posIndex];
      if !currentVertex.IsSet() {
        vertices := vertices[posIndex := currentVertex.(normalIndex := normalIndex, textureIndex := textureIndex)];
        polyList := polyList + [posIndex];
      } else {
        HandleAlreadyProcessedVertex(posIndex, normalIndex, textureIndex);
      }
      return true;
    }

    /**
     * HandleAlreadyProcessedVertex: follow the duplicates from `previousVertex` to one carrying
     * the pair, or append a duplicate after the last one. The source recurses on the duplicate;
     * the recursion is a tail call and is written as a loop.
     */
    method HandleAlreadyProcessedVertex(previousVertex: nat, newNormalIndex: int, newTextureIndex: int)
      requires Valid() && previousVertex < |vertices|
      modifies this
      ensures Valid() && normals == old(normals) && textures == old(textures)
      ensures var r := Handle(old(vertices), previousVertex, newNormalIndex, newTextureIndex);
        vertices == r.0 && polyList == old(polyList) + [r.1]
    {
      var current := previousVertex;
      while !vertices[current].HasSameInformation(newNormalIndex, newTextureIndex)
        && vertices[current].duplicate.Some?
        invariant current < |vertices|
        invariant Handle(vertices, current, newNormalIndex, newTextureIndex)
          == Handle(vertices, previousVertex, newNormalIndex, newTextureIndex)
        decreases |vertices| - current
      {
        current := vertices[current].duplicate.value;
      }
      if vertices[current].HasSameInformation(newNormalIndex, newTextureIndex) {
        polyList := polyList + [vertices[current].index];
        return;
      }
      var duplicateVertex := NewVertex(|vertices|, vertices[current].position)
        .(normalIndex := newNormalIndex, textureIndex := newTextureIndex);
      vertices := vertices[current := vertices[current].(duplicate := Some(|vertices|))] + [duplicateVertex];
      polyList := polyList + [duplicateVertex.index];
    }

    /** RemoveUnusedVertices: every vertex no corner claimed gets attribute indices 0. */
    method RemoveUnusedVertices()
      requires Valid()
      modifies this
      ensures Valid() && vertices == RemoveUnused(old(vertices))
      ensures polyList == old(polyList) && normals == old(normals) && textures == old(textures)
    {
      for i := 0 to |vertices|
        invariant |vertices| == |old(vertices)|
        invariant forall k :: 0 <= k < i ==> vertices[k] == Cleared(old(vertices)[k])
        invariant forall k :: i <= k < |vertices| ==> vertices[k] == old(vertices)[k]
        invariant polyList == old(polyList) && normals == old(normals) && textures == old(textures)
      {
        if !vertices[i].IsSet() {
          vertices := vertices[i := vertices[i].(normalIndex := 0, textureIndex := 0)];
        }
      }
    }

    /** ConvertBuffersToGeometry: one array entry per vertex, looked up through its indices. */
    method ConvertBuffersToGeometry() returns (geometry: Option<Geometry>)
      requires Valid()
      ensures geometry == match ConvertBuffers(vertices, normals, textures)
        case None => None
        case Some(b) => Some(Unnamed(b, polyList))
    {
      var vs, ns, ts := vertices, normals, textures;
      var verticesArray := new Vector3[|vs|];
      var normalsArray := new Vector3[|vs|];
      var texturesArray: array?<Vector3> := null;
      if ts.Some? {
        texturesArray := new Vector3[|vs|];
      }
      for i := 0 to |vs|
        invariant texturesArray != null <==> ts.Some?
        invariant Filled(vs, i, ns, ts, verticesArray[..], normalsArray[..])
        invariant texturesArray != null ==>
          texturesArray.Length == |vs| && FilledTextures(vs, i, ts.value, texturesArray[..])
      {
        var currentVertex := vs[i];
        verticesArray[i] := currentVertex.position;
        if ns.None? || !(0 <= currentVertex.normalIndex < |ns.value|) {
          return None;
        }
        normalsArray[i] := ns.value[currentVertex.normalIndex];
        if texturesArray != null {
          if !(0 <= currentVertex.textureIndex < |ts.value|) {
            return None;
          }
          texturesArray[i] := ts.value[currentVertex.textureIndex];
        }
      }
      var uvs := if texturesArray != null then Some(texturesArray[..]) else None;
      FilledConverts(vs, ns, ts, verticesArray[..], normalsArray[..], uvs);
      return Some(Geometry("", verticesArray[..], normalsArray[..], uvs, polyList, [], ""));
    }
  }
}
