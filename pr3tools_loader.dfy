/**
 * The geometry loader of the Pr3Tools converter (Pr3Tools/GeometryLoader.cs).
 *
 * It welds the same way as the Fbx2Pr3 loader, with three differences: the welding steps are
 * static methods over a vertex list and an index list handed to them; every mesh starts from new
 * lists; and a mesh must have both a NORMAL and a TEXCOORD input, the texture index always being
 * read at offset 2 of its group. The vertex of Pr3Tools is the record of module Vertices.
 *
 * The XML reading is not modelled: a mesh arrives as a `Collada.Mesh`. Every exception of the
 * source is the result None.
 */
module Pr3ToolsLoader {
  import opened Wrappers
  import opened Vertices
  import opened Welding
  import opened Collada
  import Fbx2Pr3Loader

  /** The `List<Vertex>` the welding steps append to and whose vertices they change. */
  class VertexList {
    var items: seq<Vertex<Vector3>>

    constructor ()
      ensures items == []
    {
      items := [];
    }
  }

  /** The `List<int> polyList` the welding steps append the emitted indices to. */
  class IndexList {
    var items: seq<int>

    constructor ()
      ensures items == []
    {
      items := [];
    }
  }

  /**
   * The geometry loaded from mesh `name`, or None if it fails: a mesh without NORMAL or TEXCOORD
   * input fails, otherwise its corners are welded over one fresh vertex per position, reading
   * the texture index of every corner.
   */
  function LoadMesh(name: string, mesh: Mesh, scene: seq<NodeData>): Option<Geometry> {
    if mesh.normals.None? || mesh.texCoords.None? then None
    else
      var textures := Some(WidenAll(mesh.texCoords.value));
      OriginalsLinked([], mesh.positions);
      assert [] + Originals(0, mesh.positions) == Originals(0, mesh.positions);
      match Assemble(Welded(Originals(0, mesh.positions), []), mesh.indices, mesh.inputCount, true)
      case None => None
      case Some(w) =>
        match ConvertBuffers(RemoveUnused(w.vertices), mesh.normals, textures)
        case None => None
        case Some(b) =>
          match FirstNamed(scene, name)
          case None => None
          case Some(node) =>
            Some(Fbx2Pr3Loader.Unnamed(b, w.polyList).(name := node.objectName,
                                                      transformationMatrix := node.transformation,
                                                      materialName := node.materialName))
  }

  /** Load: one geometry per mesh, in order, or None if a mesh fails. */
  function LoadAll(meshes: seq<(string, Mesh)>, scene: seq<NodeData>): Option<seq<Geometry>> {
    Collect(seq(|meshes|, k requires 0 <= k < |meshes| => LoadMesh(meshes[k].0, meshes[k].1, scene)))
  }

  /** Every mesh before `n` loaded into the geometry at its place. */
  ghost predicate LoadedUpTo(meshes: seq<(string, Mesh)>, scene: seq<NodeData>, gs: seq<Geometry>, n: nat) {
    && n <= |meshes| && n <= |gs|
    && forall k {:trigger LoadMesh(meshes[k].0, meshes[k].1, scene)} :: 0 <= k < n ==>
      LoadMesh(meshes[k].0, meshes[k].1, scene) == Some(gs[k])
  }

  /** One more loaded mesh extends the loaded prefix. */
  lemma LoadedStep(meshes: seq<(string, Mesh)>, scene: seq<NodeData>, gs: seq<Geometry>, g: Geometry)
    requires |gs| < |meshes| && LoadedUpTo(meshes, scene, gs, |gs|)
    requires LoadMesh(meshes[|gs|].0, meshes[|gs|].1, scene) == Some(g)
    ensures LoadedUpTo(meshes, scene, gs + [g], |gs| + 1)
  {
    var gs' := gs + [g];
    forall k | 0 <= k < |gs'|
      ensures LoadMesh(meshes[k].0, meshes[k].1, scene) == Some(gs'[k])
    {
    }
  }

  /** A load whose every mesh loaded yields their geometries. */
  lemma LoadAllLoaded(meshes: seq<(string, Mesh)>, scene: seq<NodeData>, gs: seq<Geometry>)
    requires |gs| == |meshes| && LoadedUpTo(meshes, scene, gs, |meshes|)
    ensures LoadAll(meshes, scene) == Some(gs)
  {
    var os := seq(|meshes|, k requires 0 <= k < |meshes| => LoadMesh(meshes[k].0, meshes[k].1, scene));
    assert forall k :: 0 <= k < |meshes| ==> os[k] == LoadMesh(meshes[k].0, meshes[k].1, scene);
    CollectAll(os, gs);
  }

  /** A load with a mesh that fails yields nothing. */
  lemma LoadAllFails(meshes: seq<(string, Mesh)>, scene: seq<NodeData>, n: nat)
    requires n < |meshes| && LoadMesh(meshes[n].0, meshes[n].1, scene).None?
    ensures LoadAll(meshes, scene).None?
  {
    var os := seq(|meshes|, k requires 0 <= k < |meshes| => LoadMesh(meshes[k].0, meshes[k].1, scene));
    assert os[n].None?;
  }

  // ---------------------------------------------------------------------------------------------
  // What a load produces

  /**
   * A mesh with both inputs loads exactly as the Fbx2Pr3 loader loads it from empty working
   * fields; a mesh lacking either input does not load.
   */
  lemma LoadMeshAgrees(name: string, mesh: Mesh, scene: seq<NodeData>)
    ensures LoadMesh(name, mesh, scene) ==
      if mesh.normals.Some? && mesh.texCoords.Some? then Fbx2Pr3Loader.LoadMesh(Fbx2Pr3Loader.Idle, name, mesh, scene)
      else None
  {
    if mesh.normals.Some? && mesh.texCoords.Some? {
      var prepared := Fbx2Pr3Loader.Prepare(Fbx2Pr3Loader.Idle, mesh);
      assert prepared.vertices == Originals(0, mesh.positions);
    }
  }

  /**
   * A loaded mesh read `|indices| / inputCount` whole groups and emitted one index per group,
   * kept at least one vertex per position, and has one normal and one texture coordinate per
   * vertex.
   */
  lemma LoadMeshCounts(name: string, mesh: Mesh, scene: seq<NodeData>)
    ensures LoadMesh(name, mesh, scene).Some? ==>
      var g := LoadMesh(name, mesh, scene).value;
      && mesh.inputCount > 0
      && |g.indices| == |mesh.indices| / mesh.inputCount
      && |mesh.positions| <= |g.vertices| == |g.normals|
      && g.uvs.Some? && |g.uvs.value| == |g.vertices|
  {
    LoadMeshAgrees(name, mesh, scene);
    if LoadMesh(name, mesh, scene).Some? {
      Fbx2Pr3Loader.LoadMeshCounts(Fbx2Pr3Loader.Idle, name, mesh, scene);
    }
  }

  /**
   * Corner `k` is read at offsets 0, 1 and 2 of group `k`. When every corner names a source
   * position, the loaded mesh has one index per corner, and every index names a vertex with the
   * corner's position and, when the corner has a normal, the corner's normal and its texture
   * coordinate widened to three components.
   */
  lemma LoadMeshCorners(name: string, mesh: Mesh, scene: seq<NodeData>, cs: seq<Corner>)
    requires mesh.inputCount > 0 && |cs| == |mesh.indices| / mesh.inputCount
    requires forall k :: 0 <= k < |cs| ==> k * mesh.inputCount + 2 < |mesh.indices|
    requires forall k :: 0 <= k < |cs| ==>
      cs[k] == Corner(mesh.indices[k * mesh.inputCount], mesh.indices[k * mesh.inputCount + 1],
                      mesh.indices[k * mesh.inputCount + 2])
    requires forall k :: 0 <= k < |cs| ==> 0 <= cs[k].position < |mesh.positions|
    requires LoadMesh(name, mesh, scene).Some?
    ensures var g := LoadMesh(name, mesh, scene).value;
      && |g.indices| == |cs|
      && |mesh.positions| <= |g.vertices| <= |mesh.positions| + |cs|
      && forall k :: 0 <= k < |cs| ==>
        && 0 <= g.indices[k] < |g.vertices|
        && g.vertices[g.indices[k]] == mesh.positions[cs[k].position]
        && (cs[k].normal != NoIndex ==>
          && 0 <= cs[k].normal < |mesh.normals.value|
          && g.normals[g.indices[k]] == mesh.normals.value[cs[k].normal]
          && 0 <= cs[k].texture < |mesh.texCoords.value|
          && g.uvs.value[g.indices[k]] == Widen(mesh.texCoords.value[cs[k].texture]))
  {
    assert mesh.normals.Some? && mesh.texCoords.Some? &&
        LoadMesh(name, mesh, scene) == Fbx2Pr3Loader.LoadMesh(Fbx2Pr3Loader.Idle, name, mesh, scene) by {
      LoadMeshAgrees(name, mesh, scene);
    }
    assert ReadCorners(mesh.indices, mesh.inputCount, true, |mesh.indices| / mesh.inputCount) == Some(cs) by {
      ReadCornersAre(mesh.indices, mesh.inputCount, cs);
    }
    Fbx2Pr3Loader.LoadMeshCorners(name, mesh, scene, cs);
  }

  /** Corners given group by group are what ReadCorners reads with texture coordinates. */
  lemma {:induction false} ReadCornersAre(id: seq<int>, typeCount: nat, cs: seq<Corner>)
    requires forall k :: 0 <= k < |cs| ==> k * typeCount + 2 < |id|
    requires forall k :: 0 <= k < |cs| ==>
      cs[k] == Corner(id[k * typeCount], id[k * typeCount + 1], id[k * typeCount + 2])
    ensures ReadCorners(id, typeCount, true, |cs|) == Some(cs)
  {
    if cs != [] {
      ReadCornersAre(id, typeCount, cs[..|cs| - 1]);
      assert cs == cs[..|cs| - 1] + [cs[|cs| - 1]];
    }
  }

  /**
   * A load yields one geometry per mesh, in order, each loaded on its own and named after its
   * own scene node.
   */
  lemma LoadAllShape(meshes: seq<(string, Mesh)>, scene: seq<NodeData>)
    ensures LoadAll(meshes, scene).Some? ==>
      var gs := LoadAll(meshes, scene).value;
      && |gs| == |meshes|
      && forall k :: 0 <= k < |meshes| ==>
        && LoadMesh(meshes[k].0, meshes[k].1, scene) == Some(gs[k])
        && gs[k].name == meshes[k].0
        && FirstNamed(scene, meshes[k].0) == Some(NodeData(gs[k].name, gs[k].transformationMatrix,
                                                           gs[k].materialName))
  {
    var os := seq(|meshes|, k requires 0 <= k < |meshes| => LoadMesh(meshes[k].0, meshes[k].1, scene));
    if Collect(os).Some? {
      var gs := Collect(os).value;
      forall k | 0 <= k < |meshes|
        ensures LoadMesh(meshes[k].0, meshes[k].1, scene) == Some(gs[k])
        ensures gs[k].name == meshes[k].0
        ensures FirstNamed(scene, meshes[k].0) == Some(NodeData(gs[k].name, gs[k].transformationMatrix,
                                                                gs[k].materialName))
      {
        assert os[k] == Some(gs[k]);
        LoadMeshAgrees(meshes[k].0, meshes[k].1, scene);
        Fbx2Pr3Loader.LoadMeshNamed(Fbx2Pr3Loader.Idle, meshes[k].0, meshes[k].1, scene);
      }
    }
  }

  /** A mesh lacking a NORMAL or TEXCOORD input, or a scene node, fails the whole load. */
  lemma LoadAllMissing(meshes: seq<(string, Mesh)>, scene: seq<NodeData>, n: nat)
    requires n < |meshes|
    requires meshes[n].1.normals.None? || meshes[n].1.texCoords.None? || FirstNamed(scene, meshes[n].0).None?
    ensures LoadAll(meshes, scene).None?
  {
    LoadMeshAgrees(meshes[n].0, meshes[n].1, scene);
    Fbx2Pr3Loader.LoadMeshNamed(Fbx2Pr3Loader.Idle, meshes[n].0, meshes[n].1, scene);
    LoadAllFails(meshes, scene, n);
  }

  class GeometryLoader {
    const meshes: seq<(string, Mesh)>
    const sceneData: seq<NodeData>

    constructor (meshes: seq<(string, Mesh)>, sceneData: seq<NodeData>)
      ensures this.meshes == meshes && this.sceneData == sceneData
    {
      this.meshes := meshes;
      this.sceneData := sceneData;
    }

    /** Load: every mesh in order, each from new lists and named after its scene node. */
    method Load() returns (objects: Option<seq<Geometry>>)
      ensures objects == LoadAll(meshes, sceneData)
    {
      var result: seq<Geometry> := [];
      for i := 0 to |meshes|
        invariant |result| == i && LoadedUpTo(meshes, sceneData, result, i)
      {
        var (objectName, mesh) := meshes[i];
        var geometry := LoadOne(objectName, mesh);
        if geometry.None? {
          LoadAllFails(meshes, sceneData, i);
          return None;
        }
        LoadedStep(meshes, sceneData, result, geometry.value);
        result := result + [geometry.value];
      }
      LoadAllLoaded(meshes, sceneData, result);
      return Some(result);
    }

    /** The body of Load's loop for one mesh. */
    method LoadOne(objectName: string, mesh: Mesh) returns (geometry: Option<Geometry>)
      ensures geometry == LoadMesh(objectName, mesh, sceneData)
    {
      var vertices := new VertexList();
      var polyList := new IndexList();
      for k := 0 to |mesh.positions|
        invariant vertices.items == Originals(0, mesh.positions[..k]) && polyList.items == []
      {
        vertices.items := vertices.items + [NewVertex(|vertices.items|, mesh.positions[k])];
      }
      assert mesh.positions[..|mesh.positions|] == mesh.positions;
      if mesh.normals.None? || mesh.texCoords.None? {
        return None;
      }
      var normals := mesh.normals.value;
      var textures := WidenAll(mesh.texCoords.value);
      OriginalsLinked([], mesh.positions);
      assert [] + Originals(0, mesh.positions) == Originals(0, mesh.positions);
      var assembled := AssembleVertices(vertices, polyList, mesh);
      if !assembled {
        return None;
      }
      RemoveUnusedVertices(vertices);
      geometry := ConvertBuffersToGeometry(polyList, vertices, normals, textures);
      if geometry.None? {
        return None;
      }
      var nodeData := FirstNamed(sceneData, objectName);
      if nodeData.None? {
        return None;
      }
      geometry := Some(geometry.value.(name := nodeData.value.objectName,
                                       transformationMatrix := nodeData.value.transformation,
                                       materialName := nodeData.value.materialName));
    }

    /**
     * AssembleVertices: corner `i` is read at offsets 0, 1 and 2 of group `i` and processed,
     * for every whole group. Returns false where the source throws.
     */
    static method AssembleVertices(vertices: VertexList, polyList: IndexList, mesh: Mesh) returns (ok: bool)
      requires Linked(vertices.items)
      modifies vertices, polyList
      ensures Linked(vertices.items)
      ensures ok == Assemble(Welded(old(vertices.items), old(polyList.items)), mesh.indices, mesh.inputCount, true).Some?
      ensures ok ==> Welded(vertices.items, polyList.items) == Assemble(Welded(old(vertices.items), old(polyList.items)), mesh.indices, mesh.inputCount, true).value
    {
      var typeCount := mesh.inputCount;
      var id := mesh.indices;
      if typeCount == 0 {
        return false;
      }
      ghost var start := Welded(vertices.items, polyList.items);
      ghost var cs: seq<Corner> := [];
      for i := 0 to |id| / typeCount
        invariant Linked(vertices.items)
        invariant Welds(start, id, typeCount, true, i, cs, Welded(vertices.items, polyList.items))
      {
        var base := i * typeCount;
        if base + 2 >= |id| {
          ReadFails(start, id, typeCount, true, i);
          return false;
        }
        var posIndex := id[base + 0];
        var normalIndex := id[base + 1];
        var textureIndex := id[base + 2];
        ghost var c := Corner(posIndex, normalIndex, textureIndex);
        WeldsStep(start, id, typeCount, true, i, cs, Welded(vertices.items, polyList.items), c);
        var processed := ProcessVertex(vertices, polyList, posIndex, normalIndex, textureIndex);
        if !processed {
          return false;
        }
        cs := cs + [c];
      }
      WeldsAssemble(start, id, typeCount, true, cs, Welded(vertices.items, polyList.items));
      ok := true;
    }

    /** ProcessVertex: claim the vertex at the position, or walk its duplicates. */
    static method ProcessVertex(vertices: VertexList, polyList: IndexList, posIndex: int, normalIndex: int,
                                textureIndex: int) returns (ok: bool)
      requires Linked(vertices.items)
      modifies vertices, polyList
      ensures Linked(vertices.items)
      ensures ok == Welding.ProcessVertex(old(vertices.items), Corner(posIndex, normalIndex, textureIndex)).Some?
      ensures ok ==>
        var step := Welding.ProcessVertex(old(vertices.items), Corner(posIndex, normalIndex, textureIndex)).value;
        vertices.items == step.0 && polyList.items == old(polyList.items) + [step.1]
    {
      if !(0 <= posIndex < |vertices.items|) {
        return false;
      }
      var currentVertex := vertices.items[posIndex];
      if !currentVertex.IsSet() {
        vertices.items := vertices.items[posIndex := currentVertex.(normalIndex := normalIndex, textureIndex := textureIndex)];
        polyList.items := polyList.items + [posIndex];
      } else {
        HandleAlreadyProcessedVertex(vertices, polyList, posIndex, normalIndex, textureIndex);
      }
      return true;
    }

    /**
     * HandleAlreadyProcessedVertex: follow the duplicates from `previousVertex` to one carrying
     * the pair, or append a duplicate after the last one. The source's tail recursion on the
     * duplicate is written as a loop.
     */
    static method HandleAlreadyProcessedVertex(vertices: VertexList, polyList: IndexList, previousVertex: nat,
                                               newNormalIndex: int, newTextureIndex: int)
      requires Linked(vertices.items) && previousVertex < |vertices.items|
      modifies vertices, polyList
      ensures Linked(vertices.items)
      ensures var r := Handle(old(vertices.items), previousVertex, newNormalIndex, newTextureIndex);
        vertices.items == r.0 && polyList.items == old(polyList.items) + [r.1]
    {
      var vs := vertices.items;
      var current := previousVertex;
      while !vs[current].HasSameInformation(newNormalIndex, newTextureIndex) && vs[current].duplicate.Some?
        invariant current < |vs|
        invariant Handle(vs, current, newNormalIndex, newTextureIndex)
          == Handle(vs, previousVertex, newNormalIndex, newTextureIndex)
        decreases |vs| - current
      {
        current := vs[current].duplicate.value;
      }
      if vs[current].HasSameInformation(newNormalIndex, newTextureIndex) {
        polyList.items := polyList.items + [vs[current].index];
        return;
      }
      var duplicateVertex := NewVertex(|vs|, vs[current].position)
        .(normalIndex := newNormalIndex, textureIndex := newTextureIndex);
      vertices.items := vs[current := vs[current].(duplicate := Some(|vs|))] + [duplicateVertex];
      polyList.items := polyList.items + [duplicateVertex.index];
    }

    /** RemoveUnusedVertices: every vertex no corner claimed gets attribute indices 0. */
    static method RemoveUnusedVertices(vertices: VertexList)
      modifies vertices
      ensures vertices.items == RemoveUnused(old(vertices.items))
    {
      for i := 0 to |vertices.items|
        invariant |vertices.items| == |old(vertices.items)|
        invariant forall k :: 0 <= k < i ==> vertices.items[k] == Cleared(old(vertices.items)[k])
        invariant forall k :: i <= k < |vertices.items| ==> vertices.items[k] == old(vertices.items)[k]
      {
        if !vertices.items[i].IsSet() {
          vertices.items := vertices.items[i := vertices.items[i].(normalIndex := 0, textureIndex := 0)];
        }
      }
    }

    /**
     * ConvertBuffersToGeometry: entry `i` of the three arrays holds vertex `i`'s position, its
     * normal and its texture coordinate. Fails where an attribute index is out of range.
     */
    static method ConvertBuffersToGeometry(polyList: IndexList, vertices: VertexList, normals: seq<Vector3>,
                                           textures: seq<Vector3>) returns (geometry: Option<Geometry>)
      ensures geometry == match ConvertBuffers(vertices.items, Some(normals), Some(textures))
        case None => None
        case Some(b) => Some(Fbx2Pr3Loader.Unnamed(b, polyList.items))
    {
      var vs := vertices.items;
      var verticesArray := new Vector3[|vs|];
      var normalsArray := new Vector3[|vs|];
      var texturesArray := new Vector3[|vs|];
      for i := 0 to |vs|
        invariant Filled(vs, i, Some(normals), Some(textures), verticesArray[..], normalsArray[..])
        invariant FilledTextures(vs, i, textures, texturesArray[..])
      {
        var currentVertex := vs[i];
        verticesArray[i] := currentVertex.position;
        if !(0 <= currentVertex.normalIndex < |normals|) {
          return None;
        }
        normalsArray[i] := normals[currentVertex.normalIndex];
        if !(0 <= currentVertex.textureIndex < |textures|) {
          return None;
        }
        texturesArray[i] := textures[currentVertex.textureIndex];
      }
      FilledConverts(vs, Some(normals), Some(textures), verticesArray[..], normalsArray[..], Some(texturesArray[..]));
      return Some(Geometry("", verticesArray[..], normalsArray[..], Some(texturesArray[..]), polyList.items, [], ""));
    }
  }
}
