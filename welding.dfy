/**
 * The vertex welding that both geometry loaders perform, as functions over the vertex list.
 *
 * A triangle list names, per corner, a position, a normal and a texture coordinate by index.
 * The loaders create one vertex per position; the first corner at a position claims that
 * vertex, and a later corner with other attributes reuses or appends a duplicate of it, so that
 * every emitted index names one vertex carrying one position with one attribute pair.
 * The loaders' methods are proved against these functions.
 */
module Welding {
  import opened Wrappers
  import opened Vertices

  /** One triangle corner read from the index stream. */
  datatype Corner = Corner(position: int, normal: int, texture: int)

  /** The loader's working state: the vertex list and the emitted index list. */
  datatype Welded<P> = Welded(vertices: seq<Vertex<P>>, polyList: seq<int>)

  /** The three parallel arrays built from the welded vertices. */
  datatype Buffers<P> = Buffers(vertices: seq<P>, normals: seq<P>, uvs: Option<seq<P>>)

  /** Every duplicate link names a later vertex of the list. */
  predicate Linked<P>(vs: seq<Vertex<P>>) {
    forall i :: 0 <= i < |vs| && vs[i].duplicate.Some? ==> i < vs[i].duplicate.value < |vs|
  }

  /** The vertices reached from vertex `i` by following duplicate links, `i` first. */
  function Chain<P>(vs: seq<Vertex<P>>, i: nat): (c: seq<nat>)
    requires Linked(vs) && i < |vs|
    ensures 0 < |c| && c[0] == i
    ensures forall k :: 0 <= k < |c| ==> c[k] < |vs|
    ensures forall k :: 0 <= k < |c| - 1 ==> vs[c[k]].duplicate == Some(c[k + 1])
    ensures vs[c[|c| - 1]].duplicate == None
    decreases |vs| - i
  {
    match vs[i].duplicate
    case None => [i]
    case Some(j) => [i] + Chain(vs, j)
  }

  /** The last vertex of the chain from `i`: the one a new duplicate is linked from. */
  function Tail<P>(vs: seq<Vertex<P>>, i: nat): nat
    requires Linked(vs) && i < |vs|
  {
    var c := Chain(vs, i);
    c[|c| - 1]
  }

  /**
   * The first vertex on the chain from `i` carrying the attribute pair (normal, texture): an
   * independent statement of what the chain walk searches for.
   */
  function Find<P>(vs: seq<Vertex<P>>, i: nat, normal: int, texture: int): (r: Option<nat>)
    requires Linked(vs) && i < |vs|
    ensures r.Some? ==> r.value in Chain(vs, i) && vs[r.value].HasSameInformation(normal, texture)
    ensures r.None? ==> forall k :: k in Chain(vs, i) ==> !vs[k].HasSameInformation(normal, texture)
    decreases |vs| - i
  {
    if vs[i].HasSameInformation(normal, texture) then Some(i)
    else match vs[i].duplicate
      case None => None
      case Some(j) => Find(vs, j, normal, texture)
  }

  /**
   * `vs` with a new vertex appended that copies the position of vertex `tail` and carries
   * (normal, texture), and with `tail` linked to it.
   */
  function AppendDuplicate<P>(vs: seq<Vertex<P>>, tail: nat, normal: int, texture: int)
    : (r: seq<Vertex<P>>)
    requires tail < |vs|
    ensures |r| == |vs| + 1
    ensures forall k :: 0 <= k < |vs| && k != tail ==> r[k] == vs[k]
    ensures r[tail] == vs[tail].(duplicate := Some(|vs|))
    ensures r[|vs|].index == |vs| && r[|vs|].position == vs[tail].position
    ensures r[|vs|].HasSameInformation(normal, texture) && r[|vs|].duplicate == None
    ensures Linked(vs) && vs[tail].duplicate == None ==> Linked(r)
  {
    var duplicate := NewVertex(|vs|, vs[tail].position).(normalIndex := normal, textureIndex := texture);
    vs[tail := vs[tail].(duplicate := Some(|vs|))] + [duplicate]
  }

  /**
   * HandleAlreadyProcessedVertex: walk the chain from vertex `i`; emit the index of the first
   * vertex carrying (normal, texture), or append a duplicate after the chain's last vertex and
   * emit its index. Returns the new vertex list and the emitted index.
   */
  function Handle<P>(vs: seq<Vertex<P>>, i: nat, normal: int, texture: int)
    : (r: (seq<Vertex<P>>, int))
    requires Linked(vs) && i < |vs|
    ensures Linked(r.0)
    ensures |vs| <= |r.0| <= |vs| + 1
    decreases |vs| - i
  {
    if vs[i].HasSameInformation(normal, texture) then (vs, vs[i].index)
    else match vs[i].duplicate
      case Some(j) => Handle(vs, j, normal, texture)
      case None => (AppendDuplicate(vs, i, normal, texture), |vs|)
  }

  /**
   * ProcessVertex: the vertex at the corner's position is claimed when unset, and otherwise
   * handed to the chain walk. A position outside the list is an indexing failure.
   */
  function ProcessVertex<P>(vs: seq<Vertex<P>>, c: Corner): (r: Option<(seq<Vertex<P>>, int)>)
    requires Linked(vs)
    ensures r.Some? <==> 0 <= c.position < |vs|
    ensures r.Some? ==> Linked(r.value.0)
    ensures r.Some? ==> |vs| <= |r.value.0| <= |vs| + 1
  {
    if !(0 <= c.position < |vs|) then None
    else if !vs[c.position].IsSet() then
      var claimed := vs[c.position].(normalIndex := c.normal, textureIndex := c.texture);
      Some((vs[c.position := claimed], c.position))
    else Some(Handle(vs, c.position, c.normal, c.texture))
  }

  /** The state after processing the corners `cs` in order, or None if one of them fails. */
  function Weld<P>(w: Welded<P>, cs: seq<Corner>): (r: Option<Welded<P>>)
    requires Linked(w.vertices)
    ensures r.Some? ==> Linked(r.value.vertices)
    ensures r.Some? ==> |r.value.polyList| == |w.polyList| + |cs|
    ensures r.Some? ==> r.value.polyList[..|w.polyList|] == w.polyList
    ensures r.Some? ==> |w.vertices| <= |r.value.vertices| <= |w.vertices| + |cs|
    decreases |cs|
  {
    if cs == [] then Some(w)
    else match Weld(w, cs[..|cs| - 1])
      case None => None
      case Some(before) =>
        match ProcessVertex(before.vertices, cs[|cs| - 1])
        case None => None
        case Some(step) => Some(Welded(step.0, before.polyList + [step.1]))
  }

  /**
   * Corner `k` of the index stream `id`, whose groups have `typeCount` entries: the position at
   * offset 0, the normal at offset 1 and, when the mesh has texture coordinates, the texture at
   * offset 2 (NoIndex otherwise). A read past the end of the stream fails.
   */
  function ReadCorner(id: seq<int>, typeCount: nat, withTexture: bool, k: nat): Option<Corner> {
    var base := k * typeCount;
    if base + 1 < |id| && (!withTexture || base + 2 < |id|) then
      Some(Corner(id[base], id[base + 1], if withTexture then id[base + 2] else NoIndex))
    else None
  }

  /** The first `count` corners of the stream, or None if one of them cannot be read. */
  function ReadCorners(id: seq<int>, typeCount: nat, withTexture: bool, count: nat)
    : (r: Option<seq<Corner>>)
    ensures r.Some? <==> forall k :: 0 <= k < count ==> ReadCorner(id, typeCount, withTexture, k).Some?
    ensures r.Some? ==> |r.value| == count
    ensures r.Some? ==>
      forall k :: 0 <= k < count ==> ReadCorner(id, typeCount, withTexture, k) == Some(r.value[k])
  {
    if count == 0 then Some([])
    else match ReadCorners(id, typeCount, withTexture, count - 1)
      case None => None
      case Some(cs) =>
        match ReadCorner(id, typeCount, withTexture, count - 1)
        case None => None
        case Some(c) => Some(cs + [c])
  }

  /**
   * AssembleVertices: the stream holds `|id| / typeCount` corners (a trailing incomplete group
   * is not read), each processed in order. A stream without inputs divides by zero.
   */
  function Assemble<P>(w: Welded<P>, id: seq<int>, typeCount: nat, withTexture: bool)
    : (r: Option<Welded<P>>)
    requires Linked(w.vertices)
    ensures r.Some? ==> Linked(r.value.vertices)
  {
    if typeCount == 0 then None
    else match ReadCorners(id, typeCount, withTexture, |id| / typeCount)
      case None => None
      case Some(cs) => Weld(w, cs)
  }

  /** A vertex as RemoveUnusedVertices leaves it: an unset vertex gets attribute indices 0. */
  function Cleared<P>(v: Vertex<P>): Vertex<P> {
    if v.IsSet() then v else v.(normalIndex := 0, textureIndex := 0)
  }

  /** RemoveUnusedVertices over the whole list. */
  function RemoveUnused<P>(vs: seq<Vertex<P>>): (r: seq<Vertex<P>>)
    ensures |r| == |vs|
    ensures forall i :: 0 <= i < |vs| ==> r[i].IsSet()
    ensures forall i :: 0 <= i < |vs| && vs[i].IsSet() ==> r[i] == vs[i]
    ensures forall i :: 0 <= i < |vs| && !vs[i].IsSet() ==>
      r[i] == vs[i].(normalIndex := 0, textureIndex := 0)
  {
    if vs == [] then [] else RemoveUnused(vs[..|vs| - 1]) + [Cleared(vs[|vs| - 1])]
  }

  /** Whether ConvertBuffersToGeometry can look up the attributes of vertex `v`. */
  predicate Resolves<P>(v: Vertex<P>, normals: Option<seq<P>>, textures: Option<seq<P>>) {
    && normals.Some? && 0 <= v.normalIndex < |normals.value|
    && (textures.Some? ==> 0 <= v.textureIndex < |textures.value|)
  }

  /**
   * ConvertBuffersToGeometry: entry `i` of each array comes from vertex `i`. The normal list is
   * read for every vertex, so a missing one fails on a non-empty list; the texture array exists
   * only when there are texture coordinates.
   */
  function ConvertBuffers<P>(vs: seq<Vertex<P>>, normals: Option<seq<P>>, textures: Option<seq<P>>)
    : (r: Option<Buffers<P>>)
    ensures r.Some? <==> forall i :: 0 <= i < |vs| ==> Resolves(vs[i], normals, textures)
    ensures r.Some? ==>
      && |r.value.vertices| == |vs| && |r.value.normals| == |vs|
      && (r.value.uvs.Some? <==> textures.Some?)
      && (r.value.uvs.Some? ==> |r.value.uvs.value| == |vs|)
      && forall i :: 0 <= i < |vs| ==>
        && r.value.vertices[i] == vs[i].position
        && r.value.normals[i] == normals.value[vs[i].normalIndex]
        && (textures.Some? ==> r.value.uvs.value[i] == textures.value[vs[i].textureIndex])
  {
    if vs == [] then Some(Buffers([], [], if textures.Some? then Some([]) else None))
    else match ConvertBuffers(vs[..|vs| - 1], normals, textures)
      case None => None
      case Some(b) =>
        var v := vs[|vs| - 1];
        if !Resolves(v, normals, textures) then None
        else
          var uvs := if textures.Some? then Some(b.uvs.value + [textures.value[v.textureIndex]]) else None;
          Some(Buffers(b.vertices + [v.position], b.normals + [normals.value[v.normalIndex]], uvs))
  }

  /** The first `n` entries of the vertex and normal arrays hold the first `n` vertices' data. */
  ghost predicate Filled<P>(vs: seq<Vertex<P>>, n: nat, normals: Option<seq<P>>,
                   textures: Option<seq<P>>, va: seq<P>, na: seq<P>)
  {
    && n <= |vs| && n <= |va| && n <= |na|
    && forall k :: 0 <= k < n ==>
      && Resolves(vs[k], normals, textures)
      && va[k] == vs[k].position
      && na[k] == normals.value[vs[k].normalIndex]
  }

  /** The first `n` entries of the texture array hold the first `n` vertices' coordinates. */
  ghost predicate FilledTextures<P>(vs: seq<Vertex<P>>, n: nat, textures: seq<P>, ta: seq<P>) {
    && n <= |vs| && n <= |ta|
    && forall k :: 0 <= k < n ==> 0 <= vs[k].textureIndex < |textures| && ta[k] == textures[vs[k].textureIndex]
  }

  /** Arrays filled for every vertex are the buffers ConvertBuffers describes. */
  lemma FilledConverts<P>(vs: seq<Vertex<P>>, normals: Option<seq<P>>, textures: Option<seq<P>>,
                       va: seq<P>, na: seq<P>, ta: Option<seq<P>>)
    requires Filled(vs, |vs|, normals, textures, va, na)
    requires |va| == |na| == |vs| && (ta.Some? <==> textures.Some?)
    requires ta.Some? ==> |ta.value| == |vs| && FilledTextures(vs, |vs|, textures.value, ta.value)
    ensures ConvertBuffers(vs, normals, textures) == Some(Buffers(va, na, ta))
  {
    var c := ConvertBuffers(vs, normals, textures);
    assert c.Some?;
    assert c.value.vertices == va;
    assert c.value.normals == na;
    if ta.Some? {
      assert c.value.uvs.value == ta.value;
    }
  }

  /** The source positions as fresh vertices, numbered from `start` (the list's length before). */
  function Originals<P>(start: nat, positions: seq<P>): seq<Vertex<P>> {
    seq(|positions|, k requires 0 <= k < |positions| => NewVertex(start + k, positions[k]))
  }

  /** The first `count` corners of the stream read as `cs` and welded from `w` into `w'`. */
  ghost predicate Welds<P>(w: Welded<P>, id: seq<int>, typeCount: nat, withTexture: bool, count: nat,
                     cs: seq<Corner>, w': Welded<P>)
    requires Linked(w.vertices)
  {
    ReadCorners(id, typeCount, withTexture, count) == Some(cs) && Weld(w, cs) == Some(w')
  }

  /** Welding every whole group of the stream is what Assemble describes. */
  lemma WeldsAssemble<P>(w: Welded<P>, id: seq<int>, typeCount: nat, withTexture: bool,
                         cs: seq<Corner>, w': Welded<P>)
    requires Linked(w.vertices) && typeCount > 0
    requires Welds(w, id, typeCount, withTexture, |id| / typeCount, cs, w')
    ensures Assemble(w, id, typeCount, withTexture) == Some(w')
  {
  }

  /** A group that cannot be read fails the whole stream. */
  lemma ReadFails<P>(w: Welded<P>, id: seq<int>, typeCount: nat, withTexture: bool, k: nat)
    requires Linked(w.vertices) && typeCount > 0 && k < |id| / typeCount
    requires ReadCorner(id, typeCount, withTexture, k).None?
    ensures Assemble(w, id, typeCount, withTexture).None?
  {
  }

  /** One more corner read and processed extends the welding by one step. */
  lemma WeldsStep<P>(w: Welded<P>, id: seq<int>, typeCount: nat, withTexture: bool, count: nat,
                     cs: seq<Corner>, w': Welded<P>, c: Corner)
    requires Linked(w.vertices) && typeCount > 0 && Welds(w, id, typeCount, withTexture, count, cs, w')
    requires ReadCorner(id, typeCount, withTexture, count) == Some(c)
    ensures ProcessVertex(w'.vertices, c).Some? ==>
      var step := ProcessVertex(w'.vertices, c).value;
      Welds(w, id, typeCount, withTexture, count + 1, cs + [c], Welded(step.0, w'.polyList + [step.1]))
    ensures ProcessVertex(w'.vertices, c).None? && count < |id| / typeCount ==>
      Assemble(w, id, typeCount, withTexture).None?
  {
    assert (cs + [c])[..|cs|] == cs;
    if ProcessVertex(w'.vertices, c).None? && count < |id| / typeCount {
      var all := ReadCorners(id, typeCount, withTexture, |id| / typeCount);
      if all.Some? {
        assert all.value == (cs + [c]) + all.value[count + 1..];
        WeldFailsOnward(w, cs + [c], all.value[count + 1..]);
      }
    }
  }

  /** Fresh vertices appended to a list keep its links. */
  lemma OriginalsLinked<P>(vs: seq<Vertex<P>>, positions: seq<P>)
    requires Linked(vs)
    ensures Linked(vs + Originals(|vs|, positions))
  {
  }

  // ---------------------------------------------------------------------------------------------
  // The shape of the vertex list

  /** Each vertex records its own place in the list (the source's `Index`). */
  predicate Indexed<P>(vs: seq<Vertex<P>>) {
    forall i :: 0 <= i < |vs| ==> vs[i].index == i
  }

  /** No attribute pair occurs twice among the vertices listed in `c`. */
  predicate DistinctPairs<P>(vs: seq<Vertex<P>>, c: seq<nat>) {
    forall a, b :: 0 <= a < b < |c| && c[a] < |vs| && c[b] < |vs| ==>
      !vs[c[a]].HasSameInformation(vs[c[b]].normalIndex, vs[c[b]].textureIndex)
  }

  /** Links lead to duplicates (past the originals) that carry the linking vertex's position. */
  ghost predicate LinksToDuplicates<P>(vs: seq<Vertex<P>>, originals: nat)
    requires Linked(vs)
  {
    forall i :: 0 <= i < |vs| && vs[i].duplicate.Some? ==>
      originals <= vs[i].duplicate.value && vs[vs[i].duplicate.value].position == vs[i].position
  }

  /** An original that is still unset has no duplicate. */
  predicate UnsetOriginalsAlone<P>(vs: seq<Vertex<P>>, originals: nat)
    requires originals <= |vs|
  {
    forall p :: 0 <= p < originals && !vs[p].IsSet() ==> vs[p].duplicate == None
  }

  /** Distinct originals have chains ending at distinct vertices. */
  predicate SeparateChains<P>(vs: seq<Vertex<P>>, originals: nat)
    requires Linked(vs) && originals <= |vs|
  {
    forall p, q :: 0 <= p < q < originals ==> Tail(vs, p) != Tail(vs, q)
  }

  /** No chain of an original carries an attribute pair twice. */
  predicate DistinctChains<P>(vs: seq<Vertex<P>>, originals: nat)
    requires Linked(vs) && originals <= |vs|
  {
    forall p :: 0 <= p < originals ==> DistinctPairs(vs, Chain(vs, p))
  }

  /**
   * The shape the welding keeps, for a list whose first `originals` vertices stand for the
   * source positions.
   */
  ghost predicate Arena<P>(vs: seq<Vertex<P>>, originals: nat) {
    && originals <= |vs| && Linked(vs) && Indexed(vs) && LinksToDuplicates(vs, originals)
    && UnsetOriginalsAlone(vs, originals) && SeparateChains(vs, originals)
    && DistinctChains(vs, originals)
  }

  /**
   * What a later step may change in a vertex list: it may append, but no vertex changes its
   * index or position, and a set vertex keeps its attribute pair.
   */
  ghost predicate Stable<P>(vs: seq<Vertex<P>>, vs': seq<Vertex<P>>) {
    && |vs| <= |vs'|
    && forall i :: 0 <= i < |vs| ==>
      && vs'[i].index == vs[i].index && vs'[i].position == vs[i].position
      && (vs[i].IsSet() ==> vs'[i].normalIndex == vs[i].normalIndex && vs'[i].textureIndex == vs[i].textureIndex)
  }

  /**
   * Slot `slot` of the emitted index list names a vertex at position `position` which, when
   * the corner has a normal, carries the corner's attribute pair.
   */
  ghost predicate Emits<P>(w: Welded<P>, slot: nat, position: P, c: Corner) {
    && slot < |w.polyList| && 0 <= w.polyList[slot] < |w.vertices|
    && w.vertices[w.polyList[slot]].position == position
    && (c.normal != NoIndex ==> w.vertices[w.polyList[slot]].HasSameInformation(c.normal, c.texture))
  }

  // ---------------------------------------------------------------------------------------------
  // Chains

  /** A chain visits strictly increasing indices, so it never returns to a vertex. */
  lemma {:induction false} ChainIncreasing<P>(vs: seq<Vertex<P>>, i: nat)
    requires Linked(vs) && i < |vs|
    ensures forall a, b :: 0 <= a < b < |Chain(vs, i)| ==> Chain(vs, i)[a] < Chain(vs, i)[b]
    decreases |vs| - i
  {
    match vs[i].duplicate
    case None =>
    case Some(j) =>
      ChainIncreasing(vs, j);
      assert Chain(vs, i) == [i] + Chain(vs, j);
  }

  /** A chain ends at the one vertex on it that has no duplicate. */
  lemma TailOfMember<P>(vs: seq<Vertex<P>>, i: nat, k: nat)
    requires Linked(vs) && i < |vs| && k in Chain(vs, i) && vs[k].duplicate == None
    ensures Tail(vs, i) == k
  {
    var c := Chain(vs, i);
    var m :| 0 <= m < |c| && c[m] == k;
    forall j | 0 <= j < |c| - 1
      ensures vs[c[j]].duplicate.Some?
    {
      assert vs[c[j]].duplicate == Some(c[j + 1]);
    }
  }

  /** Changing anything but the links leaves every chain as it was. */
  lemma {:induction false} ChainSameLinks<P>(vs: seq<Vertex<P>>, vs': seq<Vertex<P>>, i: nat)
    requires Linked(vs) && i < |vs| && |vs'| == |vs|
    requires forall k :: 0 <= k < |vs| ==> vs'[k].duplicate == vs[k].duplicate
    ensures Linked(vs') && Chain(vs', i) == Chain(vs, i)
    decreases |vs| - i
  {
    match vs[i].duplicate
    case None =>
    case Some(j) => ChainSameLinks(vs, vs', j);
  }

  /** Appending a duplicate after `tail` extends exactly the chains that end at `tail`. */
  lemma {:induction false} ChainAfterAppend<P>(vs: seq<Vertex<P>>, tail: nat, normal: int, texture: int, i: nat)
    requires Linked(vs) && tail < |vs| && vs[tail].duplicate == None && i < |vs|
    ensures Chain(AppendDuplicate(vs, tail, normal, texture), i) ==
      if tail in Chain(vs, i) then Chain(vs, i) + [|vs|] else Chain(vs, i)
    decreases |vs| - i
  {
    var r := AppendDuplicate(vs, tail, normal, texture);
    if i == tail {
      assert Chain(r, |vs|) == [|vs|];
    } else {
      match vs[i].duplicate
      case None =>
      case Some(j) =>
        ChainAfterAppend(vs, tail, normal, texture, j);
        assert Chain(vs, i) == [i] + Chain(vs, j);
    }
  }

  /** Every vertex on a chain carries the position of the chain's first vertex. */
  lemma {:induction false} ChainPositions<P>(vs: seq<Vertex<P>>, originals: nat, i: nat)
    requires Arena(vs, originals) && i < |vs|
    ensures forall k :: k in Chain(vs, i) ==> vs[k].position == vs[i].position
    decreases |vs| - i
  {
    match vs[i].duplicate
    case None =>
    case Some(j) =>
      ChainPositions(vs, originals, j);
      assert Chain(vs, i) == [i] + Chain(vs, j);
  }

  /** Only the first vertex of a chain can be an original. */
  lemma ChainPastOriginals<P>(vs: seq<Vertex<P>>, originals: nat, i: nat)
    requires Arena(vs, originals) && i < |vs|
    ensures forall k :: 0 < k < |Chain(vs, i)| ==> originals <= Chain(vs, i)[k]
  {
    var c := Chain(vs, i);
    forall k | 0 < k < |c|
      ensures originals <= c[k]
    {
      assert vs[c[k - 1]].duplicate == Some(c[k]);
    }
  }

  // ---------------------------------------------------------------------------------------------
  // The chain walk

  /**
   * The walk emits the vertex Find names, leaving the list alone, and appends a duplicate
   * after the chain's last vertex exactly when no vertex on the chain carries the pair.
   */
  lemma {:induction false} HandleFinds<P>(vs: seq<Vertex<P>>, i: nat, normal: int, texture: int)
    requires Linked(vs) && i < |vs|
    ensures Find(vs, i, normal, texture).Some? ==>
      Handle(vs, i, normal, texture) == (vs, vs[Find(vs, i, normal, texture).value].index)
    ensures Find(vs, i, normal, texture).None? ==>
      Handle(vs, i, normal, texture) == (AppendDuplicate(vs, Tail(vs, i), normal, texture), |vs|)
    decreases |vs| - i
  {
    if !vs[i].HasSameInformation(normal, texture) && vs[i].duplicate.Some? {
      var j := vs[i].duplicate.value;
      HandleFinds(vs, j, normal, texture);
      assert Chain(vs, i) == [i] + Chain(vs, j);
    }
  }

  // ---------------------------------------------------------------------------------------------
  // The shape is kept

  /** Fresh vertices for the source positions have the shape welding keeps. */
  lemma OriginalsArena<P>(positions: seq<P>)
    ensures Arena(Originals(0, positions), |positions|)
  {
    var vs := Originals(0, positions);
    forall p | 0 <= p < |vs|
      ensures Chain(vs, p) == [p]
    {
    }
  }

  /** Pairs that did not change keep a list of vertices free of repeated pairs. */
  lemma DistinctPairsSame<P>(vs: seq<Vertex<P>>, vs': seq<Vertex<P>>, c: seq<nat>)
    requires forall k :: 0 <= k < |c| ==> c[k] < |vs| && c[k] < |vs'|
    requires forall k :: 0 <= k < |c| ==>
      vs'[c[k]].normalIndex == vs[c[k]].normalIndex && vs'[c[k]].textureIndex == vs[c[k]].textureIndex
    requires DistinctPairs(vs, c)
    ensures DistinctPairs(vs', c)
  {
  }

  /** Claiming an unset original keeps the shape. */
  lemma ClaimArena<P>(vs: seq<Vertex<P>>, originals: nat, p: nat, normal: int, texture: int)
    requires Arena(vs, originals) && p < originals && !vs[p].IsSet()
    ensures Arena(vs[p := vs[p].(normalIndex := normal, textureIndex := texture)], originals)
  {
    var r := vs[p := vs[p].(normalIndex := normal, textureIndex := texture)];
    assert Linked(r);
    forall q | 0 <= q < |vs|
      ensures Chain(r, q) == Chain(vs, q)
    {
      ChainSameLinks(vs, r, q);
    }
    assert Indexed(r);
    assert LinksToDuplicates(r, originals);
    assert UnsetOriginalsAlone(r, originals);
    assert SeparateChains(r, originals) by {
      forall q | 0 <= q < originals
        ensures Tail(r, q) == Tail(vs, q)
      {
      }
    }
    assert DistinctChains(r, originals) by {
      forall q | 0 <= q < originals
        ensures DistinctPairs(r, Chain(r, q))
      {
        var c := Chain(vs, q);
        if q == p {
          assert c == [p];
        } else {
          ChainPastOriginals(vs, originals, q);
          assert forall k :: 0 <= k < |c| ==> c[k] != p;
          DistinctPairsSame(vs, r, c);
        }
      }
    }
  }

  /** After a duplicate is appended to the chain of original `p`, only that chain has grown. */
  lemma AppendChains<P>(vs: seq<Vertex<P>>, originals: nat, p: nat, normal: int, texture: int, q: nat)
    requires Linked(vs) && originals <= |vs| && SeparateChains(vs, originals)
    requires p < originals && q < originals
    ensures Linked(AppendDuplicate(vs, Tail(vs, p), normal, texture))
    ensures Chain(AppendDuplicate(vs, Tail(vs, p), normal, texture), q) ==
      if q == p then Chain(vs, q) + [|vs|] else Chain(vs, q)
  {
    var tail := Tail(vs, p);
    ChainAfterAppend(vs, tail, normal, texture, q);
    if q != p && tail in Chain(vs, q) {
      TailOfMember(vs, q, tail);
      assert false;
    }
  }

  /** The grown chain stays free of repeated pairs when it lacked the appended pair. */
  lemma AppendDistinct<P>(vs: seq<Vertex<P>>, originals: nat, p: nat, normal: int, texture: int, q: nat)
    requires Linked(vs) && originals <= |vs| && SeparateChains(vs, originals)
    requires p < originals && q < originals && DistinctPairs(vs, Chain(vs, q))
    requires Find(vs, p, normal, texture).None?
    ensures Linked(AppendDuplicate(vs, Tail(vs, p), normal, texture))
    ensures DistinctPairs(AppendDuplicate(vs, Tail(vs, p), normal, texture),
                          Chain(AppendDuplicate(vs, Tail(vs, p), normal, texture), q))
  {
    var r := AppendDuplicate(vs, Tail(vs, p), normal, texture);
    var c := Chain(vs, q);
    AppendChains(vs, originals, p, normal, texture, q);
    AppendKeepsDistinct(vs, Tail(vs, p), normal, texture, c);
    if q == p {
      assert forall k :: 0 <= k < |c| ==> !r[c[k]].HasSameInformation(normal, texture);
      DistinctPairsExtend(r, c, |vs|);
    }
  }

  /** Appending a duplicate changes no pair, so a list of old indices keeps its pairs distinct. */
  lemma AppendKeepsDistinct<P>(vs: seq<Vertex<P>>, tail: nat, normal: int, texture: int, c: seq<nat>)
    requires tail < |vs| && forall k :: 0 <= k < |c| ==> c[k] < |vs|
    requires DistinctPairs(vs, c)
    ensures DistinctPairs(AppendDuplicate(vs, tail, normal, texture), c)
  {
    DistinctPairsSame(vs, AppendDuplicate(vs, tail, normal, texture), c);
  }

  /** A chain free of repeated pairs stays so when it gains a vertex whose pair none of it has. */
  lemma DistinctPairsExtend<P>(vs: seq<Vertex<P>>, c: seq<nat>, n: nat)
    requires DistinctPairs(vs, c) && n < |vs| && forall k :: 0 <= k < |c| ==> c[k] < |vs|
    requires forall k :: 0 <= k < |c| ==> !vs[c[k]].HasSameInformation(vs[n].normalIndex, vs[n].textureIndex)
    ensures DistinctPairs(vs, c + [n])
  {
    var c' := c + [n];
    forall a, b | 0 <= a < b < |c'| && c'[a] < |vs| && c'[b] < |vs|
      ensures !vs[c'[a]].HasSameInformation(vs[c'[b]].normalIndex, vs[c'[b]].textureIndex)
    {
      if b == |c| {
        assert c'[a] == c[a];
      } else {
        assert c'[a] == c[a] && c'[b] == c[b];
      }
    }
  }

  /** Appending a duplicate keeps the indices, the forward links and the unset originals alone. */
  lemma AppendLinks<P>(vs: seq<Vertex<P>>, originals: nat, p: nat, normal: int, texture: int)
    requires Arena(vs, originals) && p < originals && vs[p].IsSet()
    ensures Linked(AppendDuplicate(vs, Tail(vs, p), normal, texture))
    ensures Indexed(AppendDuplicate(vs, Tail(vs, p), normal, texture))
    ensures LinksToDuplicates(AppendDuplicate(vs, Tail(vs, p), normal, texture), originals)
    ensures UnsetOriginalsAlone(AppendDuplicate(vs, Tail(vs, p), normal, texture), originals)
  {
    var tail := Tail(vs, p);
    ChainPastOriginals(vs, originals, p);
    assert tail < originals ==> tail == p;
  }

  /** Appending a duplicate keeps the chains of distinct originals apart. */
  lemma AppendSeparate<P>(vs: seq<Vertex<P>>, originals: nat, p: nat, normal: int, texture: int)
    requires Linked(vs) && originals <= |vs| && SeparateChains(vs, originals) && p < originals
    ensures Linked(AppendDuplicate(vs, Tail(vs, p), normal, texture))
    ensures SeparateChains(AppendDuplicate(vs, Tail(vs, p), normal, texture), originals)
  {
    var r := AppendDuplicate(vs, Tail(vs, p), normal, texture);
    forall q | 0 <= q < originals
      ensures Tail(r, q) == if q == p then |vs| else Tail(vs, q)
    {
      AppendChains(vs, originals, p, normal, texture, q);
    }
  }

  /** Appending a pair missing from the chain keeps every chain free of repeated pairs. */
  lemma AppendDistinctChains<P>(vs: seq<Vertex<P>>, originals: nat, p: nat, normal: int, texture: int)
    requires Linked(vs) && originals <= |vs| && SeparateChains(vs, originals)
    requires DistinctChains(vs, originals) && p < originals
    requires Find(vs, p, normal, texture).None?
    ensures Linked(AppendDuplicate(vs, Tail(vs, p), normal, texture))
    ensures DistinctChains(AppendDuplicate(vs, Tail(vs, p), normal, texture), originals)
  {
    var r := AppendDuplicate(vs, Tail(vs, p), normal, texture);
    forall q | 0 <= q < originals
      ensures DistinctPairs(r, Chain(r, q))
    {
      AppendDistinct(vs, originals, p, normal, texture, q);
    }
  }

  /** Appending a duplicate to the chain of a set original that lacks the pair keeps the shape. */
  lemma AppendArena<P>(vs: seq<Vertex<P>>, originals: nat, p: nat, normal: int, texture: int)
    requires Arena(vs, originals) && p < originals && vs[p].IsSet()
    requires Find(vs, p, normal, texture).None?
    ensures Arena(AppendDuplicate(vs, Tail(vs, p), normal, texture), originals)
  {
    AppendLinks(vs, originals, p, normal, texture);
    AppendSeparate(vs, originals, p, normal, texture);
    AppendDistinctChains(vs, originals, p, normal, texture);
  }

  // ---------------------------------------------------------------------------------------------
  // One corner

  /** Processing a corner at a source position keeps the shape of the vertex list. */
  lemma ProcessVertexArena<P>(vs: seq<Vertex<P>>, originals: nat, c: Corner)
    requires Arena(vs, originals) && 0 <= c.position < originals
    ensures ProcessVertex(vs, c).Some?
    ensures Arena(ProcessVertex(vs, c).value.0, originals)
  {
    if !vs[c.position].IsSet() {
      ClaimArena(vs, originals, c.position, c.normal, c.texture);
    } else {
      HandleFinds(vs, c.position, c.normal, c.texture);
      if Find(vs, c.position, c.normal, c.texture).None? {
        AppendArena(vs, originals, c.position, c.normal, c.texture);
      }
    }
  }

  /** Processing a corner changes no index, no position and no set vertex's pair. */
  lemma ProcessVertexStable<P>(vs: seq<Vertex<P>>, c: Corner)
    requires Linked(vs) && 0 <= c.position < |vs|
    ensures Stable(vs, ProcessVertex(vs, c).value.0)
  {
    if vs[c.position].IsSet() {
      HandleFinds(vs, c.position, c.normal, c.texture);
    }
  }

  /**
   * The index emitted for a corner names a vertex carrying the corner's source position and
   * attribute pair; a new vertex is appended only when the position's chain lacks the pair.
   */
  lemma ProcessVertexEmits<P>(vs: seq<Vertex<P>>, originals: nat, c: Corner)
    requires Arena(vs, originals) && 0 <= c.position < originals
    ensures var (vs', e) := ProcessVertex(vs, c).value;
      && 0 <= e < |vs'| && vs'[e].position == vs[c.position].position
      && vs'[e].HasSameInformation(c.normal, c.texture)
    ensures |ProcessVertex(vs, c).value.0| > |vs| ==>
      vs[c.position].IsSet() && Find(vs, c.position, c.normal, c.texture).None?
  {
    if vs[c.position].IsSet() {
      HandleFinds(vs, c.position, c.normal, c.texture);
      ChainPositions(vs, originals, c.position);
      if Find(vs, c.position, c.normal, c.texture).None? {
        var c' := Chain(vs, c.position);
        assert Tail(vs, c.position) in c';
      }
    }
  }

  /** A slot that named the right vertex still does after a later step. */
  lemma EmitsKept<P>(w: Welded<P>, w': Welded<P>, slot: nat, position: P, c: Corner)
    requires Emits(w, slot, position, c) && Stable(w.vertices, w'.vertices)
    requires |w.polyList| <= |w'.polyList| && w'.polyList[..|w.polyList|] == w.polyList
    ensures Emits(w', slot, position, c)
  {
    assert w'.polyList[slot] == w'.polyList[..|w.polyList|][slot];
  }

  /** Two steps that each keep the vertex list stable keep it stable together. */
  lemma StableTrans<P>(vs: seq<Vertex<P>>, vs': seq<Vertex<P>>, vs'': seq<Vertex<P>>)
    requires Stable(vs, vs') && Stable(vs', vs'')
    ensures Stable(vs, vs'')
  {
  }

  /** Every slot that named the right vertex still does after a later step. */
  lemma EmitsAllKept<P>(w: Welded<P>, w': Welded<P>, base: nat, ps: seq<P>, cs: seq<Corner>)
    requires |ps| == |cs| && Stable(w.vertices, w'.vertices)
    requires |w.polyList| <= |w'.polyList| && w'.polyList[..|w.polyList|] == w.polyList
    requires forall k :: 0 <= k < |cs| ==> Emits(w, base + k, ps[k], cs[k])
    ensures forall k :: 0 <= k < |cs| ==> Emits(w', base + k, ps[k], cs[k])
  {
    forall k | 0 <= k < |cs|
      ensures Emits(w', base + k, ps[k], cs[k])
    {
      EmitsKept(w, w', base + k, ps[k], cs[k]);
    }
  }

  // ---------------------------------------------------------------------------------------------
  // A corner sequence

  /**
   * Welding corners that name source positions never fails and keeps the shape of the vertex
   * list.
   */
  lemma {:induction false} WeldKeeps<P>(w: Welded<P>, cs: seq<Corner>, originals: nat)
    requires Arena(w.vertices, originals)
    requires forall k :: 0 <= k < |cs| ==> 0 <= cs[k].position < originals
    ensures Weld(w, cs).Some?
    ensures Arena(Weld(w, cs).value.vertices, originals)
    ensures Stable(w.vertices, Weld(w, cs).value.vertices)
    decreases |cs|
  {
    if cs != [] {
      var front := cs[..|cs| - 1];
      var c := cs[|cs| - 1];
      WeldKeeps(w, front, originals);
      var before := Weld(w, front).value;
      ProcessVertexArena(before.vertices, originals, c);
      ProcessVertexStable(before.vertices, c);
      var after := Weld(w, cs).value;
      assert after.vertices == ProcessVertex(before.vertices, c).value.0;
      StableTrans(w.vertices, before.vertices, after.vertices);
    }
  }

  /** One more corner keeps the earlier slots and adds a slot for the new corner. */
  lemma {:induction false} EmitsStep<P>(vs: seq<Vertex<P>>, before: Welded<P>, after: Welded<P>, base: nat,
                     cs: seq<Corner>, originals: nat)
    requires cs != [] && 0 <= cs[|cs| - 1].position < originals <= |vs|
    requires Arena(before.vertices, originals) && Stable(vs, before.vertices)
    requires |before.polyList| == base + |cs| - 1
    requires after == Welded(ProcessVertex(before.vertices, cs[|cs| - 1]).value.0,
                             before.polyList + [ProcessVertex(before.vertices, cs[|cs| - 1]).value.1])
    requires forall k :: 0 <= k < |cs| ==> 0 <= cs[k].position < |vs|
    requires forall k :: 0 <= k < |cs| - 1 ==>
      Emits(before, base + k, vs[cs[k].position].position, cs[k])
    ensures forall k :: 0 <= k < |cs| ==> Emits(after, base + k, vs[cs[k].position].position, cs[k])
  {
    var c := cs[|cs| - 1];
    var front := cs[..|cs| - 1];
    ProcessVertexStable(before.vertices, c);
    ProcessVertexEmits(before.vertices, originals, c);
    assert after.polyList[..|before.polyList|] == before.polyList;
    var ps := seq(|front|, k requires 0 <= k < |front| => vs[front[k].position].position);
    EmitsAllKept(before, after, base, ps, front);
    forall k | 0 <= k < |cs|
      ensures Emits(after, base + k, vs[cs[k].position].position, cs[k])
    {
      if k < |front| {
        assert cs[k] == front[k] && ps[k] == vs[cs[k].position].position;
      } else {
        assert after.polyList[base + k] == ProcessVertex(before.vertices, c).value.1;
      }
    }
  }

  /** Welding emits for each corner a vertex carrying the corner's position and attribute pair. */
  lemma {:induction false} WeldEmits<P>(w: Welded<P>, cs: seq<Corner>, originals: nat)
    requires Arena(w.vertices, originals)
    requires forall k :: 0 <= k < |cs| ==> 0 <= cs[k].position < originals
    ensures Weld(w, cs).Some?
    ensures forall k :: 0 <= k < |cs| ==>
      Emits(Weld(w, cs).value, |w.polyList| + k, w.vertices[cs[k].position].position, cs[k])
    decreases |cs|
  {
    if cs != [] {
      var front := cs[..|cs| - 1];
      WeldEmits(w, front, originals);
      WeldKeeps(w, front, originals);
      var before := Weld(w, front).value;
      assert forall k :: 0 <= k < |cs| - 1 ==>
        Emits(before, |w.polyList| + k, w.vertices[cs[k].position].position, cs[k]) by {
        forall k | 0 <= k < |cs| - 1
          ensures Emits(before, |w.polyList| + k, w.vertices[cs[k].position].position, cs[k])
        {
          assert cs[k] == front[k];
        }
      }
      WeldEmitsStep(w, before, cs, originals);
    }
  }

  /** The step of WeldEmits: what holds of all but the last corner extends to the last. */
  lemma {:induction false} WeldEmitsStep<P>(w: Welded<P>, before: Welded<P>, cs: seq<Corner>, originals: nat)
    requires Linked(w.vertices) && originals <= |w.vertices| && cs != []
    requires forall k :: 0 <= k < |cs| ==> 0 <= cs[k].position < originals
    requires Weld(w, cs[..|cs| - 1]) == Some(before)
    requires Arena(before.vertices, originals) && Stable(w.vertices, before.vertices)
    requires forall k :: 0 <= k < |cs| - 1 ==>
      Emits(before, |w.polyList| + k, w.vertices[cs[k].position].position, cs[k])
    ensures Weld(w, cs).Some?
    ensures forall k :: 0 <= k < |cs| ==>
      Emits(Weld(w, cs).value, |w.polyList| + k, w.vertices[cs[k].position].position, cs[k])
  {
    var c := cs[|cs| - 1];
    assert ProcessVertex(before.vertices, c).Some? by {
      ProcessVertexStable(before.vertices, c);
    }
    var step := ProcessVertex(before.vertices, c).value;
    var after := Welded(step.0, before.polyList + [step.1]);
    assert forall k :: 0 <= k < |cs| ==>
        Emits(after, |w.polyList| + k, w.vertices[cs[k].position].position, cs[k]) by {
      EmitsStep(w.vertices, before, after, |w.polyList|, cs, originals);
    }
    assert Weld(w, cs) == Some(after);
  }

  /** Once a corner fails, the whole sequence fails: a failure is an exception in the source. */
  lemma {:induction false} WeldFailsOnward<P>(w: Welded<P>, cs: seq<Corner>, more: seq<Corner>)
    requires Linked(w.vertices) && Weld(w, cs).None?
    ensures Weld(w, cs + more).None?
    decreases |more|
  {
    if more != [] {
      var front := more[..|more| - 1];
      WeldFailsOnward(w, cs, front);
      assert (cs + more)[..|cs + more| - 1] == cs + front;
    } else {
      assert cs + more == cs;
    }
  }

  // ---------------------------------------------------------------------------------------------
  // Reading the index stream

  /**
   * When every group holds the offsets read (two, or three with texture coordinates), all
   * `|id| / typeCount` corners can be read.
   */
  lemma GroupedStreamReads(id: seq<int>, typeCount: nat, withTexture: bool)
    requires typeCount >= (if withTexture then 3 else 2)
    ensures ReadCorners(id, typeCount, withTexture, |id| / typeCount).Some?
  {
    forall k | 0 <= k < |id| / typeCount
      ensures ReadCorner(id, typeCount, withTexture, k).Some?
    {
      LastGroupFits(|id|, typeCount, k);
    }
  }

  /** Group `k` of a stream of `length` entries lies inside the stream when `k` is below the group count. */
  lemma LastGroupFits(length: nat, typeCount: nat, k: nat)
    requires typeCount > 0 && k < length / typeCount
    ensures k * typeCount + typeCount <= length / typeCount * typeCount <= length
  {
    MulMono(k + 1, length / typeCount, typeCount);
    assert (k + 1) * typeCount == k * typeCount + typeCount;
  }

  lemma MulMono(a: int, b: int, d: int)
    requires a <= b && d > 0
    ensures a * d <= b * d
  {
    assert b * d - a * d == (b - a) * d;
  }

  lemma DivUnique(x: int, d: int, q: int)
    requires d > 0 && q * d <= x < q * d + d
    ensures x / d == q
  {
    var q' := x / d;
    assert q' * d <= x < q' * d + d;
    if q' < q {
      MulMono(q' + 1, q, d);
    } else if q' > q {
      MulMono(q + 1, q', d);
    }
  }

  /** Whole groups of a stream: the prefix the corners are read from. */
  lemma WholeGroups(length: nat, typeCount: nat)
    requires typeCount > 0
    ensures length / typeCount * typeCount <= length
    ensures (length / typeCount * typeCount) / typeCount == length / typeCount
  {
    DivUnique(length / typeCount * typeCount, typeCount, length / typeCount);
  }

  /** Two streams that agree on the groups read give the same corners. */
  lemma {:induction false} SameCorners(id: seq<int>, id': seq<int>, typeCount: nat, withTexture: bool, count: nat)
    requires forall k :: 0 <= k < count ==>
      ReadCorner(id, typeCount, withTexture, k) == ReadCorner(id', typeCount, withTexture, k)
    ensures ReadCorners(id, typeCount, withTexture, count) == ReadCorners(id', typeCount, withTexture, count)
  {
    if count > 0 {
      SameCorners(id, id', typeCount, withTexture, count - 1);
    }
  }

  /** A corner whose group lies inside a prefix of the stream reads the same from the prefix. */
  lemma ReadCornerInPrefix(id: seq<int>, n: nat, typeCount: nat, withTexture: bool, k: nat)
    requires typeCount >= (if withTexture then 3 else 2)
    requires k * typeCount + typeCount <= n <= |id|
    ensures ReadCorner(id, typeCount, withTexture, k) == ReadCorner(id[..n], typeCount, withTexture, k)
  {
    var base := k * typeCount;
    assert base + 1 < n && (withTexture ==> base + 2 < n);
  }

  /** An incomplete group at the end of the stream is never read. */
  lemma TrailingGroupIgnored<P>(w: Welded<P>, id: seq<int>, typeCount: nat, withTexture: bool)
    requires Linked(w.vertices) && typeCount >= (if withTexture then 3 else 2)
    ensures Assemble(w, id, typeCount, withTexture) ==
      Assemble(w, id[..|id| / typeCount * typeCount], typeCount, withTexture)
  {
    var count := |id| / typeCount;
    WholeGroups(|id|, typeCount);
    var whole := id[..count * typeCount];
    assert |whole| / typeCount == count;
    forall k | 0 <= k < count
      ensures ReadCorner(id, typeCount, withTexture, k) == ReadCorner(whole, typeCount, withTexture, k)
    {
      LastGroupFits(|id|, typeCount, k);
      ReadCornerInPrefix(id, count * typeCount, typeCount, withTexture, k);
    }
    SameCorners(id, whole, typeCount, withTexture, count);
  }

  // ---------------------------------------------------------------------------------------------
  // Clearing unused vertices and building the buffers

  /** RemoveUnusedVertices keeps every link, index, position and set vertex. */
  lemma RemoveUnusedStable<P>(vs: seq<Vertex<P>>)
    ensures Stable(vs, RemoveUnused(vs))
    ensures forall i :: 0 <= i < |vs| ==> RemoveUnused(vs)[i].duplicate == vs[i].duplicate
  {
  }

  /** A second RemoveUnusedVertices changes nothing: afterwards every vertex is set. */
  lemma RemoveUnusedIdempotent<P>(vs: seq<Vertex<P>>)
    ensures RemoveUnused(RemoveUnused(vs)) == RemoveUnused(vs)
  {
  }

  /**
   * Welding the fresh vertices of one mesh with corners that name source positions succeeds
   * with one index per corner and at least one vertex per position, and after unused vertices
   * are cleared every emitted index still names a vertex carrying the corner's position and,
   * when the corner has a normal, the corner's attribute pair.
   */
  lemma MeshWelds<P>(positions: seq<P>, cs: seq<Corner>)
    requires forall k :: 0 <= k < |cs| ==> 0 <= cs[k].position < |positions|
    ensures Weld(Welded(Originals(0, positions), []), cs).Some?
    ensures var w := Weld(Welded(Originals(0, positions), []), cs).value;
      && |w.polyList| == |cs|
      && |positions| <= |w.vertices| <= |positions| + |cs|
      && forall k :: 0 <= k < |cs| ==>
        Emits(Welded(RemoveUnused(w.vertices), w.polyList), k, positions[cs[k].position], cs[k])
  {
    OriginalsWeld(positions, cs);
    var w := Weld(Welded(Originals(0, positions), []), cs).value;
    var ps := seq(|cs|, k requires 0 <= k < |cs| => positions[cs[k].position]);
    RemoveUnusedStable(w.vertices);
    EmitsAllKept(w, Welded(RemoveUnused(w.vertices), w.polyList), 0, ps, cs);
  }

  /** Welding the fresh vertices of one mesh: every emitted index names the corner's position. */
  lemma OriginalsWeld<P>(positions: seq<P>, cs: seq<Corner>)
    requires forall k :: 0 <= k < |cs| ==> 0 <= cs[k].position < |positions|
    ensures Weld(Welded(Originals(0, positions), []), cs).Some?
    ensures var w := Weld(Welded(Originals(0, positions), []), cs).value;
      && |positions| <= |w.vertices|
      && forall k :: 0 <= k < |cs| ==> Emits(w, k, positions[cs[k].position], cs[k])
  {
    var start := Welded(Originals(0, positions), []);
    OriginalsArena(positions);
    WeldKeeps(start, cs, |positions|);
    WeldEmits(start, cs, |positions|);
  }

  /**
   * The welding of one mesh end to end: in the buffers built from it, the entries an emitted
   * index names hold the corner's own position and, when the corner has a normal, its own
   * normal and texture coordinate.
   */
  lemma MeshCornersResolve<P>(positions: seq<P>, cs: seq<Corner>, normals: Option<seq<P>>, textures: Option<seq<P>>)
    requires forall k :: 0 <= k < |cs| ==> 0 <= cs[k].position < |positions|
    ensures Weld(Welded(Originals(0, positions), []), cs).Some?
    ensures var w := Weld(Welded(Originals(0, positions), []), cs).value;
      var b := ConvertBuffers(RemoveUnused(w.vertices), normals, textures);
      b.Some? ==> forall k :: 0 <= k < |cs| ==>
        && 0 <= w.polyList[k] < |b.value.vertices|
        && b.value.vertices[w.polyList[k]] == positions[cs[k].position]
        && (cs[k].normal != NoIndex ==>
          && 0 <= cs[k].normal < |normals.value|
          && b.value.normals[w.polyList[k]] == normals.value[cs[k].normal]
          && (textures.Some? ==>
            && 0 <= cs[k].texture < |textures.value|
            && b.value.uvs.value[w.polyList[k]] == textures.value[cs[k].texture]))
  {
    MeshWelds(positions, cs);
    var w := Weld(Welded(Originals(0, positions), []), cs).value;
    var cleared := RemoveUnused(w.vertices);
    var b := ConvertBuffers(cleared, normals, textures);
    if b.Some? {
      forall k | 0 <= k < |cs|
        ensures 0 <= w.polyList[k] < |cleared|
        ensures Resolves(cleared[w.polyList[k]], normals, textures)
      {
        assert Emits(Welded(cleared, w.polyList), k, positions[cs[k].position], cs[k]);
      }
    }
  }
}
