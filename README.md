# Fbx2Pr3 and Pr3Tools: welding, half floats and the PR3 layout

This project models the core of the two PR3 converters in Dafny and proves properties of that model.

- **Fbx2Pr3** imports an FBX scene. It flattens the node tree under "Armature" into a post-order list of bones. It then writes the meshes and the bones to a PR3 file.
- **Pr3Tools** loads COLLADA geometry. It builds one PR3 object per mesh and writes those objects to a PR3 file.

The model has four parts:

- **Vertex welding** (`vertex.dfy`, `welding.dfy`, `fbx2pr3_loader.dfy`, `pr3tools_loader.dfy`).
  - Both geometry loaders create one vertex per source position.
  - The first corner of a triangle at a position claims that vertex. A later corner at the same position either reuses a vertex on the position's duplicate chain that carries the same (normal, texture) pair, or appends a new duplicate at the end of the chain.
  - Vertices no corner claimed get attribute indices 0.
  - The vertex, normal and texture arrays are then built from the vertex list.
  - The source links duplicates by object reference. Here the vertices live in one list (an arena), and a link is the duplicate's position in that list.
  - Welding is defined once, as functions in module `Welding`, and its properties are proved there. Each loader is imperative code proved against those functions:
    - Fbx2Pr3's loader is a class whose working fields are reset after each mesh.
    - Pr3Tools's loader uses static methods over a vertex list and an index list passed in.
- **The half-precision codec** (`half_float.dfy`). Binary16 and binary32 conversion on bit patterns, with C#'s signed `int` arithmetic written out. It also models the `HalfFloat` class: three constructors and a lazily filled cache of the full-precision value.
- **The PR3 model** (`pr3_model.dfy`). Index lists are grouped into triangles, and one object is built per geometry.
- **The two writers and `Main`** (`tokens.dfy`, `pr3tools_program.dfy`, `fbx2pr3_program.dfy`).
  - A file is a sequence of tokens, one per `BinaryWriter.Write` call: chars, int32, float, byte, or NUL-terminated string.
  - Each writer method is proved to append exactly the tokens of a layout function.
  - Each layout is proved to round-trip through a reader written independently of it.
  - Fbx2Pr3's `CreateBones` is a recursive function over the node tree. It is proved to yield one bone per node, in post-order, each naming a later bone as its parent.

Floats are copied and never computed with, so a `float` is its IEEE 754 binary32 bit pattern (`bv32`). Every exception in the source (an index out of range, a division by zero, a missing scene node, a null list) is the result `None`, or an `Outcome` of `Crash`.

Both writers write raw int32 counts and raw binary32 floats; neither file layout uses variable-length integers or half floats.

## Model

| member | source | states |
|---|---|---|
| Vertices.NewVertex | Fbx2Pr3/Vertex.cs:21-27 | A new vertex stores its index and position, has normal and texture index -1 (`NO_INDEX`), has no duplicate, and is not set |
| Vertices.Vertex.IsSet | Fbx2Pr3/Vertex.cs:19 | A vertex is set exactly when its normal index is not -1; the texture index is not consulted |
| Vertices.Vertex.HasSameInformation | Fbx2Pr3/Vertex.cs:29-34 | A corner matches a vertex exactly when both its normal and its texture index equal the vertex's |
| Welding.Chain | Fbx2Pr3/GeometryLoader.cs:209-213 | The chain from vertex i starts at i, follows each duplicate link to the next entry, stays inside the list and ends at the one vertex without a duplicate |
| Welding.ChainIncreasing | Fbx2Pr3/GeometryLoader.cs:209-221 | A duplicate chain visits strictly increasing indices, so it is acyclic and the walk terminates |
| Welding.Tail | Fbx2Pr3/GeometryLoader.cs:209-213 | The last vertex of the duplicate chain from i, where the recursive walk stops because there is no duplicate link |
| Welding.TailOfMember | Fbx2Pr3/GeometryLoader.cs:209-221 | The vertex of a chain that has no duplicate is the chain's tail, the only vertex a new duplicate is linked from |
| Welding.Find | Fbx2Pr3/GeometryLoader.cs:201-213 | Independent statement of the search: the result is on the chain and carries the pair, and None means no vertex on the chain carries it |
| Welding.AppendDuplicate | Fbx2Pr3/GeometryLoader.cs:215-224 | The new vertex gets index `Count` before the append, copies the tail's position, carries the new pair and has no duplicate; only the tail's link changes; links keep pointing forward |
| Welding.Handle | Fbx2Pr3/GeometryLoader.cs:201-225 | The chain walk keeps the links forward and grows the list by at most one vertex |
| Welding.HandleFinds | Fbx2Pr3/GeometryLoader.cs:201-225 | The walk emits the index of the vertex Find returns and leaves the list unchanged; when Find returns None, it appends a duplicate after the chain's tail and emits the new vertex's index |
| Welding.ProcessVertex | Fbx2Pr3/GeometryLoader.cs:185-199 | Processing a corner fails exactly when its position is outside the vertex list; otherwise the links stay forward and at most one vertex is appended |
| Welding.ProcessVertexEmits | Fbx2Pr3/GeometryLoader.cs:185-225 | The emitted index names a vertex with the corner's source position and attribute pair; a vertex is appended only if the position's vertex was set and no vertex on its chain carries the pair |
| Welding.ProcessVertexArena | Fbx2Pr3/GeometryLoader.cs:185-225 | Processing a corner at a source position keeps the arena shape: every vertex's Index equals its place in the list, links lead forward to duplicates at the same position, unset originals have no duplicate, chains of different positions are disjoint, and no chain carries a pair twice |
| Welding.ProcessVertexStable | Fbx2Pr3/GeometryLoader.cs:185-225 | Processing a corner changes no vertex's index or position and no set vertex's pair; it only appends |
| Welding.ClaimArena | Fbx2Pr3/GeometryLoader.cs:189-193 | Claiming an unset original keeps the arena shape |
| Welding.AppendArena | Fbx2Pr3/GeometryLoader.cs:215-224 | Appending a duplicate to the chain of a set original that lacks the pair keeps the arena shape |
| Welding.AppendChains | Fbx2Pr3/GeometryLoader.cs:215-223 | After a duplicate is appended to the chain of original p, only p's chain has grown |
| Welding.AppendDistinct | Fbx2Pr3/GeometryLoader.cs:203-224 | The grown chain still has pairwise distinct (normal, texture) pairs, because the walk found no vertex carrying the pair |
| Welding.AppendLinks | Fbx2Pr3/GeometryLoader.cs:215-224 | Appending keeps every index equal to its place, keeps links forward to duplicates at the same position, and keeps unset originals alone |
| Welding.AppendSeparate | Fbx2Pr3/GeometryLoader.cs:215-224 | Appending keeps the chains of distinct originals apart |
| Welding.AppendDistinctChains | Fbx2Pr3/GeometryLoader.cs:203-224 | Appending a pair missing from the chain keeps every chain free of repeated pairs |
| Welding.ChainAfterAppend | Fbx2Pr3/GeometryLoader.cs:215-221 | Appending a duplicate after the tail extends exactly the chains that end at that tail, by the new vertex |
| Welding.ChainPositions | Fbx2Pr3/GeometryLoader.cs:215-219 | Every vertex on a chain carries the position of the chain's first vertex |
| Welding.ChainPastOriginals | Fbx2Pr3/GeometryLoader.cs:215-223 | Only the first vertex of a chain is an original; the rest are duplicates |
| Welding.Originals | Fbx2Pr3/GeometryLoader.cs:87-89 | One new vertex per source position, in order, numbered from the list's length before the mesh |
| Welding.OriginalsArena | Fbx2Pr3/GeometryLoader.cs:88-89 | One fresh vertex per source position (Index = Count before Add) has the arena shape |
| Welding.OriginalsLinked | Fbx2Pr3/GeometryLoader.cs:88-89 | Appending fresh vertices keeps every link forward |
| Welding.Weld | Fbx2Pr3/GeometryLoader.cs:168-181 | Welding a corner sequence appends exactly one index per corner after the existing ones, and grows the vertex list by at most one vertex per corner, never shrinking it |
| Welding.WeldKeeps | Fbx2Pr3/GeometryLoader.cs:168-225 | Welding corners that name source positions never fails, keeps the arena shape, and changes no index, position or set pair |
| Welding.WeldEmits | Fbx2Pr3/GeometryLoader.cs:168-225 | Index slot number (old length + k) names a vertex with corner k's position and, when the corner has a normal, corner k's pair |
| Welding.WeldFailsOnward | Fbx2Pr3/GeometryLoader.cs:185-187 | Once a corner fails (an exception), welding any longer sequence fails |
| Welding.ReadCorner | Fbx2Pr3/GeometryLoader.cs:170-179 | Corner k of the index stream: the position at offset 0 and the normal at offset 1 of group k, the texture at offset 2 only when the mesh has texture coordinates (-1 otherwise); no corner when a read passes the end of the stream |
| Welding.ReadCorners | Fbx2Pr3/GeometryLoader.cs:168-179 | Reading count corners succeeds exactly when each group can be read; corner k is read from group k |
| Welding.GroupedStreamReads | Fbx2Pr3/GeometryLoader.cs:168-179 | When every group holds the offsets read, all `id.Count / typeCount` corners can be read |
| Welding.TrailingGroupIgnored | Fbx2Pr3/GeometryLoader.cs:168 | A trailing incomplete group of the index stream has no effect |
| Welding.Assemble | Fbx2Pr3/GeometryLoader.cs:162-183 | AssembleVertices as a value; the links stay forward |
| Welding.Cleared | Fbx2Pr3/GeometryLoader.cs:231-234 | An unset vertex gets normal and texture index 0; a set vertex is kept as it is |
| Welding.RemoveUnused | Fbx2Pr3/GeometryLoader.cs:227-236 | Same length; each unset vertex gets indices (0, 0) and nothing else changes; set vertices are unchanged; afterwards every vertex is set |
| Welding.RemoveUnusedStable | Fbx2Pr3/GeometryLoader.cs:227-236 | Clearing keeps every link, index, position and set pair |
| Welding.RemoveUnusedIdempotent | Fbx2Pr3/GeometryLoader.cs:227-236 | A second clearing changes nothing |
| Welding.ConvertBuffers | Fbx2Pr3/GeometryLoader.cs:238-259 | Succeeds exactly when every vertex's indices resolve, and a null normal list fails on a non-empty list; position and normal arrays have one entry per vertex, taken from vertex i; the texture array exists exactly when textures do |
| Welding.FilledConverts | Fbx2Pr3/GeometryLoader.cs:248-256 | Arrays filled entry by entry for every vertex are the buffers ConvertBuffers describes |
| Welding.WeldsAssemble | Fbx2Pr3/GeometryLoader.cs:168-182 | Running the loop over every whole group gives what Assemble describes |
| Welding.WeldsStep | Fbx2Pr3/GeometryLoader.cs:168-182 | One more iteration of the loop extends the welding by one corner |
| Welding.ReadFails | Fbx2Pr3/GeometryLoader.cs:173-178 | A group that cannot be read fails the whole stream |
| Welding.MeshWelds | Fbx2Pr3/GeometryLoader.cs:162-236 | A mesh's welding succeeds with one index per corner. The vertex count is at least the position count and at most that plus one per corner. After clearing, every emitted index names a vertex with the corner's position and, when it has a normal, the corner's pair |
| Welding.OriginalsWeld | Fbx2Pr3/GeometryLoader.cs:162-225 | From fresh vertices, every emitted index names the corner's position and pair, and no vertex is lost |
| Welding.MeshCornersResolve | Fbx2Pr3/GeometryLoader.cs:162-259 | End to end: in the built arrays, the entry an emitted index names holds the corner's own position and, when it has a normal, its own normal and texture coordinate |
| Collada.Widen | Fbx2Pr3/GeometryLoader.cs:110 | A texture coordinate keeps its x and y and gets z = 0.0f |
| Collada.WidenAll | Fbx2Pr3/GeometryLoader.cs:110 | Texture coordinates become Vector3(x, y, 0), one per coordinate, in order |
| Collada.FirstNamed | Fbx2Pr3/GeometryLoader.cs:117 | `First` by object name: the first node with that name, and None exactly when no node has it |
| Fbx2Pr3Loader.Prepare | Fbx2Pr3/GeometryLoader.cs:81-111 | Adding a mesh's positions and sources keeps the working fields valid |
| Fbx2Pr3Loader.StartOf | Fbx2Pr3/GeometryLoader.cs:125-129 | Every mesh after the first starts from the emptied working fields, which are valid |
| Fbx2Pr3Loader.LoadMesh | Fbx2Pr3/GeometryLoader.cs:76-129 | One mesh from the loader's working fields: its positions appended as new vertices, normals and texture coordinates replaced only when the mesh has them, corners welded, unused vertices cleared, buffers converted, and name, matrix and material taken from the first scene node with the mesh's name; none wherever the source throws |
| Fbx2Pr3Loader.LoadAll | Fbx2Pr3/GeometryLoader.cs:73-133 | One geometry per mesh in order, the first mesh starting from the initial working fields and every later one from the emptied fields; none when any mesh fails |
| Fbx2Pr3Loader.LoadAllLoaded | Fbx2Pr3/GeometryLoader.cs:73-133 | When every mesh loads, Load returns their geometries in order |
| Fbx2Pr3Loader.LoadAllFails | Fbx2Pr3/GeometryLoader.cs:73-133 | A mesh that fails makes the whole load fail |
| Fbx2Pr3Loader.LoadMeshNamed | Fbx2Pr3/GeometryLoader.cs:116-121 | A loaded mesh takes its name, matrix and material from the first scene node for it; without such a node it does not load |
| Fbx2Pr3Loader.LoadMeshNeedsNormals | Fbx2Pr3/GeometryLoader.cs:253 | A mesh with no NORMAL input and no normals left over fails as soon as there is a vertex |
| Fbx2Pr3Loader.LoadMeshCounts | Fbx2Pr3/GeometryLoader.cs:87-116 | A loaded mesh read `id.Count / typeCount` whole groups and emitted one index per group after the existing ones; it kept every vertex and has one normal per vertex |
| Fbx2Pr3Loader.LoadMeshCorners | Fbx2Pr3/GeometryLoader.cs:81-121 | From empty fields: one index per corner; at least one vertex per position and at most one more per corner; a texture array exactly when the mesh has TEXCOORD; each index names the corner's position and, when it has a normal, the corner's normal and widened texture coordinate |
| Fbx2Pr3Loader.LoadMeshFromWeld | Fbx2Pr3/GeometryLoader.cs:113-116 | From empty fields, a loaded mesh holds the buffers of the welded, cleared corners |
| Fbx2Pr3Loader.LoadAllShape | Fbx2Pr3/GeometryLoader.cs:73-133 | Load yields one geometry per mesh, in input order, each named after its own first scene node; every mesh after the first loads as if on its own, because the fields were emptied |
| Fbx2Pr3Loader.LoadAllMissingNode | Fbx2Pr3/GeometryLoader.cs:117 | A mesh without a scene node fails the whole load |
| Fbx2Pr3Loader.GeometryLoader.constructor | Fbx2Pr3/GeometryLoader.cs:23-30 | Empty working lists and no normals or textures; keeps the meshes and scene nodes |
| Fbx2Pr3Loader.GeometryLoader.Load | Fbx2Pr3/GeometryLoader.cs:73-133 | Returns LoadAll of the state at entry; after a load that succeeded, the working fields are emptied (unless there were no meshes) |
| Fbx2Pr3Loader.GeometryLoader.LoadOne | Fbx2Pr3/GeometryLoader.cs:81-121 | The loop body yields LoadMesh of the fields at entry |
| Fbx2Pr3Loader.GeometryLoader.AddPositions | Fbx2Pr3/GeometryLoader.cs:87-89 | Appends one fresh vertex per position, numbered from the list's length, and changes no other field |
| Fbx2Pr3Loader.GeometryLoader.AssembleVertices | Fbx2Pr3/GeometryLoader.cs:162-183 | Succeeds exactly when Assemble does, leaving vertices and index list as Assemble describes; normals and textures are untouched |
| Fbx2Pr3Loader.GeometryLoader.ProcessVertex | Fbx2Pr3/GeometryLoader.cs:185-199 | Fails exactly when the position is out of range; otherwise the fields become Welding.ProcessVertex's list, with its index appended |
| Fbx2Pr3Loader.GeometryLoader.HandleAlreadyProcessedVertex | Fbx2Pr3/GeometryLoader.cs:201-225 | The vertex list becomes Handle's list and Handle's index is appended to the index list |
| Fbx2Pr3Loader.GeometryLoader.RemoveUnusedVertices | Fbx2Pr3/GeometryLoader.cs:227-236 | The vertex list becomes RemoveUnused of the old one; nothing else changes |
| Fbx2Pr3Loader.GeometryLoader.ConvertBuffersToGeometry | Fbx2Pr3/GeometryLoader.cs:238-259 | The geometry of ConvertBuffers over the fields, with the index list as the indices |
| Pr3ToolsLoader.VertexList.constructor | Pr3Tools/GeometryLoader.cs:69 | A new, empty vertex list |
| Pr3ToolsLoader.IndexList.constructor | Pr3Tools/GeometryLoader.cs:70 | A new, empty index list |
| Pr3ToolsLoader.LoadMesh | Pr3Tools/GeometryLoader.cs:66-110 | One mesh from fresh lists: none without a NORMAL or a TEXCOORD input; otherwise one new vertex per position, corners welded with their texture indices, unused vertices cleared, buffers converted, and name, matrix and material from the first scene node with the mesh's name |
| Pr3ToolsLoader.LoadAll | Pr3Tools/GeometryLoader.cs:61-114 | One geometry per mesh in order, each mesh independent of the others; none when any mesh fails |
| Pr3ToolsLoader.LoadAllLoaded | Pr3Tools/GeometryLoader.cs:61-114 | When every mesh loads, Load returns their geometries in order |
| Pr3ToolsLoader.LoadAllFails | Pr3Tools/GeometryLoader.cs:61-114 | A mesh that fails makes the whole load fail |
| Pr3ToolsLoader.LoadMeshAgrees | Pr3Tools/GeometryLoader.cs:66-110 | A mesh with both NORMAL and TEXCOORD inputs loads exactly as the Fbx2Pr3 loader loads it from empty fields; a mesh lacking either input fails |
| Pr3ToolsLoader.LoadMeshCounts | Pr3Tools/GeometryLoader.cs:80-103 | A loaded mesh read `id.Count / typeCount` whole groups and emitted one index per group; it has at least one vertex per position and one normal and one texture coordinate per vertex |
| Pr3ToolsLoader.LoadMeshCorners | Pr3Tools/GeometryLoader.cs:143-199 | Corner k is read at offsets 0, 1, 2 of group k; when corners name source positions, there is one index per corner, naming a vertex with the corner's position and, with a normal, its normal and widened texture coordinate |
| Pr3ToolsLoader.ReadCornersAre | Pr3Tools/GeometryLoader.cs:149-155 | Corners given group by group, at offsets 0, 1 and 2, are what the loop reads |
| Pr3ToolsLoader.LoadAllShape | Pr3Tools/GeometryLoader.cs:61-114 | One geometry per mesh, in order, each loaded from fresh lists and named after its own first scene node |
| Pr3ToolsLoader.LoadAllMissing | Pr3Tools/GeometryLoader.cs:85-104 | A mesh lacking a NORMAL or TEXCOORD input, or lacking a scene node, fails the whole load |
| Pr3ToolsLoader.GeometryLoader.constructor | Pr3Tools/GeometryLoader.cs:14-18 | Keeps the meshes and scene nodes |
| Pr3ToolsLoader.GeometryLoader.Load | Pr3Tools/GeometryLoader.cs:61-114 | Returns LoadAll of the meshes |
| Pr3ToolsLoader.GeometryLoader.LoadOne | Pr3Tools/GeometryLoader.cs:66-110 | The loop body yields LoadMesh |
| Pr3ToolsLoader.GeometryLoader.AssembleVertices | Pr3Tools/GeometryLoader.cs:143-157 | Succeeds exactly when Assemble (texture read) does, leaving both lists as Assemble describes |
| Pr3ToolsLoader.GeometryLoader.ProcessVertex | Pr3Tools/GeometryLoader.cs:159-173 | Fails exactly when the position is out of range; otherwise the lists become Welding.ProcessVertex's list, with its index appended |
| Pr3ToolsLoader.GeometryLoader.HandleAlreadyProcessedVertex | Pr3Tools/GeometryLoader.cs:175-199 | The vertex list becomes Handle's list and Handle's index is appended |
| Pr3ToolsLoader.GeometryLoader.RemoveUnusedVertices | Pr3Tools/GeometryLoader.cs:201-210 | The vertex list becomes RemoveUnused of the old one |
| Pr3ToolsLoader.GeometryLoader.ConvertBuffersToGeometry | Pr3Tools/GeometryLoader.cs:212-228 | The geometry of ConvertBuffers with both sources present, with the index list as the indices |
| HalfFloats.ToFullPrecision | Pr3Tools/HalfFloat.cs:92-118 | The binary32 pattern of a half: infinity and NaN get the all-ones exponent and keep the mantissa, normals are rebiased by 112, subnormals are renormalised, zero keeps its sign |
| HalfFloats.FromFullPrecision | Pr3Tools/HalfFloat.cs:128-151 | The binary16 pattern of a float as written, with the source's signed int comparisons: saturation to infinity, rounding overflow to 0x7bff, rounded normals, subnormals and underflow to a signed zero |
| HalfFloats.FromFullPrecisionCorrected | Pr3Tools/HalfFloat.cs:128-151 | The same encoder with its comparisons on the unsigned magnitude and the finite test before rounding |
| HalfFloats.Shift | Pr3Tools/HalfFloat.cs:107-113 | The renormalisation loop runs 1 to 10 times, the number of places that bring the mantissa's top bit to bit 10 |
| HalfFloats.HalfFloat.Renormalize | Pr3Tools/HalfFloat.cs:107-113 | The do/while loop ends with the mantissa shifted Shift places, bit 10 set and below bit 11, and the exponent lowered by 0x400 per place |
| HalfFloats.HalfFloat.SubnormalToFullPrecision | Pr3Tools/HalfFloat.cs:105-117 | The subnormal branch computes ToFullPrecision |
| HalfFloats.HalfFloat.ComputeFullPrecision | Pr3Tools/HalfFloat.cs:92-118 | The statement-by-statement decoder computes ToFullPrecision |
| HalfFloats.DecodeSpecial | Pr3Tools/HalfFloat.cs:97-98 | An all-ones exponent decodes to an all-ones exponent, with the mantissa moved up 13 places and the sign kept (infinity and NaN preserved) |
| HalfFloats.DecodeNormal | Pr3Tools/HalfFloat.cs:99-104 | A normal half is rebiased by 0x1c000 and shifted into place |
| HalfFloats.DecodeSubnormal | Pr3Tools/HalfFloat.cs:105-117 | A subnormal half is renormalised: mantissa shifted Shift places and masked, exponent lowered per place |
| HalfFloats.AssembleRenormalized | Pr3Tools/HalfFloat.cs:114-117 | Assembling the loop's results gives DecodeSubnormal's pattern |
| HalfFloats.DecodeZero | Pr3Tools/HalfFloat.cs:117 | A signed zero decodes to the signed zero |
| HalfFloats.DecodeSign | Pr3Tools/HalfFloat.cs:103-117 | Bit 31 of the decoded float is bit 15 of the half |
| HalfFloats.DecodeFinite | Pr3Tools/HalfFloat.cs:97-117 | A half that is not infinity or NaN decodes to a magnitude below 65536 |
| HalfFloats.EncodeSign | Pr3Tools/HalfFloat.cs:131 | Bit 15 of the encoded half is bit 31 of the float |
| HalfFloats.EncodeOverflow | Pr3Tools/HalfFloat.cs:135-140 | Finite magnitudes from 65536 up (below the rounding fault) give signed infinity 0x7c00 |
| HalfFloats.EncodeNonFinite | Pr3Tools/HalfFloat.cs:137-141 | Infinity and NaNs below the wrap keep the all-ones exponent and the top 10 mantissa bits |
| HalfFloats.EncodeRoundingOverflow | Pr3Tools/HalfFloat.cs:135-143 | Magnitudes that reach 0x47800000 only by rounding give 0x7bff, the largest finite half |
| HalfFloats.EncodeNormal | Pr3Tools/HalfFloat.cs:145-146 | In the normal range, the result is `sign | ((abs + 0x1000 - 0x38000000) >> 13)` |
| HalfFloats.EncodeNormalBelowInfinity | Pr3Tools/HalfFloat.cs:145-146 | The normal range never reaches the all-ones exponent |
| HalfFloats.EncodeUnderflow | Pr3Tools/HalfFloat.cs:147-148 | Rounded magnitudes below 0x33000000 give a zero of the same sign |
| HalfFloats.EncodeFits | Pr3Tools/HalfFloat.cs:128-151 | Every encoder result is a 16-bit pattern |
| HalfFloats.RoundTripSpecial | Pr3Tools/HalfFloat.cs:92-151 | Infinity and NaN halves survive decode then encode |
| HalfFloats.RoundTripNormal | Pr3Tools/HalfFloat.cs:92-151 | Normal halves survive decode then encode |
| HalfFloats.RoundTripSubnormal | Pr3Tools/HalfFloat.cs:92-151 | Subnormal halves survive decode then encode |
| HalfFloats.RoundTripZero | Pr3Tools/HalfFloat.cs:92-151 | Signed zeros survive decode then encode |
| HalfFloats.RoundTrip | Pr3Tools/HalfFloat.cs:92-151 | `FromFullPrecision(ToFullPrecision(h)) == h` for all 65536 half patterns |
| HalfFloats.EncodeWrapped | Pr3Tools/HalfFloat.cs:133 | As written: magnitudes from 0x7ffff000 up wrap `val` negative and encode as a signed zero |
| HalfFloats.NaNEncodesAsZero | Pr3Tools/HalfFloat.cs:133-148 | As written, NaN 0x7fffffff encodes as +0; the corrected encoder gives NaN 0x7fff |
| HalfFloats.MaxValueEncodesAsNaN | Pr3Tools/HalfFloat.cs:135-141 | As written, float.MaxValue 0x7f7fffff encodes as NaN 0x7fff; the corrected encoder gives infinity 0x7c00 |
| HalfFloats.CorrectedOverflow | Pr3Tools/HalfFloat.cs:135-140 | Corrected: every finite magnitude from 65536 up saturates to signed infinity |
| HalfFloats.CorrectedNonFinite | Pr3Tools/HalfFloat.cs:137-141 | Corrected: infinity and every NaN keep the all-ones exponent and the top mantissa bits |
| HalfFloats.CorrectedAgrees | Pr3Tools/HalfFloat.cs:128-151 | Below the two faulty ranges, the corrected encoder equals the encoder as written |
| HalfFloats.CorrectedRoundTrip | Pr3Tools/HalfFloat.cs:92-151 | The corrected encoder keeps the round trip for every half |
| HalfFloats.CorrectedFits | Pr3Tools/HalfFloat.cs:128-151 | Every corrected result is a 16-bit pattern |
| HalfFloats.AcceptedEncodesFinite | Pr3Tools/HalfFloat.cs:54-59 | A float the float constructor accepts is NaN or within [-32768, 32767], and every such finite float encodes to a finite half |
| HalfFloats.HalfFloat.FromBytes | Pr3Tools/HalfFloat.cs:27-33 | Fails with WrongLength exactly when the array is not 2 bytes; otherwise the half is the little-endian short and the cache is empty |
| HalfFloats.HalfFloat.FromShort | Pr3Tools/HalfFloat.cs:40-44 | Stores the short, caches its decoded value, and the encoder as written maps the cached value back to the short |
| HalfFloats.HalfFloat.FromSingle | Pr3Tools/HalfFloat.cs:52-62 | Fails with TooLarge exactly for `number > 32767` and with TooSmall for `number < -32768` (NaN passes); otherwise stores the encoder's result as written and caches the number itself; a stored half is finite unless the number is NaN, and a NaN of magnitude 0x7ffff000 or more is accepted and stored as a signed zero |
| HalfFloats.HalfFloat.GetFullFloat | Pr3Tools/HalfFloat.cs:80-84 | Returns the cached value, or decodes the half and caches it; afterwards the cache holds the result |
| Pr3Models.Flatten | Fbx2Pr3/Pr3Model.cs:31-39 | Independent reference: a face list stands for three indices per face |
| Pr3Models.FlattenAt | Fbx2Pr3/Pr3Model.cs:35-36 | Entries 3k, 3k+1, 3k+2 of the flattened list are faces[k].A, B and C |
| Pr3Models.FacesFlatten | Fbx2Pr3/Pr3Model.cs:31-39 | Grouping succeeds exactly when the length is a multiple of 3, and flattening the faces gives the index list back |
| Pr3Models.FlattenFaces | Fbx2Pr3/Pr3Model.cs:31-39 | Grouping a flattened face list gives the faces back |
| Pr3Models.Faces | Fbx2Pr3/Pr3Model.cs:31-39 | Face k is indices 3k, 3k + 1 and 3k + 2; none when the number of indices is not a multiple of three, where the last step reads past the end |
| Pr3Models.CreateFaces | Fbx2Pr3/Pr3Model.cs:31-39 | The loop yields Faces of the index list |
| Pr3Models.ObjectsShape | Fbx2Pr3/Pr3Model.cs:24-29 | One object per geometry, in order, with name, arrays, matrix and material passed through and the indices grouped into faces; fails exactly when a geometry has null Uvs or an index count that is not a multiple of 3 |
| Pr3Models.ObjectOf | Fbx2Pr3/Pr3Model.cs:27 | The object of one geometry: its name, vertices, faces, normals, texture coordinates, matrix and material; none when its faces fail or it has no texture coordinates |
| Pr3Models.Objects | Fbx2Pr3/Pr3Model.cs:24-29 | The object of every geometry, in order; none when any of them fails |
| Pr3Models.CollectObjects | Fbx2Pr3/Pr3Model.cs:24-29 | The method yields Objects of the geometry list |
| Tokens.NtString | Fbx2Pr3/Program.cs:130-135 | A string is written as its UTF-8 bytes followed by one NUL byte |
| Tokens.BinaryWriter.Write | Pr3Tools/Program.cs:38-41 | Each write appends exactly its one token to what was written before |
| Tokens.NtStringRoundTrip | Pr3Tools/Extensions.cs:13-18 | A NUL-terminated string reads back as itself |
| Tokens.BinaryWriter.WriteNtString | Pr3Tools/Extensions.cs:13-18 | Appends the string's bytes and a NUL |
| Tokens.SinglesRoundTrip | Pr3Tools/Program.cs:68 | Floats written one by one read back in order |
| Tokens.VectorsRoundTrip | Pr3Tools/Program.cs:74-79 | Vectors written as x, y, z read back as themselves |
| Tokens.RepeatSize | Pr3Tools/Program.cs:74-79 | A loop writing w bytes per item writes n·w bytes |
| Pr3ToolsProgram.VectorBlock | Pr3Tools/Program.cs:71-80 | A vector list is its count, then x, y and z of every vector |
| Pr3ToolsProgram.FaceBlock | Pr3Tools/Program.cs:55-64 | A face list is its count, then a, b and c of every face |
| Pr3ToolsProgram.MatrixBlock | Pr3Tools/Program.cs:66-69 | A matrix is every entry of its list, without a count |
| Pr3ToolsProgram.ObjectTokens | Pr3Tools/Program.cs:45-51 | An object is its name and material as NUL-terminated strings, its matrix, then its vertices, normals and texture coordinates as vector lists and its faces as a face list |
| Pr3ToolsProgram.FileTokens | Pr3Tools/Program.cs:29-53 | A file is "PR3", version 1, the number of objects, then every object in order |
| Pr3ToolsProgram.Convert | Pr3Tools/Program.cs:9-27 | Exit -1 with fewer than 2 arguments; an exception when loading or building the model throws; otherwise exit 0 with the file of the model |
| Pr3ToolsProgram.HeaderSize | Pr3Tools/Program.cs:33-41 | The header "PR3", int32 1, int32 count takes 11 bytes |
| Pr3ToolsProgram.VectorBlockSize | Pr3Tools/Program.cs:71-80 | A vector block takes 4 + 12·n bytes |
| Pr3ToolsProgram.FaceBlockSize | Pr3Tools/Program.cs:55-64 | A face block takes 4 + 12·n bytes |
| Pr3ToolsProgram.VectorBlockRoundTrip | Pr3Tools/Program.cs:71-80 | A vector block reads back as the vectors |
| Pr3ToolsProgram.FaceBlockRoundTrip | Pr3Tools/Program.cs:55-64 | A face block reads back as the faces |
| Pr3ToolsProgram.MatrixRoundTrip | Pr3Tools/Program.cs:66-69 | The matrix entries read back in order, given their number |
| Pr3ToolsProgram.ObjectRoundTrip | Pr3Tools/Program.cs:43-52 | An object with a 16-entry matrix reads back as itself: name, material, matrix, vertices, normals, UVs, faces |
| Pr3ToolsProgram.ObjectNeedsSixteen | Pr3Tools/Program.cs:66-69 | The matrix has no length prefix: an object whose matrix does not have 16 entries cannot be read back |
| Pr3ToolsProgram.MatrixTooLong | Pr3Tools/Program.cs:66-69 | A matrix of other than 16 entries, followed by a vector block, does not read as 16 entries and a count |
| Pr3ToolsProgram.FileRoundTrip | Pr3Tools/Program.cs:29-53 | A file reads back as its objects exactly when every matrix has 16 entries |
| Pr3ToolsProgram.FirstBadMatrix | Pr3Tools/Program.cs:43-52 | A bad matrix anywhere makes reading the objects fail |
| Pr3ToolsProgram.ConvertCodes | Pr3Tools/Program.cs:9-27 | Exit -1 exactly with fewer than 2 arguments; never -2; exit 0 only with the file of every loaded object, one per mesh |
| Pr3ToolsProgram.Run | Pr3Tools/Program.cs:9-27 | Main's steps yield Convert |
| Pr3ToolsProgram.WriteOutputFile | Pr3Tools/Program.cs:29-53 | Writes exactly FileTokens: the header, then every object in order |
| Pr3ToolsProgram.WriteObject | Pr3Tools/Program.cs:45-51 | Appends the object's record: name, material, matrix, vertices, normals, UVs, faces |
| Pr3ToolsProgram.WriteLengthCodedFaces | Pr3Tools/Program.cs:55-64 | Appends the count, then A, B, C per face |
| Pr3ToolsProgram.WriteMatrix4 | Pr3Tools/Program.cs:66-69 | Appends every entry, with no count |
| Pr3ToolsProgram.WriteLengthCodedVectors | Pr3Tools/Program.cs:71-80 | Appends the count, then x, y, z per vector |
| Fbx2Pr3Program.FindNode | Fbx2Pr3/Program.cs:26 | The first node with the name in a pre-order search of the subtree, or none |
| Fbx2Pr3Program.FindPath | Fbx2Pr3/Program.cs:26 | `FindNode`: found exactly when some node of the subtree has the name; the path leads to a node with that name |
| Fbx2Pr3Program.FindPathFrom | Fbx2Pr3/Program.cs:26 | The search through children i onward finds the name exactly when one of their subtrees has it |
| Fbx2Pr3Program.LookUpMesh | Fbx2Pr3/Program.cs:142 | No node when no node has the bone's name; the first mesh index of the node found; an exception when that node has no meshes |
| Fbx2Pr3Program.CreateBones | Fbx2Pr3/Program.cs:137-146 | The bones of the children's subtrees in child order, then the node's own bone with its name, transform, associated mesh and parent's name; none when a lookup throws |
| Fbx2Pr3Program.ChildBones | Fbx2Pr3/Program.cs:140 | The bones of the subtrees of children i onwards, each child with this node as its parent |
| Fbx2Pr3Program.LookUpMeshFinds | Fbx2Pr3/Program.cs:142 | No node exactly when no node has the name; a mesh found is that node's first mesh index |
| Fbx2Pr3Program.BonesShape | Fbx2Pr3/Program.cs:137-146 | One bone per node of the subtree; the last bone is the node's own, with its name, transform, looked-up mesh and the given parent; it fails exactly when some node's namesake in the mesh tree has no meshes |
| Fbx2Pr3Program.ChildBonesShape | Fbx2Pr3/Program.cs:140 | The children's bones are one block per child, each with this node as parent |
| Fbx2Pr3Program.BonesPostOrder | Fbx2Pr3/Program.cs:140-143 | Post-order in child order: child j's bones are a contiguous block after the blocks of the earlier children |
| Fbx2Pr3Program.ChildBonesAt | Fbx2Pr3/Program.cs:140 | Where child j's block lies in the children's bones |
| Fbx2Pr3Program.BonesParents | Fbx2Pr3/Program.cs:140-143 | Every bone but the last has a parent, and that parent is the name of a later bone |
| Fbx2Pr3Program.ChildBonesParents | Fbx2Pr3/Program.cs:140-143 | The children's bones name as parent this node or a later bone |
| Fbx2Pr3Program.MeshTokens | Fbx2Pr3/Program.cs:59-88 | A mesh is its vertex, normal, texture coordinate and face counts, then x, y and z of every vertex, x and y of every texture coordinate, every normal, and every face as its index count and indices |
| Fbx2Pr3Program.BoneTokens | Fbx2Pr3/Program.cs:93-125 | A bone is its name, a flags byte, the parent's name only when it has a parent, the mesh index only when it has a mesh, then the 16 matrix entries row by row |
| Fbx2Pr3Program.FileTokens | Fbx2Pr3/Program.cs:43-126 | A file is "PR3", version 1, the mesh count and the bone count, then every mesh and then every bone |
| Fbx2Pr3Program.Flags | Fbx2Pr3/Program.cs:95-102 | Bit 0 is set exactly when there is a parent; bit 1 exactly when there is a mesh; all other bits are 0 |
| Fbx2Pr3Program.FlagsRead | Fbx2Pr3/Program.cs:95-108 | The flag byte comes first, and the optional fields follow it |
| Fbx2Pr3Program.ParentRoundTrip | Fbx2Pr3/Program.cs:104-105 | The parent name is present exactly when flagged, and reads back |
| Fbx2Pr3Program.MeshIndexRoundTrip | Fbx2Pr3/Program.cs:107-108 | The mesh index is present exactly when flagged, and reads back |
| Fbx2Pr3Program.RowRoundTrip | Fbx2Pr3/Program.cs:110-113 | Four matrix entries read back in order |
| Fbx2Pr3Program.MatrixRoundTrip | Fbx2Pr3/Program.cs:110-125 | The 16 entries A1..D4 read back as the matrix |
| Fbx2Pr3Program.BoneRoundTrip | Fbx2Pr3/Program.cs:93-125 | A bone record (name, flags, optional parent, optional mesh, 16 floats) reads back as the bone |
| Fbx2Pr3Program.BonesRoundTrip | Fbx2Pr3/Program.cs:91-126 | All bones read back in order |
| Fbx2Pr3Program.BoneSize | Fbx2Pr3/Program.cs:93-125 | A bone record takes the name's bytes + 1, 1 flag byte, the parent's bytes + 1 if any, 4 if there is a mesh, and 64 |
| Fbx2Pr3Program.MatrixSize | Fbx2Pr3/Program.cs:110-125 | The matrix takes 64 bytes |
| Fbx2Pr3Program.NtStringSize | Fbx2Pr3/Program.cs:130-135 | A NUL-terminated string takes its UTF-8 length plus one byte |
| Fbx2Pr3Program.UvsRoundTrip | Fbx2Pr3/Program.cs:71-75 | UVs are written as x, y only, and read back as their x and y |
| Fbx2Pr3Program.FaceRoundTrip | Fbx2Pr3/Program.cs:86-87 | A face (index count, then indices) reads back |
| Fbx2Pr3Program.FacesRoundTrip | Fbx2Pr3/Program.cs:84-88 | All faces read back in order |
| Fbx2Pr3Program.MeshRoundTrip | Fbx2Pr3/Program.cs:57-89 | A mesh record (four counts, vertices, UVs, normals, faces) reads back as its record |
| Fbx2Pr3Program.MeshesRoundTrip | Fbx2Pr3/Program.cs:57-89 | All meshes read back in order |
| Fbx2Pr3Program.HeaderAt | Fbx2Pr3/Program.cs:49-55 | The header is "PR3", int32 1, the mesh count and the bone count |
| Fbx2Pr3Program.FileRoundTrip | Fbx2Pr3/Program.cs:37-128 | A whole file reads back as its mesh records and its bones |
| Fbx2Pr3Program.Convert | Fbx2Pr3/Program.cs:14-35 | Exit -1 with fewer than 2 arguments, -2 for a null or mesh-less scene; otherwise the first "Armature" node is taken out of the root's children when it is one, its bones are made against the rest of the tree, and the file is written with exit 0; an exception when no armature exists or a lookup throws |
| Fbx2Pr3Program.ConvertCodes | Fbx2Pr3/Program.cs:14-35 | Exit -1 exactly with fewer than 2 arguments; -2 exactly for a null or mesh-less scene; an exception exactly when no "Armature" node exists or a namesake has no meshes; otherwise exit 0 with the file, one bone per armature node, the armature's bone last and without a parent |
| Fbx2Pr3Program.Run | Fbx2Pr3/Program.cs:14-35 | Main's steps yield Convert |
| Fbx2Pr3Program.WriteOutputFile | Fbx2Pr3/Program.cs:37-128 | Writes exactly FileTokens: the header, every mesh, then every bone |
| Fbx2Pr3Program.WriteMesh | Fbx2Pr3/Program.cs:59-88 | Appends the mesh record |
| Fbx2Pr3Program.WriteCounts | Fbx2Pr3/Program.cs:59-62 | Appends the vertex, normal, UV and face counts |
| Fbx2Pr3Program.WriteVectors | Fbx2Pr3/Program.cs:64-69 | Appends x, y, z per vector |
| Fbx2Pr3Program.WriteUvs | Fbx2Pr3/Program.cs:71-75 | Appends x, y per texture coordinate |
| Fbx2Pr3Program.WriteFaces | Fbx2Pr3/Program.cs:84-88 | Appends each face |
| Fbx2Pr3Program.WriteFace | Fbx2Pr3/Program.cs:86-87 | Appends the index count, then the indices |
| Fbx2Pr3Program.WriteBones | Fbx2Pr3/Program.cs:91-126 | Appends every bone record in order |
| Fbx2Pr3Program.WriteBone | Fbx2Pr3/Program.cs:93-125 | Appends the bone record, with the flag byte built bit by bit |
| Fbx2Pr3Program.WriteMatrix | Fbx2Pr3/Program.cs:110-125 | Appends A1..D4 |
| Fbx2Pr3Program.WriteRow | Fbx2Pr3/Program.cs:110-113 | Appends four entries |

## Left out

- COLLADA reading (`AssembleMeshes`, `AssembleScene`, `ReadVecArray`, `ParseFloats`, `ParseInts`): a mesh arrives already parsed, as positions, optional normal and texture sources, the input count and the index stream.
- The Assimp importer and its `Scene` and `Node` types: the scene is a parameter, and the node tree is a value datatype. `Children.Remove(armature)` is modelled as removing that child from the root by its position. This matches the source only when the armature is a direct child of the root; otherwise the removal finds nothing and the tree is unchanged, as in the model.
- File I/O, `StreamWriter`, Brotli compression and `BinaryWriter` plumbing: a file is the sequence of `Write` tokens.
- UTF-8 encoding: a string's bytes are one token carrying the string, and only their length is stated (`Utf8Length`). A NUL inside a name, which would make a reader stop early, is not modelled.
- Float semantics: vectors and matrices are bit patterns that are only copied. The float comparisons of `HalfFloat(float)` are written on IEEE bit patterns.
- Fbx2Pr3/ObjectDumper.cs (reflection-driven debug output), `Pr3Bone.ToString` and `GetHalfPrecisionAsShort`: these are formatting or trivial accessors.
- Int32 overflow of counts written with `Write(int)`: counts are unbounded integers.
- Pr3Tools' own `Pr3Model.FromCollada` is not part of this model. Its `Main` calls it; it is modelled by Fbx2Pr3's `Pr3Model` (module `Pr3Models`), on the assumption that Pr3Tools' class has the same shape.
- `Pr3ToolsProgram.ConvertCodes`: `Load` never returns null, so the exit code -2 is never produced and no case models it.
- The helper methods `WriteObject`, `WriteMesh`, `WriteCounts`, `WriteVectors`, `WriteUvs`, `WriteFaces`, `WriteFace`, `WriteBone`, `WriteRow`, `WriteBones` and `AddPositions` split loops that the source writes inline. They add no behaviour.
- `HandleAlreadyProcessedVertex` recurses on the duplicate in the source. The recursion is a tail call, so both loaders write it as a loop.
- Welding.MeshWelds: a corner whose normal is -1 leaves the vertex it claims unset, and a later corner may claim that vertex again. For such corners the emitted index is stated to name the corner's position only, not its pair.
- Exceptions are not distinguished by type: each one is the result None (or `Crash` for `Main`), and partial state after an exception is not modelled.

## Findings

| source | as written | input that shows it | evidently intended | confidence | as-written member | corrected member |
|---|---|---|---|---|---|---|
| Pr3Tools/HalfFloat.cs:133 | `val = (fbits & 0x7fffffff) + 0x1000` is a signed `int`; for magnitudes from 0x7ffff000 up it wraps negative, every `val >=` test fails, and the NaN is encoded as a signed zero | the NaN 0x7fffffff encodes as 0x0000; the float constructor accepts every NaN, so `HalfFloat.FromSingle` stores this zero | a NaN encodes as a half NaN (0x7fff here) | not executed | HalfFloats.NaNEncodesAsZero | HalfFloats.FromFullPrecisionCorrected |
| Pr3Tools/HalfFloat.cs:139 | the finite/non-finite test `val < 0x7f800000` uses the rounded magnitude, so finite magnitudes 0x7f7ff000 to 0x7f7fffff are treated as non-finite | float.MaxValue 0x7f7fffff encodes as NaN 0x7fff. The fault is latent: FromFullPrecision is private, and its only caller, the float constructor, rejects magnitudes above 32767 at Pr3Tools/HalfFloat.cs:54-57 first (`AcceptedEncodesFinite`) | finite overflow saturates to infinity 0x7c00 | not executed | HalfFloats.MaxValueEncodesAsNaN | HalfFloats.FromFullPrecisionCorrected |
