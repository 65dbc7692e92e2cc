/**
 * The Pr3Tools converter (Pr3Tools/Program.cs): load the COLLADA geometry, build the PR3 model
 * and write it. The file is the magic "PR3", the version 1 and the object count, then per object
 * its name, its material, its matrix, its vertices, normals and texture coordinates, and its
 * faces. Counts are int32 and floats are written raw.
 *
 * Reading the COLLADA file is not modelled: its meshes and scene nodes are parameters. The
 * model of Pr3Tools' own Pr3Model is Fbx2Pr3's (module Pr3Models).
 */
module Pr3ToolsProgram {
  import opened Wrappers
  import opened Collada
  import opened Tokens
  import opened Pr3Models
  import Pr3ToolsLoader

  const Magic: string := "PR3"
  const Version: int := 1

  function FaceTokens(f: FacePointer): seq<Token> {
    [Int32(f.a), Int32(f.b), Int32(f.c)]
  }

  /** WriteLengthCodedVectors: the count, then x, y and z of every vector. */
  function VectorBlock(vs: seq<Vector3>): seq<Token> {
    [Int32(|vs|)] + Repeat(vs, VectorTokens)
  }

  /** WriteLengthCodedFaces: the count, then a, b and c of every face. */
  function FaceBlock(faces: seq<FacePointer>): seq<Token> {
    [Int32(|faces|)] + Repeat(faces, FaceTokens)
  }

  /** WriteMatrix4: every entry of the list, with no count. */
  function MatrixBlock(matrix: seq<Float>): seq<Token> {
    Repeat(matrix, SingleTokens)
  }

  function ObjectTokens(o: Pr3Object): seq<Token> {
    NtString(o.name) + NtString(o.materialName) + MatrixBlock(o.transformationMatrix)
      + VectorBlock(o.vertices) + VectorBlock(o.normals) + VectorBlock(o.uvs) + FaceBlock(o.faces)
  }

  function Header(count: int): seq<Token> {
    [Chars(Magic), Int32(Version), Int32(count)]
  }

  /** WriteOutputFile: the header, then every object in order. */
  function FileTokens(objects: seq<Pr3Object>): seq<Token> {
    Header(|objects|) + Repeat(objects, ObjectTokens)
  }

  /**
   * Main: fewer than two arguments exit with -1. Otherwise the geometry is loaded and turned
   * into the model, either of which may throw, and the file is written and the exit code is 0.
   * Load never returns null, so the exit code -2 is never produced.
   */
  function Convert(argCount: nat, meshes: seq<(string, Mesh)>, scene: seq<NodeData>): Outcome {
    if argCount < 2 then Exit(-1, None)
    else match Pr3ToolsLoader.LoadAll(meshes, scene)
      case None => Crash
      case Some(geometry) =>
        match Objects(geometry)
        case None => Crash
        case Some(objects) => Exit(0, Some(FileTokens(objects)))
  }

  // ---------------------------------------------------------------------------------------------
  // Reading a file back

  function ReadFace(ts: seq<Token>): Option<(FacePointer, seq<Token>)> {
    if |ts| >= 3 && ts[0].Int32? && ts[1].Int32? && ts[2].Int32? then
      Some((FacePointer(ts[0].value, ts[1].value, ts[2].value), ts[3..]))
    else None
  }

  function ReadVectorBlock(ts: seq<Token>): Option<(seq<Vector3>, seq<Token>)> {
    match ReadInt(ts)
    case None => None
    case Some((n, rest)) => if n < 0 then None else ReadRepeat(rest, n, ReadVector)
  }

  function ReadFaceBlock(ts: seq<Token>): Option<(seq<FacePointer>, seq<Token>)> {
    match ReadInt(ts)
    case None => None
    case Some((n, rest)) => if n < 0 then None else ReadRepeat(rest, n, ReadFace)
  }

  /** An object as a reader takes it: the matrix has no count, so a reader takes 16 entries. */
  function ReadObject(ts: seq<Token>): Option<(Pr3Object, seq<Token>)> {
    match ReadNtString(ts)
    case None => None
    case Some((name, ts1)) =>
      match ReadNtString(ts1)
      case None => None
      case Some((material, ts2)) =>
        match ReadRepeat(ts2, 16, ReadSingle)
        case None => None
        case Some((matrix, ts3)) =>
          match ReadVectorBlock(ts3)
          case None => None
          case Some((vertices, ts4)) =>
            match ReadVectorBlock(ts4)
            case None => None
            case Some((normals, ts5)) =>
              match ReadVectorBlock(ts5)
              case None => None
              case Some((uvs, ts6)) =>
                match ReadFaceBlock(ts6)
                case None => None
                case Some((faces, ts7)) =>
                  Some((Pr3Object(name, vertices, faces, normals, uvs, matrix, material), ts7))
  }

  /** A whole file: the header, as many objects as it announces, and nothing after them. */
  function ReadFile(ts: seq<Token>): Option<seq<Pr3Object>> {
    if |ts| < 3 || ts[0] != Chars(Magic) || ts[1] != Int32(Version) || !ts[2].Int32? || ts[2].value < 0 then None
    else match ReadRepeat(ts[3..], ts[2].value, ReadObject)
      case None => None
      case Some((objects, rest)) => if rest == [] then Some(objects) else None
  }

  // ---------------------------------------------------------------------------------------------
  // Properties

  /** A vector block takes four bytes for the count and twelve per vector. */
  lemma VectorBlockSize(vs: seq<Vector3>)
    ensures Size(VectorBlock(vs)) == 4 + 12 * |vs|
  {
    forall k | 0 <= k < |vs|
      ensures Size(VectorTokens(vs[k])) == 12
    {
      SizeOfThree(Single(vs[k].x), Single(vs[k].y), Single(vs[k].z));
    }
    RepeatSize(vs, VectorTokens, 12);
    SizeAppend([Int32(|vs|)], Repeat(vs, VectorTokens));
    assert Size([Int32(|vs|)]) == Size([]) + 4;
  }

  /** A face block takes four bytes for the count and twelve per face. */
  lemma FaceBlockSize(faces: seq<FacePointer>)
    ensures Size(FaceBlock(faces)) == 4 + 12 * |faces|
  {
    forall k | 0 <= k < |faces|
      ensures Size(FaceTokens(faces[k])) == 12
    {
      SizeOfThree(Int32(faces[k].a), Int32(faces[k].b), Int32(faces[k].c));
    }
    RepeatSize(faces, FaceTokens, 12);
    SizeAppend([Int32(|faces|)], Repeat(faces, FaceTokens));
    assert Size([Int32(|faces|)]) == Size([]) + 4;
  }

  /** The header is eleven bytes: three for the magic, four for the version, four for the count. */
  lemma HeaderSize(count: int)
    ensures Size(Header(count)) == 11
  {
    SizeOfThree(Chars(Magic), Int32(Version), Int32(count));
    var m := Magic;
    assert m[..2] == "PR" && "PR"[..1] == "P" && "P"[..0] == "";
    assert Utf8Length("P") == 1;
    assert Utf8Length("PR") == 2;
    assert Utf8Length(m) == 3;
  }

  lemma VectorBlockRoundTrip(vs: seq<Vector3>, rest: seq<Token>)
    ensures ReadVectorBlock(VectorBlock(vs) + rest) == Some((vs, rest))
  {
    VectorsRoundTrip(vs, rest);
    assert (VectorBlock(vs) + rest)[1..] == Repeat(vs, VectorTokens) + rest;
  }

  lemma FaceBlockRoundTrip(faces: seq<FacePointer>, rest: seq<Token>)
    ensures ReadFaceBlock(FaceBlock(faces) + rest) == Some((faces, rest))
  {
    forall k, r | 0 <= k < |faces|
      ensures ReadFace(FaceTokens(faces[k]) + r) == Some((faces[k], r))
    {
      assert (FaceTokens(faces[k]) + r)[3..] == r;
    }
    RepeatRoundTrip(faces, FaceTokens, ReadFace, rest);
    assert (FaceBlock(faces) + rest)[1..] == Repeat(faces, FaceTokens) + rest;
  }

  lemma MatrixRoundTrip(matrix: seq<Float>, rest: seq<Token>)
    ensures ReadRepeat(MatrixBlock(matrix) + rest, |matrix|, ReadSingle) == Some((matrix, rest))
  {
    SinglesRoundTrip(matrix, rest);
  }

  /** An object's tokens followed by more, grouped from the front as a reader takes them. */
  lemma ObjectTokensThen(o: Pr3Object, rest: seq<Token>)
    ensures ObjectTokens(o) + rest ==
      NtString(o.name) + (NtString(o.materialName) + (MatrixBlock(o.transformationMatrix) +
        (VectorBlock(o.vertices) + (VectorBlock(o.normals) + (VectorBlock(o.uvs) + (FaceBlock(o.faces) + rest))))))
  {
    var p1 := NtString(o.name);
    var p2 := p1 + NtString(o.materialName);
    var p3 := p2 + MatrixBlock(o.transformationMatrix);
    var p4 := p3 + VectorBlock(o.vertices);
    var p5 := p4 + VectorBlock(o.normals);
    var p6 := p5 + VectorBlock(o.uvs);
    var t6 := FaceBlock(o.faces) + rest;
    var t5 := VectorBlock(o.uvs) + t6;
    var t4 := VectorBlock(o.normals) + t5;
    var t3 := VectorBlock(o.vertices) + t4;
    var t2 := MatrixBlock(o.transformationMatrix) + t3;
    var t1 := NtString(o.materialName) + t2;
    AppendAssoc(p6, FaceBlock(o.faces), rest);
    AppendAssoc(p5, VectorBlock(o.uvs), t6);
    AppendAssoc(p4, VectorBlock(o.normals), t5);
    AppendAssoc(p3, VectorBlock(o.vertices), t4);
    AppendAssoc(p2, MatrixBlock(o.transformationMatrix), t3);
    AppendAssoc(p1, NtString(o.materialName), t2);
  }

  /** An object whose matrix has the 16 entries of a 4x4 matrix reads back as itself. */
  lemma ObjectRoundTrip(o: Pr3Object, rest: seq<Token>)
    requires |o.transformationMatrix| == 16
    ensures ReadObject(ObjectTokens(o) + rest) == Some((o, rest))
  {
    var ts7 := rest;
    var ts6 := FaceBlock(o.faces) + ts7;
    var ts5 := VectorBlock(o.uvs) + ts6;
    var ts4 := VectorBlock(o.normals) + ts5;
    var ts3 := VectorBlock(o.vertices) + ts4;
    var ts2 := MatrixBlock(o.transformationMatrix) + ts3;
    var ts1 := NtString(o.materialName) + ts2;
    ObjectTokensThen(o, rest);
    NtStringRoundTrip(o.name, ts1);
    NtStringRoundTrip(o.materialName, ts2);
    MatrixRoundTrip(o.transformationMatrix, ts3);
    VectorBlockRoundTrip(o.vertices, ts4);
    VectorBlockRoundTrip(o.normals, ts5);
    VectorBlockRoundTrip(o.uvs, ts6);
    FaceBlockRoundTrip(o.faces, ts7);
  }

  /**
   * The matrix is written without a count: an object whose matrix does not have exactly 16
   * entries cannot be read back, whatever follows it.
   */
  lemma ObjectNeedsSixteen(o: Pr3Object, rest: seq<Token>)
    requires |o.transformationMatrix| != 16
    ensures ReadObject(ObjectTokens(o) + rest).None?
  {
    var m := o.transformationMatrix;
    var ts3 := VectorBlock(o.vertices) + (VectorBlock(o.normals) + (VectorBlock(o.uvs) + (FaceBlock(o.faces) + rest)));
    var ts2 := MatrixBlock(m) + ts3;
    var ts1 := NtString(o.materialName) + ts2;
    ObjectTokensThen(o, rest);
    NtStringRoundTrip(o.name, ts1);
    NtStringRoundTrip(o.materialName, ts2);
    MatrixTooLong(m, ts3);
  }

  /**
   * A matrix block of other than 16 entries, followed by a vector block, does not read as 16
   * entries: too few reach the count, too many leave an entry where the count should be.
   */
  lemma MatrixTooLong(m: seq<Float>, ts3: seq<Token>)
    requires |m| != 16 && ts3 != [] && ts3[0].Int32?
    ensures match ReadRepeat(MatrixBlock(m) + ts3, 16, ReadSingle)
      case None => true
      case Some((_, after)) => ReadVectorBlock(after).None?
  {
    var ts2 := MatrixBlock(m) + ts3;
    if |m| < 16 {
      MatrixRoundTrip(m, ts3);
      assert ReadRepeat(ts2, |m| + 1, ReadSingle).None?;
      ReadRepeatFailsOnward(ts2, |m| + 1, 16, ReadSingle);
    } else {
      var front := m[..16];
      SplitAt(m, 16);
      RepeatAppend(front, [m[16]] + m[17..], SingleTokens);
      RepeatCons(m[16], m[17..], SingleTokens);
      var after := Repeat(m[17..], SingleTokens) + ts3;
      AppendAssoc(MatrixBlock(front), [Single(m[16])] + Repeat(m[17..], SingleTokens), ts3);
      AppendAssoc([Single(m[16])], Repeat(m[17..], SingleTokens), ts3);
      assert ts2 == MatrixBlock(front) + ([Single(m[16])] + after);
      MatrixRoundTrip(front, [Single(m[16])] + after);
    }
  }

  /**
   * A file reads back as the objects written exactly when every object's matrix has 16
   * entries.
   */
  lemma FileRoundTrip(objects: seq<Pr3Object>)
    ensures ReadFile(FileTokens(objects)) == Some(objects) <==>
      forall k :: 0 <= k < |objects| ==> |objects[k].transformationMatrix| == 16
  {
    var ts := FileTokens(objects);
    var body := Repeat(objects, ObjectTokens);
    assert ts[3..] == body;
    assert body + [] == body;
    if forall k :: 0 <= k < |objects| ==> |objects[k].transformationMatrix| == 16 {
      forall k, r | 0 <= k < |objects|
        ensures ReadObject(ObjectTokens(objects[k]) + r) == Some((objects[k], r))
      {
        ObjectRoundTrip(objects[k], r);
      }
      RepeatRoundTrip(objects, ObjectTokens, ReadObject, []);
    } else {
      var k :| 0 <= k < |objects| && |objects[k].transformationMatrix| != 16;
      FirstBadMatrix(objects, k);
    }
  }

  /** With a bad matrix somewhere, reading the objects fails at the first one. */
  lemma FirstBadMatrix(objects: seq<Pr3Object>, k: nat)
    requires k < |objects| && |objects[k].transformationMatrix| != 16
    ensures ReadRepeat(Repeat(objects, ObjectTokens) + [], |objects|, ReadObject).None?
  {
    if exists j :: 0 <= j < k && |objects[j].transformationMatrix| != 16 {
      var j :| 0 <= j < k && |objects[j].transformationMatrix| != 16;
      FirstBadMatrix(objects, j);
    } else {
      forall j, r | 0 <= j < k
        ensures ReadObject(ObjectTokens(objects[j]) + r) == Some((objects[j], r))
      {
        ObjectRoundTrip(objects[j], r);
      }
      forall r
        ensures ReadObject(ObjectTokens(objects[k]) + r).None?
      {
        ObjectNeedsSixteen(objects[k], r);
      }
      RepeatReadFails(objects, ObjectTokens, ReadObject, [], k);
    }
  }

  /**
   * Main exits with -1 exactly when given fewer than two arguments, never with -2, and with 0
   * only after writing the header and every loaded object, one per mesh.
   */
  lemma ConvertCodes(argCount: nat, meshes: seq<(string, Mesh)>, scene: seq<NodeData>)
    ensures Convert(argCount, meshes, scene).Exit? ==>
      Convert(argCount, meshes, scene).code in {-1, 0}
    ensures (Convert(argCount, meshes, scene) == Exit(-1, None)) <==> argCount < 2
    ensures Convert(argCount, meshes, scene).Exit? && Convert(argCount, meshes, scene).code == 0 ==>
      var objects := Objects(Pr3ToolsLoader.LoadAll(meshes, scene).value).value;
      && |objects| == |meshes|
      && Convert(argCount, meshes, scene).file == Some(FileTokens(objects))
  {
    if argCount >= 2 && Pr3ToolsLoader.LoadAll(meshes, scene).Some? {
      var geometry := Pr3ToolsLoader.LoadAll(meshes, scene).value;
      Pr3ToolsLoader.LoadAllShape(meshes, scene);
      ObjectsShape(geometry);
    }
  }

  // ---------------------------------------------------------------------------------------------
  // The writer

  /** Main, with the loader and the writer run as the source runs them. */
  method Run(argCount: nat, meshes: seq<(string, Mesh)>, scene: seq<NodeData>) returns (outcome: Outcome)
    ensures outcome == Convert(argCount, meshes, scene)
  {
    if argCount < 2 {
      return Exit(-1, None);
    }
    var loader := new Pr3ToolsLoader.GeometryLoader(meshes, scene);
    var geometry := loader.Load();
    if geometry.None? {
      return Crash;
    }
    var objects := CollectObjects(geometry.value);
    if objects.None? {
      return Crash;
    }
    var file := WriteOutputFile(objects.value);
    return Exit(0, Some(file));
  }

  /** WriteOutputFile: the tokens written to a new file. */
  method WriteOutputFile(objects: seq<Pr3Object>) returns (file: seq<Token>)
    ensures file == FileTokens(objects)
  {
    var f := new BinaryWriter();
    f.Write(Chars(Magic));
    f.Write(Int32(Version));
    f.Write(Int32(|objects|));
    for i := 0 to |objects|
      invariant f.written == Header(|objects|) + Repeat(objects[..i], ObjectTokens)
    {
      WriteObject(f, objects[i]);
      AppendAssoc(Header(|objects|), Repeat(objects[..i], ObjectTokens), ObjectTokens(objects[i]));
      assert objects[..i + 1][..i] == objects[..i];
    }
    assert objects[..|objects|] == objects;
    return f.written;
  }

  /** The body of WriteOutputFile's loop: one object. */
  method WriteObject(f: BinaryWriter, pr3Object: Pr3Object)
    modifies f
    ensures f.written == old(f.written) + ObjectTokens(pr3Object)
  {
    ghost var start := f.written;
    f.WriteNtString(pr3Object.name);
    ghost var p := NtString(pr3Object.name);
    f.WriteNtString(pr3Object.materialName);
    AppendAssoc(start, p, NtString(pr3Object.materialName));
    p := p + NtString(pr3Object.materialName);
    WriteMatrix4(f, pr3Object.transformationMatrix);
    AppendAssoc(start, p, MatrixBlock(pr3Object.transformationMatrix));
    p := p + MatrixBlock(pr3Object.transformationMatrix);
    WriteLengthCodedVectors(f, pr3Object.vertices);
    AppendAssoc(start, p, VectorBlock(pr3Object.vertices));
    p := p + VectorBlock(pr3Object.vertices);
    WriteLengthCodedVectors(f, pr3Object.normals);
    AppendAssoc(start, p, VectorBlock(pr3Object.normals));
    p := p + VectorBlock(pr3Object.normals);
    WriteLengthCodedVectors(f, pr3Object.uvs);
    AppendAssoc(start, p, VectorBlock(pr3Object.uvs));
    p := p + VectorBlock(pr3Object.uvs);
    WriteLengthCodedFaces(f, pr3Object.faces);
    AppendAssoc(start, p, FaceBlock(pr3Object.faces));
  }

  method WriteLengthCodedFaces(f: BinaryWriter, faces: seq<FacePointer>)
    modifies f
    ensures f.written == old(f.written) + FaceBlock(faces)
  {
    f.Write(Int32(|faces|));
    for i := 0 to |faces|
      invariant f.written == old(f.written) + [Int32(|faces|)] + Repeat(faces[..i], FaceTokens)
    {
      f.Write(Int32(faces[i].a));
      f.Write(Int32(faces[i].b));
      f.Write(Int32(faces[i].c));
      assert faces[..i + 1][..i] == faces[..i];
    }
    assert faces[..|faces|] == faces;
  }

  method WriteMatrix4(f: BinaryWriter, matrix: seq<Float>)
    modifies f
    ensures f.written == old(f.written) + MatrixBlock(matrix)
  {
    for i := 0 to |matrix|
      invariant f.written == old(f.written) + Repeat(matrix[..i], SingleTokens)
    {
      f.Write(Single(matrix[i]));
      assert matrix[..i + 1][..i] == matrix[..i];
    }
    assert matrix[..|matrix|] == matrix;
  }

  method WriteLengthCodedVectors(f: BinaryWriter, v: seq<Vector3>)
    modifies f
    ensures f.written == old(f.written) + VectorBlock(v)
  {
    f.Write(Int32(|v|));
    for i := 0 to |v|
      invariant f.written == old(f.written) + [Int32(|v|)] + Repeat(v[..i], VectorTokens)
    {
      f.Write(Single(v[i].x));
      f.Write(Single(v[i].y));
      f.Write(Single(v[i].z));
      assert v[..i + 1][..i] == v[..i];
    }
    assert v[..|v|] == v;
  }
}
