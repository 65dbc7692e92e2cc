/**
 * The welded vertex of Fbx2Pr3/Vertex.cs (the Pr3Tools loader uses the same record).
 *
 * The source links a vertex to its next duplicate by object reference. Here every vertex lives
 * in one list (the loader's vertex list) and the link is the duplicate's position in that list.
 * Positions are a type parameter: the loaders only copy them, they never compare them.
 */
module Vertices {
  import opened Wrappers

  /** The value of an attribute index that has not been assigned. */
  const NoIndex: int := -1

  datatype Vertex<P> = Vertex(index: int, position: P, normalIndex: int, textureIndex: int,
                              duplicate: Option<nat>)
  {
    /** A vertex counts as used once it has a normal; the texture index is not consulted. */
    predicate IsSet() {
      normalIndex != NoIndex
    }

    predicate HasSameInformation(normal: int, texture: int) {
      texture == textureIndex && normal == normalIndex
    }
  }

  /** The constructor: a vertex for one source position, with no attributes and no duplicate. */
  function NewVertex<P>(index: int, position: P): (v: Vertex<P>)
    ensures v.index == index && v.position == position
    ensures v.normalIndex == NoIndex && v.textureIndex == NoIndex && v.duplicate == None
    ensures !v.IsSet()
  {
    Vertex(index, position, NoIndex, NoIndex, None)
  }
}
