/**
 * The mesh records of a renderable model (include/khepri/renderer/model.hpp),
 * generic in the float type of their coordinates.
 */
module Meshes {
  import opened Bytes
  import opened Vectors

  datatype Vertex<F> = Vertex(position: Vector3<F>, normal: Vector3<F>)

  /** Every consecutive triplet of indices is one triangle. */
  datatype Mesh<F> = Mesh(vertices: seq<Vertex<F>>, indices: seq<Uint16>)

  /** A model as stored in a file: its meshes. */
  datatype Model<F> = Model(meshes: seq<Mesh<F>>)
}
