/** The scene object of include/resource/model.h: a mesh, a material and a
    model transform. Material is not part of this model, so it is a type
    parameter; the mesh is held by reference, as the source's pointer. */
module SceneModel {
  import opened Geometry
  import Mesh

  class Model<Material> {
    var meshRes: Mesh.Mesh?
    var materialRes: Material
    var transform: Matrix

    /** Model(mesh, material): the transform starts as the 4x4 identity. */
    constructor(mesh: Mesh.Mesh?, material: Material)
      ensures meshRes == mesh && materialRes == material
      ensures transform == Identity(4, 4)
      ensures IsMatrix(transform, 4, 4)
    {
      meshRes := mesh;
      materialRes := material;
      transform := Identity(4, 4);
    }

    /** getMesh(). */
    function GetMesh(): (r: Mesh.Mesh?)
      reads this
      ensures r == meshRes
    {
      meshRes
    }

    /** getMaterial(). */
    function GetMaterial(): (r: Material)
      reads this
      ensures r == materialRes
    {
      materialRes
    }

    /** getTransform(). */
    function GetTransform(): (r: Matrix)
      reads this
      ensures r == transform
    {
      transform
    }

    /** setTransform(m): replaces the transform and nothing else. */
    method SetTransform(m: Matrix)
      requires IsMatrix(m, 4, 4)
      modifies this
      ensures transform == m
      ensures meshRes == old(meshRes) && materialRes == old(materialRes)
    {
      transform := m;
    }
  }
}
