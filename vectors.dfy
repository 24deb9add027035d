/**
 * The engine's small vector and colour records, generic in their component type:
 * the binary codec treats components as opaque 32-bit float patterns, the
 * geometry treats them as real numbers.
 */
module Vectors {
  datatype Vector2<F> = Vector2(x: F, y: F)

  datatype Vector3<F> = Vector3(x: F, y: F, z: F)

  datatype Vector4<F> = Vector4(x: F, y: F, z: F, w: F)

  datatype ColorRGBA<F> = ColorRGBA(r: F, g: F, b: F, a: F)
}
