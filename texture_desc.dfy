/**
 * The description of a loaded texture (include/khepri/renderer/texture_desc.hpp):
 * its dimensionality, size, mip levels, pixel format, and the subresources
 * (one per mip level and array slice) that index its raw data.
 */
module Textures {
  import opened Bytes

  datatype TextureDimension = Texture1D | Texture2D | Texture3D | TextureCubemap

  /**
   * The pixel formats the loaders produce: two 8-bit-per-channel layouts
   * and the three block-compressed formats.
   */
  datatype PixelFormat = R8G8B8A8Srgb | B8G8R8A8Srgb | Bc1Srgb | Bc2Srgb | Bc3Srgb

  /** Where one subresource lies in the texture data, and its row and slice strides. */
  datatype Subresource = Subresource(dataOffset: nat, dataSize: nat, stride: nat, depthStride: nat)

  datatype TextureDesc = TextureDesc(
    dimension: TextureDimension, width: nat, height: nat, depthArraySize: nat, mipLevels: nat,
    pixelFormat: PixelFormat, subresources: seq<Subresource>, data: seq<Byte>)
  {
    /** What the constructor asserts of its arguments. */
    predicate Valid()
    {
      width >= 1 && height >= 1 && (dimension == Texture3D ==> depthArraySize >= 1) &&
      mipLevels >= 1 && |subresources| > 0 && |data| > 0
    }

    /** The depth: at least 1, and exactly 1 unless the texture is three-dimensional. */
    function Depth(): (r: nat)
      ensures Valid() ==> r >= 1
      ensures dimension != Texture3D ==> r == 1
    {
      if dimension == Texture3D then depthArraySize else 1
    }

    /** The array size: 0 (no array) for a three-dimensional texture. */
    function ArraySize(): (r: nat)
      ensures dimension == Texture3D ==> r == 0
    {
      if dimension != Texture3D then depthArraySize else 0
    }

    /** The subresource at an index the caller keeps within range. */
    function GetSubresource(index: nat): (r: Subresource)
      requires index < |subresources|
      ensures r in subresources
    {
      subresources[index]
    }

    /** The index of a mip level of an array slice: mip levels of one slice are adjacent. */
    function SubresourceIndex(mip: nat, arrayIndex: nat): (r: nat)
      ensures mip < mipLevels ==> r % mipLevels == mip && r / mipLevels == arrayIndex
    {
      DivModOf(mip, arrayIndex, mipLevels);
      mip + arrayIndex * mipLevels
    }
  }

  /** `mip + i * n` leaves remainder `mip` and quotient `i` when `mip < n`. */
  lemma {:induction false} DivModOf(mip: nat, i: nat, n: nat)
    ensures mip < n ==> (mip + i * n) % n == mip && (mip + i * n) / n == i
  {
    if mip < n {
      DivModUnique(mip + i * n, n, i, mip);
    }
  }

  /** A texture is never both a volume and an array: its depth is 1 or its array size is 0. */
  lemma {:induction false} VolumeOrArray(t: TextureDesc)
    ensures t.Depth() == 1 || t.ArraySize() == 0
  {
  }

  /** Distinct (mip level, array slice) pairs have distinct subresource indices. */
  lemma {:induction false} SubresourceIndexInjective(t: TextureDesc, m1: nat, a1: nat, m2: nat, a2: nat)
    requires m1 < t.mipLevels && m2 < t.mipLevels
    requires t.SubresourceIndex(m1, a1) == t.SubresourceIndex(m2, a2)
    ensures m1 == m2 && a1 == a2
  {
  }

  /** The index of a mip level of slice `a` lies in the block of slice `a`. */
  lemma {:induction false} SubresourceIndexRange(t: TextureDesc, mip: nat, a: nat)
    requires mip < t.mipLevels
    ensures a * t.mipLevels <= t.SubresourceIndex(mip, a) < (a + 1) * t.mipLevels
  {
  }
}
