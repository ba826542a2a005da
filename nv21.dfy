/** Assembly of one NV21 buffer from the three planes of a camera frame, as done by
    `feedInputTensorFrame` before the colour conversion: the Y plane, then the V plane,
    then the U plane, copied into a freshly allocated byte array. */
module Nv21 {

  /** A Java `byte`. */
  newtype JByte = x: int | -128 <= x < 128

  /** Copies all of `src` into `dst` starting at `offset`, as a relative bulk get of a
      buffer wrapping `src` does; every other element of `dst` is left alone. */
  method CopyPlane(src: array<JByte>, dst: array<JByte>, offset: nat)
    requires src != dst
    requires offset + src.Length <= dst.Length
    modifies dst
    ensures dst[offset..offset + src.Length] == src[..]
    ensures dst[..offset] == old(dst[..offset])
    ensures dst[offset + src.Length..] == old(dst[offset + src.Length..])
  {
    for k := 0 to src.Length
      invariant dst[offset..offset + k] == src[..k]
      invariant dst[..offset] == old(dst[..offset])
      invariant dst[offset + k..] == old(dst[offset + k..])
    {
      dst[offset + k] := src[k];
    }
  }

  /** The NV21 buffer: Y first, then V, then U (V before U). */
  method AssembleNv21(y: array<JByte>, u: array<JByte>, v: array<JByte>) returns (data: array<JByte>)
    ensures fresh(data)
    ensures data.Length == y.Length + u.Length + v.Length
    ensures data[..y.Length] == y[..]
    ensures data[y.Length..y.Length + v.Length] == v[..]
    ensures data[y.Length + v.Length..] == u[..]
    ensures data[..] == y[..] + v[..] + u[..]
  {
    data := new JByte[y.Length + u.Length + v.Length];
    CopyPlane(y, data, 0);
    CopyPlane(v, data, y.Length);
    CopyPlane(u, data, y.Length + v.Length);
    assert data[..] == data[..y.Length] + data[y.Length..y.Length + v.Length] + data[y.Length + v.Length..];
  }
}
