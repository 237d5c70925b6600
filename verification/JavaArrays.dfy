/** The library array copies the program relies on. */
module JavaArrays {

  /** System.arraycopy between two different arrays. */
  method ArrayCopy<T>(src: array<T>, srcPos: nat, dst: array<T>, dstPos: nat, length: nat)
    requires src != dst && srcPos + length <= src.Length && dstPos + length <= dst.Length
    modifies dst
    ensures dst[..] == old(dst[..dstPos]) + src[srcPos..srcPos + length] + old(dst[dstPos + length..])
  {
    for i := 0 to length
      invariant forall k :: 0 <= k < dst.Length ==>
        dst[k] == if dstPos <= k < dstPos + i then src[srcPos + (k - dstPos)] else old(dst[k])
    {
      dst[dstPos + i] := src[srcPos + i];
    }
  }
}
