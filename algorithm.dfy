/** The one standard-library algorithm the resamplers use. */
module Algorithm {

  /** `std::copy_n(src + from, count, dst + to)` for non-overlapping arrays. */
  method CopyN<T>(src: array<T>, from: nat, count: nat, dst: array<T>, to: nat)
    requires src != dst
    requires from + count <= src.Length && to + count <= dst.Length
    modifies dst
    ensures forall j :: to <= j < to + count ==> dst[j] == src[from + j - to]
    ensures forall j :: 0 <= j < dst.Length && !(to <= j < to + count) ==> dst[j] == old(dst[j])
  {
    var k := 0;
    while k < count
      invariant 0 <= k <= count
      invariant forall j :: to <= j < to + k ==> dst[j] == src[from + j - to]
      invariant forall j :: 0 <= j < dst.Length && !(to <= j < to + k) ==> dst[j] == old(dst[j])
    {
      dst[to + k] := src[from + k];
      k := k + 1;
    }
  }
}
