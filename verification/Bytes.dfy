/** Bytes, zero blocks and in-place overwriting: the vocabulary shared by every device model. */
module Bytes {
  type Byte = x: int | 0 <= x < 256

  function Zeros(n: nat): (z: seq<Byte>)
    ensures |z| == n && forall i :: 0 <= i < n ==> z[i] == 0
  {
    seq(n, _ => 0)
  }

  /** What pkg/util/zeros.go decides word by word. The empty slice counts as zeros. */
  predicate IsZeros(s: seq<Byte>) {
    forall i :: 0 <= i < |s| ==> s[i] == 0
  }

  /** `s` with `data` written over it at `pos`; the length does not change. */
  function Overwrite(s: seq<Byte>, pos: nat, data: seq<Byte>): (r: seq<Byte>)
    requires pos + |data| <= |s|
    ensures |r| == |s|
    ensures forall i :: 0 <= i < |s| ==> r[i] == if pos <= i < pos + |data| then data[i - pos] else s[i]
  {
    s[..pos] + data + s[pos + |data|..]
  }

  /** Zeros over zeros change nothing: what makes the zero-write shortcut right, and when. */
  lemma {:induction false} ZerosOverZeros(s: seq<Byte>, pos: nat, data: seq<Byte>)
    requires pos + |data| <= |s| && IsZeros(data)
    ensures Overwrite(s, pos, data) == s <==> IsZeros(s[pos..pos + |data|])
  {
    if IsZeros(s[pos..pos + |data|]) {
      assert forall i :: pos <= i < pos + |data| ==> s[i] == s[pos..pos + |data|][i - pos];
    }
  }
}
