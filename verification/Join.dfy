/** A disk that is cut into pieces of equal size. */
module Join {
  import opened Bytes

  ghost predicate Pieces(cs: seq<seq<Byte>>, size: nat) {
    forall i :: 0 <= i < |cs| ==> |cs[i]| == size
  }

  /** The flat disk. */
  function Flat(cs: seq<seq<Byte>>): seq<Byte> {
    if cs == [] then [] else cs[0] + Flat(cs[1..])
  }

  lemma {:induction false} FlatSize(cs: seq<seq<Byte>>, size: nat)
    requires Pieces(cs, size)
    ensures |Flat(cs)| == |cs| * size
  {
    if cs != [] {
      FlatSize(cs[1..], size);
      assert |cs| * size == size + (|cs| - 1) * size;
    }
  }

  lemma {:induction false} Scaled(a: nat, b: nat, size: nat)
    requires a <= b
    ensures 0 <= a * size <= b * size
    decreases b
  {
    if a < b {
      Scaled(a, b - 1, size);
      assert b * size == (b - 1) * size + size;
    }
  }

  lemma InsidePiece(n: nat, k: nat, o: nat, len: nat, size: nat)
    requires k < n && o + len <= size
    ensures 0 <= k * size + o && k * size + o + len <= n * size
  {
    Scaled(k + 1, n, size);
    Scaled(0, k, size);
    assert (k + 1) * size == k * size + size;
  }

  /** A range inside one piece, read from the flat disk. */
  lemma {:induction false} FlatSlice(cs: seq<seq<Byte>>, size: nat, k: nat, o: nat, len: nat)
    requires Pieces(cs, size) && k < |cs| && o + len <= size
    ensures 0 <= k * size + o && k * size + o + len <= |Flat(cs)|
    ensures Flat(cs)[k * size + o..k * size + o + len] == cs[k][o..o + len]
    decreases k
  {
    FlatSize(cs, size);
    InsidePiece(|cs|, k, o, len, size);
    if k > 0 {
      FlatSlice(cs[1..], size, k - 1, o, len);
      assert k * size == size + (k - 1) * size;
      assert Flat(cs)[k * size + o..k * size + o + len] == Flat(cs[1..])[(k - 1) * size + o..(k - 1) * size + o + len];
    } else {
      assert Flat(cs)[o..o + len] == cs[0][o..o + len];
    }
  }

  /** Overwriting a range inside one piece is overwriting it on the flat disk. */
  lemma {:induction false} FlatOverwrite(cs: seq<seq<Byte>>, size: nat, k: nat, o: nat, data: seq<Byte>)
    requires Pieces(cs, size) && k < |cs| && o + |data| <= size
    ensures 0 <= k * size + o && k * size + o + |data| <= |Flat(cs)|
    ensures Flat(cs[k := Overwrite(cs[k], o, data)]) == Overwrite(Flat(cs), k * size + o, data)
    decreases k
  {
    FlatSize(cs, size);
    InsidePiece(|cs|, k, o, |data|, size);
    var cs' := cs[k := Overwrite(cs[k], o, data)];
    if k > 0 {
      FlatOverwrite(cs[1..], size, k - 1, o, data);
      assert k * size == size + (k - 1) * size;
      assert cs'[1..] == cs[1..][k - 1 := Overwrite(cs[k], o, data)];
      assert Overwrite(Flat(cs), k * size + o, data) == cs[0] + Overwrite(Flat(cs[1..]), (k - 1) * size + o, data);
    } else {
      assert cs'[1..] == cs[1..];
      assert Overwrite(Flat(cs), o, data) == Overwrite(cs[0], o, data) + Flat(cs[1..]);
    }
  }

  /** Two adjacent overwrites are one. */
  lemma OverwriteTwice(flat: seq<Byte>, pos: nat, a: seq<Byte>, b: seq<Byte>)
    requires pos + |a| + |b| <= |flat|
    ensures Overwrite(Overwrite(flat, pos, a), pos + |a|, b) == Overwrite(flat, pos, a + b)
  {}

  /** Different pieces make different disks. */
  lemma {:induction false} FlatInjective(a: seq<seq<Byte>>, b: seq<seq<Byte>>, size: nat)
    requires Pieces(a, size) && Pieces(b, size) && |a| == |b|
    ensures Flat(a) == Flat(b) <==> a == b
  {
    hide Flat;
    if Flat(a) == Flat(b) {
      forall k | 0 <= k < |a| ensures a[k] == b[k] {
        FlatSlice(a, size, k, 0, size);
        FlatSlice(b, size, k, 0, size);
        assert a[k] == a[k][0..size] && b[k] == b[k][0..size];
      }
    }
  }
}
