/** The word copies of lz4.c. An 8-byte step reads its whole source word before it stores, which is
    what a Dafny `forall` assignment does. */
module Lz4Copy {
  import opened Bytes
  import opened Lz4Format

  const STEPSIZE := 8
  const DEC32: seq<int> := [0, 3, 2, 3, 0, 0, 0, 0]
  const DEC64: seq<int> := [0, 0, 0, -1, 0, 1, 2, 3]

  /** Every byte of `b[lo..hi]` repeats the one `offset` places before it. */
  ghost predicate Periodic(b: seq<Byte>, lo: nat, hi: nat, offset: nat) {
    offset <= lo && hi <= |b| && forall k :: lo <= k < hi ==> b[k] == b[k - offset]
  }

  ghost predicate Multiple(d: int, offset: nat)
    decreases d
  {
    1 <= offset && (d == offset || (offset < d && Multiple(d - offset, offset)))
  }

  lemma {:induction false} PeriodicAtDistance(b: seq<Byte>, lo: nat, hi: nat, offset: nat, k: nat, d: nat)
    requires Periodic(b, lo, hi, offset) && Multiple(d, offset)
    requires k < hi && lo + d <= k + offset
    ensures b[k] == b[k - d]
    decreases d
  {
    if d != offset {
      PeriodicAtDistance(b, lo, hi, offset, k - offset, d - offset);
    }
  }

  /** A step of `w` bytes from distance `d` back keeps the period when `d` is a multiple of it. */
  lemma {:induction false} StepKeepsPeriod(b: seq<Byte>, b': seq<Byte>, lo: nat, op: nat, w: nat, d: nat, offset: nat)
    requires Periodic(b, lo, op, offset) && Multiple(d, offset)
    requires w <= d && lo + d <= op + offset && op + w <= |b| == |b'|
    requires b'[..op] == b[..op]
    requires forall k :: op <= k < op + w ==> b'[k] == b[k - d]
    ensures Periodic(b', lo, op + w, offset)
  {
    forall k | lo <= k < op + w ensures b'[k] == b'[k - offset] {
      assert forall j :: 0 <= j < op ==> b'[j] == b'[..op][j] == b[..op][j] == b[j];
      if op <= k {
        if d != offset && k - offset < op {
          PeriodicAtDistance(b, lo, op, offset, k - offset, d - offset);
        }
      }
    }
  }

  /** The distance left by the two correction tables: a multiple of the offset, and at least 8. */
  lemma {:induction false} CorrectedDistance(offset: nat)
    requires 1 <= offset < STEPSIZE
    ensures Multiple(offset + DEC32[offset], offset) && 4 <= offset + DEC32[offset] <= 4 + offset
    ensures var d := offset + DEC32[offset] + 4 + DEC64[offset];
            Multiple(d, offset) && 8 <= d <= 8 + offset
  {
    assert Multiple(offset, offset);
    assert Multiple(2 * offset, offset);
    assert Multiple(3 * offset, offset);
    assert Multiple(4 * offset, offset);
    assert Multiple(5 * offset, offset);
    assert Multiple(6 * offset, offset);
    assert Multiple(7 * offset, offset);
    assert Multiple(8 * offset, offset);
  }

  /** LZ4_WILDCOPY from the compressed block to the output, or from the source to the block: whole
      words until `e` is reached, so up to 8 bytes past `e` may be overwritten. */
  method WildCopyFrom(src: seq<Byte>, s: nat, dest: array<Byte>, d: nat, e: nat)
    requires d <= e && e + STEPSIZE <= dest.Length && s + (e - d) + STEPSIZE <= |src|
    modifies dest
    ensures dest[..e] == old(dest[..d]) + src[s..s + (e - d)]
  {
    var i := 0;
    while true
      invariant 0 <= i && (i == 0 || d + i < e)
      invariant dest[..d] == old(dest[..d])
      invariant forall k :: d <= k < d + i ==> dest[k] == src[s + (k - d)]
      decreases e - d - i
    {
      ghost var before := dest[..];
      forall k | 0 <= k < STEPSIZE {
        dest[d + i + k] := src[s + i + k];
      }
      assert forall k :: 0 <= k < d + i ==> dest[k] == before[k];
      assert dest[..d] == before[..d];
      i := i + STEPSIZE;
      if d + i >= e {
        break;
      }
    }
    assert dest[..e] == dest[..d] + dest[d..e];
  }

  /** LZ4_COPYSTEP inside the output. */
  method CopyStep(dest: array<Byte>, op: nat, ref: nat, w: nat, ghost lo: nat, ghost offset: nat)
    requires ref <= op && op + w <= dest.Length && lo <= op
    requires 1 <= offset ==> Periodic(dest[..], lo, op, offset) && Multiple(op - ref, offset)
    requires 1 <= offset ==> w <= op - ref <= op - lo + offset
    modifies dest
    ensures dest[..lo] == old(dest[..lo])
    ensures 1 <= offset ==> Periodic(dest[..], lo, op + w, offset)
  {
    ghost var b := dest[..];
    forall i | 0 <= i < w {
      dest[op + i] := dest[ref + i];
    }
    assert dest[..op] == b[..op];
    assert dest[..lo] == dest[..op][..lo];
    if 1 <= offset {
      StepKeepsPeriod(b, dest[..], lo, op, w, op - ref, offset);
    }
  }

  /** LZ4_WILDCOPY inside the output (a do-while). */
  method WildCopyBack(dest: array<Byte>, op0: nat, ref0: nat, e: nat, ghost lo: nat, ghost offset: nat)
    returns (op: nat, ref: nat)
    requires ref0 <= op0 && op0 + STEPSIZE <= dest.Length && e + STEPSIZE <= dest.Length + 1 && lo <= op0
    requires 1 <= offset ==> Periodic(dest[..], lo, op0, offset) && Multiple(op0 - ref0, offset)
    requires 1 <= offset ==> STEPSIZE <= op0 - ref0 <= op0 - lo + offset
    modifies dest
    ensures e <= op <= dest.Length && op0 < op && op - ref == op0 - ref0
    ensures dest[..lo] == old(dest[..lo])
    ensures 1 <= offset ==> Periodic(dest[..], lo, op, offset)
  {
    op, ref := op0, ref0;
    while true
      invariant op0 <= op && op + STEPSIZE <= dest.Length && op - ref == op0 - ref0
      invariant dest[..lo] == old(dest[..lo])
      invariant 1 <= offset ==> Periodic(dest[..], lo, op, offset)
      decreases e - op
    {
      CopyStep(dest, op, ref, STEPSIZE, lo, offset);
      op, ref := op + STEPSIZE, ref + STEPSIZE;
      if op >= e {
        break;
      }
    }
  }

  /** The first 8 bytes of a match: a plain word when it does not overlap, else four single bytes and
      a half word, with the source pulled back so that whole words can follow. */
  method FirstWord(dest: array<Byte>, op0: nat, offset: nat) returns (ref: nat)
    requires offset <= op0 && op0 + STEPSIZE <= dest.Length
    modifies dest
    ensures dest[..op0] == old(dest[..op0])
    ensures ref <= op0 + STEPSIZE
    ensures 1 <= offset ==> Periodic(dest[..], op0, op0 + STEPSIZE, offset)
    ensures 1 <= offset ==> Multiple(op0 + STEPSIZE - ref, offset)
    ensures 1 <= offset ==> STEPSIZE <= op0 + STEPSIZE - ref <= STEPSIZE + offset
  {
    ref := op0 - offset;
    if offset < STEPSIZE {
      var dec64 := DEC64[offset];
      dest[op0] := dest[ref];
      dest[op0 + 1] := dest[ref + 1];
      dest[op0 + 2] := dest[ref + 2];
      dest[op0 + 3] := dest[ref + 3];
      assert dest[..op0] == old(dest[..op0]);
      if 1 <= offset {
        CorrectedDistance(offset);
        assert Periodic(dest[..], op0, op0 + 4, offset);
      }
      var half := ref + 4 - DEC32[offset];
      CopyStep(dest, op0 + 4, half, 4, op0, offset);
      ref := half - dec64;
    } else {
      assert Multiple(offset, offset);
      CopyStep(dest, op0, ref, STEPSIZE, op0, offset);
      ref := ref + STEPSIZE;
    }
  }

  /** The decoder's match copy, with its end-of-block cases. `length` is the decoded length less
      MINMATCH. It refuses a match that reaches into the last LASTLITERALS bytes. */
  method CopyMatchInto(dest: array<Byte>, op0: nat, offset: nat, length: nat) returns (ok: bool)
    requires offset <= op0 && op0 + COPYLENGTH <= dest.Length
    modifies dest
    ensures ok == (op0 + length + MINMATCH + LASTLITERALS <= dest.Length)
    ensures ok && 1 <= offset ==>
              dest[..op0 + length + MINMATCH] == CopyMatch(old(dest[..op0]), offset, length + MINMATCH)
  {
    hide Periodic, Multiple, CopyMatch;
    var oend := dest.Length;
    var ref := FirstWord(dest, op0, offset);
    var op := op0 + STEPSIZE;
    var cpy := op + length - (STEPSIZE - 4);
    if cpy > oend - COPYLENGTH - (STEPSIZE - 4) {
      if cpy > oend - LASTLITERALS {
        return false;
      }
      if op < oend - COPYLENGTH {
        op, ref := WildCopyBack(dest, op, ref, oend - COPYLENGTH, op0, offset);
      }
      while op < cpy
        invariant op <= oend && 0 <= ref <= op
        invariant dest[..op0] == old(dest[..op0])
        invariant 1 <= offset ==> Periodic(dest[..], op0, op, offset) && Multiple(op - ref, offset)
        invariant 1 <= offset ==> STEPSIZE <= op - ref <= op - op0 + offset
        invariant op0 <= op
      {
        CopyStep(dest, op, ref, 1, op0, offset);
        op, ref := op + 1, ref + 1;
      }
    } else {
      op, ref := WildCopyBack(dest, op, ref, cpy, op0, offset);
    }
    ok := true;
    if 1 <= offset {
      PeriodicIsCopy(dest[..], op0, op, offset, length + MINMATCH);
      assert dest[..][..op0] == dest[..op0] && dest[..][..cpy] == dest[..cpy];
    }
  }

  lemma PeriodicIsCopy(b: seq<Byte>, lo: nat, hi: nat, offset: nat, n: nat)
    requires 1 <= offset && Periodic(b, lo, hi, offset) && lo + n <= hi
    ensures b[..lo + n] == CopyMatch(b[..lo], offset, n)
  {
    assert b[..lo + n][..lo] == b[..lo];
    CopyMatchUnique(b[..lo], offset, n, b[..lo + n]);
  }
}
