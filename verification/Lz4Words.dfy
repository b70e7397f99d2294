/** Unaligned little-endian words of lz4.c (A16, A32, A64) and the bit count that compares them. */
module Lz4Words {
  import opened Bytes

  function Word(src: seq<Byte>, p: nat, n: nat): nat
    requires p + n <= |src|
    decreases n
  {
    if n == 0 then 0 else src[p] as int + 256 * Word(src, p + 1, n - 1)
  }

  /** Words compare like their bytes. */
  lemma {:induction false} WordsEqual(src: seq<Byte>, p: nat, q: nat, n: nat)
    requires p + n <= |src| && q + n <= |src|
    ensures Word(src, p, n) == Word(src, q, n) <==> src[p..p + n] == src[q..q + n]
    decreases n
  {
    if n > 0 {
      WordsEqual(src, p + 1, q + 1, n - 1);
      assert src[p..p + n] == [src[p]] + src[p + 1..p + 1 + (n - 1)];
      assert src[q..q + n] == [src[q]] + src[q + 1..q + 1 + (n - 1)];
    }
  }

  function Xor(a: nat, b: nat): nat
    decreases a + b
  {
    if a == 0 && b == 0 then 0 else (a % 2 + b % 2) % 2 + 2 * Xor(a / 2, b / 2)
  }

  /** __builtin_ctzll. */
  function TrailingZeros(v: nat): nat
    requires v > 0
  {
    if v % 2 == 1 then 0 else 1 + TrailingZeros(v / 2)
  }

  function NbCommonBytes(v: nat): nat
    requires v > 0
  {
    TrailingZeros(v) / 8
  }

  lemma {:induction false} XorZero(a: nat, b: nat)
    ensures Xor(a, b) == 0 <==> a == b
    decreases a + b
  {
    if a > 0 || b > 0 {
      XorZero(a / 2, b / 2);
    }
  }

  lemma Halves(x: nat, y: nat, r: nat)
    requires x == r + 2 * y && r < 2
    ensures x % 2 == r && x / 2 == y
  {}

  lemma BitStep(a: nat, b: nat, ha: nat, hb: nat, la: nat, lb: nat)
    requires a != b && a == la + 2 * ha && b == lb + 2 * hb && la < 2 && lb < 2
    ensures Xor(a, b) > 0
    ensures la != lb ==> TrailingZeros(Xor(a, b)) == 0
    ensures la == lb ==> Xor(ha, hb) > 0 && TrailingZeros(Xor(a, b)) == 1 + TrailingZeros(Xor(ha, hb))
  {
    Halves(a, ha, la);
    Halves(b, hb, lb);
    XorZero(a, b);
    XorZero(ha, hb);
    Halves(Xor(a, b), Xor(ha, hb), (la + lb) % 2);
  }

  function DropBits(a: nat, k: nat): nat {
    if k == 0 then a else DropBits(a / 2, k - 1)
  }

  predicate SameBits(a: nat, b: nat, k: nat) {
    k == 0 || (a % 2 == b % 2 && SameBits(a / 2, b / 2, k - 1))
  }

  /** `k` equal low bits are skipped; different ones are found before `k`. */
  lemma {:induction false} LowBits(a: nat, b: nat, k: nat)
    requires a != b
    ensures Xor(a, b) > 0
    ensures !SameBits(a, b, k) ==> TrailingZeros(Xor(a, b)) < k
    ensures SameBits(a, b, k) ==> var rest := Xor(DropBits(a, k), DropBits(b, k));
                                  rest > 0 && TrailingZeros(Xor(a, b)) == k + TrailingZeros(rest)
  {
    hide Xor, TrailingZeros;
    XorPositive(a, b);
    if k > 0 {
      BitStep(a, b, a / 2, b / 2, a % 2, b % 2);
      if a % 2 == b % 2 {
        LowBits(a / 2, b / 2, k - 1);
      }
    }
  }

  function Pow2(k: nat): (m: nat)
    ensures m > 0
  {
    if k == 0 then 1 else 2 * Pow2(k - 1)
  }

  lemma Doubled(m: nat, h: nat)
    ensures 2 * m * h == 2 * (m * h)
  {}

  /** The `k` low bits of a word are its remainder. */
  lemma {:induction false} LowPart(x: nat, y: nat, ha: nat, hb: nat, k: nat)
    requires x < Pow2(k) && y < Pow2(k)
    ensures DropBits(x + Pow2(k) * ha, k) == ha
    ensures SameBits(x + Pow2(k) * ha, y + Pow2(k) * hb, k) <==> x == y
  {
    if k > 0 {
      var m := Pow2(k - 1);
      Doubled(m, ha);
      Doubled(m, hb);
      var za, zb := m * ha, m * hb;
      assert (x + 2 * za) / 2 == x / 2 + za && (x + 2 * za) % 2 == x % 2;
      assert (y + 2 * zb) / 2 == y / 2 + zb && (y + 2 * zb) % 2 == y % 2;
      LowPart(x / 2, y / 2, ha, hb, k - 1);
    }
  }

  lemma XorPositive(a: nat, b: nat)
    requires a != b
    ensures Xor(a, b) > 0
  {
    XorZero(a, b);
  }

  lemma ByteStep(x: Byte, y: Byte, ha: nat, hb: nat)
    requires x + 256 * ha != y + 256 * hb
    ensures var v := Xor(x + 256 * ha, y + 256 * hb);
            && v > 0
            && (x != y ==> NbCommonBytes(v) == 0)
            && (x == y ==> Xor(ha, hb) > 0 && NbCommonBytes(v) == 1 + NbCommonBytes(Xor(ha, hb)))
  {
    hide Xor, TrailingZeros, SameBits, DropBits;
    assert Pow2(4) == 16;
    assert Pow2(8) == 256;
    LowPart(x, y, ha, hb, 8);
    LowPart(y, x, hb, ha, 8);
    LowBits(x + 256 * ha, y + 256 * hb, 8);
  }

  /** The bit count finds the first byte at which two words differ. */
  lemma {:induction false} NbCommonBytesExact(src: seq<Byte>, p: nat, q: nat, n: nat)
    requires p + n <= |src| && q + n <= |src|
    requires Word(src, p, n) != Word(src, q, n)
    ensures Xor(Word(src, p, n), Word(src, q, n)) > 0
    ensures var c := NbCommonBytes(Xor(Word(src, p, n), Word(src, q, n)));
            c < n && src[p..p + c] == src[q..q + c] && src[p + c] != src[q + c]
    decreases n
  {
    hide Xor, NbCommonBytes;
    if n > 0 {
      ByteStep(src[p], src[q], Word(src, p + 1, n - 1), Word(src, q + 1, n - 1));
      if src[p] == src[q] {
        NbCommonBytesExact(src, p + 1, q + 1, n - 1);
        var c := NbCommonBytes(Xor(Word(src, p, n), Word(src, q, n)));
        assert src[p..p + c] == [src[p]] + src[p + 1..p + 1 + (c - 1)];
        assert src[q..q + c] == [src[q]] + src[q + 1..q + 1 + (c - 1)];
      }
    }
  }
}
