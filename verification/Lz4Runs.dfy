/** What LZ4_compress makes of a run of one byte, to the byte: that it compresses, and how the format is laid
    out. */
module Lz4Runs {
  import opened Bytes
  import opened Lz4Format
  import opened Lz4Compress
  import opened Lz4Decode

  /** `n` times the byte `b`. */
  function Repeat(b: Byte, n: nat): (s: seq<Byte>)
    ensures |s| == n && forall i :: 0 <= i < n ==> s[i] == b
  {
    seq(n, _ => b)
  }

  lemma RunBegins(b: Byte, n: nat)
    requires n >= 14
    ensures RunAt(Repeat(b, n), 0)
  {}

  /** No sequence fits behind a match that ends at the last literals. */
  lemma NothingFollows(ss: seq<Sequence>, at: nat, total: nat)
    requires WellFormed(ss, at, total) && at + LASTLITERALS == total
    ensures ss == []
  {}

  lemma FirstOfRun(b: Byte, n: nat, s: Sequence)
    requires n >= 14 && Widest(Repeat(b, n), s, 0) && |s.literals| <= 1
    ensures |s.literals| == 1 && s.offset == 1 && s.matchLength == n - 6
  {}

  lemma OnlySequence(s: Sequence, last: seq<Byte>)
    requires WellFormedBlock([s], last)
    ensures Meaning([s], last) == CopyMatch(s.literals, s.offset, s.matchLength) + last
  {
    var total := OutputSize([s]) + |last|;
    assert [] + s.literals == s.literals && [s][1..] == [];
    var copied := CopyMatch(s.literals, s.offset, s.matchLength);
    assert Expand([], [s], total) == Expand(copied, [], total) == copied;
  }

  /** A run of at least fourteen bytes becomes one literal, one match and the five last literals. */
  lemma {:induction false} RunIsOneMatch(b: Byte, n: nat, ss: seq<Sequence>, last: seq<Byte>)
    requires n >= 14 && WellFormedBlock(ss, last) && Meaning(ss, last) == Repeat(b, n)
    requires Tight(Repeat(b, n), ss, 0) && |last| <= n && !RunAt(Repeat(b, n), n - |last|)
    ensures ss == [Sequence([b], 1, n - 6)] && last == Repeat(b, 5)
  {
    hide CopyMatch, RunAt, Widest;
    var src := Repeat(b, n);
    RunBegins(b, n);
    if ss == [] {
      assert false;
    }
    FirstOfRun(b, n, ss[0]);
    NothingFollows(ss[1..], n - 5, OutputSize(ss) + |last|);
    var s := ss[0];
    assert ss == [s];
    OnlySequence(s, last);
    CopyExtends(s.literals, s.offset, s.matchLength);
    var copied := CopyMatch(s.literals, s.offset, s.matchLength);
    assert s.literals[0] == copied[..1][0] == src[0];
    assert s.literals == [b];
    assert last == src[n - 5..];
  }

  /** The bytes of the block: token, literal, offset 1, length, and five literals under a token of their own. */
  lemma RunLayout(b: Byte, n: nat)
    requires n >= 14
    ensures var ss := [Sequence([b], 1, n - 6)];
            && WellFormedBlock(ss, Repeat(b, 5))
            && Encode(ss, Repeat(b, 5)) ==
               (if n < 25 then [16 + (n - 10), b, 1, 0] else [0x1F, b, 1, 0] + LengthBytes(n - 25))
               + [0x50, b, b, b, b, b]
  {
    hide LengthBytes;
    var s, five := Sequence([b], 1, n - 6), Repeat(b, 5);
    var total := OutputSize([s]) + 5;
    assert [s][1..] == [];
    assert OutputSize([s]) == 1 + (n - 6) + OutputSize([]);
    assert Admissible(s, 0, total) && WellFormed([], n - 5, total);
    assert WellFormed([s], 0, total);
    assert five == [b, b, b, b, b];
    assert EncodeLast(five) == [0x50, b, b, b, b, b];
    assert EncodeSequence(s) == if n < 25 then [16 + (n - 10), b, 1, 0] else [0x1F, b, 1, 0] + LengthBytes(n - 25);
    assert EncodeFrom([s], five, 0, total) == EncodeSequence(s) + EncodeFrom([], five, total - 5, total);
  }

  /** LZ4_compress turns a run of `n` equal bytes into 10 bytes, and one more for each 255 beyond 24. */
  method CompressRun(b: Byte, n: nat) returns (packed: seq<Byte>)
    requires 14 <= n <= MAX_INPUT_SIZE
    ensures packed == (if n < 25 then [16 + (n - 10), b, 1, 0] else [0x1F, b, 1, 0] + LengthBytes(n - 25))
                      + [0x50, b, b, b, b, b]
    ensures |packed| == if n < 25 then 10 else 11 + (n - 25) / 255
  {
    hide WellFormedBlock, Meaning, Tight, RunAt, Encode;
    var src := Repeat(b, n);
    var dest := new Byte[CompressBound(|src|)];
    var size, ss, last := Compress(src, dest);
    packed := dest[..size];
    BlockSize(ss, last);
    RunIsOneMatch(b, n, ss, last);
    RunLayout(b, n);
  }

  lemma BlockSize(ss: seq<Sequence>, last: seq<Byte>)
    requires WellFormedBlock(ss, last)
    ensures |last| <= |Meaning(ss, last)|
  {}
}
