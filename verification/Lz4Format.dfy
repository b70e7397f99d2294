/** The LZ4 block format: what a compressed block means and how it is laid out in bytes. */
module Lz4Format {
  import opened Bytes

  const MINMATCH := 4
  const COPYLENGTH := 8
  const LASTLITERALS := 5
  const MFLIMIT := COPYLENGTH + MINMATCH
  const MAX_DISTANCE := 65535
  const MAX_INPUT_SIZE := 0x7E000000

  /** Literals followed by a copy of `matchLength` bytes from `offset` bytes back. */
  datatype Sequence = Sequence(literals: seq<Byte>, offset: nat, matchLength: nat)

  // ---------------------------------------------------------------- meaning

  /** Byte-by-byte match copying: each new byte is the one `offset` places before it. */
  function CopyMatch(out: seq<Byte>, offset: nat, n: nat): (r: seq<Byte>)
    requires 1 <= offset <= |out|
    ensures |r| == |out| + n
  {
    if n == 0 then out
    else
      var p := CopyMatch(out, offset, n - 1);
      p + [p[|p| - offset]]
  }

  function OutputSize(ss: seq<Sequence>): nat {
    if ss == [] then 0 else |ss[0].literals| + ss[0].matchLength + OutputSize(ss[1..])
  }

  /** The format's rules for one sequence that starts at output position `at` of a block of `total`
      bytes, with its end-of-block restrictions: a match starts at least MFLIMIT bytes before the
      end and the last LASTLITERALS bytes are literals. */
  predicate Admissible(s: Sequence, at: nat, total: nat) {
    && 1 <= s.offset <= MAX_DISTANCE
    && s.offset <= at + |s.literals|
    && MINMATCH <= s.matchLength
    && at + |s.literals| + MFLIMIT <= total
    && at + |s.literals| + s.matchLength + LASTLITERALS <= total
  }

  predicate WellFormed(ss: seq<Sequence>, at: nat, total: nat) {
    ss == [] ||
    (Admissible(ss[0], at, total) && WellFormed(ss[1..], at + |ss[0].literals| + ss[0].matchLength, total))
  }

  /** Runs the sequences after the output `out`. */
  function Expand(out: seq<Byte>, ss: seq<Sequence>, total: nat): (r: seq<Byte>)
    requires WellFormed(ss, |out|, total)
    ensures |r| == |out| + OutputSize(ss)
    decreases |ss|
  {
    if ss == [] then out
    else Expand(CopyMatch(out + ss[0].literals, ss[0].offset, ss[0].matchLength), ss[1..], total)
  }

  // ---------------------------------------------------------------- layout

  /** A length beyond the nibble: 255s, then the remainder. */
  function LengthBytes(n: nat): (b: seq<Byte>)
    ensures |b| == n / 255 + 1
  {
    if n < 255 then [n] else [255] + LengthBytes(n - 255)
  }

  function Nibble(n: nat): (b: nat) {
    if n < 15 then n else 15
  }

  function Extension(n: nat): seq<Byte> {
    if n < 15 then [] else LengthBytes(n - 15)
  }

  function Token(literals: nat, match_: nat): Byte {
    16 * Nibble(literals) + Nibble(match_)
  }

  function LiteralPart(token: Byte, literals: seq<Byte>): (b: seq<Byte>)
    ensures |b| == 1 + |Extension(|literals|)| + |literals|
  {
    [token] + Extension(|literals|) + literals
  }

  function MatchPart(offset: nat, m: nat): (b: seq<Byte>)
    requires offset <= MAX_DISTANCE
    ensures |b| == 2 + |Extension(m)|
  {
    [offset % 256, offset / 256] + Extension(m)
  }

  function EncodeSequence(s: Sequence): (b: seq<Byte>)
    requires 1 <= s.offset <= MAX_DISTANCE && MINMATCH <= s.matchLength
  {
    var m := s.matchLength - MINMATCH;
    LiteralPart(Token(|s.literals|, m), s.literals) + MatchPart(s.offset, m)
  }

  function EncodeLast(literals: seq<Byte>): seq<Byte> {
    LiteralPart(Token(|literals|, 0), literals)
  }

  function EncodeSequences(ss: seq<Sequence>, at: nat, total: nat): seq<Byte>
    requires WellFormed(ss, at, total)
  {
    if ss == [] then []
    else EncodeSequence(ss[0]) + EncodeSequences(ss[1..], at + |ss[0].literals| + ss[0].matchLength, total)
  }

  /** The rest of a block: sequences, then a final run of literals. */
  function EncodeFrom(ss: seq<Sequence>, last: seq<Byte>, at: nat, total: nat): (b: seq<Byte>)
    requires WellFormed(ss, at, total)
    ensures |b| >= 1 + |last|
  {
    if ss == [] then EncodeLast(last)
    else EncodeSequence(ss[0]) + EncodeFrom(ss[1..], last, at + |ss[0].literals| + ss[0].matchLength, total)
  }

  predicate WellFormedBlock(ss: seq<Sequence>, last: seq<Byte>) {
    WellFormed(ss, 0, OutputSize(ss) + |last|)
  }

  function Encode(ss: seq<Sequence>, last: seq<Byte>): seq<Byte>
    requires WellFormedBlock(ss, last)
  {
    EncodeFrom(ss, last, 0, OutputSize(ss) + |last|)
  }

  function Meaning(ss: seq<Sequence>, last: seq<Byte>): seq<Byte>
    requires WellFormedBlock(ss, last)
  {
    Expand([], ss, OutputSize(ss) + |last|) + last
  }

  lemma {:induction false} EncodeFromIsConcatenation(ss: seq<Sequence>, last: seq<Byte>, at: nat, total: nat)
    requires WellFormed(ss, at, total)
    ensures EncodeFrom(ss, last, at, total) == EncodeSequences(ss, at, total) + EncodeLast(last)
    decreases |ss|
  {
    hide EncodeSequence, EncodeLast;
    if ss != [] {
      var at' := at + |ss[0].literals| + ss[0].matchLength;
      EncodeFromIsConcatenation(ss[1..], last, at', total);
      assert EncodeFrom(ss, last, at, total) ==
               EncodeSequence(ss[0]) + (EncodeSequences(ss[1..], at', total) + EncodeLast(last));
    }
  }

  // ---------------------------------------------------------------- appending a sequence

  lemma {:induction false} AppendWellFormed(ss: seq<Sequence>, s: Sequence, at: nat, total: nat)
    requires WellFormed(ss, at, total)
    requires Admissible(s, at + OutputSize(ss), total)
    ensures WellFormed(ss + [s], at, total)
    ensures OutputSize(ss + [s]) == OutputSize(ss) + |s.literals| + s.matchLength
    decreases |ss|
  {
    if ss == [] {
      assert ss + [s] == [s];
    } else {
      assert (ss + [s])[1..] == ss[1..] + [s];
      AppendWellFormed(ss[1..], s, at + |ss[0].literals| + ss[0].matchLength, total);
    }
  }

  lemma {:induction false} AppendLayout(ss: seq<Sequence>, s: Sequence, at: nat, total: nat)
    requires WellFormed(ss, at, total)
    requires Admissible(s, at + OutputSize(ss), total)
    ensures WellFormed(ss + [s], at, total)
    ensures EncodeSequences(ss + [s], at, total) == EncodeSequences(ss, at, total) + EncodeSequence(s)
    decreases |ss|
  {
    hide EncodeSequence;
    AppendWellFormed(ss, s, at, total);
    if ss == [] {
      assert ss + [s] == [s];
      assert EncodeSequences([], at, total) + EncodeSequence(s) == EncodeSequence(s);
    } else {
      var h := ss[0];
      var at' := at + |h.literals| + h.matchLength;
      assert (ss + [s])[1..] == ss[1..] + [s];
      AppendLayout(ss[1..], s, at', total);
      assert EncodeSequences(ss + [s], at, total)
          == EncodeSequence(h) + (EncodeSequences(ss[1..], at', total) + EncodeSequence(s));
    }
  }

  lemma {:induction false} AppendExpand(out: seq<Byte>, ss: seq<Sequence>, s: Sequence, total: nat)
    requires WellFormed(ss, |out|, total)
    requires Admissible(s, |out| + OutputSize(ss), total)
    ensures WellFormed(ss + [s], |out|, total)
    ensures Expand(out, ss + [s], total) ==
            CopyMatch(Expand(out, ss, total) + s.literals, s.offset, s.matchLength)
    decreases |ss|
  {
    AppendWellFormed(ss, s, |out|, total);
    if ss == [] {
      assert ss + [s] == [s];
    } else {
      var h := ss[0];
      assert (ss + [s])[1..] == ss[1..] + [s];
      AppendExpand(CopyMatch(out + h.literals, h.offset, h.matchLength), ss[1..], s, total);
    }
  }

  /** Any byte string that repeats with period `offset` after `|out|` is the match copy. */
  lemma {:induction false} CopyMatchUnique(out: seq<Byte>, offset: nat, n: nat, r: seq<Byte>)
    requires 1 <= offset <= |out| && |r| == |out| + n && r[..|out|] == out
    requires forall k :: |out| <= k < |r| ==> r[k] == r[k - offset]
    ensures CopyMatch(out, offset, n) == r
  {
    if n == 0 {
      assert r == r[..|out|];
    } else {
      var q := r[..|r| - 1];
      assert q[..|out|] == r[..|out|];
      CopyMatchUnique(out, offset, n - 1, q);
      assert r == q + [r[|r| - 1]];
      assert r[|r| - 1] == r[|r| - 1 - offset] == q[|q| - offset];
    }
  }
}
