/** The reference decoder inverts the block layout, in both modes, on every well-formed block. */
module Lz4Decode {
  import opened Bytes
  import opened Lz4Format
  import opened Lz4Copy
  import opened Lz4Decompress

  ghost predicate At(src: seq<Byte>, i: nat, bytes: seq<Byte>) {
    i + |bytes| <= |src| && src[i..i + |bytes|] == bytes
  }

  lemma AtSplit(src: seq<Byte>, i: nat, a: seq<Byte>, b: seq<Byte>)
    requires At(src, i, a + b)
    ensures At(src, i, a) && At(src, i + |a|, b)
  {
    assert src[i..i + |a|] == (a + b)[..|a|];
    assert src[i + |a|..i + |a| + |b|] == (a + b)[|a|..];
  }

  lemma {:induction false} ReadLengthBytesBack(src: seq<Byte>, ip: nat, n: nat, acc: nat, limit: int)
    requires At(src, ip, LengthBytes(n)) && ip + |LengthBytes(n)| <= limit <= |src|
    ensures ReadLength(src, ip, acc, limit) == Length(acc + n, ip + |LengthBytes(n)|, true)
    decreases n
  {
    assert src[ip] == src[ip..ip + |LengthBytes(n)|][0];
    if n >= 255 {
      AtSplit(src, ip, [255], LengthBytes(n - 255));
      ReadLengthBytesBack(src, ip + 1, n - 255, acc + 255, limit);
    }
  }

  lemma NibbleLengthBack(src: seq<Byte>, ip: nat, n: nat, limit: int)
    requires At(src, ip, Extension(n)) && limit <= |src|
    requires n >= 15 ==> ip + |Extension(n)| <= limit
    ensures NibbleLength(src, ip, Nibble(n), limit) == Length(n, ip + |Extension(n)|, true)
  {
    if n >= 15 {
      ReadLengthBytesBack(src, ip, n - 15, 15, limit);
    }
  }

  lemma LiteralPartAt(src: seq<Byte>, ip: nat, token: Byte, literals: seq<Byte>)
    requires At(src, ip, LiteralPart(token, literals)) && token / 16 == Nibble(|literals|)
    ensures src[ip] == token
    ensures var q := ip + 1 + |Extension(|literals|)|;
            NibbleLength(src, ip + 1, token / 16, |src|) == Length(|literals|, q, true) && At(src, q, literals)
  {
    var ext := Extension(|literals|);
    AtSplit(src, ip, [token] + ext, literals);
    AtSplit(src, ip, [token], ext);
    assert src[ip] == src[ip..ip + 1][0];
    NibbleLengthBack(src, ip + 1, |literals|, |src|);
  }

  lemma LastLiteralsDecode(src: seq<Byte>, ip: nat, out: seq<Byte>, last: seq<Byte>, size: nat, safe: bool)
    requires At(src, ip, EncodeLast(last))
    requires if safe then ip + |EncodeLast(last)| == |src| && |out| + |last| <= size else |out| + |last| == size
    ensures SequenceStep(src, ip, out, size, safe) == Stop(Decoded(out + last, ip + |EncodeLast(last)|))
  {
    LiteralPartAt(src, ip, Token(|last|, 0), last);
  }

  lemma LiteralsDecode(src: seq<Byte>, ip: nat, out: seq<Byte>, token: Byte, literals: seq<Byte>, size: nat, safe: bool)
    requires At(src, ip, LiteralPart(token, literals)) && token / 16 == Nibble(|literals|)
    requires |out| + |literals| + MFLIMIT <= size
    requires ip + |LiteralPart(token, literals)| + STEPSIZE <= |src|
    ensures src[ip] == token
    ensures LiteralStep(src, ip, out, size, safe) == Next(ip + |LiteralPart(token, literals)|, out + literals)
  {
    LiteralPartAt(src, ip, token, literals);
  }

  lemma MatchDecodes(src: seq<Byte>, p: nat, out: seq<Byte>, offset: nat, m: nat, size: nat, safe: bool)
    requires 1 <= offset <= MAX_DISTANCE && offset <= |out| && |out| + m + MINMATCH + LASTLITERALS <= size
    requires At(src, p, MatchPart(offset, m))
    requires p + |MatchPart(offset, m)| + 1 + LASTLITERALS <= |src|
    ensures MatchStep(src, p, Nibble(m), out, size, safe) ==
            Next(p + |MatchPart(offset, m)|, CopyMatch(out, offset, m + MINMATCH))
  {
    hide LengthBytes, ReadLength, NibbleLength, CopyMatch;
    AtSplit(src, p, [offset % 256, offset / 256], Extension(m));
    assert src[p] == src[p..p + 2][0] && src[p + 1] == src[p..p + 2][1];
    NibbleLengthBack(src, p + 2, m, if safe then |src| - (LASTLITERALS + 1) else |src|);
  }

  /** One sequence with at least a token and LASTLITERALS bytes after it. */
  lemma {:induction false} SequenceDecodes(src: seq<Byte>, ip: nat, out: seq<Byte>, s: Sequence, size: nat, safe: bool)
    requires Admissible(s, |out|, size)
    requires At(src, ip, EncodeSequence(s)) && ip + |EncodeSequence(s)| + 1 + LASTLITERALS <= |src|
    ensures SequenceStep(src, ip, out, size, safe) ==
            Next(ip + |EncodeSequence(s)|, CopyMatch(out + s.literals, s.offset, s.matchLength))
  {
    hide At, LiteralPart, MatchPart, LiteralStep, MatchStep, CopyMatch, Extension;
    var lit, m := |s.literals|, s.matchLength - MINMATCH;
    var token := Token(lit, m);
    AtSplit(src, ip, LiteralPart(token, s.literals), MatchPart(s.offset, m));
    LiteralsDecode(src, ip, out, token, s.literals, size, safe);
    var p := ip + |LiteralPart(token, s.literals)|;
    assert token % 16 == Nibble(m);
    MatchDecodes(src, p, out + s.literals, s.offset, m, size, safe);
  }

  /** After a sequence there is always a token and LASTLITERALS more bytes. */
  lemma {:induction false} TailRoom(ss: seq<Sequence>, at: nat, last: seq<Byte>)
    requires ss != [] && WellFormed(ss, at, at + OutputSize(ss) + |last|)
    ensures LASTLITERALS <= |last|
    decreases |ss|
  {
    if |ss| > 1 {
      TailRoom(ss[1..], at + |ss[0].literals| + ss[0].matchLength, last);
    } else {
      assert OutputSize(ss[1..]) == 0;
    }
  }

  lemma WiderBuffer(s: Sequence, at: nat, total: nat, size: nat)
    requires Admissible(s, at, total) && total <= size
    ensures Admissible(s, at, size)
  {}

  /** A whole tail of a block. The safe decoder needs the input to end with the block and an output
      buffer that is large enough; the fast decoder needs the exact output size. */
  lemma {:induction false} BlockDecodes(src: seq<Byte>, ip: nat, out: seq<Byte>, ss: seq<Sequence>, last: seq<Byte>,
                                        total: nat, size: nat, safe: bool)
    requires total == |out| + OutputSize(ss) + |last| && WellFormed(ss, |out|, total)
    requires At(src, ip, EncodeFrom(ss, last, |out|, total))
    requires if safe then ip + |EncodeFrom(ss, last, |out|, total)| == |src| && total <= size else total == size
    ensures DecodeFrom(src, ip, out, size, safe) ==
            Decoded(Expand(out, ss, total) + last, ip + |EncodeFrom(ss, last, |out|, total)|)
    decreases |ss|
  {
    hide At, EncodeLast, EncodeSequence, SequenceStep, CopyMatch, Admissible;
    if ss == [] {
      LastLiteralsDecode(src, ip, out, last, size, safe);
    } else {
      var s := ss[0];
      TailRoom(ss, |out|, last);
      WiderBuffer(s, |out|, total, size);
      AtSplit(src, ip, EncodeSequence(s), EncodeFrom(ss[1..], last, |out| + |s.literals| + s.matchLength, total));
      RoomAfter(src, ip, EncodeSequence(s), EncodeFrom(ss[1..], last, |out| + |s.literals| + s.matchLength, total));
      SequenceDecodes(src, ip, out, s, size, safe);
      BlockDecodes(src, ip + |EncodeSequence(s)|, CopyMatch(out + s.literals, s.offset, s.matchLength), ss[1..], last,
          total, size, safe);
    }
  }

  lemma RoomAfter(src: seq<Byte>, ip: nat, a: seq<Byte>, b: seq<Byte>)
    requires At(src, ip, a + b)
    ensures ip + |a| + |b| <= |src|
  {}

  /** Every well-formed block decodes to its meaning: by the safe decoder into any buffer that is
      large enough, by the fast decoder from any input that begins with the block. */
  lemma {:induction false} EncodedDecodes(ss: seq<Sequence>, last: seq<Byte>, after: seq<Byte>, room: nat)
    requires WellFormedBlock(ss, last)
    ensures Decode(Encode(ss, last), |Meaning(ss, last)| + room, true) == Decoded(Meaning(ss, last), |Encode(ss, last)|)
    ensures Decode(Encode(ss, last) + after, |Meaning(ss, last)|, false) ==
              Decoded(Meaning(ss, last), |Encode(ss, last)|)
  {
    hide EncodeFrom, EncodeSequence, DecodeFrom, Expand;
    var total := OutputSize(ss) + |last|;
    var block := Encode(ss, last);
    assert At(block, 0, block) && At(block + after, 0, block);
    if total == 0 {
      EmptyBlock(ss, last);
    } else {
      BlockDecodes(block + after, 0, [], ss, last, total, total, false);
    }
    if total + room > 0 {
      BlockDecodes(block, 0, [], ss, last, total, total + room, true);
    }
  }

  lemma EmptyBlock(ss: seq<Sequence>, last: seq<Byte>)
    requires WellFormedBlock(ss, last) && OutputSize(ss) + |last| == 0
    ensures ss == [] && Encode(ss, last) == [0] && Meaning(ss, last) == []
  {
    if ss != [] {
      assert false;
    }
  }

  /** Whatever the input, a decoder that succeeds has made sense of it to the end: the safe one has consumed
      all of its input and stayed within its output, the fast one has filled its output exactly. */
  lemma {:induction false} DecodersAreStrict(src: seq<Byte>, ip: nat, out: seq<Byte>, size: nat, safe: bool)
    requires ip <= |src| && DecodeFrom(src, ip, out, size, safe).Decoded?
    ensures var o := DecodeFrom(src, ip, out, size, safe);
            && out <= o.out && ip < o.consumed <= |src|
            && if safe then o.consumed == |src| && |o.out| <= size else |o.out| == size
    decreases |src| - ip
  {
    hide CopyMatch, NibbleLength;
    var half := LiteralStep(src, ip, out, size, safe);
    if half.Next? {
      var step := MatchStep(src, half.ip, src[ip] % 16, half.out, size, safe);
      if step.Next? {
        assert out <= half.out;
        MatchExtends(src, half.ip, src[ip] % 16, half.out, size, safe);
        DecodersAreStrict(src, step.ip, step.out, size, safe);
      }
    }
  }

  lemma MatchExtends(src: seq<Byte>, p: nat, nibble: nat, out: seq<Byte>, size: nat, safe: bool)
    requires p + STEPSIZE <= |src|
    ensures var step := MatchStep(src, p, nibble, out, size, safe); step.Next? ==> out <= step.out
  {
    hide NibbleLength;
    var offset: nat := src[p] as int + 256 * src[p + 1] as int;
    if 1 <= offset <= |out| {
      var run := NibbleLength(src, p + 2, nibble, if safe then |src| - (LASTLITERALS + 1) else |src|);
      CopyExtends(out, offset, run.value + MINMATCH);
    }
  }

  lemma {:induction false} CopyExtends(out: seq<Byte>, offset: nat, n: nat)
    requires 1 <= offset <= |out|
    ensures out <= CopyMatch(out, offset, n)
  {
    if n > 0 {
      CopyExtends(out, offset, n - 1);
    }
  }

  /** Whatever the input, the safe decoder's answer is determined, unless it meets an offset of zero. */
  lemma {:induction false} SafeIsDefined(src: seq<Byte>, ip: nat, out: seq<Byte>, size: nat)
    requires ip < |src| && DecodeFrom(src, ip, out, size, true).Undefined?
    ensures exists p :: ip < p && p + 1 < |src| && src[p] == 0 && src[p + 1] == 0
    decreases |src| - ip
  {
    hide CopyMatch, NibbleLength;
    var half := LiteralStep(src, ip, out, size, true);
    assert half.Next?;
    var step := MatchStep(src, half.ip, src[ip] % 16, half.out, size, true);
    if step.Next? {
      SafeIsDefined(src, step.ip, step.out, size);
    } else {
      assert src[half.ip] == 0 && src[half.ip + 1] == 0;
    }
  }
}
