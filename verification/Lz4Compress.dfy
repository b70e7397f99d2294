/** LZ4_compress: not limited, no prefix, 64-bit little-endian. Positions are offsets from `source`. */
module Lz4Compress {
  import opened Bytes
  import opened Lz4Format
  import opened Lz4Words
  import opened Lz4Copy

  const MIN_LENGTH := MFLIMIT + 1
  const LIMIT_64K := 65536 + (MFLIMIT - 1)
  const SKIP_STRENGTH := 64       // 1 << SKIPSTRENGTH

  function CompressBound(isize: nat): nat {
    if isize > MAX_INPUT_SIZE then 0 else isize + isize / 255 + 16
  }

  // ---------------------------------------------------------------- hash table

  function TableSize(byU16: bool): nat {
    if byU16 then 8192 else 4096
  }

  /** LZ4_hashSequence: the top bits of a 32-bit product. */
  function Hash(w: nat, byU16: bool): (h: nat)
    ensures h < TableSize(byU16)
  {
    var product := w * 2654435761 % 0x1_0000_0000;
    if byU16 then product / 0x8_0000 else product / 0x10_0000
  }

  /** The hash is the top 13 or 12 of the low 32 bits of a product. */
  lemma {:induction false} HashIsTopBits(w: nat, byU16: bool) returns (q: nat, low: nat)
    ensures w * 2654435761 == q * 0x1_0000_0000 + Hash(w, byU16) * (if byU16 then 0x8_0000 else 0x10_0000) + low
    ensures low < if byU16 then 0x8_0000 else 0x10_0000
  {
    var product := w * 2654435761;
    q := product / 0x1_0000_0000;
    low := product % 0x1_0000_0000 % if byU16 then 0x8_0000 else 0x10_0000;
  }

  function HashAt(src: seq<Byte>, p: nat, byU16: bool): (h: nat)
    requires p + 4 <= |src|
    ensures h < TableSize(byU16)
  {
    Hash(Word(src, p, 4), byU16)
  }

  /** The cast that stores a position in a table cell. */
  function Cell(p: nat, byU16: bool): nat {
    if byU16 then p % 0x1_0000 else p % 0x1_0000_0000
  }

  /** No position that LZ4_compress stores is truncated by its cell. */
  lemma {:induction false} CellExact(src: seq<Byte>, p: nat, byU16: bool)
    requires |src| <= MAX_INPUT_SIZE && (byU16 ==> |src| < LIMIT_64K) && p + MFLIMIT <= |src|
    ensures Cell(p, byU16) == p
  {}

  ghost predicate Fits(src: seq<Byte>, byU16: bool) {
    MIN_LENGTH <= |src| <= MAX_INPUT_SIZE && (byU16 ==> |src| < LIMIT_64K)
  }

  ghost predicate Below(table: array<nat>, byU16: bool, ip: nat)
    reads table
  {
    table.Length == TableSize(byU16) && forall h :: 0 <= h < table.Length ==> table[h] < ip
  }

  method PutPosition(src: seq<Byte>, p: nat, h: nat, table: array<nat>, byU16: bool, ghost ip: nat)
    requires Fits(src, byU16) && p + MFLIMIT <= |src| && h < TableSize(byU16)
    requires p < ip && Below(table, byU16, ip)
    modifies table
    ensures Below(table, byU16, ip) && table[..] == old(table[..])[h := p]
  {
    hide Cell;
    CellExact(src, p, byU16);
    table[h] := Cell(p, byU16);
  }

  // ---------------------------------------------------------------- match finder

  /** What makes an earlier position a match: near enough, and the same four bytes. */
  ghost predicate IsMatch(src: seq<Byte>, ref: nat, ip: nat) {
    ref < ip <= ref + MAX_DISTANCE && ip + 4 <= |src| && src[ref..ref + 4] == src[ip..ip + 4]
  }

  /** No position of the search before `p` has its hash, so that the table still has what it had for it. */
  ghost predicate FirstOfItsHash(src: seq<Byte>, start: nat, p: nat, byU16: bool)
    requires p + 4 <= |src|
  {
    forall r :: start <= r < p ==> HashAt(src, r, byU16) != HashAt(src, p, byU16)
  }

  /** When the search began, the table had a match for `p`, and nothing before `p` has replaced it. */
  ghost predicate HadMatch(src: seq<Byte>, start: nat, p: nat, table: seq<nat>, byU16: bool)
    requires |table| == TableSize(byU16)
  {
    p + MFLIMIT < |src| && FirstOfItsHash(src, start, p, byU16) && IsMatch(src, table[HashAt(src, p, byU16)], p)
  }

  ghost predicate StillThere(src: seq<Byte>, start: nat, ip: nat, now: seq<nat>, was: seq<nat>, byU16: bool) {
    |now| == |was| == TableSize(byU16) &&
    forall p :: ip <= p && p + 4 <= |src| && FirstOfItsHash(src, start, p, byU16) ==>
                  now[HashAt(src, p, byU16)] == was[HashAt(src, p, byU16)]
  }

  lemma StillThereNow(src: seq<Byte>, start: nat, table: seq<nat>, byU16: bool)
    requires |table| == TableSize(byU16)
    ensures StillThere(src, start, start, table, table, byU16)
  {}

  lemma StillThereAfter(src: seq<Byte>, start: nat, ip: nat, next: nat, now: seq<nat>, was: seq<nat>, byU16: bool)
    requires StillThere(src, start, ip, now, was, byU16) && start <= ip < next && ip + 4 <= |src|
    ensures |now| == TableSize(byU16)
    ensures StillThere(src, start, next, now[HashAt(src, ip, byU16) := ip], was, byU16)
  {
    hide HashAt;
  }

  lemma NoneNearTheEnd(src: seq<Byte>, start: nat, table: seq<nat>, byU16: bool)
    requires |table| == TableSize(byU16)
    ensures forall p: nat :: HadMatch(src, start, p, table, byU16) ==> p + MFLIMIT < |src|
  {}

  /** The cell that a position is tried with decides whether there was a match for it. */
  lemma Tried(src: seq<Byte>, start: nat, ip: nat, now: seq<nat>, was: seq<nat>, byU16: bool)
    requires StillThere(src, start, ip, now, was, byU16) && ip + 4 <= |src|
    ensures |now| == |was| == TableSize(byU16)
    ensures HadMatch(src, start, ip, was, byU16) ==>
              ip + MFLIMIT < |src| && IsMatch(src, now[HashAt(src, ip, byU16)], ip)
  {
    hide HashAt;
  }

  /** lz4.c:446-464. A match is a strictly earlier position, near enough, with the same four bytes. None of the
      first 61 positions is skipped: the search goes past none for which the table had a match. */
  method FindMatch(src: seq<Byte>, start: nat, hash: nat, table: array<nat>, byU16: bool)
    returns (found: bool, ip: nat, ref: nat)
    requires Fits(src, byU16) && start + 4 <= |src| && hash == HashAt(src, start, byU16)
    requires Below(table, byU16, start)
    modifies table
    ensures found ==> start <= ip && ip + MFLIMIT < |src| && IsMatch(src, ref, ip) && Below(table, byU16, ip + 1)
    ensures forall p :: start <= p < start + 61 && HadMatch(src, start, p, old(table[..]), byU16) ==> found && ip <= p
  {
    hide HashAt, Word, StillThere, HadMatch;
    StillThereNow(src, start, table[..], byU16);
    var mflimit := |src| - MFLIMIT;
    var attempts := SKIP_STRENGTH + 3;
    var forwardIp, forwardH := start, hash;
    found, ip, ref := false, start, 0;
    while true
      invariant start <= forwardIp && forwardIp + 4 <= |src| && forwardH == HashAt(src, forwardIp, byU16)
      invariant SKIP_STRENGTH <= attempts
      invariant Below(table, byU16, forwardIp)
      invariant forwardIp <= start + 61 ==> attempts == SKIP_STRENGTH + 3 + (forwardIp - start)
      invariant StillThere(src, start, forwardIp, table[..], old(table[..]), byU16)
      invariant forall p :: start <= p < forwardIp && p < start + 61 ==>
                  !HadMatch(src, start, p, old(table[..]), byU16)
      decreases |src| - forwardIp
    {
      var h := forwardH;
      var step := attempts / SKIP_STRENGTH;
      attempts := attempts + 1;
      ip := forwardIp;
      forwardIp := ip + step;
      Tried(src, start, ip, table[..], old(table[..]), byU16);
      if forwardIp > mflimit {
        NoneNearTheEnd(src, start, old(table[..]), byU16);
        return;
      }
      forwardH := HashAt(src, forwardIp, byU16);
      ref := table[h];
      ghost var before := table[..];
      PutPosition(src, ip, h, table, byU16, ip + 1);
      StillThereAfter(src, start, ip, forwardIp, before, old(table[..]), byU16);
      WordsEqual(src, ref, ip, 4);
      if !(ref + MAX_DISTANCE < ip || Word(src, ref, 4) != Word(src, ip, 4)) {
        found := true;
        return;
      }
    }
  }

  /** A match at `ip` cannot begin earlier. */
  ghost predicate Stopped(src: seq<Byte>, anchor: nat, ip: nat, ref: nat) {
    ip == anchor || ref == 0 || (0 < ip <= |src| && ref <= |src| && src[ip - 1] != src[ref - 1])
  }

  /** lz4.c:467. Moves the match backwards, never past the anchor or the start of the source. */
  method CatchUp(src: seq<Byte>, ip0: nat, ref0: nat, anchor: nat) returns (ip: nat, ref: nat)
    requires IsMatch(src, ref0, ip0) && anchor <= ip0
    ensures anchor <= ip <= ip0 && ref < ip <= ref + MAX_DISTANCE && ip - ref == ip0 - ref0
    ensures Periodic(src, ip, ip0 + 4, ip - ref)
    ensures Stopped(src, anchor, ip, ref)
  {
    assert forall k :: ip0 <= k < ip0 + 4 ==> src[k] == src[ip0..ip0 + 4][k - ip0] == src[ref0..ref0 + 4][k - ip0];
    ip, ref := ip0, ref0;
    while ip > anchor && ref > 0 && src[ip - 1] == src[ref - 1]
      invariant anchor <= ip <= ip0 && 0 <= ref < ip && ip - ref == ip0 - ref0
      invariant Periodic(src, ip, ip0 + 4, ip - ref)
    {
      ip, ref := ip - 1, ref - 1;
    }
  }

  lemma SameWordExtends(src: seq<Byte>, lo: nat, ip: nat, w: nat, offset: nat)
    requires Periodic(src, lo, ip, offset) && lo <= ip && ip + w <= |src|
    ensures Word(src, ip - offset, w) == Word(src, ip, w) <==> Periodic(src, lo, ip + w, offset)
  {
    WordsEqual(src, ip - offset, ip, w);
    if src[ip - offset..ip - offset + w] == src[ip..ip + w] {
      assert forall k :: ip <= k < ip + w ==>
               src[k] == src[ip..ip + w][k - ip] == src[ip - offset..ip - offset + w][k - ip];
    }
  }

  /** `e` is where the repetition that starts at `lo` ends, at `limit` at the latest. */
  ghost predicate Longest(src: seq<Byte>, lo: nat, e: nat, offset: nat, limit: nat) {
    && 1 <= offset <= lo <= e <= limit <= |src| && Periodic(src, lo, e, offset)
    && (e == limit || src[e] != src[e - offset])
  }

  lemma {:induction false} LongestExists(src: seq<Byte>, lo: nat, ip: nat, offset: nat, limit: nat) returns (e: nat)
    requires 1 <= offset <= lo <= ip <= limit <= |src| && Periodic(src, lo, ip, offset)
    ensures Longest(src, lo, e, offset, limit)
    decreases limit - ip
  {
    if ip < limit && src[ip] == src[ip - offset] {
      e := LongestExists(src, lo, ip + 1, offset, limit);
    } else {
      e := ip;
    }
  }

  /** A word comparison tells whether the repetition goes on for the whole word. */
  lemma WordTest(src: seq<Byte>, lo: nat, ip: nat, w: nat, offset: nat, limit: nat, e: nat)
    requires Longest(src, lo, e, offset, limit) && lo <= ip <= e && ip + w <= limit
    ensures Word(src, ip - offset, w) == Word(src, ip, w) <==> ip + w <= e
  {
    SameWordExtends(src, lo, ip, w, offset);
  }

  lemma ByteTest(src: seq<Byte>, lo: nat, ip: nat, offset: nat, limit: nat, e: nat)
    requires Longest(src, lo, e, offset, limit) && lo <= ip <= e && ip < limit
    ensures src[ip - offset] == src[ip] <==> ip < e
  {}

  /** lz4.c:490-502. Finds the end of the repetition eight bytes at a time. */
  method CountMatch(src: seq<Byte>, lo: nat, offset: nat, limit: nat) returns (ip: nat)
    requires 1 <= offset <= lo <= limit <= |src|
    ensures Longest(src, lo, ip, offset, limit)
  {
    hide Word, Xor, NbCommonBytes, Periodic;
    ghost var e := LongestExists(src, lo, lo, offset, limit);
    ip := lo;
    while ip + (STEPSIZE - 1) < limit
      invariant lo <= ip <= e
      decreases limit - ip
    {
      var a, b := Word(src, ip - offset, STEPSIZE), Word(src, ip, STEPSIZE);
      var diff := Xor(a, b);
      XorZero(a, b);
      WordTest(src, lo, ip, STEPSIZE, offset, limit, e);
      if diff == 0 {
        ip := ip + STEPSIZE;
      } else {
        NbCommonBytesExact(src, ip - offset, ip, STEPSIZE);
        var c := NbCommonBytes(diff);
        WordsEqual(src, ip - offset, ip, c);
        WordTest(src, lo, ip, c, offset, limit, e);
        ip := ip + c;
        ByteTest(src, lo, ip, offset, limit, e);
        return;
      }
    }
    if ip + 3 < limit {
      WordTest(src, lo, ip, 4, offset, limit, e);
      if Word(src, ip - offset, 4) == Word(src, ip, 4) {
        ip := ip + 4;
      }
    }
    if ip + 1 < limit {
      WordTest(src, lo, ip, 2, offset, limit, e);
      if Word(src, ip - offset, 2) == Word(src, ip, 2) {
        ip := ip + 2;
      }
    }
    if ip < limit {
      ByteTest(src, lo, ip, offset, limit, e);
      if src[ip - offset] == src[ip] {
        ip := ip + 1;
      }
    }
  }

  // ---------------------------------------------------------------- encoder

  /** One more 255 emitted, one less to come. */
  lemma LengthByteMoves(done: seq<Byte>, len: nat)
    requires len >= 255
    ensures done + LengthBytes(len) == (done + [255]) + LengthBytes(len - 255)
  {}

  lemma LastLengthByte(len: nat)
    requires len < 255
    ensures LengthBytes(len) == [len]
  {}

  /** lz4.c:477-478. */
  method EmitLength(n: nat, dest: array<Byte>, op0: nat) returns (op: nat)
    requires op0 + n / 255 + 1 <= dest.Length
    modifies dest
    ensures op <= dest.Length && dest[..op] == old(dest[..op0]) + LengthBytes(n)
  {
    hide LengthBytes;
    op := op0;
    var len := n;
    while len >= 255
      invariant 0 <= len && op0 <= op && op + len / 255 + 1 <= dest.Length
      invariant dest[..op] + LengthBytes(len) == old(dest[..op0]) + LengthBytes(n)
    {
      LengthByteMoves(dest[..op], len);
      dest[op] := 255;
      assert dest[..op + 1] == dest[..op] + [255];
      op, len := op + 1, len - 255;
    }
    LastLengthByte(len);
    dest[op] := len;
    assert dest[..op + 1] == dest[..op] + [len];
    op := op + 1;
  }

  /** lz4.c:511-513. Two length bytes at a time. */
  method EmitLengthPaired(n: nat, dest: array<Byte>, op0: nat) returns (op: nat)
    requires op0 + n / 255 + 1 <= dest.Length
    modifies dest
    ensures op <= dest.Length && dest[..op] == old(dest[..op0]) + LengthBytes(n)
  {
    hide LengthBytes;
    op := op0;
    var len := n;
    while len > 509
      invariant 0 <= len && op0 <= op && op + len / 255 + 1 <= dest.Length
      invariant dest[..op] + LengthBytes(len) == old(dest[..op0]) + LengthBytes(n)
    {
      LengthByteMoves(dest[..op], len);
      LengthByteMoves(dest[..op] + [255], len - 255);
      dest[op] := 255;
      dest[op + 1] := 255;
      assert dest[..op + 2] == dest[..op] + [255] + [255];
      op, len := op + 2, len - 510;
    }
    if len >= 255 {
      LengthByteMoves(dest[..op], len);
      dest[op] := 255;
      assert dest[..op + 1] == dest[..op] + [255];
      op, len := op + 1, len - 255;
    }
    LastLengthByte(len);
    dest[op] := len;
    assert dest[..op + 1] == dest[..op] + [len];
    op := op + 1;
  }

  /** lz4.c:471-480 and 538-539. A token that has only its literal half, and the literal length. */
  method EmitRun(length: nat, dest: array<Byte>, op0: nat) returns (op: nat)
    requires op0 + 1 + |Extension(length)| <= dest.Length
    modifies dest
    ensures op == op0 + 1 + |Extension(length)|
    ensures dest[..op] == old(dest[..op0]) + ([16 * Nibble(length)] + Extension(length))
  {
    op := op0 + 1;
    if length >= 15 {
      dest[op0] := 240;
      assert dest[..op] == old(dest[..op0]) + [240];
      op := EmitLength(length - 15, dest, op);
    } else {
      dest[op0] := 16 * length;
    }
  }

  /** lz4.c:469-483. Token, literal length and literals; the copy may run 8 bytes over. */
  method EmitLiterals(src: seq<Byte>, anchor: nat, ip: nat, dest: array<Byte>, op0: nat) returns (op: nat)
    requires anchor <= ip && ip + MFLIMIT <= |src|
    requires op0 + |LiteralPart(0, src[anchor..ip])| + STEPSIZE <= dest.Length
    modifies dest
    ensures op <= dest.Length
    ensures dest[..op] == old(dest[..op0]) + LiteralPart(16 * Nibble(ip - anchor), src[anchor..ip])
  {
    hide Extension;
    var length := ip - anchor;
    op := EmitRun(length, dest, op0);
    var end := op + length;
    WildCopyFrom(src, anchor, dest, op, end);
    op := end;
  }

  /** lz4.c:535-541. */
  method EmitLast(src: seq<Byte>, anchor: nat, dest: array<Byte>, op0: nat) returns (op: nat)
    requires anchor <= |src| && op0 + |EncodeLast(src[anchor..])| <= dest.Length
    modifies dest
    ensures op <= dest.Length && dest[..op] == old(dest[..op0]) + EncodeLast(src[anchor..])
  {
    hide Extension;
    var length := |src| - anchor;
    op := EmitRun(length, dest, op0);
    ghost var head := dest[..op];
    forall k | 0 <= k < length {
      dest[op + k] := src[anchor + k];
    }
    op := op + length;
    assert dest[..op] == head + src[anchor..];
  }

  /** lz4.c:487 and 504-515. Offset and match length; the token receives its second half. */
  method EmitMatchPart(offset: nat, m: nat, token: nat, dest: array<Byte>, op0: nat) returns (op: nat)
    requires offset <= MAX_DISTANCE && token < op0 && op0 + |MatchPart(offset, m)| <= dest.Length
    requires dest[token] <= 240
    modifies dest
    ensures op <= dest.Length
    ensures dest[..op] == old(dest[..op0][token := dest[token] + Nibble(m)]) + MatchPart(offset, m)
  {
    hide LengthBytes, MatchPart, Nibble;
    ghost var head := dest[..op0][token := dest[token] + Nibble(m)];
    NibbleFits(m);
    EmitOffset(offset, Nibble(m), token, dest, op0);
    op := op0 + 2;
    ghost var two := dest[op0..op];
    assert dest[..op] == head + two;
    MatchPartIs(head, two, offset, m);
    if m >= 15 {
      op := EmitLengthPaired(m - 15, dest, op);
    } else {
      assert head + two + [] == head + two;
    }
  }

  lemma NibbleFits(m: nat)
    ensures Nibble(m) <= 15
  {}

  lemma MatchPartIs(head: seq<Byte>, two: seq<Byte>, offset: nat, m: nat)
    requires offset <= MAX_DISTANCE && two == [offset % 256, offset / 256]
    ensures (head + two) + Extension(m) == head + MatchPart(offset, m)
  {
    hide Extension;
    assert MatchPart(offset, m) == two + Extension(m);
  }

  method EmitOffset(offset: nat, nibble: nat, token: nat, dest: array<Byte>, op0: nat)
    requires offset <= MAX_DISTANCE && token < op0 && op0 + 2 <= dest.Length && nibble <= 15 && dest[token] <= 240
    modifies dest
    ensures dest[..op0] == old(dest[..op0][token := dest[token] + nibble])
    ensures dest[op0..op0 + 2] == [offset % 256, offset / 256]
  {
    dest[op0], dest[op0 + 1] := offset % 256, offset / 256;
    dest[token] := dest[token] + nibble;
  }

  /** Completes a sequence whose literals are already emitted. */
  method EmitSequence(offset: nat, matchLength: nat, token: nat, dest: array<Byte>, op0: nat,
                      ghost pre: seq<Byte>, ghost literals: seq<Byte>) returns (op: nat)
    requires 1 <= offset <= MAX_DISTANCE && MINMATCH <= matchLength
    requires op0 + |MatchPart(offset, matchLength - MINMATCH)| <= dest.Length
    requires token == |pre| && dest[..op0] == pre + LiteralPart(16 * Nibble(|literals|), literals)
    modifies dest
    ensures op <= dest.Length
    ensures dest[..op] == pre + EncodeSequence(Sequence(literals, offset, matchLength))
  {
    hide Extension;
    var m := matchLength - MINMATCH;
    ghost var t: Byte := 16 * Nibble(|literals|);
    assert dest[token] == dest[..op0][token] == t;
    op := EmitMatchPart(offset, m, token, dest, op0);
    assert (pre + LiteralPart(t, literals))[token := t + Nibble(m)] == pre + LiteralPart(t + Nibble(m), literals);
  }

  // ---------------------------------------------------------------- main loop

  /** The sequences so far encode the first `at` bytes of the source as `out`, within the bound that
      makes LZ4_compressBound enough. */
  ghost predicate Progress(src: seq<Byte>, ss: seq<Sequence>, at: nat, out: seq<Byte>) {
    && WellFormed(ss, 0, |src|) && OutputSize(ss) == at <= |src|
    && Expand([], ss, |src|) == src[..at]
    && out == EncodeSequences(ss, 0, |src|)
    && 255 * |out| <= 256 * at
  }

  /** The match of a sequence that starts at `at` cannot be longer, neither at its end nor at its beginning. */
  ghost predicate Widest(src: seq<Byte>, s: Sequence, at: nat) {
    var ip, next := at + |s.literals|, at + |s.literals| + s.matchLength;
    && 1 <= s.offset <= ip && next + LASTLITERALS <= |src|
    && (next + LASTLITERALS == |src| || src[next] != src[next - s.offset])
    && (ip == at || ip == s.offset || src[ip - 1] != src[ip - 1 - s.offset])
  }

  /** A byte that is repeated at least four times, early enough for a match. */
  ghost predicate RunAt(src: seq<Byte>, at: nat) {
    at + 1 + MFLIMIT < |src| && src[at..at + 4] == src[at + 1..at + 5]
  }

  /** Two bytes that are repeated at once, early enough for a match. */
  ghost predicate PairAt(src: seq<Byte>, at: nat) {
    2 <= at && at + MFLIMIT <= |src| && src[at - 2..at + 2] == src[at..at + 4]
  }

  /** Every match is as long as it can be, and a run or a repeated pair that begins where a match ends is caught
      at once. */
  ghost predicate Tight(src: seq<Byte>, ss: seq<Sequence>, at: nat) {
    ss == [] ||
    (Widest(src, ss[0], at) && Caught(src, at, |ss[0].literals|)
     && Tight(src, ss[1..], at + |ss[0].literals| + ss[0].matchLength))
  }

  ghost predicate Caught(src: seq<Byte>, at: nat, literals: nat) {
    (RunAt(src, at) ==> literals <= 1) && (PairAt(src, at) ==> literals == 0)
  }

  lemma {:induction false} AppendTight(src: seq<Byte>, ss: seq<Sequence>, s: Sequence, at: nat)
    requires Tight(src, ss, at) && Widest(src, s, at + OutputSize(ss))
    requires Caught(src, at + OutputSize(ss), |s.literals|)
    ensures Tight(src, ss + [s], at)
    decreases |ss|
  {
    hide Widest, Caught;
    if ss == [] {
      assert ss + [s] == [s];
      assert Tight(src, [s], at);
    } else {
      assert (ss + [s])[1..] == ss[1..] + [s];
      AppendTight(src, ss[1..], s, at + |ss[0].literals| + ss[0].matchLength);
    }
  }

  /** The cost of one sequence: the extension bytes are paid for by the bytes they describe. */
  lemma {:induction false} SequenceCost(literals: seq<Byte>, m: nat)
    ensures 255 * |LiteralPart(0, literals)| <= 256 * |literals| + 495
    ensures 255 * (|LiteralPart(0, literals)| + 2 + |Extension(m)|) <= 256 * (|literals| + MINMATCH + m)
  {}

  lemma SequenceSize(s: Sequence)
    requires 1 <= s.offset <= MAX_DISTANCE && MINMATCH <= s.matchLength
    ensures |EncodeSequence(s)| == |LiteralPart(0, s.literals)| + 2 + |Extension(s.matchLength - MINMATCH)|
  {}

  lemma Extend(src: seq<Byte>, ss: seq<Sequence>, at: nat, out: seq<Byte>, ip: nat, offset: nat, next: nat)
    requires Progress(src, ss, at, out) && at <= ip && ip + MINMATCH <= next
    requires 1 <= offset <= MAX_DISTANCE && Periodic(src, ip, next, offset)
    requires ip + MFLIMIT <= |src| && next + LASTLITERALS <= |src|
    ensures var s := Sequence(src[at..ip], offset, next - ip);
            Progress(src, ss + [s], next, out + EncodeSequence(s))
  {
    hide EncodeSequence, CopyMatch, WellFormed, EncodeSequences, Expand, OutputSize;
    var s := Sequence(src[at..ip], offset, next - ip);
    AppendWellFormed(ss, s, 0, |src|);
    AppendLayout(ss, s, 0, |src|);
    AppendExpand([], ss, s, |src|);
    assert src[..at] + src[at..ip] == src[..ip];
    CopyMatchUnique(src[..ip], offset, next - ip, src[..next]);
    SequenceCost(src[at..ip], next - ip - MINMATCH);
    SequenceSize(s);
  }

  lemma Finish(src: seq<Byte>, ss: seq<Sequence>, at: nat, out: seq<Byte>)
    requires Progress(src, ss, at, out)
    ensures WellFormedBlock(ss, src[at..]) && Meaning(ss, src[at..]) == src
    ensures Encode(ss, src[at..]) == out + EncodeLast(src[at..])
  {
    EncodeFromIsConcatenation(ss, src[at..], 0, |src|);
    assert src[..at] + src[at..] == src;
  }

  lemma LastRoom(src: seq<Byte>, ss: seq<Sequence>, at: nat, out: seq<Byte>)
    requires Progress(src, ss, at, out) && |src| <= MAX_INPUT_SIZE
    ensures |out| + |EncodeLast(src[at..])| <= CompressBound(|src|)
  {
    SequenceCost(src[at..], 0);
  }

  /** lz4.c:520-526. */
  method TestNextPosition(src: seq<Byte>, ip: nat, table: array<nat>, byU16: bool) returns (again: bool, ref: nat)
    requires Fits(src, byU16) && 2 <= ip && ip + MFLIMIT <= |src| && Below(table, byU16, ip)
    modifies table
    ensures Below(table, byU16, ip + 1) && table[HashAt(src, ip, byU16)] == ip
    ensures again <==> IsMatch(src, ref, ip)
    ensures PairAt(src, ip) ==> again
    ensures again ==> ref < ip <= ref + MAX_DISTANCE && Periodic(src, ip, ip + MINMATCH, ip - ref)
  {
    hide HashAt, Word;
    PutPosition(src, ip - 2, HashAt(src, ip - 2, byU16), table, byU16, ip);
    var h := HashAt(src, ip, byU16);
    ref := table[h];
    PutPosition(src, ip, h, table, byU16, ip + 1);
    again := ref + MAX_DISTANCE >= ip && Word(src, ref, 4) == Word(src, ip, 4);
    WordsEqual(src, ref, ip, 4);
    if PairAt(src, ip) {
      PairHash(src, ip, byU16);
    }
    SameWordExtends(src, ip, ip, 4, ip - ref);
  }

  /** lz4.c:487-515: one match, as long as it can be, and its sequence. */
  method EmitMatch(src: seq<Byte>, anchor: nat, ip: nat, ref: nat, dest: array<Byte>, token: nat, op0: nat,
                   ghost last: nat, ghost ss: seq<Sequence>, ghost out: seq<Byte>)
    returns (next: nat, op: nat, ghost ss': seq<Sequence>)
    requires |src| <= MAX_INPUT_SIZE && CompressBound(|src|) <= dest.Length
    requires Progress(src, ss, anchor, out) && anchor <= ip && ip + MFLIMIT <= |src|
    requires ref < ip <= ref + MAX_DISTANCE && ip <= last && last + MFLIMIT <= |src|
    requires Periodic(src, ip, last + MINMATCH, ip - ref) && token == |out| && op0 <= dest.Length
    requires dest[..op0] == out + LiteralPart(16 * Nibble(ip - anchor), src[anchor..ip])
    requires Tight(src, ss, 0) && Caught(src, anchor, ip - anchor) && Stopped(src, anchor, ip, ref)
    modifies dest
    ensures last + MINMATCH <= next && next + LASTLITERALS <= |src| && op <= dest.Length
    ensures Progress(src, ss', next, dest[..op]) && Tight(src, ss', 0)
  {
    hide Progress, LiteralPart, EncodeSequence, Tight, Caught, Longest, Periodic, Stopped;
    var matchlimit := |src| - LASTLITERALS;
    next := CountMatch(src, ip + MINMATCH, ip - ref, matchlimit);
    EndsLater(src, ip + MINMATCH, next, ip - ref, matchlimit, last + MINMATCH);
    Budget(src, ss, anchor, out, ip, next);
    op := EmitSequence(ip - ref, next - ip, token, dest, op0, out, src[anchor..ip]);
    Extend(src, ss, anchor, out, ip, ip - ref, next);
    ExtendTight(src, ss, anchor, out, ip, ref, next);
    ss' := ss + [Sequence(src[anchor..ip], ip - ref, next - ip)];
  }

  /** lz4.c:485-531, from `_next_match` round to it again: emits this match and every match that
      follows it without literals. `put` is the last position stored in the table. */
  method EmitMatches(src: seq<Byte>, anchor0: nat, ip0: nat, ref0: nat, dest: array<Byte>, token0: nat, op0: nat,
                     table: array<nat>, byU16: bool, ghost put: nat, ghost ss0: seq<Sequence>, ghost out0: seq<Byte>)
    returns (ended: bool, anchor: nat, op: nat, ghost ss: seq<Sequence>)
    requires Fits(src, byU16) && CompressBound(|src|) <= dest.Length && dest as object != table
    requires Progress(src, ss0, anchor0, out0) && anchor0 <= ip0 && ip0 + MFLIMIT <= |src|
    requires ref0 < ip0 <= ref0 + MAX_DISTANCE && ip0 <= put && put + MFLIMIT <= |src|
    requires Periodic(src, ip0, put + MINMATCH, ip0 - ref0) && Below(table, byU16, put + 1)
    requires token0 == |out0| && op0 <= dest.Length
    requires dest[..op0] == out0 + LiteralPart(16 * Nibble(ip0 - anchor0), src[anchor0..ip0])
    requires Tight(src, ss0, 0) && Caught(src, anchor0, ip0 - anchor0)
    requires Stopped(src, anchor0, ip0, ref0)
    modifies dest, table
    ensures op <= dest.Length && anchor0 < anchor <= |src| && Progress(src, ss, anchor, dest[..op])
    ensures !ended ==> anchor + MFLIMIT <= |src| && Below(table, byU16, anchor + 1)
    ensures !ended ==> table[HashAt(src, anchor, byU16)] == anchor
    ensures Tight(src, ss, 0) && !PairAt(src, anchor) && (ended ==> !RunAt(src, anchor))
  {
    hide Progress, LiteralPart, EncodeSequence, Tight, RunAt, HashAt, Longest, Periodic, Widest, PairAt, IsMatch;
    var mflimit := |src| - MFLIMIT;
    var ip, ref, token := ip0, ref0, token0;
    anchor, op, ss := anchor0, op0, ss0;
    ghost var last, out := put, out0;
    while true
      invariant Progress(src, ss, anchor, out) && anchor0 <= anchor <= ip && ip + MFLIMIT <= |src|
      invariant 0 <= ref < ip <= ref + MAX_DISTANCE && ip <= last && last + MFLIMIT <= |src|
      invariant Periodic(src, ip, last + MINMATCH, ip - ref) && Below(table, byU16, last + 1)
      invariant token == |out| && op <= dest.Length
      invariant dest[..op] == out + LiteralPart(16 * Nibble(ip - anchor), src[anchor..ip])
      invariant Tight(src, ss, 0) && Caught(src, anchor, ip - anchor)
      invariant Stopped(src, anchor, ip, ref)
      decreases |src| - ip
    {
      ip, op, ss := EmitMatch(src, anchor, ip, ref, dest, token, op, last, ss, out);
      anchor, out := ip, dest[..op];
      if ip > mflimit {
        ended := true;
        NoRunNearTheEnd(src, anchor);
        return;
      }
      var again: bool;
      again, ref := TestNextPosition(src, ip, table, byU16);
      last := ip;
      if again {
        Budget(src, ss, anchor, out, ip, ip);
        token := op;
        dest[op] := 0;
        op := op + 1;
        EmptyLiterals(src, ip);
      } else {
        ended := false;
        return;
      }
    }
  }

  lemma ExtendTight(src: seq<Byte>, ss: seq<Sequence>, at: nat, out: seq<Byte>, ip: nat, ref: nat, next: nat)
    requires Progress(src, ss, at, out) && Tight(src, ss, 0) && at <= ip && ref < ip <= next
    requires LASTLITERALS <= |src| && Longest(src, ip + MINMATCH, next, ip - ref, |src| - LASTLITERALS)
    requires Caught(src, at, ip - at) && Stopped(src, at, ip, ref)
    ensures Tight(src, ss + [Sequence(src[at..ip], ip - ref, next - ip)], 0)
  {
    hide Tight, Caught, Periodic, Progress;
    assert OutputSize(ss) == at by {
      ProgressSize(src, ss, at, out);
    }
    AppendTight(src, ss, Sequence(src[at..ip], ip - ref, next - ip), 0);
  }

  lemma ProgressSize(src: seq<Byte>, ss: seq<Sequence>, at: nat, out: seq<Byte>)
    requires Progress(src, ss, at, out)
    ensures OutputSize(ss) == at
  {}

  /** The longest repetition is at least as long as any other. */
  lemma EndsLater(src: seq<Byte>, lo: nat, e: nat, offset: nat, limit: nat, other: nat)
    requires Longest(src, lo, e, offset, limit) && lo <= other <= limit && lo - MINMATCH >= offset
    requires Periodic(src, lo - MINMATCH, other, offset)
    ensures other <= e && e <= limit && Periodic(src, lo - MINMATCH, e, offset)
  {}

  lemma NoPairAtStart(src: seq<Byte>)
    ensures !PairAt(src, 0)
  {}

  lemma NoRunNearTheEnd(src: seq<Byte>, at: nat)
    requires at + 1 + MFLIMIT >= |src|
    ensures !RunAt(src, at) && (at + MFLIMIT > |src| || at < 2 ==> !PairAt(src, at))
  {}

  lemma PairHash(src: seq<Byte>, ip: nat, byU16: bool)
    requires PairAt(src, ip)
    ensures HashAt(src, ip - 2, byU16) == HashAt(src, ip, byU16) && IsMatch(src, ip - 2, ip)
  {
    WordsEqual(src, ip - 2, ip, 4);
  }

  /** A run that begins at a position in the table is found from the next one. */
  lemma RunIsMatch(src: seq<Byte>, at: nat, table: seq<nat>, byU16: bool)
    requires RunAt(src, at) && |table| == TableSize(byU16) && table[HashAt(src, at, byU16)] == at
    ensures HadMatch(src, at + 1, at + 1, table, byU16)
  {
    WordsEqual(src, at, at + 1, 4);
  }

  lemma EmptyLiterals(src: seq<Byte>, ip: nat)
    requires ip <= |src|
    ensures LiteralPart(0, src[ip..ip]) == [0]
  {}

  /** Whatever comes next fits into the output buffer. */
  lemma {:induction false} Budget(src: seq<Byte>, ss: seq<Sequence>, at: nat, out: seq<Byte>, ip: nat, next: nat)
    requires Progress(src, ss, at, out) && at <= ip <= next <= |src| <= MAX_INPUT_SIZE
    ensures |out| + |LiteralPart(0, src[at..ip])| + STEPSIZE <= CompressBound(|src|)
    ensures ip + MINMATCH <= next ==>
              |out| + |LiteralPart(0, src[at..ip])| + 2 + |Extension(next - ip - MINMATCH)| <= CompressBound(|src|)
  {
    SequenceCost(src[at..ip], if ip + MINMATCH <= next then next - ip - MINMATCH else 0);
  }

  lemma NoProgressYet(src: seq<Byte>)
    ensures Progress(src, [], 0, [])
  {}

  /** LZ4_compress_generic: a well-formed block that means exactly the source. */
  method CompressGeneric(src: seq<Byte>, dest: array<Byte>, byU16: bool)
    returns (op: nat, ghost ss: seq<Sequence>, ghost last: seq<Byte>)
    requires |src| <= MAX_INPUT_SIZE && (byU16 ==> |src| < LIMIT_64K) && CompressBound(|src|) <= dest.Length
    modifies dest
    ensures op <= CompressBound(|src|) && WellFormedBlock(ss, last) && Meaning(ss, last) == src
            && dest[..op] == Encode(ss, last)
    ensures Tight(src, ss, 0) && !RunAt(src, |src| - |last|) && !PairAt(src, |src| - |last|)
  {
    hide Progress, LiteralPart, EncodeLast, WellFormedBlock, Meaning, Encode, RunAt, PairAt, HashAt, IsMatch,
         HadMatch;
    var table := new nat[TableSize(byU16)](_ => 0);
    var anchor, ip := 0, 0;
    op, ss := 0, [];
    NoProgressYet(src);
    assert dest[..0] == [];
    assert Tight(src, ss, 0);
    NoPairAtStart(src);
    hide Tight;
    if |src| >= MIN_LENGTH {
      PutPosition(src, ip, HashAt(src, ip, byU16), table, byU16, 1);
      ip := 1;
      var ended := false;
      while !ended
        invariant 0 <= op <= dest.Length && 0 <= anchor <= |src| && Progress(src, ss, anchor, dest[..op])
        invariant !ended ==> anchor + 1 == ip && ip + 4 <= |src| && Below(table, byU16, ip)
        invariant !ended ==> table[HashAt(src, anchor, byU16)] == anchor
        invariant Tight(src, ss, 0) && !PairAt(src, anchor) && (ended ==> !RunAt(src, anchor))
        decreases |src| - anchor, !ended
      {
        if RunAt(src, anchor) {
          RunIsMatch(src, anchor, table[..], byU16);
        }
        var found, pos, ref := FindMatch(src, ip, HashAt(src, ip, byU16), table, byU16);
        if !found {
          break;
        }
        ghost var out := dest[..op];
        ip, ref := CatchUp(src, pos, ref, anchor);
        Budget(src, ss, anchor, out, ip, ip);
        var token := op;
        op := EmitLiterals(src, anchor, ip, dest, op);
        ended, anchor, op, ss := EmitMatches(src, anchor, ip, ref, dest, token, op, table, byU16, pos, ss, out);
        ip := anchor + 1;
      }
    } else {
      NoRunNearTheEnd(src, anchor);
    }
    last := src[anchor..];
    LastRoom(src, ss, anchor, dest[..op]);
    Finish(src, ss, anchor, dest[..op]);
    ghost var before := op;
    op := EmitLast(src, anchor, dest, op);
    assert |dest[..op]| == before + |EncodeLast(last)|;
  }

  lemma NotEmpty(ss: seq<Sequence>, last: seq<Byte>)
    requires WellFormedBlock(ss, last)
    ensures |Encode(ss, last)| >= 1
  {}

  /** LZ4_compress. Sources that are too long are refused and leave the output alone. */
  method Compress(src: seq<Byte>, dest: array<Byte>) returns (n: nat, ghost ss: seq<Sequence>, ghost last: seq<Byte>)
    requires CompressBound(|src|) <= dest.Length
    modifies dest
    ensures |src| > MAX_INPUT_SIZE ==> n == 0 && dest[..] == old(dest[..])
    ensures |src| <= MAX_INPUT_SIZE ==>
              1 <= n <= |src| + |src| / 255 + 16 && WellFormedBlock(ss, last) && Meaning(ss, last) == src
                && dest[..n] == Encode(ss, last) && Tight(src, ss, 0)
                && !RunAt(src, |src| - |last|) && !PairAt(src, |src| - |last|)
  {
    hide WellFormedBlock, Meaning, Encode, Tight, RunAt, PairAt;
    n, ss, last := 0, [], [];
    if |src| <= MAX_INPUT_SIZE {
      n, ss, last := CompressGeneric(src, dest, |src| < LIMIT_64K);
      NotEmpty(ss, last);
    }
  }
}
