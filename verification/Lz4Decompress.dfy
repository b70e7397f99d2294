/** LZ4_decompress_generic with full decoding: `safe` selects endOnInputSize without prefix
    (LZ4_decompress_safe), otherwise endOnOutputSize with prefix (LZ4_decompress_fast). */
module Lz4Decompress {
  import opened Bytes
  import opened Lz4Format
  import opened Lz4Copy

  /** What a decoder does with a byte string. `Undefined`: the fast decoder would leave its buffers,
      or a zero offset makes the output depend on earlier contents of the buffer. */
  datatype Outcome =
    | Decoded(out: seq<Byte>, consumed: nat)
    | Rejected(at: nat)
    | Undefined

  datatype Length = Length(value: nat, next: nat, complete: bool)

  /** Adds up length bytes from `ip` until one differs from 255 or `limit` is reached. */
  function ReadLength(src: seq<Byte>, ip: nat, acc: nat, limit: int): (r: Length)
    requires ip <= |src| && limit <= |src|
    ensures ip <= r.next <= |src| && acc <= r.value
    ensures r.next <= limit || r.next == ip
    decreases |src| - ip
  {
    if limit <= ip then Length(acc, ip, false)
    else if src[ip] == 255 then ReadLength(src, ip + 1, acc + 255, limit)
    else Length(acc + src[ip], ip + 1, true)
  }

  function NibbleLength(src: seq<Byte>, ip: nat, nibble: nat, limit: int): (r: Length)
    requires ip <= |src| && limit <= |src|
    ensures ip <= r.next <= |src|
    ensures r.next <= limit || r.next == ip
  {
    if nibble == 15 then ReadLength(src, ip, 15, limit) else Length(nibble, ip, true)
  }

  /** Half a sequence: decoding stops, or goes on at `ip` with the output so far. */
  datatype Step = Stop(o: Outcome) | Next(ip: nat, out: seq<Byte>)

  /** Token and literals; the last literals of a block stop. */
  function LiteralStep(src: seq<Byte>, ip: nat, out: seq<Byte>, size: nat, safe: bool): (r: Step)
    requires ip <= |src|
    ensures r.Next? ==> ip < r.ip && r.ip + STEPSIZE <= |src|
  {
    if ip == |src| then Stop(Undefined)
    else
      var run := NibbleLength(src, ip + 1, src[ip] / 16, |src|);
      var cpy := |out| + run.value;
      var p := run.next + run.value;
      if !safe && !run.complete then Stop(Undefined)
      else if (if safe then cpy > size - MFLIMIT || p > |src| - (2 + 1 + LASTLITERALS)
               else cpy > size - COPYLENGTH) then
        if (safe && (p != |src| || cpy > size)) || (!safe && cpy != size) then Stop(Rejected(run.next))
        else if p > |src| then Stop(Undefined)
        else Stop(Decoded(out + src[run.next..p], p))
      else if p + STEPSIZE > |src| then Stop(Undefined)
      else Next(p, out + src[run.next..p])
  }

  /** Offset, match length and byte-by-byte copy. */
  function MatchStep(src: seq<Byte>, p: nat, nibble: nat, out: seq<Byte>, size: nat, safe: bool): (r: Step)
    requires p + STEPSIZE <= |src|
    ensures r.Next? ==> p < r.ip <= |src|
  {
    var offset: nat := src[p] as int + 256 * src[p + 1] as int;
    var run := NibbleLength(src, p + 2, nibble, if safe then |src| - (LASTLITERALS + 1) else |src|);
    if offset > |out| then Stop(if safe then Rejected(p + 2) else Undefined)
    else if offset == 0 || (!safe && !run.complete) then Stop(Undefined)
    else if |out| + run.value + MINMATCH > size - LASTLITERALS then Stop(Rejected(run.next))
    else Next(run.next, CopyMatch(out, offset, run.value + MINMATCH))
  }

  function SequenceStep(src: seq<Byte>, ip: nat, out: seq<Byte>, size: nat, safe: bool): (r: Step)
    requires ip <= |src|
    ensures r.Next? ==> ip < r.ip <= |src|
  {
    var half := LiteralStep(src, ip, out, size, safe);
    if half.Stop? then half else MatchStep(src, half.ip, src[ip] % 16, half.out, size, safe)
  }

  /** Reference decoder: one sequence at a time. */
  function DecodeFrom(src: seq<Byte>, ip: nat, out: seq<Byte>, size: nat, safe: bool): Outcome
    requires ip <= |src|
    decreases |src| - ip
  {
    match SequenceStep(src, ip, out, size, safe)
    case Stop(o) => o
    case Next(ip', out') => DecodeFrom(src, ip', out', size, safe)
  }

  /** With the decoders' special case for an empty output buffer. */
  function Decode(src: seq<Byte>, size: nat, safe: bool): Outcome {
    if size > 0 then DecodeFrom(src, 0, [], size, safe)
    else if safe then (if src == [0] then Decoded([], 1) else Rejected(0))
    else if src == [] then Undefined
    else if src[0] == 0 then Decoded([], 1)
    else Rejected(0)
  }

  /** The decoders' return value. */
  function ReturnCode(o: Outcome, safe: bool): int
    requires !o.Undefined?
  {
    match o
    case Decoded(out, consumed) => if safe then |out| else consumed
    case Rejected(at) => -(at as int) - 1
  }

  method ReadLengthBytes(src: seq<Byte>, start: nat, limit: int, safe: bool) returns (length: nat, ip: nat)
    requires start <= |src| && limit <= |src|
    requires !safe ==> ReadLength(src, start, 15, limit).complete
    ensures var r := ReadLength(src, start, 15, limit); length == r.value && ip == r.next
  {
    length, ip := 15, start;
    var s: Byte := 255;
    while (if safe then ip < limit else true) && s == 255
      invariant start <= ip <= |src|
      invariant !safe && s == 255 ==> ReadLength(src, ip, length, limit).complete
      invariant if s == 255 then ReadLength(src, ip, length, limit) == ReadLength(src, start, 15, limit)
                            else ReadLength(src, start, 15, limit) == Length(length, ip, true)
      decreases |src| - ip, s
    {
      s := src[ip];
      ip := ip + 1;
      length := length + s;
    }
  }

  /** The decoder's answer `n`, with what it left in `dest`, is what `o` says. */
  ghost predicate Answers(o: Outcome, n: int, dest: seq<Byte>, safe: bool) {
    && (!o.Undefined? ==> n == ReturnCode(o, safe))
    && (o.Decoded? ==> |o.out| <= |dest| && dest[..|o.out|] == o.out)
  }

  /** The closing memcpy. */
  method CopyExactly(src: seq<Byte>, ip: nat, dest: array<Byte>, op: nat, length: nat)
    requires ip + length <= |src| && op + length <= dest.Length
    modifies dest
    ensures dest[..op + length] == old(dest[..op]) + src[ip..ip + length]
  {
    forall k | 0 <= k < length {
      dest[op + k] := src[ip + k];
    }
  }

  /** lz4.c:749-781. `sound` is false once a zero offset has been met. */
  method TakeLiterals(src: seq<Byte>, ip0: nat, dest: array<Byte>, op0: nat, safe: bool, ghost out: seq<Byte>,
                      ghost sound: bool)
    returns (stop: bool, n: int, ip: nat, op: nat)
    requires ip0 < |src| && op0 <= dest.Length
    requires sound ==> dest[..op0] == out
    requires !safe ==> sound && LiteralStep(src, ip0, out, dest.Length, safe) != Stop(Undefined)
    modifies dest
    ensures !stop ==> ip0 < ip && ip + STEPSIZE <= |src| && op + (if safe then MFLIMIT else COPYLENGTH) <= dest.Length
    ensures sound ==>
              var r := LiteralStep(src, ip0, out, dest.Length, safe);
              if stop then r.Stop? && Answers(r.o, n, dest[..], safe) else r == Next(ip, dest[..op])
  {
    hide ReadLength;
    var iend, oend := |src|, dest.Length;
    var length := src[ip0] as int / 16;
    ip := ip0 + 1;
    if length == 15 {
      length, ip := ReadLengthBytes(src, ip, iend, safe);
    }
    var cpy := op0 + length;
    stop, n, op := true, 0, cpy;
    if (safe && (cpy > oend - MFLIMIT || ip + length > iend - (2 + 1 + LASTLITERALS))) || (!safe
      && cpy > oend - COPYLENGTH) {
      if !safe && cpy != oend {
        n := -(ip as int) - 1;
        return;
      }
      if safe && (ip + length != iend || cpy > oend) {
        n := -(ip as int) - 1;
        return;
      }
      CopyExactly(src, ip, dest, op0, length);
      ip := ip + length;
      n := if safe then op else ip;
      return;
    }
    WildCopyFrom(src, ip, dest, op0, cpy);
    ip := ip + length;
    stop := false;
  }

  /** lz4.c:783-822. */
  method TakeMatch(src: seq<Byte>, ip0: nat, nibble: nat, dest: array<Byte>, op0: nat, safe: bool, ghost out: seq<Byte>,
                   ghost sound: bool)
    returns (stop: bool, n: int, ip: nat, op: nat, ghost sound': bool)
    requires ip0 + STEPSIZE <= |src| && op0 + COPYLENGTH <= dest.Length && nibble < 16
    requires sound ==> dest[..op0] == out
    requires !safe ==> sound && MatchStep(src, ip0, nibble, out, dest.Length, safe) != Stop(Undefined)
    modifies dest
    ensures !stop ==> ip0 < ip <= |src| && op <= dest.Length && (safe ==> ip < |src|) && (sound' ==> sound)
    ensures !stop && !safe ==> sound'
    ensures sound ==>
              var r := MatchStep(src, ip0, nibble, out, dest.Length, safe);
              if stop then r.Stop? && Answers(r.o, n, dest[..], safe)
              else if sound' then r == Next(ip, dest[..op]) else r == Stop(Undefined)
  {
    hide ReadLength;
    var iend := |src|;
    var offset: nat := src[ip0] as int + 256 * src[ip0 + 1] as int;
    ip, op := ip0 + 2, op0;
    stop, n, sound' := true, 0, false;
    if safe && op - offset < 0 {
      n := -(ip as int) - 1;
      return;
    }
    var length := nibble;
    if length == 15 {
      length, ip := ReadLengthBytes(src, ip, if safe then iend - (LASTLITERALS + 1) else iend, safe);
    }
    var ok := CopyMatchInto(dest, op, offset, length);
    if !ok {
      n := -(ip as int) - 1;
      return;
    }
    stop, op, sound' := false, op + length + MINMATCH, sound && offset != 0;
  }

  /** Both decoders meet the reference decoder, return code included; every index is proved in
      range, for the safe decoder on every input of at least one byte. */
  method Decompress(src: seq<Byte>, dest: array<Byte>, safe: bool) returns (n: int)
    requires safe ==> src != [] || dest.Length == 0
    requires !safe ==> !Decode(src, dest.Length, safe).Undefined?
    modifies dest
    ensures Answers(Decode(src, dest.Length, safe), n, dest[..], safe)
  {
    if dest.Length == 0 {
      if safe {
        return if |src| == 1 && src[0] == 0 then 0 else -1;
      }
      return if src[0] == 0 then 1 else -1;
    }
    ghost var goal := Decode(src, dest.Length, safe);
    ghost var sound := true;
    var ip, op := 0, 0;
    assert dest[..op] == [];
    while true
      invariant 0 <= ip <= |src| && 0 <= op <= dest.Length && (safe ==> ip < |src|) && (!safe ==> sound)
      invariant if sound then goal == DecodeFrom(src, ip, dest[..op], dest.Length, safe) else goal.Undefined?
      decreases |src| - ip
    {
      var nibble := src[ip] as int % 16;
      var stop: bool;
      stop, n, ip, op := TakeLiterals(src, ip, dest, op, safe, dest[..op], sound);
      if stop {
        return;
      }
      stop, n, ip, op, sound := TakeMatch(src, ip, nibble, dest, op, safe, dest[..op], sound);
      if stop {
        return;
      }
    }
  }
}
