/** LZ4_compress followed by either decoder is the identity. */
module Lz4RoundTrip {
  import opened Bytes
  import opened Lz4Format
  import opened Lz4Decompress
  import opened Lz4Decode
  import opened Lz4Compress

  /** For every source up to LZ4_MAX_INPUT_SIZE and every spare room in the safe decoder's buffer,
      and with any bytes after the block for the fast decoder. */
  method RoundTrip(src: seq<Byte>, room: nat, after: seq<Byte>)
    returns (packed: seq<Byte>, safeOut: seq<Byte>, safeCode: int, fastOut: seq<Byte>, fastCode: int)
    requires |src| <= MAX_INPUT_SIZE
    ensures 1 <= |packed| <= CompressBound(|src|)
    ensures safeCode == |src| && safeOut == src
    ensures fastCode == |packed| && fastOut == src
  {
    hide Encode, Meaning, WellFormedBlock, Decode;
    var dest := new Byte[CompressBound(|src|)];
    var n, ss, last := Compress(src, dest);
    packed := dest[..n];
    EncodedDecodes(ss, last, after, room);
    var safeBuf := new Byte[|src| + room];
    safeCode := Decompress(packed, safeBuf, true);
    safeOut := safeBuf[..|src|];
    var fastBuf := new Byte[|src|];
    fastCode := Decompress(packed + after, fastBuf, false);
    fastOut := fastBuf[..];
  }
}
