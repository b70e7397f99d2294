/** sparseCopy: downloads a stream into a fresh file, seeking over long runs of zeros. */
module SparseCopy {
  import opened Bytes

  const MIN_SPARSE_ZEROS := 4096
  const WRITER_BUFFER := 4096

  /** `data` stretched with zeros to at least `n` bytes, as the file system fills a hole. */
  function Padded(data: seq<Byte>, n: nat): (r: seq<Byte>)
    ensures |r| == if |data| < n then n else |data|
  {
    if |data| < n then data + Zeros(n - |data|) else data
  }

  /** An os.File: bytes and a position; a write past the end leaves a hole of zeros. */
  class File {
    var data: seq<Byte>
    var pos: nat
    ghost var written: nat   // bytes that were written rather than skipped

    constructor ()
      ensures data == [] && pos == 0 && written == 0
    {
      data, pos, written := [], 0, 0;
    }

    method Write(bytes: seq<Byte>)
      modifies this
      ensures pos == old(pos) + |bytes| && written == old(written) + |bytes|
      ensures old(|data| <= pos) && bytes != [] ==> data == Padded(old(data), old(pos)) + bytes
      ensures bytes == [] ==> data == old(data)
    {
      if bytes != [] {
        var padded := Padded(data, pos);
        data := padded[..pos] + bytes + (if pos + |bytes| < |padded| then padded[pos + |bytes|..] else []);
        pos := pos + |bytes|;
        written := written + |bytes|;
      }
    }

    method Seek(n: nat)
      modifies this
      ensures pos == old(pos) + n && data == old(data) && written == old(written)
    {
      pos := pos + n;
    }
  }

  /** A bufio.Writer over a file. */
  class Writer {
    const file: File
    var buf: seq<Byte>

    constructor (file: File)
      ensures this.file == file && buf == []
    {
      this.file := file;
      buf := [];
    }

    /** Everything the file holds or will hold up to its position, buffered bytes included. */
    ghost function Sent(): seq<Byte>
      reads this, file
    {
      Padded(file.data, file.pos) + buf
    }

    /** How many bytes are written or will be. */
    ghost function Cost(): nat
      reads this, file
    {
      file.written + |buf|
    }

    ghost predicate Valid()
      reads this, file
    {
      |file.data| <= file.pos && |buf| <= WRITER_BUFFER
    }

    method Flush()
      requires Valid()
      modifies this, file
      ensures Valid() && buf == [] && Sent() == old(Sent()) && Cost() == old(Cost())
      ensures old(buf) == [] ==> file.data == old(file.data)
      ensures old(buf) != [] ==> |file.data| == file.pos
    {
      if buf != [] {
        file.Write(buf);
        buf := [];
      }
    }

    method WriteByte(b: Byte)
      requires Valid()
      modifies this, file
      ensures Valid() && Sent() == old(Sent()) + [b] && Cost() == old(Cost()) + 1
    {
      if |buf| == WRITER_BUFFER {
        Flush();
      }
      buf := buf + [b];
    }
  }

  /** What is left in the file: the stream, and one more zero byte unless the stream ends in zero. */
  function Image(src: seq<Byte>): (r: seq<Byte>) {
    if src != [] && src[|src| - 1] == 0 then src else src + [0]
  }

  /** Emits the zeros that are not worth a hole. */
  method WriteZeros(out: Writer, count: nat)
    requires out.Valid()
    modifies out, out.file
    ensures out.Valid() && out.Sent() == old(out.Sent()) + Zeros(count) && out.Cost() == old(out.Cost()) + count
  {
    var i := 0;
    while i < count
      invariant i <= count && out.Valid() && out.Sent() == old(out.Sent()) + Zeros(i)
      invariant out.Cost() == old(out.Cost()) + i
    {
      out.WriteByte(0);
      i := i + 1;
      assert Zeros(i) == Zeros(i - 1) + [0];
    }
  }

  /** storeparams.go:330-348: a hole for a long run of zeros, bytes for a short one. */
  method PassZeros(out: Writer, pend: nat)
    requires out.Valid()
    modifies out, out.file
    ensures out.Valid() && out.Sent() == old(out.Sent()) + Zeros(pend)
    ensures out.Cost() == old(out.Cost()) + if pend >= 4096 then 0 else pend
  {
    if pend >= MIN_SPARSE_ZEROS {
      out.Flush();
      ghost var sent := out.Sent();
      out.file.Seek(pend);
      assert out.Sent() == sent + Zeros(pend);
    } else {
      WriteZeros(out, pend);
    }
  }

  /** storeparams.go:310-321: the end of the stream. */
  method Finish(out: Writer, pend: nat)
    requires out.Valid()
    modifies out, out.file
    ensures out.file.data == old(out.Sent()) + Zeros(if pend > 0 then pend else 1)
    ensures out.file.written == old(out.Cost()) + 1
  {
    out.Flush();
    ghost var sent := out.Sent();
    assert sent == Padded(out.file.data, out.file.pos);
    if pend > 1 {
      out.file.Seek(pend - 1);
      assert Padded(out.file.data, out.file.pos) == sent + Zeros(pend - 1);
    }
    out.file.Write([0]);
    assert pend > 1 ==> Zeros(pend) == Zeros(pend - 1) + [0];
    assert Zeros(1) == [0];
  }

  /** How many zeros the stream ends in. */
  function EndZeros(src: seq<Byte>): nat {
    if src == [] || src[|src| - 1] != 0 then 0 else 1 + EndZeros(src[..|src| - 1])
  }

  /** How many bytes a sparse copy writes, all but the last one: those that are not zero, and the zeros before
      them in runs of less than 4096. */
  function Dense(src: seq<Byte>): nat {
    if src == [] then 0
    else
      var before := src[..|src| - 1];
      if src[|src| - 1] == 0 then Dense(before)
      else Dense(before) + (if EndZeros(before) >= 4096 then 0 else EndZeros(before)) + 1
  }

  lemma DenseNext(src: seq<Byte>, i: nat)
    requires i < |src|
    ensures var zeros := EndZeros(src[..i]);
            && EndZeros(src[..i + 1]) == (if src[i] == 0 then zeros + 1 else 0)
            && Dense(src[..i + 1]) ==
               Dense(src[..i]) + if src[i] == 0 then 0 else (if zeros >= 4096 then 0 else zeros) + 1
  {
    assert src[..i + 1][..i] == src[..i];
  }

  /** No more bytes than the stream has are written, and of a stream of zeros none. */
  lemma {:induction false} DenseBound(src: seq<Byte>)
    ensures Dense(src) + EndZeros(src) <= |src| && (IsZeros(src) ==> Dense(src) == 0)
  {
    if src != [] {
      DenseBound(src[..|src| - 1]);
      assert IsZeros(src) ==> src[|src| - 1] == 0;
    }
  }

  /** After `i` bytes of the stream: all but the last `pend` of them are sent, and those are zeros. */
  ghost predicate Copied(sent: seq<Byte>, src: seq<Byte>, i: nat, pend: nat) {
    pend <= i <= |src| && src[..i] == sent + Zeros(pend) && (pend == 0 ==> i == 0 || src[i - 1] != 0)
  }

  lemma CopiedZero(sent: seq<Byte>, src: seq<Byte>, i: nat, pend: nat)
    requires Copied(sent, src, i, pend) && i < |src| && src[i] == 0
    ensures Copied(sent, src, i + 1, pend + 1)
  {
    assert src[..i + 1] == src[..i] + [src[i]];
    assert Zeros(pend + 1) == Zeros(pend) + [0];
  }

  lemma CopiedByte(sent: seq<Byte>, src: seq<Byte>, i: nat, pend: nat)
    requires Copied(sent, src, i, pend) && i < |src| && src[i] != 0
    ensures Copied(sent + Zeros(pend) + [src[i]], src, i + 1, 0)
  {
    assert src[..i + 1] == src[..i] + [src[i]];
  }

  lemma CopiedAll(sent: seq<Byte>, src: seq<Byte>, pend: nat)
    requires Copied(sent, src, |src|, pend)
    ensures sent + Zeros(if pend > 0 then pend else 1) == Image(src)
  {
    assert src[..|src|] == src;
    assert pend == 0 ==> sent == src;
    assert pend > 0 ==> src[|src| - 1] == (sent + Zeros(pend))[|src| - 1];
    assert Zeros(1) == [0];
  }

  /** storeparams.go:326-355: one byte of the stream. */
  method TakeByte(out: Writer, src: seq<Byte>, i: nat, pend: nat, n: nat) returns (pend': nat, n': nat)
    requires out.Valid() && i < |src| && Copied(out.Sent(), src, i, pend) && n + pend == i
    requires pend == EndZeros(src[..i]) && out.Cost() == Dense(src[..i])
    modifies out, out.file
    ensures out.Valid() && Copied(out.Sent(), src, i + 1, pend') && n' + pend' == i + 1
    ensures pend' == EndZeros(src[..i + 1]) && out.Cost() == Dense(src[..i + 1])
  {
    hide Dense, EndZeros;
    DenseNext(src, i);
    var cur := src[i];
    n' := n;
    if cur == 0 {
      CopiedZero(out.Sent(), src, i, pend);
      pend' := pend + 1;
    } else {
      CopiedByte(out.Sent(), src, i, pend);
      hide Copied, Writer.Sent, Writer.Cost;
      if pend > 0 {
        PassZeros(out, pend);
        n' := n' + pend;
      }
      out.WriteByte(cur);
      pend', n' := 0, n' + 1;
    }
  }

  /** storeparams.go:300-361. `broken`: the stream ends in an error rather than at its end. Returns
      the stream's length, not the file's. */
  method Copy(file: File, src: seq<Byte>, broken: bool) returns (n: nat, ok: bool)
    requires file.data == [] && file.pos == 0 && file.written == 0
    modifies file
    ensures ok == !broken
    ensures ok ==> n == |src| && file.data == Image(src)
    ensures ok ==> |src| <= |file.data| && file.data[..|src|] == src
    ensures ok ==> (file.data == src <==> src != [] && src[|src| - 1] == 0)
    ensures ok ==> file.written == Dense(src) + 1
  {
    var out := new Writer(file);
    var pend, i := 0, 0;
    n := 0;
    while i < |src|
      invariant 0 <= i <= |src| && n + pend == i && 0 <= pend && out.file == file && out.Valid() && fresh(out)
      invariant Copied(out.Sent(), src, i, pend) && pend == EndZeros(src[..i]) && out.Cost() == Dense(src[..i])
    {
      pend, n := TakeByte(out, src, i, pend, n);
      i := i + 1;
    }
    if broken {
      return n, false;
    }
    CopiedAll(out.Sent(), src, pend);
    assert src[..|src|] == src;
    Finish(out, pend);
    n := n + pend;
    ok := true;
  }
}
