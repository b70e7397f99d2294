/** NBD messages on the wire: request.Decode and the response builder. Constants are those of
    linux/nbd.h; the host is little-endian, so the magic numbers appear in network order. */
module NbdWire {
  import opened Bytes
  import opened Options

  const REQUEST_MAGIC := 0x25609513
  const REPLY_MAGIC := 0x67446698
  const CMD_READ := 0
  const CMD_WRITE := 1
  const REQUEST_BYTES := 28
  const HANDLE_BYTES := 8
  const REPLY_BYTES := 16

  // ---------------------------------------------------------------- big-endian numbers

  function Pow256(n: nat): (p: nat)
    ensures p > 0
  {
    if n == 0 then 1 else 256 * Pow256(n - 1)
  }

  function BigEndian(b: seq<Byte>): nat {
    if b == [] then 0 else 256 * BigEndian(b[..|b| - 1]) + b[|b| - 1]
  }

  function ToBytes(x: nat, n: nat): (b: seq<Byte>)
    ensures |b| == n
  {
    if n == 0 then [] else ToBytes(x / 256, n - 1) + [x % 256]
  }

  lemma {:induction false} BigEndianBack(x: nat, n: nat)
    requires x < Pow256(n)
    ensures BigEndian(ToBytes(x, n)) == x
  {
    if n > 0 {
      BigEndianBack(x / 256, n - 1);
      assert ToBytes(x, n)[..n - 1] == ToBytes(x / 256, n - 1);
    }
  }

  lemma OneMoreByte(b: seq<Byte>, x: Byte)
    ensures BigEndian(b + [x]) == 256 * BigEndian(b) + x
  {
    assert (b + [x])[..|b|] == b;
  }

  /** The first byte on the wire is the most significant one. */
  lemma {:induction false} FourBytes(a: Byte, b: Byte, c: Byte, d: Byte)
    ensures BigEndian([a, b, c, d]) == a * 0x100_0000 + b * 0x1_0000 + c * 0x100 + d
  {
    hide BigEndian;
    assert [a, b, c, d] == [] + [a] + [b] + [c] + [d];
    assert BigEndian([]) == 0 by {
      NoBytes();
    }
    OneMoreByte([], a);
    OneMoreByte([] + [a], b);
    OneMoreByte([] + [a] + [b], c);
    OneMoreByte([] + [a] + [b] + [c], d);
  }

  lemma NoBytes()
    ensures BigEndian([]) == 0
  {}

  lemma {:induction false} EightBytes(b: seq<Byte>)
    requires |b| == 8
    ensures BigEndian(b) == BigEndian(b[..4]) * 0x1_0000_0000 + BigEndian(b[4..])
  {
    hide BigEndian;
    var p := b[..4];
    assert b == p + [b[4]] + [b[5]] + [b[6]] + [b[7]];
    OneMoreByte(p, b[4]);
    OneMoreByte(p + [b[4]], b[5]);
    OneMoreByte(p + [b[4]] + [b[5]], b[6]);
    OneMoreByte(p + [b[4]] + [b[5]] + [b[6]], b[7]);
    assert b[4..] == [b[4], b[5], b[6], b[7]];
    FourBytes(b[4], b[5], b[6], b[7]);
  }

  const U32 := 0x1_0000_0000
  const U64 := 0x1_0000_0000_0000_0000

  lemma Widths()
    ensures Pow256(4) == U32 && Pow256(8) == U64
  {
    assert Pow256(2) == 0x1_0000;
    assert Pow256(6) == 0x1_0000_0000_0000;
  }

  /** The conversions between int64 and uint64. */
  function Signed(u: nat): int {
    if u < U64 / 2 then u else u - U64
  }

  function Unsigned(i: int): nat
    requires -U64 <= i
  {
    if i < 0 then i + U64 else i
  }

  // ---------------------------------------------------------------- requests

  datatype Msg = Msg(kind: nat, handle: seq<Byte>, pos: int, count: nat, payload: seq<Byte>)

  predicate ValidMsg(m: Msg) {
    && m.kind < U32 && |m.handle| == HANDLE_BYTES && -(U64 / 2) <= m.pos < U64 / 2 && m.count < U32
    && |m.payload| == if m.kind == CMD_WRITE then m.count else 0
  }

  /** A request as a client sends it; the test suite's Encode. */
  function EncodeMsg(m: Msg): seq<Byte>
    requires ValidMsg(m)
  {
    ToBytes(REQUEST_MAGIC, 4) + ToBytes(m.kind, 4) + m.handle + ToBytes(Unsigned(m.pos), 8) + ToBytes(m.count,
        4) + m.payload
  }

  function EncodeAll(ms: seq<Msg>): seq<Byte>
    requires forall i :: 0 <= i < |ms| ==> ValidMsg(ms[i])
  {
    if ms == [] then [] else EncodeMsg(ms[0]) + EncodeAll(ms[1..])
  }

  /** What the stream says, and how much of it one request takes. */
  function Parse(data: seq<Byte>): (r: Option<(Msg, nat)>)
    ensures r.Some? ==> REQUEST_BYTES <= r.value.1 <= |data| && ValidMsg(r.value.0)
  {
    if |data| < REQUEST_BYTES || BigEndian(data[..4]) != REQUEST_MAGIC then None
    else
      var kind, count := BigEndian(data[4..8]), BigEndian(data[24..28]);
      var end := REQUEST_BYTES + if kind == CMD_WRITE then count else 0;
      BigEndianBelow(data[4..8]);
      BigEndianBelow(data[16..24]);
      BigEndianBelow(data[24..28]);
      Widths();
      if end > |data| then None
      else Some((Msg(kind, data[8..16], Signed(BigEndian(data[16..24])), count, data[REQUEST_BYTES..end]), end))
  }

  /** Four bytes as the number that the protocol means by them. */
  function Number(b: seq<Byte>): nat
    requires |b| == 4
  {
    b[0] as int * 0x100_0000 + b[1] as int * 0x1_0000 + b[2] as int * 0x100 + b[3] as int
  }

  lemma NumberIs(b: seq<Byte>)
    requires |b| == 4
    ensures BigEndian(b) == Number(b)
  {
    assert b == [b[0], b[1], b[2], b[3]];
    FourBytes(b[0], b[1], b[2], b[3]);
  }

  lemma SameNumber(b: seq<Byte>, x: Byte, y: Byte, z: Byte, w: Byte)
    requires |b| == 4
    ensures Number(b) == Number([x, y, z, w]) <==> b == [x, y, z, w]
  {
    NumberIs(b);
    NumberIs([x, y, z, w]);
    ToBytesBack(b);
    ToBytesBack([x, y, z, w]);
    hide Number, BigEndian, ToBytes;
  }

  /** The layout of a request, for every byte string: the magic in network order, then type, handle,
      position and count, and the payload of a write, which is command 1. */
  lemma {:induction false} RequestLayout(data: seq<Byte>)
    ensures Parse(data).Some? <==>
            |data| >= 28 && data[..4] == [0x25, 0x60, 0x95, 0x13]
              && (data[4..8] == [0, 0, 0, 1] ==> |data| >= 28 + Number(data[24..28]))
    ensures Parse(data).Some? ==>
              var (m, end) := Parse(data).value;
              && m.kind == Number(data[4..8]) && m.handle == data[8..16] && m.count == Number(data[24..28])
              && m.pos == (Number(data[16..20]) - if data[16] >= 128 then U32 else 0) * U32 + Number(data[20..24])
              && end == 28 + (if m.kind == 1 then m.count else 0) && m.payload == data[28..end]
  {
    hide BigEndian;
    if |data| >= 28 {
      NumberIs(data[..4]);
      NumberIs(data[4..8]);
      NumberIs(data[24..28]);
      SameNumber(data[..4], 0x25, 0x60, 0x95, 0x13);
      SameNumber(data[4..8], 0, 0, 0, 1);
      EightBytes(data[16..24]);
      assert data[16..24][..4] == data[16..20] && data[16..24][4..] == data[20..24];
      NumberIs(data[16..20]);
      NumberIs(data[20..24]);
    }
  }

  lemma {:induction false} BigEndianBelow(b: seq<Byte>)
    ensures BigEndian(b) < Pow256(|b|)
    decreases |b|
  {
    if b != [] {
      BigEndianBelow(b[..|b| - 1]);
    }
  }

  function ParseAll(data: seq<Byte>, n: nat): Option<(seq<Msg>, seq<Byte>)> {
    if n == 0 then Some(([], data))
    else
      match Parse(data)
      case None => None
      case Some((m, end)) =>
        match ParseAll(data[end..], n - 1)
        case None => None
        case Some((ms, rest)) => Some(([m] + ms, rest))
  }

  lemma Fields(a: seq<Byte>, b: seq<Byte>, h: seq<Byte>, p: seq<Byte>, c: seq<Byte>, x: seq<Byte>, rest: seq<Byte>)
    requires |a| == |b| == |c| == 4 && |h| == |p| == 8
    ensures var data := a + b + h + p + c + x + rest;
            data[..4] == a && data[4..8] == b && data[8..16] == h && data[16..24] == p && data[24..28] == c
              && data[28..28 + |x|] == x
  {}

  /** A request survives the wire, whatever follows it. */
  lemma {:induction false} RequestRoundTrip(m: Msg, rest: seq<Byte>)
    requires ValidMsg(m)
    ensures Parse(EncodeMsg(m) + rest) == Some((m, |EncodeMsg(m)|))
  {
    hide ToBytes, BigEndian, Pow256;
    Widths();
    var a, b, p, c := ToBytes(REQUEST_MAGIC, 4), ToBytes(m.kind, 4), ToBytes(Unsigned(m.pos), 8), ToBytes(m.count, 4);
    Fields(a, b, m.handle, p, c, m.payload, rest);
    BigEndianBack(REQUEST_MAGIC, 4);
    BigEndianBack(m.kind, 4);
    BigEndianBack(Unsigned(m.pos), 8);
    BigEndianBack(m.count, 4);
  }

  lemma {:induction false} ToBytesBack(b: seq<Byte>)
    ensures ToBytes(BigEndian(b), |b|) == b
    decreases |b|
  {
    if b != [] {
      ToBytesBack(b[..|b| - 1]);
      assert b == b[..|b| - 1] + [b[|b| - 1]];
    }
  }

  /** Nothing but an encoded request is accepted. */
  lemma {:induction false} OnlyEncodingsParse(data: seq<Byte>)
    requires Parse(data).Some?
    ensures var (m, end) := Parse(data).value; data[..end] == EncodeMsg(m)
  {
    hide ToBytes, BigEndian, Pow256;
    var (m, end) := Parse(data).value;
    ToBytesBack(data[..4]);
    ToBytesBack(data[4..8]);
    ToBytesBack(data[16..24]);
    ToBytesBack(data[24..28]);
    BigEndianBelow(data[16..24]);
    Widths();
    assert data[..end] == data[..4] + data[4..8] + data[8..16] + data[16..24] + data[24..28] + data[28..end];
  }

  /** A stream of requests comes back as it was sent, and nothing after it is consumed. */
  lemma {:induction false} StreamRoundTrip(ms: seq<Msg>, rest: seq<Byte>)
    requires forall i :: 0 <= i < |ms| ==> ValidMsg(ms[i])
    ensures ParseAll(EncodeAll(ms) + rest, |ms|) == Some((ms, rest))
    decreases |ms|
  {
    hide EncodeMsg, Parse;
    if ms == [] {
      assert EncodeAll(ms) + rest == rest;
    } else {
      var first, tail := EncodeMsg(ms[0]), EncodeAll(ms[1..]) + rest;
      assert EncodeAll(ms) + rest == first + tail;
      RequestRoundTrip(ms[0], tail);
      assert (first + tail)[|first|..] == tail;
      StreamRoundTrip(ms[1..], rest);
      assert [ms[0]] + ms[1..] == ms;
    }
  }

  /** A command stream: io.ReadFull takes all of `n` bytes or fails. */
  class Stream {
    var rest: seq<Byte>

    constructor (data: seq<Byte>)
      ensures rest == data
    {
      rest := data;
    }

    method ReadFull(n: nat) returns (ok: bool, b: seq<Byte>)
      modifies this
      ensures ok == (n <= old(|rest|))
      ensures ok ==> b == old(rest)[..n] && rest == old(rest)[n..]
    {
      ok := n <= |rest|;
      b := if ok then rest[..n] else rest;
      rest := if ok then rest[n..] else [];
    }
  }

  /** A pooled request object; the write buffer is kept from one use to the next. */
  class Request {
    var kind: nat
    var handle: seq<Byte>
    var pos: int
    var count: nat
    var buffer: array<Byte>    // capacity of writeBuffer
    var used: nat              // length of writeBuffer

    ghost predicate Valid()
      reads this
    {
      used <= buffer.Length
    }

    constructor ()
      ensures Valid() && fresh(buffer)
    {
      kind, handle, pos, count, used := 0, Zeros(HANDLE_BYTES), 0, 0, 0;
      buffer := new Byte[0];
    }

    /** The request the object holds. */
    ghost function Holds(): Msg
      requires Valid()
      reads this, buffer
    {
      Msg(kind, handle, pos, count, if kind == CMD_WRITE then buffer[..used] else [])
    }

    /** req.go:83-90. */
    method GetWriteBuffer()
      requires Valid()
      modifies this`buffer, this`used
      ensures Valid() && used == count && if count <= old(buffer.Length) then buffer == old(buffer) else fresh(buffer)
    {
      if buffer.Length < count {
        buffer := new Byte[count];
      }
      used := count;
    }

    /** req.go:34-81. Whatever the object held before, it now holds the stream's next request. */
    method Decode(strm: Stream) returns (ok: bool)
      requires Valid()
      modifies this, buffer, strm
      ensures Valid() && (buffer == old(buffer) || fresh(buffer))
      ensures ok == Parse(old(strm.rest)).Some?
      ensures ok ==> var (m, end) := Parse(old(strm.rest)).value; Holds() == m && strm.rest == old(strm.rest)[end..]
    {
      hide BigEndian;
      var raw: seq<Byte>;
      ok, raw := strm.ReadFull(REQUEST_BYTES);
      if !ok {
        return;
      }
      RawFields(strm.rest, raw);
      assert old(strm.rest) == raw + strm.rest;
      if BigEndian(raw[..4]) != REQUEST_MAGIC {
        return false;
      }
      kind := BigEndian(raw[4..8]);
      handle := raw[8..16];
      pos := Signed(BigEndian(raw[16..24]));
      count := BigEndian(raw[24..28]);
      if kind == CMD_WRITE {
        GetWriteBuffer();
        var payload: seq<Byte>;
        ok, payload := strm.ReadFull(count);
        if !ok {
          return;
        }
        forall i | 0 <= i < count {
          buffer[i] := payload[i];
        }
        assert buffer[..used] == payload;
      }
    }
  }

  lemma RawFields(rest: seq<Byte>, raw: seq<Byte>)
    requires |raw| == REQUEST_BYTES
    ensures var data := raw + rest;
            && data[..4] == raw[..4] && data[4..8] == raw[4..8] && data[8..16] == raw[8..16]
            && data[16..24] == raw[16..24] && data[24..28] == raw[24..28]
            && forall n: nat :: n <= |rest| ==>
                 data[REQUEST_BYTES..REQUEST_BYTES + n] == rest[..n] && data[REQUEST_BYTES + n..] == rest[n..]
  {}

  /** Decodes `n` requests one after the other into the same object. */
  method DecodeAll(data: seq<Byte>, n: nat) returns (ok: bool, out: seq<Msg>, rest: seq<Byte>)
    ensures ok == ParseAll(data, n).Some?
    ensures ok ==> (out, rest) == ParseAll(data, n).value
  {
    hide Parse;
    var strm := new Stream(data);
    var req := new Request();
    out, ok := [], true;
    AfterNothing(ParseAll(data, n));
    var i := 0;
    while i < n
      invariant 0 <= i <= n && |out| == i && req.Valid() && fresh(req.buffer)
      invariant ParseAll(data, n) == After(out, ParseAll(strm.rest, n - i))
    {
      ghost var before := strm.rest;
      ok := req.Decode(strm);
      if !ok {
        rest := [];
        return;
      }
      var msg := Msg(req.kind, req.handle, req.pos, req.count, if req.kind == CMD_WRITE then req.buffer[..req.used]
        else []);
      assert ParseAll(before, n - i) == After([msg], ParseAll(strm.rest, n - i - 1));
      AfterTwice(out, msg, ParseAll(strm.rest, n - i - 1));
      out := out + [msg];
      i := i + 1;
    }
    rest := strm.rest;
    assert ParseAll(strm.rest, 0) == Some(([], strm.rest));
    assert out + [] == out;
  }

  /** The messages already decoded, and then the rest. */
  function After(out: seq<Msg>, r: Option<(seq<Msg>, seq<Byte>)>): Option<(seq<Msg>, seq<Byte>)> {
    if r.None? then None else Some((out + r.value.0, r.value.1))
  }

  lemma AfterNothing(r: Option<(seq<Msg>, seq<Byte>)>)
    ensures After([], r) == r
  {
    assert r.Some? ==> [] + r.value.0 == r.value.0;
  }

  lemma AfterTwice(out: seq<Msg>, m: Msg, r: Option<(seq<Msg>, seq<Byte>)>)
    ensures After(out, After([m], r)) == After(out + [m], r)
  {
    assert r.Some? ==> out + ([m] + r.value.0) == (out + [m]) + r.value.0;
  }

  // ---------------------------------------------------------------- replies

  /** The header of a simple reply. */
  function ReplyHeader(err: nat, handle: seq<Byte>): (b: seq<Byte>)
    requires |handle| == HANDLE_BYTES
    ensures |b| == REPLY_BYTES
  {
    ToBytes(REPLY_MAGIC, 4) + ToBytes(err, 4) + handle
  }

  /** A pooled response object. */
  class Response {
    var header: seq<Byte>
    var kind: nat
    var err: nat
    var buffer: array<Byte>
    var used: nat

    ghost predicate Valid()
      reads this
    {
      used <= buffer.Length
    }

    constructor ()
      ensures Valid() && fresh(buffer) && used == 0
    {
      header, kind, err, used := [], 0, 0, 0;
      buffer := new Byte[0];
    }

    /** resp.go:35-42. */
    method GetReadBuffer(count: nat)
      requires Valid()
      modifies this`buffer, this`used
      ensures Valid() && used == count && if count <= old(buffer.Length) then buffer == old(buffer) else fresh(buffer)
    {
      if buffer.Length < count {
        buffer := new Byte[count];
      }
      used := count;
    }

    /** resp.go:24-33. */
    method Set(req: Request, errCode: nat)
      requires |req.handle| == HANDLE_BYTES
      modifies this`header, this`kind, this`err
      ensures header == ReplyHeader(errCode, req.handle) && kind == req.kind && err == errCode
    {
      kind, err := req.kind, errCode;
      header := ToBytes(REPLY_MAGIC, 4);
      header := header + ToBytes(errCode, 4);
      header := header + req.handle;
    }

    /** resp.go:44-55. The read buffer follows every reply to a read, failed or not. */
    method Write() returns (sent: seq<Byte>)
      requires Valid()
      ensures sent == header + if kind == CMD_READ then buffer[..used] else []
    {
      sent := header;
      if kind == CMD_READ {
        sent := sent + buffer[..used];
      }
    }
  }

  datatype Reply = Reply(err: nat, handle: seq<Byte>, data: seq<Byte>)

  /** How a client reads a simple reply: data follows only a read that succeeded. */
  function ParseReply(stream: seq<Byte>, kind: nat, count: nat): Option<(Reply, seq<Byte>)> {
    if |stream| < REPLY_BYTES || BigEndian(stream[..4]) != REPLY_MAGIC then None
    else
      var err := BigEndian(stream[4..8]);
      var end := REPLY_BYTES + if kind == CMD_READ && err == 0 then count else 0;
      if end > |stream| then None
      else Some((Reply(err, stream[8..16], stream[REPLY_BYTES..end]), stream[end..]))
  }

  lemma ReplyFields(err: nat, handle: seq<Byte>, body: seq<Byte>, rest: seq<Byte>)
    requires |handle| == HANDLE_BYTES && err < U32
    ensures var s := ReplyHeader(err, handle) + body + rest;
            && |s| == REPLY_BYTES + |body| + |rest|
            && BigEndian(s[..4]) == REPLY_MAGIC && BigEndian(s[4..8]) == err && s[8..16] == handle
            && s[REPLY_BYTES..] == body + rest && s[REPLY_BYTES..REPLY_BYTES + |body|] == body
               && s[REPLY_BYTES + |body|..] == rest
  {
    hide BigEndian, ToBytes, Pow256;
    Widths();
    BigEndianBack(REPLY_MAGIC, 4);
    BigEndianBack(err, 4);
    var s := ReplyHeader(err, handle) + body + rest;
    assert s[..4] == ToBytes(REPLY_MAGIC, 4);
    assert s[4..8] == ToBytes(err, 4);
  }

  /** The layout of a reply: the magic in network order, the code and the handle. */
  lemma {:induction false} ReplyLayout(err: nat, handle: seq<Byte>, rest: seq<Byte>)
    requires |handle| == HANDLE_BYTES && err < U32
    ensures var s := ReplyHeader(err, handle) + rest;
            && s[..4] == [0x67, 0x44, 0x66, 0x98] && Number(s[4..8]) == err && s[8..16] == handle && s[16..] == rest
  {
    hide BigEndian, ReplyHeader, Number;
    ReplyFields(err, handle, [], rest);
    var s := ReplyHeader(err, handle) + rest;
    assert s == ReplyHeader(err, handle) + [] + rest;
    NumberIs(s[..4]);
    NumberIs(s[4..8]);
    SameNumber(s[..4], 0x67, 0x44, 0x66, 0x98);
    assert Number([0x67, 0x44, 0x66, 0x98]) == REPLY_MAGIC by {
      FourBytes(0x67, 0x44, 0x66, 0x98);
      NumberIs([0x67, 0x44, 0x66, 0x98]);
    }
  }

  /** The client understands the reply, and the stream after it, exactly when the reply is not that of
      a failed read with bytes left in the reused read buffer. */
  lemma {:induction false} ClientInStep(err: nat, handle: seq<Byte>, kind: nat, count: nat, buf: seq<Byte>,
                                        rest: seq<Byte>)
    requires |handle| == HANDLE_BYTES && err < U32 && (kind == CMD_READ && err == 0 ==> |buf| == count)
    ensures var body := if kind == CMD_READ then buf else [];
            var data := if kind == CMD_READ && err == 0 then buf else [];
            ParseReply(ReplyHeader(err, handle) + body + rest, kind, count) ==
                Some((Reply(err, handle, data), rest)) <==>
            !(kind == CMD_READ && err != 0 && buf != [])
  {
    hide BigEndian, ReplyHeader;
    var body := if kind == CMD_READ then buf else [];
    ReplyFields(err, handle, body, rest);
    if kind == CMD_READ && err != 0 {
      var s := ReplyHeader(err, handle) + body + rest;
      assert |s[REPLY_BYTES..]| == |buf| + |rest|;
    }
  }

  /** A recycled response object answers a request: resp.go:24-55 on one side, the client on the other. The
      client gets the code, the handle and, from a successful read, the bytes in the read buffer, and finds
      the next reply where it should be, if and only if the request is not a failed read that finds bytes
      left in the buffer. */
  method SendReply(resp: Response, req: Request, errCode: nat, next: seq<Byte>) returns (stream: seq<Byte>)
    requires resp.Valid() && |req.handle| == HANDLE_BYTES && errCode < U32
    requires req.kind == CMD_READ && errCode == 0 ==> resp.used == req.count
    modifies resp`header, resp`kind, resp`err
    ensures var data := if req.kind == CMD_READ && errCode == 0 then resp.buffer[..resp.used] else [];
            ParseReply(stream, req.kind, req.count) == Some((Reply(errCode, req.handle, data), next)) <==>
            !(req.kind == CMD_READ && errCode != 0 && resp.used > 0)
    ensures |stream| >= 16 && stream[..4] == [0x67, 0x44, 0x66, 0x98] && Number(stream[4..8]) == errCode
    ensures stream[8..16] == req.handle
    ensures stream[16..] == (if req.kind == 0 then resp.buffer[..resp.used] else []) + next
  {
    hide ParseReply, ReplyHeader;
    resp.Set(req, errCode);
    var sent := resp.Write();
    stream := sent + next;
    ReplyLayout(errCode, req.handle, sent[16..] + next);
    assert stream == resp.header + (sent[16..] + next);
    ClientInStep(errCode, req.handle, req.kind, req.count, resp.buffer[..resp.used], next);
  }
}
