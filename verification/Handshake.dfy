/** internal/protocol/handshake.go: the two frames exchanged on the control
    connection before yamux takes it over. The JSON text of Hello and Ack is an
    arbitrary encoder with its decoder. */
module Handshake {
  import opened Bytes
  import opened Options

  const MAGIC: seq<byte> := [65, 88, 82, 49]
  const VERSION: byte := 1
  const MAX_PAYLOAD := 8192

  const STATUS_OK: byte := 0
  const STATUS_BAD_AUTH: byte := 1
  const STATUS_BAD_REQUEST: byte := 3

  datatype Failure = Truncated | BadMagic | BadVersion | TooLarge | BadPayload

  /** The 16-bit big-endian length, of which only the low 16 bits are kept. */
  function PutLength(n: nat): seq<byte> {
    [n / 256 % 256, n % 256]
  }

  function GetLength(hi: byte, lo: byte): nat {
    hi * 256 + lo
  }

  /** A frame. Between version and length, Hello has nothing and Ack its status. */
  function Frame(tag: seq<byte>, body: seq<byte>): seq<byte> {
    MAGIC + [VERSION] + tag + PutLength(|body|) + body
  }

  datatype Parsed = Parsed(tag: seq<byte>, body: seq<byte>, rest: seq<byte>)

  /** Reading a frame with a tag of the given size off the front of a stream. */
  function Parse(bs: seq<byte>, tagSize: nat): Result<Parsed, Failure> {
    var h := 5 + tagSize + 2;
    if |bs| < h then Err(Truncated)
    else if bs[..4] != MAGIC then Err(BadMagic)
    else if bs[4] != VERSION then Err(BadVersion)
    else
      var n := GetLength(bs[h - 2], bs[h - 1]);
      if n > MAX_PAYLOAD then Err(TooLarge)
      else if |bs| < h + n then Err(Truncated)
      else Ok(Parsed(bs[5..h - 2], bs[h..h + n], bs[h + n..]))
  }

  /** Within the limit the length is not truncated. */
  lemma LengthRoundTrip(n: nat)
    ensures n <= MAX_PAYLOAD ==> GetLength(PutLength(n)[0], PutLength(n)[1]) == n
    ensures GetLength(PutLength(n)[0], PutLength(n)[1]) == n <==> n < 65536
  {}

  lemma FrameLayout(tag: seq<byte>, body: seq<byte>)
    ensures var f := Frame(tag, body);
            var h := 5 + |tag| + 2;
            && |f| == h + |body| && f[..4] == MAGIC && f[4] == VERSION
            && f[5..h - 2] == tag && [f[h - 2], f[h - 1]] == PutLength(|body|) && f[h..] == body
  {}

  /** The bytes of a frame: "AXR1", version 1, the tag, the length as two bytes,
      the more significant first, and the payload. */
  lemma FrameBytes(tag: seq<byte>, body: seq<byte>) returns (first: byte, second: byte)
    requires |body| <= 8192
    ensures |body| == 256 * first + second
    ensures Frame(tag, body) == ['A' as int, 'X' as int, 'R' as int, '1' as int, 1] + tag + [first, second] + body
  {
    first, second := |body| / 256, |body| % 256;
    assert Frame(tag, body) == MAGIC + [VERSION] + tag + PutLength(|body|) + body;
    assert MAGIC + [VERSION] == ['A' as int, 'X' as int, 'R' as int, '1' as int, 1];
  }

  /** The header at the front of bs: its magic, its version and its length. */
  predicate Announces(bs: seq<byte>, tagSize: nat, version: int, length: int) {
    && |bs| >= 7 + tagSize
    && bs[..4] == ['A' as int, 'X' as int, 'R' as int, '1' as int] && bs[4] == version
    && 256 * (bs[5 + tagSize] as int) + bs[6 + tagSize] as int == length
  }

  /** Which streams are refused, and why: an incomplete header or payload, another
      magic, another version, or a length over 8192, in that order. */
  lemma ParseExact(bs: seq<byte>, tagSize: nat)
    ensures Parse(bs, tagSize) == Err(Truncated) <==>
              || |bs| < 7 + tagSize
              || exists n :: Announces(bs, tagSize, 1, n) && n <= 8192 && |bs| < 7 + tagSize + n
    ensures Parse(bs, tagSize) == Err(BadMagic) <==>
              |bs| >= 7 + tagSize && forall v, n :: !Announces(bs, tagSize, v, n)
    ensures Parse(bs, tagSize) == Err(BadVersion) <==> exists v, n :: Announces(bs, tagSize, v, n) && v != 1
    ensures Parse(bs, tagSize) == Err(TooLarge) <==> exists n :: Announces(bs, tagSize, 1, n) && n > 8192
    ensures Parse(bs, tagSize).Ok? <==> exists n :: Announces(bs, tagSize, 1, n) && n <= 8192 && |bs| >= 7 + tagSize + n
  {
    if |bs| >= 7 + tagSize && bs[..4] == MAGIC {
      assert Announces(bs, tagSize, bs[4], 256 * (bs[5 + tagSize] as int) + bs[6 + tagSize] as int);
    }
  }

  /** Frames are self-delimiting: whatever bytes follow, reading returns what was
      written and leaves exactly those bytes. */
  lemma FrameRoundTrip(tag: seq<byte>, body: seq<byte>, tail: seq<byte>)
    requires |body| <= MAX_PAYLOAD
    ensures Parse(Frame(tag, body) + tail, |tag|) == Ok(Parsed(tag, body, tail))
  {
    var f := Frame(tag, body);
    var bs := f + tail;
    FrameLayout(tag, body);
    LengthRoundTrip(|body|);
    var h := 5 + |tag| + 2;
    assert bs[..4] == f[..4];
    assert bs[5..h - 2] == f[5..h - 2];
    assert bs[h..h + |body|] == f[h..];
    assert bs[h + |body|..] == tail;
  }

  /** Conversely, whatever reading accepts is such a frame. */
  lemma ParseIsFrame(bs: seq<byte>, tagSize: nat)
    requires Parse(bs, tagSize).Ok?
    ensures var p := Parse(bs, tagSize).value;
            |p.tag| == tagSize && |p.body| <= MAX_PAYLOAD && bs == Frame(p.tag, p.body) + p.rest
  {
    var p := Parse(bs, tagSize).value;
    var h := 5 + tagSize + 2;
    assert PutLength(|p.body|) == [bs[h - 2], bs[h - 1]];
    assert bs == bs[..4] + [bs[4]] + bs[5..h - 2] + [bs[h - 2], bs[h - 1]] + bs[h..h + |p.body|] + bs[h + |p.body|..];
  }

  /** A stream cut anywhere inside a frame is refused as truncated. */
  lemma StrictPrefixFails(tag: seq<byte>, body: seq<byte>, k: nat)
    requires |body| <= MAX_PAYLOAD && k < |Frame(tag, body)|
    ensures Parse(Frame(tag, body)[..k], |tag|) == Err(Truncated)
  {
    var f := Frame(tag, body);
    FrameLayout(tag, body);
    LengthRoundTrip(|body|);
    if k >= 5 + |tag| + 2 {
      assert f[..k][..4] == f[..4];
    }
  }

  // ---------------------------------------------------------------------
  // The connection.

  /** One direction of a connection: bytes written and not yet read. */
  class Pipe {
    var pending: seq<byte>

    constructor ()
      ensures pending == []
    {
      pending := [];
    }

    method Write(p: seq<byte>)
      modifies this
      ensures pending == old(pending) + p
    {
      pending := pending + p;
    }

    /** Returns some of the pending bytes, as few as one: any fragmentation. No
        byte at all means end of stream. */
    method Read(max: nat) returns (p: seq<byte>)
      requires max > 0
      modifies this
      ensures |p| <= max && old(pending) == p + pending
      ensures p == [] <==> old(pending) == []
    {
      if pending == [] {
        return [];
      }
      var k: nat :| 1 <= k <= max && k <= |pending|;
      p := pending[..k];
      pending := pending[k..];
    }

    /** io.ReadFull: the outcome does not depend on the fragmentation. */
    method ReadFull(buf: array<byte>) returns (ok: bool)
      modifies this, buf
      ensures ok <==> buf.Length <= |old(pending)|
      ensures ok ==> buf[..] == old(pending)[..buf.Length] && pending == old(pending)[buf.Length..]
      ensures !ok ==> pending == []
    {
      var n := 0;
      while n < buf.Length
        invariant 0 <= n <= buf.Length && n <= |old(pending)|
        invariant buf[..n] == old(pending)[..n] && pending == old(pending)[n..]
      {
        var p := Read(buf.Length - n);
        if p == [] {
          return false;
        }
        ghost var done := buf[..n];
        for i := 0 to |p|
          invariant buf[..n] == done
          invariant buf[n..n + i] == p[..i]
          invariant pending == old(pending)[n + |p|..]
        {
          buf[n + i] := p[i];
        }
        assert buf[n..n + |p|] == p;
        assert buf[..n + |p|] == buf[..n] + buf[n..n + |p|];
        assert old(pending)[n..][..|p|] == p;
        n := n + |p|;
      }
      ok := true;
      assert buf[..] == buf[..n];
    }
  }

  method FillHeader(hdr: array<byte>, tag: seq<byte>, n: nat)
    requires hdr.Length == 5 + |tag| + 2
    modifies hdr
    ensures hdr[..] == MAGIC + [VERSION] + tag + PutLength(n)
  {
    for i := 0 to 4
      invariant hdr[..i] == MAGIC[..i]
    {
      hdr[i] := MAGIC[i];
    }
    hdr[4] := VERSION;
    assert hdr[..5] == MAGIC + [VERSION];
    for i := 0 to |tag|
      invariant hdr[..5] == MAGIC + [VERSION]
      invariant hdr[5..5 + i] == tag[..i]
    {
      hdr[5 + i] := tag[i];
    }
    var h := hdr.Length;
    assert hdr[..h - 2] == hdr[..5] + hdr[5..h - 2];
    hdr[h - 2] := n / 256 % 256;
    hdr[h - 1] := n % 256;
    assert hdr[..] == hdr[..h - 2] + PutLength(n);
  }

  /** Writes one frame, or nothing when the payload is over the limit. */
  method WriteFrame(w: Pipe, tag: seq<byte>, body: seq<byte>) returns (ok: bool)
    modifies w
    ensures ok <==> |body| <= MAX_PAYLOAD
    ensures w.pending == if ok then old(w.pending) + Frame(tag, body) else old(w.pending)
  {
    if |body| > MAX_PAYLOAD {
      return false;
    }
    var hdr := new byte[5 + |tag| + 2];
    FillHeader(hdr, tag, |body|);
    w.Write(hdr[..]);
    w.Write(body);
    ok := true;
  }

  /** Reads one frame and leaves the bytes behind it alone. */
  method ReadFrame(r: Pipe, tagSize: nat) returns (res: Result<Parsed, Failure>)
    modifies r
    ensures res == Parse(old(r.pending), tagSize)
    ensures res.Ok? ==> r.pending == res.value.rest
  {
    var h := 5 + tagSize + 2;
    var hdr := new byte[h];
    ghost var all := r.pending;
    var ok := r.ReadFull(hdr);
    if !ok {
      return Err(Truncated);
    }
    assert hdr[..] == all[..h];
    assert forall i :: 0 <= i < h ==> hdr[i] == all[..h][i] == all[i];
    var magic := hdr[..4];
    assert magic == all[..4];
    if magic != MAGIC {
      return Err(BadMagic);
    }
    if hdr[4] != VERSION {
      return Err(BadVersion);
    }
    var n := GetLength(hdr[h - 2], hdr[h - 1]);
    if n > MAX_PAYLOAD {
      return Err(TooLarge);
    }
    var body := new byte[n];
    ok := r.ReadFull(body);
    if !ok {
      return Err(Truncated);
    }
    ghost var parsed := Parse(all, tagSize).value;
    assert hdr[5..h - 2] == parsed.tag;
    assert body[..] == all[h..][..n] == parsed.body;
    assert r.pending == all[h..][n..] == parsed.rest;
    res := Ok(Parsed(hdr[5..h - 2], body[..], r.pending));
  }

  // ---------------------------------------------------------------------
  // Messages.

  datatype Codec<!T> = Codec(encode: T -> seq<byte>, decode: seq<byte> -> Option<T>)

  ghost predicate Lossless<T(!new)>(c: Codec<T>) {
    forall x :: c.decode(c.encode(x)) == Some(x)
  }

  datatype Message<T> = Message(tag: seq<byte>, content: T, rest: seq<byte>)

  /** Reading a frame and decoding its payload. */
  function Receive<T>(c: Codec<T>, bs: seq<byte>, tagSize: nat): Result<Message<T>, Failure> {
    match Parse(bs, tagSize)
    case Err(e) => Err(e)
    case Ok(p) =>
      match c.decode(p.body)
      case None => Err(BadPayload)
      case Some(x) => Ok(Message(p.tag, x, p.rest))
  }

  /** A message written in front of any bytes is read back with its status, and
      those bytes are left for yamux; cut short anywhere, it is refused. */
  lemma MessageRoundTrip<T(!new)>(c: Codec<T>, tag: seq<byte>, x: T, tail: seq<byte>, k: nat)
    requires Lossless(c) && |c.encode(x)| <= MAX_PAYLOAD && k < |Frame(tag, c.encode(x))|
    ensures Receive(c, Frame(tag, c.encode(x)) + tail, |tag|) == Ok(Message(tag, x, tail))
    ensures Receive(c, Frame(tag, c.encode(x))[..k], |tag|) == Err(Truncated)
  {
    FrameRoundTrip(tag, c.encode(x), tail);
    StrictPrefixFails(tag, c.encode(x), k);
    assert c.decode(c.encode(x)) == Some(x);
  }

  method WriteHello<T>(w: Pipe, c: Codec<T>, hello: T) returns (ok: bool)
    modifies w
    ensures ok <==> |c.encode(hello)| <= MAX_PAYLOAD
    ensures w.pending == if ok then old(w.pending) + Frame([], c.encode(hello)) else old(w.pending)
  {
    ok := WriteFrame(w, [], c.encode(hello));
  }

  method ReadHello<T>(r: Pipe, c: Codec<T>) returns (res: Result<T, Failure>)
    modifies r
    ensures match Receive(c, old(r.pending), 0)
            case Ok(m) => res == Ok(m.content) && r.pending == m.rest
            case Err(e) => res == Err(e)
  {
    var f := ReadFrame(r, 0);
    match f
    case Err(e) => res := Err(e);
    case Ok(p) =>
      match c.decode(p.body) {
        case None => res := Err(BadPayload);
        case Some(x) => res := Ok(x);
      }
  }

  method WriteAck<T>(w: Pipe, status: byte, c: Codec<T>, ack: T) returns (ok: bool)
    modifies w
    ensures ok <==> |c.encode(ack)| <= MAX_PAYLOAD
    ensures w.pending == if ok then old(w.pending) + Frame([status], c.encode(ack)) else old(w.pending)
  {
    ok := WriteFrame(w, [status], c.encode(ack));
  }

  method ReadAck<T>(r: Pipe, c: Codec<T>) returns (res: Result<(byte, T), Failure>)
    modifies r
    ensures match Receive(c, old(r.pending), 1)
            case Ok(m) => |m.tag| == 1 && res == Ok((m.tag[0], m.content)) && r.pending == m.rest
            case Err(e) => res == Err(e)
  {
    var f := ReadFrame(r, 1);
    match f
    case Err(e) => res := Err(e);
    case Ok(p) =>
      match c.decode(p.body) {
        case None => res := Err(BadPayload);
        case Some(x) => res := Ok((p.tag[0], x));
      }
  }
}
