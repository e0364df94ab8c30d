/** The chunked transfer coding: the encoder the response writer uses, and a
    decoder written from section 7.1 of RFC 9112, with chunk extensions and
    trailer fields, to judge it by. */
module Chunked {
  import opened Bytes
  import opened Options

  const CRLF: seq<byte> := [13, 10]
  const ZERO: byte := 48
  const SEMICOLON: byte := 59

  // ---------------------------------------------------------------------
  // Encoder.

  function HexDigit(d: nat): byte
    requires d < 16
  {
    if d < 10 then 48 + d else 87 + d
  }

  function Hex(n: nat): seq<byte> {
    if n < 16 then [HexDigit(n)] else Hex(n / 16) + [HexDigit(n % 16)]
  }

  /** One Write of the chunked writer; an empty one emits nothing. */
  function EncodeChunk(p: seq<byte>): seq<byte> {
    if p == [] then [] else Hex(|p|) + CRLF + p + CRLF
  }

  function EncodeAll(writes: seq<seq<byte>>): seq<byte> {
    if writes == [] then [] else EncodeAll(writes[..|writes| - 1]) + EncodeChunk(writes[|writes| - 1])
  }

  /** Close writes the zero chunk, finish the empty line after it. */
  function Terminator(): seq<byte> {
    [ZERO] + CRLF + CRLF
  }

  // ---------------------------------------------------------------------
  // Decoder.

  function DigitValue(b: byte): (v: Option<nat>)
    ensures v.Some? ==> v.value < 16
  {
    if 48 <= b <= 57 then Some(b - 48)
    else if 97 <= b <= 102 then Some(b - 87)
    else if 65 <= b <= 70 then Some(b - 55)
    else None
  }

  /** The length of the run of hex digits at the front. */
  function DigitRun(bs: seq<byte>): (d: nat)
    ensures d <= |bs|
    ensures forall i :: 0 <= i < d ==> DigitValue(bs[i]).Some?
  {
    if bs == [] || DigitValue(bs[0]).None? then 0 else 1 + DigitRun(bs[1..])
  }

  function HexNumber(ds: seq<byte>): nat
    requires forall i :: 0 <= i < |ds| ==> DigitValue(ds[i]).Some?
  {
    if ds == [] then 0 else HexNumber(ds[..|ds| - 1]) * 16 + DigitValue(ds[|ds| - 1]).value
  }

  /** The position of the first CRLF. */
  function LineEnd(bs: seq<byte>): (r: Option<nat>)
    ensures r.Some? ==> r.value + 2 <= |bs|
  {
    if |bs| < 2 then None
    else if bs[..2] == CRLF then Some(0)
    else
      match LineEnd(bs[1..])
      case None => None
      case Some(k) => Some(k + 1)
  }

  /** Skips the trailer section up to and including its empty line. */
  function SkipTrailers(bs: seq<byte>): Option<seq<byte>>
    decreases |bs|
  {
    match LineEnd(bs)
    case None => None
    case Some(k) => if k == 0 then Some(bs[2..]) else SkipTrailers(bs[k + 2..])
  }

  datatype Decoded = Decoded(body: seq<byte>, rest: seq<byte>)

  function Decode(bs: seq<byte>): Option<Decoded>
    decreases |bs|
  {
    var d := DigitRun(bs);
    if d == 0 then None
    else
      match LineEnd(bs[d..])
      case None => None
      case Some(e) =>
        if e > 0 && bs[d] != SEMICOLON then None
        else DecodeData(bs, HexNumber(bs[..d]), d + e + 2)
  }

  /** The rest of a chunk whose size line has been read. */
  function DecodeData(bs: seq<byte>, size: nat, at: nat): Option<Decoded>
    requires 0 < at <= |bs|
    decreases |bs| - at
  {
    var data := bs[at..];
    if size == 0 then
      match SkipTrailers(data)
      case None => None
      case Some(rest) => Some(Decoded([], rest))
    else if |data| < size + 2 || data[size..size + 2] != CRLF then None
    else
      match Decode(data[size + 2..])
      case None => None
      case Some(more) => Some(Decoded(data[..size] + more.body, more.rest))
  }

  // ---------------------------------------------------------------------
  // Round trip.

  lemma {:induction false} HexDigits(n: nat)
    ensures |Hex(n)| > 0
    ensures forall i :: 0 <= i < |Hex(n)| ==> DigitValue(Hex(n)[i]).Some?
    ensures HexNumber(Hex(n)) == n
  {
    if n >= 16 {
      HexDigits(n / 16);
      assert Hex(n)[..|Hex(n)| - 1] == Hex(n / 16);
    } else {
      assert Hex(n)[..0] == [];
    }
  }

  const DIGITS := "0123456789abcdef"

  /** Sizes are written in lower-case hexadecimal, most significant digit first. */
  lemma HexIsHexadecimal(n: nat)
    ensures |Hex(n)| > 0 && Hex(n)[|Hex(n)| - 1] == DIGITS[n % 16] as int
    ensures Hex(n)[..|Hex(n)| - 1] == if n < 16 then [] else Hex(n / 16)
  {}

  /** The bytes of a chunk, of an empty write and of the end of a body: size line,
      data and line ends as section 7.1 of RFC 9112 has them. */
  lemma ChunkBytes(p: seq<byte>)
    ensures EncodeChunk(p) == if p == [] then [] else Hex(|p|) + [13, 10] + p + [13, 10]
    ensures Terminator() == ['0' as int, 13, 10, 13, 10]
  {}

  lemma {:induction false} RunOfDigits(ds: seq<byte>, more: seq<byte>)
    requires forall i :: 0 <= i < |ds| ==> DigitValue(ds[i]).Some?
    ensures DigitRun(ds + CRLF + more) == |ds|
    decreases |ds|
  {
    var bs := ds + CRLF + more;
    if ds == [] {
      assert bs[0] == 13;
    } else {
      assert bs[1..] == ds[1..] + CRLF + more;
      RunOfDigits(ds[1..], more);
    }
  }

  /** A size line written by the encoder is read as that size. */
  lemma SizeLine(n: nat, more: seq<byte>)
    ensures var bs := Hex(n) + CRLF + more;
            |Hex(n)| > 0 && Decode(bs) == DecodeData(bs, n, |Hex(n)| + 2)
  {
    HexDigits(n);
    RunOfDigits(Hex(n), more);
    var bs := Hex(n) + CRLF + more;
    assert bs[..|Hex(n)|] == Hex(n);
    assert bs[|Hex(n)|..][..2] == CRLF;
  }

  lemma DecodeTerminator(tail: seq<byte>)
    ensures Decode(Terminator() + tail) == Some(Decoded([], tail))
  {
    var data := CRLF + tail;
    var bs := Hex(0) + CRLF + data;
    SizeLine(0, data);
    assert bs[3..] == data;
    assert data[..2] == CRLF && data[2..] == tail;
    assert SkipTrailers(data) == Some(tail);
    assert Terminator() + tail == bs;
  }

  lemma DataOfChunk(bs: seq<byte>, at: nat, p: seq<byte>, more: seq<byte>, d: Decoded)
    requires 0 < at <= |bs| && bs[at..] == p + CRLF + more && p != [] && Decode(more) == Some(d)
    ensures DecodeData(bs, |p|, at) == Some(Decoded(p + d.body, d.rest))
  {
    var data := p + CRLF + more;
    assert data[..|p|] == p && data[|p|..|p| + 2] == CRLF && data[|p| + 2..] == more;
  }

  lemma ChunkLayout(p: seq<byte>, more: seq<byte>)
    requires p != []
    ensures var bs := Hex(|p|) + CRLF + (p + CRLF + more);
            EncodeChunk(p) + more == bs && bs[|Hex(|p|)| + 2..] == p + CRLF + more
  {
    var line := Hex(|p|) + CRLF;
    Assoc(line + p, CRLF, more);
    Assoc(line, p, CRLF + more);
    Assoc(p, CRLF, more);
  }

  lemma DecodeChunk(p: seq<byte>, more: seq<byte>, d: Decoded)
    requires Decode(more) == Some(d)
    ensures Decode(EncodeChunk(p) + more) == Some(Decoded(p + d.body, d.rest))
  {
    if p == [] {
      assert EncodeChunk(p) + more == more;
      assert p + d.body == d.body;
    } else {
      var rest := p + CRLF + more;
      var bs := Hex(|p|) + CRLF + rest;
      var at := |Hex(|p|)| + 2;
      SizeLine(|p|, rest);
      ChunkLayout(p, more);
      DataOfChunk(bs, at, p, more, d);
    }
  }

  /** Whatever was written comes back, in order, and the bytes that follow are
      untouched. */
  lemma {:induction false} ChunkedRoundTrip(writes: seq<seq<byte>>, more: seq<byte>, d: Decoded)
    requires Decode(more) == Some(d)
    ensures Decode(EncodeAll(writes) + more) == Some(Decoded(Concat(writes) + d.body, d.rest))
    decreases |writes|
  {
    if writes == [] {
      assert EncodeAll(writes) + more == more;
      assert Concat(writes) + d.body == d.body;
    } else {
      var n := |writes| - 1;
      var p := writes[n];
      DecodeChunk(p, more, d);
      ChunkedRoundTrip(writes[..n], EncodeChunk(p) + more, Decoded(p + d.body, d.rest));
      SplitLast(writes, more, d.body);
    }
  }

  lemma {:induction false} SplitLast(writes: seq<seq<byte>>, more: seq<byte>, body: seq<byte>)
    requires writes != []
    ensures var n := |writes| - 1;
            && EncodeAll(writes) + more == EncodeAll(writes[..n]) + (EncodeChunk(writes[n]) + more)
            && Concat(writes) + body == Concat(writes[..n]) + (writes[n] + body)
  {
    var n := |writes| - 1;
    Assoc(EncodeAll(writes[..n]), EncodeChunk(writes[n]), more);
    Assoc(Concat(writes[..n]), writes[n], body);
  }

  lemma Assoc(a: seq<byte>, b: seq<byte>, c: seq<byte>)
    ensures a + b + c == a + (b + c)
  {}
}
