/** client/handler.go: the ResponseWriter that puts one HTTP/1.1 response on a
    stream. Serialising the status line and header block is net/http's; here it
    is one item of the output, in front of the body bytes. */
module ResponseWriter {
  import opened Bytes
  import opened Options
  import opened Chunked

  type Header = map<string, seq<string>>

  /** The first value of a header field, "" when there is none. */
  function Get(h: Header, key: string): string {
    if key in h && h[key] != [] then h[key][0] else ""
  }

  datatype Item = Head(status: int, header: Header) | Raw(bytes: seq<byte>)

  /** The writer. `buffered` is what bufio still holds, `sent` what it has passed
      on; bufio may pass bytes on earlier, which changes nothing here. */
  datatype Writer = Writer(
    header: Header,
    status: int,
    wroteHeader: bool,
    chunked: bool,
    hijacked: bool,
    noBody: bool,
    sent: seq<Item>,
    buffered: seq<Item>)

  function NewWriter(): Writer {
    Writer(map[], 0, false, false, false, false, [], [])
  }

  /** Statuses the code sends without a body. */
  predicate Bodyless(code: int) {
    code == 101 || code == 204 || code == 304
  }

  /** The handler left the framing to the writer. */
  predicate Unframed(h: Header) {
    Get(h, "Content-Length") == "" && Get(h, "Transfer-Encoding") == ""
  }

  function Commit(w: Writer, code: int): Writer {
    if w.wroteHeader || w.hijacked then w
    else
      var chunked := !Bodyless(code) && Unframed(w.header);
      var h0 := if chunked then w.header["Transfer-Encoding" := ["chunked"]] else w.header;
      var h := h0["Connection" := ["close"]];
      w.(wroteHeader := true, status := code, noBody := Bodyless(code), chunked := chunked,
         header := h, buffered := w.buffered + [Head(code, h)])
  }

  /** A committed writer: the first Write, Flush or finish commits 200. */
  function Committed(w: Writer): Writer {
    if w.wroteHeader then w else Commit(w, 200)
  }

  function Flushed(w: Writer): Writer {
    w.(sent := w.sent + w.buffered, buffered := [])
  }

  function Emit(w: Writer, bs: seq<byte>): Writer {
    w.(buffered := w.buffered + [Raw(bs)])
  }

  function AfterWrite(w: Writer, p: seq<byte>): Writer {
    if w.hijacked then w
    else
      var c := Committed(w);
      if c.noBody then c else Flushed(Emit(c, if c.chunked then EncodeChunk(p) else p))
  }

  function AfterFlush(w: Writer): Writer {
    if w.hijacked then w else Flushed(Committed(w))
  }

  function AfterHijack(w: Writer): Writer {
    if w.hijacked || w.wroteHeader then w else Flushed(w.(hijacked := true))
  }

  function AfterFinish(w: Writer): Writer {
    if w.hijacked then w
    else
      var c := Committed(w);
      Flushed(if c.chunked then Emit(c, Terminator()) else c)
  }

  // ---------------------------------------------------------------------
  // Handlers are arbitrary sequences of calls.

  datatype Call =
    | SetHeader(key: string, values: seq<string>)
    | WriteHeader(code: int)
    | Write(p: seq<byte>)
    | Flush
    | Hijack

  function Do(w: Writer, call: Call): Writer {
    match call
    case SetHeader(key, values) => w.(header := w.header[key := values])
    case WriteHeader(code) => Commit(w, code)
    case Write(p) => AfterWrite(w, p)
    case Flush => AfterFlush(w)
    case Hijack => AfterHijack(w)
  }

  function Run(calls: seq<Call>): Writer {
    if calls == [] then NewWriter() else Do(Run(calls[..|calls| - 1]), calls[|calls| - 1])
  }

  /** The state in which Serve returns. */
  function Final(calls: seq<Call>): Writer {
    AfterFinish(Run(calls))
  }

  /** The payloads the handler wrote. */
  function Payloads(calls: seq<Call>): seq<seq<byte>> {
    if calls == [] then []
    else Payloads(calls[..|calls| - 1]) + (if calls[|calls| - 1].Write? then [calls[|calls| - 1].p] else [])
  }

  function Output(w: Writer): seq<Item> {
    w.sent + w.buffered
  }

  function BodyBytes(items: seq<Item>): seq<byte> {
    if items == [] then []
    else BodyBytes(items[..|items| - 1]) + (if items[|items| - 1].Raw? then items[|items| - 1].bytes else [])
  }

  /** Exactly one head, in front of everything. */
  predicate OneHead(items: seq<Item>) {
    items != [] && items[0].Head? && forall i :: 1 <= i < |items| ==> items[i].Raw?
  }

  /** What the body bytes are, given what the handler wrote. */
  function Framed(w: Writer, writes: seq<seq<byte>>): seq<byte> {
    if w.noBody then [] else if w.chunked then EncodeAll(writes) else Concat(writes)
  }

  /** The invariant of every call sequence. */
  ghost predicate Consistent(w: Writer, writes: seq<seq<byte>>) {
    && (w.hijacked ==> !w.wroteHeader)
    && (!w.wroteHeader ==> Output(w) == [] && !w.chunked && !w.noBody)
    && (!w.wroteHeader && !w.hijacked ==> writes == [])
    && (w.wroteHeader ==>
          && OneHead(Output(w)) && Output(w)[0].status == w.status
          && w.noBody == Bodyless(w.status) && !(w.noBody && w.chunked)
          && BodyBytes(Output(w)) == Framed(w, writes))
  }

  lemma BodySnoc(items: seq<Item>, item: Item)
    ensures BodyBytes(items + [item]) == BodyBytes(items) + (if item.Raw? then item.bytes else [])
  {}

  lemma FlushKeepsOutput(w: Writer)
    ensures Output(Flushed(w)) == Output(w)
  {}

  lemma EmitOutput(w: Writer, bs: seq<byte>)
    ensures Output(Emit(w, bs)) == Output(w) + [Raw(bs)]
  {}

  lemma CommitConsistent(w: Writer, writes: seq<seq<byte>>, code: int)
    requires Consistent(w, writes)
    ensures Consistent(Commit(w, code), writes)
  {}

  /** Framing grows by one encoded chunk, or by the bytes themselves. */
  lemma FramedSnoc(w: Writer, writes: seq<seq<byte>>, p: seq<byte>)
    requires !w.noBody
    ensures Framed(w, writes + [p]) == Framed(w, writes) + (if w.chunked then EncodeChunk(p) else p)
  {}

  /** Body bytes added to a committed writer. */
  lemma EmitConsistent(c: Writer, writes: seq<seq<byte>>, p: seq<byte>)
    requires Consistent(c, writes) && c.wroteHeader && !c.noBody
    ensures Consistent(Flushed(Emit(c, if c.chunked then EncodeChunk(p) else p)), writes + [p])
  {
    var bs := if c.chunked then EncodeChunk(p) else p;
    var d := Flushed(Emit(c, bs));
    EmitOutput(c, bs);
    FlushKeepsOutput(Emit(c, bs));
    assert Output(d) == Output(c) + [Raw(bs)];
    BodySnoc(Output(c), Raw(bs));
    FramedSnoc(c, writes, p);
    assert Framed(d, writes + [p]) == Framed(c, writes + [p]);
  }

  lemma WriteConsistent(w: Writer, writes: seq<seq<byte>>, p: seq<byte>)
    requires Consistent(w, writes)
    ensures Consistent(AfterWrite(w, p), writes + [p])
  {
    if !w.hijacked {
      CommitConsistent(w, writes, 200);
      var c := Committed(w);
      if !c.noBody { EmitConsistent(c, writes, p); }
    }
  }

  lemma DoConsistent(w: Writer, writes: seq<seq<byte>>, call: Call)
    requires Consistent(w, writes)
    ensures Consistent(Do(w, call), if call.Write? then writes + [call.p] else writes)
  {
    match call
    case SetHeader(_, _) => assert Output(Do(w, call)) == Output(w);
    case WriteHeader(code) => CommitConsistent(w, writes, code);
    case Write(p) => WriteConsistent(w, writes, p);
    case Flush =>
      CommitConsistent(w, writes, 200);
      FlushKeepsOutput(Committed(w));
    case Hijack =>
      FlushKeepsOutput(w.(hijacked := true));
      assert Output(w.(hijacked := true)) == Output(w);
  }

  lemma {:induction false} RunConsistent(calls: seq<Call>)
    ensures Consistent(Run(calls), Payloads(calls))
    decreases |calls|
  {
    if calls != [] {
      var prior := calls[..|calls| - 1];
      RunConsistent(prior);
      DoConsistent(Run(prior), Payloads(prior), calls[|calls| - 1]);
      assert Payloads(prior) + [] == Payloads(prior);
    }
  }

  // ---------------------------------------------------------------------
  // Main results.

  /** Whatever the handler does: a hijacked writer emits nothing of its own;
      otherwise there is exactly one head, in front, nothing stays buffered, and
      the body bytes are none for 101, 204 and 304, the encoded writes closed by
      one terminator when the writer chose the chunked coding, and the plain
      writes when the handler chose the framing. */
  lemma ResponseProtocol(calls: seq<Call>)
    ensures var f := Final(calls);
            if f.hijacked then Output(f) == [] && !f.wroteHeader
            else
              && OneHead(Output(f)) && Output(f)[0].status == f.status && f.buffered == []
              && (Bodyless(f.status) <==> f.noBody) && !(f.noBody && f.chunked)
              && BodyBytes(Output(f)) ==
                   if f.noBody then []
                   else if f.chunked then EncodeAll(Payloads(calls)) + Terminator()
                   else Concat(Payloads(calls))
  {
    RunConsistent(calls);
    var w := Run(calls);
    if !w.hijacked {
      CommitConsistent(w, Payloads(calls), 200);
      var c := Committed(w);
      if c.chunked {
        EmitOutput(c, Terminator());
        FlushKeepsOutput(Emit(c, Terminator()));
        BodySnoc(Output(c), Raw(Terminator()));
      } else {
        FlushKeepsOutput(c);
      }
    }
  }

  /** The body a client decodes under section 7.1 of RFC 9112 is exactly what the
      handler wrote, and any following bytes are left alone. */
  lemma BodyRoundTrip(calls: seq<Call>, tail: seq<byte>)
    requires Final(calls).chunked
    ensures Decode(BodyBytes(Output(Final(calls))) + tail) == Some(Decoded(Concat(Payloads(calls)), tail))
  {
    ResponseProtocol(calls);
    RunConsistent(calls);
    DecodeTerminator(tail);
    ChunkedRoundTrip(Payloads(calls), Terminator() + tail, Decoded([], tail));
    Assoc(EncodeAll(Payloads(calls)), Terminator(), tail);
    assert Concat(Payloads(calls)) + [] == Concat(Payloads(calls));
  }

  /** The first call that is not a header edit. */
  function FirstMove(calls: seq<Call>): Option<Call> {
    if calls == [] then None
    else if FirstMove(calls[..|calls| - 1]).Some? then FirstMove(calls[..|calls| - 1])
    else if calls[|calls| - 1].SetHeader? then None
    else Some(calls[|calls| - 1])
  }

  /** The header fields as set before the first move. */
  function HeaderBefore(calls: seq<Call>): Header {
    if calls == [] then map[]
    else if FirstMove(calls[..|calls| - 1]).None? && calls[|calls| - 1].SetHeader? then
      HeaderBefore(calls[..|calls| - 1])[calls[|calls| - 1].key := calls[|calls| - 1].values]
    else HeaderBefore(calls[..|calls| - 1])
  }

  /** The status a first move commits. */
  function StatusOf(move: Option<Call>): int {
    if move.Some? && move.value.WriteHeader? then move.value.code else 200
  }

  /** The header block sent for a handler's header fields. */
  function Announced(h: Header, chunked: bool): Header {
    (if chunked then h["Transfer-Encoding" := ["chunked"]] else h)["Connection" := ["close"]]
  }

  /** Everything is decided by the first move: a hijack succeeds iff it comes
      first; otherwise the status is the one it names, or 200, the writer chunks
      iff that status carries a body and neither Content-Length nor
      Transfer-Encoding was set before, and the head announces just that. Later
      calls change none of it. */
  lemma FirstMoveDecides(calls: seq<Call>)
    ensures var f := Final(calls);
            var move := FirstMove(calls);
            && (f.hijacked <==> move == Some(Hijack))
            && (!f.hijacked ==>
                  && f.status == StatusOf(move)
                  && (f.chunked <==> !Bodyless(f.status) && Unframed(HeaderBefore(calls)))
                  && Output(f) != [] && Output(f)[0] == Head(f.status, Announced(HeaderBefore(calls), f.chunked)))
  {
    MoveDecided(calls);
    RunConsistent(calls);
    HeadDecided(calls);
    var w := Run(calls);
    if !w.hijacked {
      HeadKept(Committed(w));
      if !w.wroteHeader { assert Output(Committed(w)) == [Head(200, Committed(w).header)]; }
    }
  }

  /** The field has a first value other than "". */
  predicate FieldSet(h: Header, key: string) {
    key in h && |h[key]| > 0 && |h[key][0]| > 0
  }

  lemma FieldSetIsGet(h: Header, key: string)
    ensures FieldSet(h, key) <==> Get(h, key) != ""
  {}

  /** The body on the stream, by status and header. A 101, 204 or 304 has none.
      Any other response of a handler that set neither Content-Length nor
      Transfer-Encoding before its first move is chunked and decodes to what the
      handler wrote; one that set either is sent as the handler wrote it. */
  lemma BodyExact(calls: seq<Call>)
    requires !Final(calls).hijacked
    ensures var f := Final(calls);
            var body := BodyBytes(Output(f));
            if f.status in {101, 204, 304} then body == [] && !f.chunked
            else if FieldSet(HeaderBefore(calls), "Content-Length") || FieldSet(HeaderBefore(calls), "Transfer-Encoding") then
              body == Concat(Payloads(calls)) && !f.chunked
            else
              Decode(body) == Some(Decoded(Concat(Payloads(calls)), [])) && f.chunked
  {
    ResponseProtocol(calls);
    FirstMoveDecides(calls);
    FieldSetIsGet(HeaderBefore(calls), "Content-Length");
    FieldSetIsGet(HeaderBefore(calls), "Transfer-Encoding");
    if Final(calls).chunked {
      BodyRoundTrip(calls, []);
      assert BodyBytes(Output(Final(calls))) + [] == BodyBytes(Output(Final(calls)));
    }
  }

  /** The head on the stream: the status the handler names first, 200 if it names
      none; its header fields as set before that, always closing the connection,
      and announcing the chunked coding iff it is used. */
  lemma HeadExact(calls: seq<Call>)
    requires !Final(calls).hijacked
    ensures var f, move, h := Final(calls), FirstMove(calls), HeaderBefore(calls);
            && Output(f) != [] && Output(f)[0].Head?
            && Output(f)[0].status == (if move.Some? && move.value.WriteHeader? then move.value.code else 200)
            && var sent := Output(f)[0].header;
               && Find(sent, "Connection") == Some(["close"])
               && Find(sent, "Transfer-Encoding") == (if f.chunked then Some(["chunked"]) else Find(h, "Transfer-Encoding"))
               && (forall key :: key != "Connection" && key != "Transfer-Encoding" ==> Find(sent, key) == Find(h, key))
  {
    FirstMoveDecides(calls);
  }

  lemma HeadKept(c: Writer)
    requires c.wroteHeader && Output(c) != []
    ensures Output(Flushed(c)) != [] && Output(Flushed(c))[0] == Output(c)[0]
    ensures forall bs :: Output(Flushed(Emit(c, bs))) != [] && Output(Flushed(Emit(c, bs)))[0] == Output(c)[0]
  {}

  /** A call either leaves an emitted head alone or emits one. */
  lemma DoHead(w: Writer, call: Call)
    requires w.wroteHeader ==> Output(w) != [] && !w.hijacked
    requires !w.wroteHeader ==> Output(w) == []
    ensures var d := Do(w, call);
            && (w.wroteHeader ==>
                  d.wroteHeader && d.status == w.status && d.chunked == w.chunked && Output(d) != [] && Output(d)[0] == Output(w)[0])
            && (!w.wroteHeader && d.wroteHeader ==>
                  !w.hijacked && Output(d) != [] && Output(d)[0] == Head(d.status, Announced(w.header, d.chunked)))
  {}

  /** The emitted head is fixed by the first move. */
  lemma {:induction false} HeadDecided(calls: seq<Call>)
    ensures var w := Run(calls);
            w.wroteHeader ==>
              Output(w) != [] && Output(w)[0] == Head(w.status, Announced(HeaderBefore(calls), w.chunked))
    decreases |calls|
  {
    if calls != [] {
      var prior := calls[..|calls| - 1];
      HeadDecided(prior);
      MoveDecided(prior);
      RunConsistent(prior);
      MoveDecided(calls);
      DoHead(Run(prior), calls[|calls| - 1]);
    }
  }

  /** What a writer looks like once `move` was the first move, after header h. */
  ghost predicate Decided(w: Writer, move: Option<Call>, h: Header) {
    && (w.hijacked <==> move == Some(Hijack))
    && (w.wroteHeader <==> move.Some? && move != Some(Hijack))
    && (move.None? ==> w.header == h && !w.chunked)
    && (w.wroteHeader ==> w.status == StatusOf(move) && (w.chunked <==> !Bodyless(w.status) && Unframed(h)))
  }

  lemma DoDecided(w: Writer, move: Option<Call>, h: Header, call: Call)
    requires Decided(w, move, h) && (move.Some? ==> !move.value.SetHeader?)
    ensures if move.Some? then Decided(Do(w, call), move, h)
            else if call.SetHeader? then Decided(Do(w, call), None, h[call.key := call.values])
            else Decided(Do(w, call), Some(call), h)
  {}

  lemma {:induction false} MoveDecided(calls: seq<Call>)
    ensures Decided(Run(calls), FirstMove(calls), HeaderBefore(calls))
    ensures FirstMove(calls).Some? ==> !FirstMove(calls).value.SetHeader?
    decreases |calls|
  {
    if calls != [] {
      var prior := calls[..|calls| - 1];
      MoveDecided(prior);
      DoDecided(Run(prior), FirstMove(prior), HeaderBefore(prior), calls[|calls| - 1]);
    }
  }

  // ---------------------------------------------------------------------
  // The object.

  class StreamRW {
    var header: Header
    var status: int
    var wroteHeader: bool
    var chunked: bool
    var hijacked: bool
    var noBody: bool
    var sent: seq<Item>
    var buffered: seq<Item>

    ghost function View(): Writer reads this {
      Writer(header, status, wroteHeader, chunked, hijacked, noBody, sent, buffered)
    }

    constructor ()
      ensures View() == NewWriter()
    {
      header, status, sent, buffered := map[], 0, [], [];
      wroteHeader, chunked, hijacked, noBody := false, false, false, false;
    }

    method WriteHeader(code: int)
      modifies this
      ensures View() == Commit(old(View()), code)
    {
      if wroteHeader || hijacked {
        return;
      }
      wroteHeader := true;
      status := code;
      noBody, chunked := false, false;
      if code == 101 || code == 204 || code == 304 {
        noBody := true;
      } else if Get(header, "Content-Length") == "" && Get(header, "Transfer-Encoding") == "" {
        header := header["Transfer-Encoding" := ["chunked"]];
        chunked := true;
      }
      header := header["Connection" := ["close"]];
      buffered := buffered + [Head(code, header)];
    }

    /** Returns the number of bytes taken, or None after a hijack. A body-less
        status takes none and reports no error. */
    method Write(p: seq<byte>) returns (n: Option<nat>)
      modifies this
      ensures View() == AfterWrite(old(View()), p)
      ensures n == if hijacked then None else Some(if noBody then 0 else |p|)
      ensures !hijacked && !noBody ==> buffered == []
    {
      if hijacked {
        return None;
      }
      if !wroteHeader {
        WriteHeader(200);
      }
      if noBody {
        return Some(0);
      }
      if chunked {
        buffered := buffered + [Raw(EncodeChunk(p))];
      } else {
        buffered := buffered + [Raw(p)];
      }
      sent, buffered := sent + buffered, [];
      n := Some(|p|);
    }

    method Flush()
      modifies this
      ensures View() == AfterFlush(old(View()))
      ensures !hijacked ==> wroteHeader && buffered == []
    {
      if hijacked {
        return;
      }
      if !wroteHeader {
        WriteHeader(200);
      }
      sent, buffered := sent + buffered, [];
    }

    /** Fails on a second hijack and once the header is out. */
    method Hijack() returns (ok: bool)
      modifies this
      ensures View() == AfterHijack(old(View()))
      ensures ok <==> !old(hijacked) && !old(wroteHeader)
    {
      if hijacked || wroteHeader {
        return false;
      }
      hijacked := true;
      sent, buffered := sent + buffered, [];
      ok := true;
    }

    method Finish()
      modifies this
      ensures View() == AfterFinish(old(View()))
    {
      if hijacked {
        return;
      }
      if !wroteHeader {
        WriteHeader(200);
      }
      if chunked {
        buffered := buffered + [Raw([ZERO] + CRLF + CRLF)];
      }
      sent, buffered := sent + buffered, [];
    }
  }
}
