/** server/proxy.go: the loop that copies a response body, and what it delivers
    of a body written by a handler behind the tunnel. */
module Forwarding {
  import opened Bytes
  import opened Options
  import opened Chunked
  import opened ResponseWriter

  /** One result of Body.Read: some bytes, possibly none, and whether an error
      or the end of the body came with them. */
  datatype ReadResult = ReadResult(data: seq<byte>, last: bool)

  /** The bytes a body reader produces from its i-th result up to and including
      its first error. */
  function ProducedFrom(frags: seq<ReadResult>, i: nat): seq<byte>
    requires i <= |frags|
    decreases |frags| - i
  {
    if i == |frags| then []
    else if frags[i].last then frags[i].data
    else frags[i].data + ProducedFrom(frags, i + 1)
  }

  function Produced(frags: seq<ReadResult>): seq<byte> {
    ProducedFrom(frags, 0)
  }

  /** The writes the copy loop makes: one for each read that has bytes. */
  function WritesFrom(frags: seq<ReadResult>, i: nat): seq<seq<byte>>
    requires i <= |frags|
    decreases |frags| - i
  {
    if i == |frags| then []
    else
      var more := if frags[i].last then [] else WritesFrom(frags, i + 1);
      if frags[i].data == [] then more else [frags[i].data] + more
  }

  function CopyWrites(frags: seq<ReadResult>): seq<seq<byte>> {
    WritesFrom(frags, 0)
  }

  /** The loop. `failAt` is the number of the write that fails, if one does; the
      loop stops there and otherwise at the first read that reports an end. */
  method CopyBody(frags: seq<ReadResult>, failAt: Option<nat>) returns (written: seq<seq<byte>>)
    requires exists i :: 0 <= i < |frags| && frags[i].last
    ensures written == if failAt.Some? && failAt.value < |CopyWrites(frags)| then CopyWrites(frags)[..failAt.value]
                       else CopyWrites(frags)
  {
    ghost var stop :| 0 <= stop < |frags| && frags[stop].last;
    written := [];
    var i := 0;
    while true
      invariant 0 <= i <= stop
      invariant Loop(written, frags, i, failAt) == Loop([], frags, 0, failAt)
      decreases |frags| - i
    {
      var r := frags[i];
      if r.data != [] {
        if failAt == Some(|written|) {
          break;
        }
        written := written + [r.data];
      }
      if r.last {
        break;
      }
      i := i + 1;
    }
    LoopWrites([], frags, 0, failAt);
    assert [] + CopyWrites(frags) == CopyWrites(frags);
  }

  /** What the loop returns when it comes to read i having written `written`. */
  ghost function Loop(written: seq<seq<byte>>, frags: seq<ReadResult>, i: nat, failAt: Option<nat>): seq<seq<byte>>
    requires i <= |frags|
    decreases |frags| - i
  {
    if i == |frags| then written
    else if frags[i].data == [] then
      if frags[i].last then written else Loop(written, frags, i + 1, failAt)
    else if failAt == Some(|written|) then written
    else if frags[i].last then written + [frags[i].data]
    else Loop(written + [frags[i].data], frags, i + 1, failAt)
  }

  /** The first k writes, or all of them. */
  function Cut(writes: seq<seq<byte>>, k: Option<nat>): seq<seq<byte>> {
    if k.Some? && k.value < |writes| then writes[..k.value] else writes
  }

  lemma {:induction false} LoopWrites(written: seq<seq<byte>>, frags: seq<ReadResult>, i: nat, failAt: Option<nat>)
    requires i <= |frags| && (failAt.Some? ==> |written| <= failAt.value)
    ensures Loop(written, frags, i, failAt) == Cut(written + WritesFrom(frags, i), failAt)
    decreases |frags| - i
  {
    if i < |frags| {
      var r := frags[i];
      var more := if r.last then [] else WritesFrom(frags, i + 1);
      if r.data == [] {
        if !r.last { LoopWrites(written, frags, i + 1, failAt); } else { assert written + [] == written; }
      } else {
        Regroup(written, r.data, more);
        if failAt != Some(|written|) {
          if !r.last {
            LoopWrites(written + [r.data], frags, i + 1, failAt);
          } else {
            assert (written + [r.data]) + [] == written + [r.data];
          }
        }
      }
    } else {
      assert written + [] == written;
    }
  }

  lemma Regroup(written: seq<seq<byte>>, p: seq<byte>, more: seq<seq<byte>>)
    ensures written + ([p] + more) == (written + [p]) + more
    ensures (written + ([p] + more))[..|written|] == written
  {}

  lemma {:induction false} ConcatCons(p: seq<byte>, parts: seq<seq<byte>>)
    ensures Concat([p] + parts) == p + Concat(parts)
    decreases |parts|
  {
    var all := [p] + parts;
    if parts == [] {
      assert all[..0] == [];
      assert all == [p];
    } else {
      var n := |parts| - 1;
      assert all[..|all| - 1] == [p] + parts[..n];
      ConcatCons(p, parts[..n]);
      Assoc(p, Concat(parts[..n]), parts[n]);
    }
  }

  /** The loop neither loses nor reorders a byte, however the body was cut up,
      also when the last bytes arrive together with the end. */
  lemma CopyDelivers(frags: seq<ReadResult>)
    ensures Concat(CopyWrites(frags)) == Produced(frags)
  {
    CopyDeliversFrom(frags, 0);
  }

  lemma {:induction false} CopyDeliversFrom(frags: seq<ReadResult>, i: nat)
    requires i <= |frags|
    ensures Concat(WritesFrom(frags, i)) == ProducedFrom(frags, i)
    decreases |frags| - i
  {
    if i < |frags| {
      var r := frags[i];
      var more := if r.last then [] else WritesFrom(frags, i + 1);
      if !r.last { CopyDeliversFrom(frags, i + 1); }
      if r.data != [] { ConcatCons(r.data, more); }
    }
  }

  /** The data of the first n reads, one after the other. */
  function DataOf(frags: seq<ReadResult>, n: nat): seq<byte>
    requires n <= |frags|
  {
    if n == 0 then [] else DataOf(frags, n - 1) + frags[n - 1].data
  }

  /** What is produced is the data up to and including the first read that reports
      an end; nothing after it counts. */
  lemma ProducedExact(frags: seq<ReadResult>, stop: nat)
    requires stop < |frags| && frags[stop].last && forall i :: 0 <= i < stop ==> !frags[i].last
    ensures Produced(frags) == DataOf(frags, stop + 1)
  {
    ProducedAfter(frags, 0, stop);
    assert DataOf(frags, 0) + Produced(frags) == Produced(frags);
  }

  lemma {:induction false} ProducedAfter(frags: seq<ReadResult>, i: nat, stop: nat)
    requires i <= stop < |frags| && frags[stop].last && forall k :: 0 <= k < stop ==> !frags[k].last
    ensures DataOf(frags, i) + ProducedFrom(frags, i) == DataOf(frags, stop + 1)
    decreases stop - i
  {
    if i < stop {
      ProducedAfter(frags, i + 1, stop);
      Assoc(DataOf(frags, i), frags[i].data, ProducedFrom(frags, i + 1));
    }
  }

  /** End to end: for every handler whose response the writer chunks, every tail
      of following bytes and every way of cutting up the decoded body, the copy
      loop delivers exactly what the handler wrote. */
  lemma EndToEnd(calls: seq<Call>, tail: seq<byte>, frags: seq<ReadResult>)
    requires Final(calls).chunked
    requires Decode(BodyBytes(Output(Final(calls))) + tail).Some?
    requires Produced(frags) == Decode(BodyBytes(Output(Final(calls))) + tail).value.body
    ensures Concat(CopyWrites(frags)) == Concat(Payloads(calls))
    ensures Decode(BodyBytes(Output(Final(calls))) + tail).value.rest == tail
  {
    BodyRoundTrip(calls, tail);
    CopyDelivers(frags);
  }
}
