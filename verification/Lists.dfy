/** Lists on the wire: the 16-byte truncations a summary carries, and a list as a loop reads it. */
module Lists {
  import opened Options
  import opened Bytes

  /** Byte strings of one length, in Rust's order. */
  function KeyOrder(b: bytes): int {
    Num(b)
  }

  function PutChunks(ts: seq<bytes>): bytes {
    if ts == [] then [] else ts[0] + PutChunks(ts[1..])
  }

  function ReadChunks(b: bytes): seq<bytes>
    decreases |b|
  {
    if |b| < 16 then [] else [b[..16]] + ReadChunks(b[16..])
  }

  lemma {:induction false} ChunksRoundTrip(ts: seq<bytes>)
    requires forall t :: t in ts ==> |t| == 16
    ensures |PutChunks(ts)| == 16 * |ts| && ReadChunks(PutChunks(ts)) == ts
    decreases |ts|
  {
    if ts != [] {
      assert ts[0] in ts;
      ChunksRoundTrip(ts[1..]);
      var b := PutChunks(ts);
      assert b[..16] == ts[0] && b[16..] == PutChunks(ts[1..]);
    }
  }

  lemma {:induction false} ChunkCount(b: bytes)
    ensures |ReadChunks(b)| == |b| / 16
    decreases |b|
  {
    if |b| >= 16 { ChunkCount(b[16..]); }
  }

  /** Append a list of truncations to a buffer. */
  method AppendChunks(buffer: bytes, ts: seq<bytes>) returns (out: bytes)
    ensures out == buffer + PutChunks(ts)
  {
    out := buffer;
    var i := 0;
    while i < |ts|
      invariant 0 <= i <= |ts|
      invariant out + PutChunks(ts[i..]) == buffer + PutChunks(ts)
    {
      ghost var rest := PutChunks(ts[i + 1..]);
      assert ts[i..][1..] == ts[i + 1..];
      assert out + (ts[i] + rest) == out + ts[i] + rest;
      out := out + ts[i];
      i := i + 1;
    }
    assert out + [] == out;
  }

  /** What is read so far, in front of what is still to be read. */
  function After<T>(done: seq<T>, r: Option<(seq<T>, bytes)>): Option<(seq<T>, bytes)> {
    if r.None? then None else Some((done + r.value.0, r.value.1))
  }

  lemma AfterNothing<T>(r: Option<(seq<T>, bytes)>)
    ensures After([], r) == r
  {
    if r.Some? { assert [] + r.value.0 == r.value.0; }
  }

  lemma AfterMore<T>(done: seq<T>, more: seq<T>, r: Option<(seq<T>, bytes)>)
    ensures After(done, After(more, r)) == After(done + more, r)
  {
    if r.Some? { assert done + (more + r.value.0) == done + more + r.value.0; }
  }
}
