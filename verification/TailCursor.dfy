/** The little-endian reader the Tail parses with, and the two parsers and two encoders as their loops run
    (tail/src/body.rs). */
module TailCursor {
  import opened Options
  import opened Bytes
  import opened Lists
  import opened TailBody

  /** What is still to be read. A read that would pass the end fails and moves nothing. */
  class Cursor {
    var rest: bytes

    constructor (b: bytes)
      ensures rest == b
    {
      rest := b;
    }

    method Advance(n: nat) returns (r: Option<bytes>)
      modifies this
      ensures n <= |old(rest)| ==> r == Some(old(rest)[..n]) && rest == old(rest)[n..]
      ensures n > |old(rest)| ==> r == None && rest == old(rest)
    {
      if n > |rest| { return None; }
      r := Some(rest[..n]);
      rest := rest[n..];
    }

    method Byte() returns (r: Option<byte>)
      modifies this
      ensures ReadByte(old(rest)) == if r.Some? then Some((r.value, rest)) else None
      ensures r.None? ==> rest == old(rest)
    {
      var h := Advance(1);
      r := if h.Some? then Some(h.value[0]) else None;
    }

    method U16() returns (r: Option<u16>)
      modifies this
      ensures ReadU16(old(rest)) == if r.Some? then Some((r.value, rest)) else None
      ensures r.None? ==> rest == old(rest)
    {
      var whole := ReadU16(rest);
      var h := Advance(2);
      r := if h.Some? then Some(whole.value.0) else None;
    }

    method U32() returns (r: Option<u32>)
      modifies this
      ensures ReadU32(old(rest)) == if r.Some? then Some((r.value, rest)) else None
      ensures r.None? ==> rest == old(rest)
    {
      var whole := ReadU32(rest);
      var h := Advance(4);
      r := if h.Some? then Some(whole.value.0) else None;
    }

    method U64() returns (r: Option<u64>)
      modifies this
      ensures ReadU64(old(rest)) == if r.Some? then Some((r.value, rest)) else None
      ensures r.None? ==> rest == old(rest)
    {
      var whole := ReadU64(rest);
      var h := Advance(8);
      r := if h.Some? then Some(whole.value.0) else None;
    }

    /** A length the format forbids, or one that passes the end, is no key. */
    method Key() returns (r: Option<bytes>)
      modifies this
      ensures ReadKey(old(rest)) == if r.Some? then Some((r.value, rest)) else None
    {
      var n := U16();
      if n.None? || !(1 <= n.value <= MAX_KEY) { return None; }
      r := Advance(n.value);
    }

    method Value() returns (r: Option<bytes>)
      modifies this
      ensures ReadValue(old(rest)) == if r.Some? then Some((r.value, rest)) else None
    {
      var n := U32();
      if n.None? || n.value > MAX_VALUE { return None; }
      r := Advance(n.value);
    }

    method Done() returns (r: bool)
      ensures r <==> rest == []
    {
      r := |rest| == 0;
    }
  }

  method ReadRootWith(c: Cursor) returns (ok: bool, root: Option<Bytes32>)
    modifies c
    ensures ReadRoot(old(c.rest)) == if ok then Some((root, c.rest)) else None
  {
    ok, root := false, None;
    var flag := c.Byte();
    if flag == Some(0) {
      ok := true;
    } else if flag == Some(1) {
      var h := c.Advance(32);
      if h.Some? { ok, root := true, Some(h.value); }
    }
  }

  /** One row, checked against the row before it and against the record, field by field. */
  method ReadRowWith(c: Cursor, last: Option<bytes>, through: nat, s: nat) returns (r: Option<Row>)
    modifies c
    ensures var whole := ReadRow(old(c.rest));
            if r.Some? then whole == Some((r.value, c.rest)) && RowFollows(last, r.value, through, s)
            else whole.None? || !RowFollows(last, whole.value.0, through, s)
  {
    var key := c.Key();
    if key.None? || (last.Some? && !Lex(last.value, key.value)) { return None; }
    var sq := c.U64();
    if sq.None? || sq.value <= through || sq.value > s { return None; }
    var kind := c.Byte();
    if kind == Some(0) { return Some(Row(key.value, Entry(sq.value, None))); }
    if kind != Some(1) { return None; }
    var v := c.Value();
    return if v.Some? then Some(Row(key.value, Entry(sq.value, v))) else None;
  }

  method ReadBody(b: bytes, s: nat) returns (r: Option<Body>)
    ensures r == ParseBody(b, s)
  {
    hide ReadRow, RowFollows, ReadRoot, ReadU64, ReadU32;
    if |b| > MAX_BODY { return None; }
    var c := new Cursor(b);
    var ok, root := ReadRootWith(c);
    if !ok { return None; }
    var through := c.U64();
    if through.None? || (root.None? && through.value != 0) || through.value > s { return None; }
    var count := c.U32();
    if count.None? { return None; }
    ghost var whole := ReadRows(c.rest, count.value, None, through.value, s);
    AfterNothing(whole);
    var rows: seq<Row> := [];
    var last: Option<bytes> := None;
    var i := 0;
    while i < count.value
      invariant 0 <= i <= count.value
      invariant whole == After(rows, ReadRows(c.rest, count.value - i, last, through.value, s))
    {
      var row := ReadRowWith(c, last, through.value, s);
      if row.None? { return None; }
      AfterMore(rows, [row.value], ReadRows(c.rest, count.value - i - 1, Some(row.value.key), through.value, s));
      last := Some(row.value.key);
      rows := rows + [row.value];
      i := i + 1;
    }
    var done := c.Done();
    assert rows + [] == rows;
    return if done then Some(Body(root, through.value, rows)) else None;
  }

  method ReadOpWith(c: Cursor) returns (r: Option<Op>)
    modifies c
    ensures ReadOp(old(c.rest)) == if r.Some? then Some((r.value, c.rest)) else None
  {
    var kind := c.Byte();
    if kind == Some(1) {
      var k := c.Key();
      if k.None? { return None; }
      var v := c.Value();
      return if v.Some? then Some(Set(k.value, v.value)) else None;
    } else if kind == Some(2) {
      var k := c.Key();
      return if k.Some? then Some(Delete(k.value)) else None;
    } else if kind == Some(3) {
      var root := c.Advance(32);
      if root.None? { return None; }
      var through := c.U64();
      return if through.Some? then Some(Flush(root.value, through.value)) else None;
    }
    return None;
  }

  method ReadDelta(b: bytes) returns (r: Option<seq<Op>>)
    ensures r == ParseOps(b)
  {
    hide ReadOp, ReadU16;
    if |b| > MAX_BODY { return None; }
    var c := new Cursor(b);
    var n := c.U16();
    if n.None? || n.value == 0 || n.value > MAX_OPS { return None; }
    ghost var whole := ReadOps(c.rest, n.value);
    AfterNothing(whole);
    var ops: seq<Op> := [];
    var i := 0;
    while i < n.value
      invariant 0 <= i <= n.value
      invariant whole == After(ops, ReadOps(c.rest, n.value - i))
    {
      var op := ReadOpWith(c);
      if op.None? { return None; }
      AfterMore(ops, [op.value], ReadOps(c.rest, n.value - i - 1));
      ops := ops + [op.value];
      i := i + 1;
    }
    var done := c.Done();
    assert ops + [] == ops;
    return if done then Some(ops) else None;
  }

  // -------------------------------------------------------------------- the encoders

  method AppendKey(buffer: bytes, k: bytes, ghost rest: bytes) returns (out: bytes)
    ensures out + rest == buffer + PutKey(k, rest)
  {
    var n := LE(|k|, 2);
    assert buffer + (n + (k + rest)) == buffer + n + k + rest;
    out := buffer + n;
    out := out + k;
  }

  method AppendValue(buffer: bytes, v: bytes, ghost rest: bytes) returns (out: bytes)
    ensures out + rest == buffer + PutValue(v, rest)
  {
    var n := LE(|v|, 4);
    assert buffer + (n + (v + rest)) == buffer + n + v + rest;
    out := buffer + n;
    out := out + v;
  }

  method AppendEntry(buffer: bytes, e: Entry, ghost rest: bytes) returns (out: bytes)
    ensures out + rest == buffer + PutEntry(e, rest)
  {
    hide PutValue, LE;
    out := buffer + LE(e.seq_, 8);
    match e.value {
      case None =>
        assert buffer + (LE(e.seq_, 8) + ([0] + rest)) == out + [0] + rest;
        out := out + [0];
      case Some(v) =>
        ghost var tail := PutValue(v, rest);
        assert buffer + (LE(e.seq_, 8) + ([1] + tail)) == out + [1] + tail;
        out := out + [1];
        out := AppendValue(out, v, rest);
    }
  }

  /** A body's bytes, one row at a time. */
  method WriteBody(b: Body) returns (out: bytes)
    ensures out == EncodeBody(b)
  {
    hide PutKey, PutEntry, LE;
    var through, count := LE(b.through, 8), LE(|b.rows|, 4);
    ghost var rows := PutRows(b.rows);
    out := if b.root.None? then [0] else [1];
    if b.root.Some? { out := out + b.root.value; }
    assert PutRoot(b.root, through + (count + rows)) == out + through + count + rows;
    out := out + through;
    out := out + count;
    assert b.rows[0..] == b.rows;
    var i := 0;
    while i < |b.rows|
      invariant 0 <= i <= |b.rows|
      invariant out + PutRows(b.rows[i..]) == EncodeBody(b)
    {
      assert b.rows[i..][1..] == b.rows[i + 1..];
      ghost var rest := PutRows(b.rows[i + 1..]);
      out := AppendKey(out, b.rows[i].key, PutEntry(b.rows[i].entry, rest));
      out := AppendEntry(out, b.rows[i].entry, rest);
      i := i + 1;
    }
    assert out + [] == out;
  }

  /** One operation's bytes. */
  method AppendOp(buffer: bytes, op: Op, ghost rest: bytes) returns (out: bytes)
    ensures out + rest == buffer + PutOp(op, rest)
  {
    hide PutKey, PutValue, LE;
    match op {
      case Set(k, v) =>
        ghost var tail := PutKey(k, PutValue(v, rest));
        assert buffer + ([1] + tail) == buffer + [1] + tail;
        out := AppendKey(buffer + [1], k, PutValue(v, rest));
        out := AppendValue(out, v, rest);
      case Delete(k) =>
        ghost var tail := PutKey(k, rest);
        assert buffer + ([2] + tail) == buffer + [2] + tail;
        out := AppendKey(buffer + [2], k, rest);
      case Flush(root, through) =>
        var t := LE(through, 8);
        assert buffer + ([3] + (root + (t + rest))) == buffer + [3] + root + t + rest;
        out := buffer + [3];
        out := out + root;
        out := out + t;
    }
  }

  /** A delta's operations as bytes. */
  method WriteOps(ops: seq<Op>) returns (out: bytes)
    ensures out == EncodeOps(ops)
  {
    hide PutOp, LE;
    out := LE(|ops|, 2);
    assert ops[0..] == ops;
    var i := 0;
    while i < |ops|
      invariant 0 <= i <= |ops|
      invariant out + PutOps(ops[i..]) == EncodeOps(ops)
    {
      assert ops[i..][1..] == ops[i + 1..];
      out := AppendOp(out, ops[i], PutOps(ops[i + 1..]));
      i := i + 1;
    }
    assert out + [] == out;
  }
}
