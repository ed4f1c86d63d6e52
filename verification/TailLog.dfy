/** What a tail means: the log of deltas in front of a tree. Overlaying the body on the tree at `through` is
    replaying the whole log, across any flushes (tail/src/body.rs). */
module TailLog {
  import opened Options
  import opened Bytes
  import opened TailBody

  /** Delta number `i + 1` is `log[i]`. */
  type Log = seq<seq<Op>>

  /** The body after every delta of the log, applied in order from nothing; None if some delta is not a legal step. */
  function BodyAfter(log: Log): Option<Body>
    decreases |log|
  {
    if log == [] then Some(EMPTY)
    else if |log| >= 0x1_0000_0000_0000_0000 then None
    else
      var b :- BodyAfter(log[..|log| - 1]);
      Apply(b, log[|log| - 1], |log|)
  }

  // --------------------------------------------------------------- the reference: replay

  /** The last thing one delta writes to a key: a value, or a delete. */
  function LastIn(ops: seq<Op>, key: bytes): Option<Option<bytes>>
    decreases |ops|
  {
    if ops == [] then None
    else
      var op := ops[|ops| - 1];
      if op.Set? && op.key == key then Some(Some(op.value))
      else if op.Delete? && op.key == key then Some(None)
      else LastIn(ops[..|ops| - 1], key)
  }

  /** The last write to a key over the whole log: the delta that made it, and what it wrote. */
  function LastWrite(log: Log, key: bytes): Option<(nat, Option<bytes>)>
    decreases |log|
  {
    if log == [] then None
    else
      var w := LastIn(log[|log| - 1], key);
      if w.Some? then Some((|log|, w.value)) else LastWrite(log[..|log| - 1], key)
  }

  /** The value of a key in a tree that holds the first `n` deltas. */
  function Replay(log: Log, n: nat, key: bytes): Option<bytes>
    requires n <= |log|
  {
    var w := LastWrite(log[..n], key);
    if w.Some? then w.value.1 else None
  }

  /** Reading a key through a tail: the pending row if there is one, else the tree. */
  function Overlay(b: Body, tree: Option<bytes>, key: bytes): Option<bytes> {
    var e := Get(b.rows, key);
    if e.Some? then e.value.value else tree
  }

  /** What the body must hold for a key whose last write is `w`, once everything up to `through` is in the tree. */
  function Pending(w: Option<(nat, Option<bytes>)>, through: nat): Option<(nat, Option<bytes>)> {
    if w.Some? && w.value.0 > through then w else None
  }

  function RowAt(rows: seq<Row>, key: bytes): Option<(nat, Option<bytes>)> {
    var e := Get(rows, key);
    if e.Some? then Some((e.value.seq_, e.value.value)) else None
  }

  // ------------------------------------------------------------------------ refinement

  /** The last write after the first operations of delta number `s`, given the last write before it. */
  function WriteAfter(before: Option<(nat, Option<bytes>)>, ops: seq<Op>, s: nat, key: bytes): Option<(nat, Option<bytes>)> {
    var w := LastIn(ops, key);
    if w.Some? then Some((s, w.value)) else before
  }

  lemma ApplyOpRefines(b: Body, op: Op, s: u64, key: bytes, w: Option<(nat, Option<bytes>)>)
    requires InOrder(b.rows) && b.through < s && ApplyOp(b, op, s).Some?
    requires RowAt(b.rows, key) == Pending(w, b.through)
    ensures var r := ApplyOp(b, op, s).value;
            && InOrder(r.rows) && b.through <= r.through < s
            && RowAt(r.rows, key) == Pending(WriteAfter(w, [op], s, key), r.through)
  {
    assert [op][..0] == [] && [op][|[op]| - 1] == op;
    assert LastIn([op][..0], key) == None;
    assert LastIn([op], key) == if op.Set? && op.key == key then Some(Some(op.value))
                                else if op.Delete? && op.key == key then Some(None) else None;
    match op
    case Set(k, v) =>
      InsertOrdered(b.rows, k, Entry(s, Some(v)));
      GetInsert(b.rows, k, Entry(s, Some(v)), key);
    case Delete(k) =>
      InsertOrdered(b.rows, k, Entry(s, None));
      GetInsert(b.rows, k, Entry(s, None), key);
    case Flush(_, through) =>
      RetainOrdered(b.rows, through);
      GetRetain(b.rows, through, key);
  }

  lemma {:induction false} LastInSplit(ops: seq<Op>, key: bytes)
    requires ops != []
    ensures LastIn(ops, key) == if LastIn(ops[1..], key).Some? then LastIn(ops[1..], key) else LastIn([ops[0]], key)
    decreases |ops|
  {
    var n := |ops| - 1;
    if n == 0 {
      assert ops == [ops[0]];
    } else {
      assert ops[1..][..n - 1] == ops[..n][1..] && ops[1..][n - 1] == ops[n] && ops[..n][0] == ops[0];
      LastInSplit(ops[..n], key);
    }
  }

  lemma {:induction false} ApplyOpsRefines(b: Body, ops: seq<Op>, s: u64, key: bytes, w: Option<(nat, Option<bytes>)>)
    requires InOrder(b.rows) && b.through < s && ApplyOps(b, ops, s).Some?
    requires RowAt(b.rows, key) == Pending(w, b.through)
    ensures var r := ApplyOps(b, ops, s).value;
            && InOrder(r.rows) && b.through <= r.through < s
            && RowAt(r.rows, key) == Pending(WriteAfter(w, ops, s, key), r.through)
    decreases |ops|
  {
    if ops != [] {
      ApplyOpRefines(b, ops[0], s, key, w);
      var next := ApplyOp(b, ops[0], s).value;
      var w1 := WriteAfter(w, [ops[0]], s, key);
      hide ApplyOp, InOrder, RowAt, Pending;
      ApplyOpsRefines(next, ops[1..], s, key, w1);
      LastInSplit(ops, key);
    }
  }

  /** After any log of accepted deltas the body holds, for every key, exactly the last write with a delta number above
      `through`: that number, that value. */
  lemma {:induction false} BodyRefinesLog(log: Log, key: bytes)
    requires BodyAfter(log).Some?
    ensures var b := BodyAfter(log).value;
            && InOrder(b.rows) && b.through <= |log| && (log != [] ==> b.through < |log|)
            && RowAt(b.rows, key) == Pending(LastWrite(log, key), b.through)
    decreases |log|
  {
    if log != [] {
      var n := |log| - 1;
      BodyRefinesLog(log[..n], key);
      ApplyOpsRefines(BodyAfter(log[..n]).value, log[n], |log|, key, LastWrite(log[..n], key));
    }
  }

  // --------------------------------------------------------------------- the flushes

  /** The last flush of one delta: the root it names and how far it reaches. */
  function FlushIn(ops: seq<Op>): Option<(Bytes32, nat)>
    decreases |ops|
  {
    if ops == [] then None
    else
      var op := ops[|ops| - 1];
      if op.Flush? then Some((op.root, op.through)) else FlushIn(ops[..|ops| - 1])
  }

  /** The last flush of the whole log. */
  function LastFlush(log: Log): Option<(Bytes32, nat)>
    decreases |log|
  {
    if log == [] then None
    else
      var f := FlushIn(log[|log| - 1]);
      if f.Some? then f else LastFlush(log[..|log| - 1])
  }

  /** The tree a log has last flushed to, if any, and how many deltas that tree covers. */
  function RootOf(log: Log): Option<Bytes32> {
    if LastFlush(log).Some? then Some(LastFlush(log).value.0) else None
  }

  function Covered(log: Log): nat {
    if LastFlush(log).Some? then LastFlush(log).value.1 else 0
  }

  lemma {:induction false} FlushInSplit(ops: seq<Op>)
    requires ops != []
    ensures FlushIn(ops) == if FlushIn(ops[1..]).Some? then FlushIn(ops[1..])
                            else if ops[0].Flush? then Some((ops[0].root, ops[0].through)) else None
    decreases |ops|
  {
    var n := |ops| - 1;
    if n == 0 {
      assert ops[..0] == [] && ops[1..] == [];
    } else {
      assert ops[1..][..n - 1] == ops[..n][1..] && ops[1..][n - 1] == ops[n] && ops[..n][0] == ops[0];
      FlushInSplit(ops[..n]);
    }
  }

  lemma {:induction false} ApplyOpsFlush(b: Body, ops: seq<Op>, s: u64)
    requires ApplyOps(b, ops, s).Some?
    ensures var r, f := ApplyOps(b, ops, s).value, FlushIn(ops);
            if f.Some? then r.root == Some(f.value.0) && r.through == f.value.1
            else r.root == b.root && r.through == b.through
    decreases |ops|
  {
    hide Insert, Retain;
    if ops != [] {
      FlushInSplit(ops);
      hide FlushIn;
      ApplyOpsFlush(ApplyOp(b, ops[0], s).value, ops[1..], s);
    }
  }

  lemma {:induction false} BodyFlush(log: Log)
    requires BodyAfter(log).Some?
    ensures BodyAfter(log).value.root == RootOf(log) && BodyAfter(log).value.through == Covered(log)
    decreases |log|
  {
    if log != [] {
      var n := |log| - 1;
      BodyFlush(log[..n]);
      ApplyOpsFlush(BodyAfter(log[..n]).value, log[n], |log|);
    }
  }

  /** The body IS the log, field by field: the root and the reach of its last flush, and per key the last write that flush
      does not reach, with its number and its value. */
  lemma BodyIsLog(log: Log, key: bytes)
    requires BodyAfter(log).Some?
    ensures var b := BodyAfter(log).value;
            && b.root == RootOf(log) && b.through == Covered(log)
            && InOrder(b.rows) && RowAt(b.rows, key) == Pending(LastWrite(log, key), Covered(log))
  {
    BodyFlush(log);
    BodyRefinesLog(log, key);
  }

  lemma {:induction false} LastWriteIn(log: Log, key: bytes, n: nat)
    requires n <= |log|
    ensures LastWrite(log, key).Some? ==> 1 <= LastWrite(log, key).value.0 <= |log|
    ensures LastWrite(log, key).None? || LastWrite(log, key).value.0 <= n ==> LastWrite(log[..n], key) == LastWrite(log, key)
    decreases |log|
  {
    if n == |log| {
      assert log[..n] == log;
      if log != [] { LastWriteIn(log[..n - 1], key, n - 1); }
    } else {
      LastWriteIn(log[..|log| - 1], key, n);
      assert log[..|log| - 1][..n] == log[..n];
    }
  }

  /** The tail is a faithful buffer: laying it over a tree that holds the deltas up to `through` reads every key as a
      tree that holds them all. */
  lemma OverlayIsReplay(log: Log, key: bytes)
    requires BodyAfter(log).Some?
    ensures var b := BodyAfter(log).value;
            b.through <= |log| && Overlay(b, Replay(log, b.through, key), key) == Replay(log, |log|, key)
  {
    var b := BodyAfter(log).value;
    BodyRefinesLog(log, key);
    LastWriteIn(log, key, b.through);
    assert log[..|log|] == log;
  }

  /** Every body a log produces is legal at its record, and so has exactly one accepted encoding there. */
  lemma {:induction false} BodyAfterLegal(log: Log)
    requires BodyAfter(log).Some?
    ensures BodyOk(BodyAfter(log).value, |log|)
    decreases |log|
  {
    if log != [] {
      var n := |log| - 1;
      BodyAfterLegal(log[..n]);
      ApplyIsLegal(BodyAfter(log[..n]).value, log[n], |log|, n);
    }
  }
}
