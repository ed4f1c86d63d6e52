/** The Tail's body (tail/src/body.rs): which tree it stands in front of, and the writes that tree does not have yet. */
module TailBody {
  import opened Options
  import opened Bytes
  import opened Crypto

  const MAX_BODY := 262144
  const MAX_KEY := 512
  const MAX_VALUE := 65536
  const MAX_OPS := 4096
  const BODY_DOMAIN: bytes := [84, 76, 48, 49, 45, 98, 111, 100, 121]  // "TL01-body"

  /** The delta that wrote the row, and what it wrote: None for a delete. */
  datatype Entry = Entry(seq_: u64, value: Option<bytes>)

  datatype Row = Row(key: bytes, entry: Entry)

  /** `rows` is the ordered map, as its entries in key order. */
  datatype Body = Body(root: Option<Bytes32>, through: u64, rows: seq<Row>)

  const EMPTY := Body(None, 0, [])

  datatype Op = Set(key: bytes, value: bytes) | Delete(key: bytes) | Flush(root: Bytes32, through: u64)

  // -------------------------------------------------------------- the ordered map

  ghost predicate InOrder(rows: seq<Row>) {
    forall i, j :: 0 <= i < j < |rows| ==> Lex(rows[i].key, rows[j].key)
  }

  function Get(rows: seq<Row>, key: bytes): Option<Entry> {
    if rows == [] then None else if rows[0].key == key then Some(rows[0].entry) else Get(rows[1..], key)
  }

  function Insert(rows: seq<Row>, key: bytes, e: Entry): seq<Row> {
    if rows == [] || Lex(key, rows[0].key) then [Row(key, e)] + rows
    else if rows[0].key == key then [Row(key, e)] + rows[1..]
    else [rows[0]] + Insert(rows[1..], key, e)
  }

  /** Drop the rows a flush covers. */
  function Retain(rows: seq<Row>, through: u64): seq<Row> {
    if rows == [] then []
    else (if rows[0].entry.seq_ > through then [rows[0]] else []) + Retain(rows[1..], through)
  }

  lemma InOrderCons(r: Row, rows: seq<Row>)
    requires InOrder(rows) && (rows == [] || Lex(r.key, rows[0].key))
    ensures InOrder([r] + rows)
  {
    var all := [r] + rows;
    forall i, j | 0 <= i < j < |all| ensures Lex(all[i].key, all[j].key) {
      if i == 0 && j > 1 { LexTransitive(r.key, rows[0].key, rows[j - 1].key); }
    }
  }

  lemma {:induction false} InsertOrdered(rows: seq<Row>, key: bytes, e: Entry)
    requires InOrder(rows)
    ensures InOrder(Insert(rows, key, e))
    ensures forall r :: r in Insert(rows, key, e) ==> r in rows || r == Row(key, e)
    ensures Insert(rows, key, e)[0].key == key || (rows != [] && Insert(rows, key, e)[0] == rows[0])
    decreases |rows|
  {
    if rows == [] || Lex(key, rows[0].key) {
      InOrderCons(Row(key, e), rows);
    } else {
      var t := rows[1..];
      assert rows == [rows[0]] + t;
      LexTotal(key, rows[0].key);
      if rows[0].key == key {
        InOrderCons(Row(key, e), t);
      } else {
        InsertOrdered(t, key, e);
        InOrderCons(rows[0], Insert(t, key, e));
      }
    }
  }

  lemma {:induction false} GetInsert(rows: seq<Row>, key: bytes, e: Entry, k: bytes)
    ensures Get(Insert(rows, key, e), k) == if k == key then Some(e) else Get(rows, k)
    decreases |rows|
  {
    var r := Insert(rows, key, e);
    if rows == [] || Lex(key, rows[0].key) {
      assert r[1..] == rows;
    } else if rows[0].key == key {
      assert r[1..] == rows[1..];
    } else {
      GetInsert(rows[1..], key, e, k);
      assert r[1..] == Insert(rows[1..], key, e);
    }
  }

  lemma {:induction false} RetainElem(rows: seq<Row>, through: u64, r: Row)
    ensures r in Retain(rows, through) <==> r in rows && r.entry.seq_ > through
    decreases |rows|
  {
    if rows != [] {
      RetainElem(rows[1..], through, r);
      assert rows == [rows[0]] + rows[1..];
    }
  }

  lemma {:induction false} RetainOrdered(rows: seq<Row>, through: u64)
    requires InOrder(rows)
    ensures InOrder(Retain(rows, through))
    decreases |rows|
  {
    if rows != [] {
      var k := Retain(rows[1..], through);
      RetainOrdered(rows[1..], through);
      assert [] + k == k;
      if rows[0].entry.seq_ > through {
        if k != [] { RetainedFollows(rows, through, k[0]); }
        InOrderCons(rows[0], k);
      }
    }
  }

  lemma RetainedFollows(rows: seq<Row>, through: u64, r: Row)
    requires InOrder(rows) && rows != [] && r in Retain(rows[1..], through)
    ensures Lex(rows[0].key, r.key)
  {
    RetainElem(rows[1..], through, r);
    var j :| 0 <= j < |rows[1..]| && rows[1..][j] == r;
    assert rows[j + 1] == r;
  }

  lemma {:induction false} GetNone(rows: seq<Row>, k: bytes)
    ensures Get(rows, k).None? <==> forall r :: r in rows ==> r.key != k
    decreases |rows|
  {
    if rows != [] {
      GetNone(rows[1..], k);
      assert rows == [rows[0]] + rows[1..];
    }
  }

  lemma {:induction false} GetRetain(rows: seq<Row>, through: u64, k: bytes)
    requires InOrder(rows)
    ensures Get(Retain(rows, through), k)
         == if Get(rows, k).Some? && Get(rows, k).value.seq_ > through then Get(rows, k) else None
    decreases |rows|
  {
    if rows != [] {
      var t := rows[1..];
      GetRetain(t, through, k);
      var kept := Retain(t, through);
      assert [] + kept == kept && ([rows[0]] + kept)[1..] == kept;
      if rows[0].key == k {
        forall r | r in t ensures r.key != k {
          var j :| 0 <= j < |t| && t[j] == r;
          assert rows[j + 1] == r;
          LexTotal(rows[0].key, r.key);
        }
        GetNone(t, k);
      }
    }
  }

  // --------------------------------------------------------------------- encodings

  predicate KeyFits(k: bytes) {
    1 <= |k| <= MAX_KEY
  }

  function PutKey(k: bytes, rest: bytes): bytes {
    LE(|k|, 2) + (k + rest)
  }

  function PutValue(v: bytes, rest: bytes): bytes {
    LE(|v|, 4) + (v + rest)
  }

  function PutEntry(e: Entry, rest: bytes): bytes {
    LE(e.seq_, 8) + (if e.value.None? then [0] + rest else [1] + PutValue(e.value.value, rest))
  }

  function PutRows(rows: seq<Row>): bytes {
    if rows == [] then [] else PutKey(rows[0].key, PutEntry(rows[0].entry, PutRows(rows[1..])))
  }

  function PutRoot(root: Option<Bytes32>, rest: bytes): bytes {
    if root.None? then [0] + rest else [1] + (root.value + rest)
  }

  function EncodeBody(b: Body): bytes {
    PutRoot(b.root, LE(b.through, 8) + (LE(|b.rows|, 4) + PutRows(b.rows)))
  }

  /** The hash a signed part names for its value. */
  function BodyHash(c: Crypto, b: Body): Bytes32 {
    c.hash(BODY_DOMAIN + EncodeBody(b))
  }

  function ReadKey(b: bytes): Option<(bytes, bytes)> {
    var (n, r1) :- ReadU16(b);
    if 1 <= n <= MAX_KEY then Take(r1, n) else None
  }

  function ReadValue(b: bytes): Option<(bytes, bytes)> {
    var (n, r1) :- ReadU32(b);
    if n <= MAX_VALUE then Take(r1, n) else None
  }

  function ReadEntry(b: bytes): Option<(Entry, bytes)> {
    var (sq, r1) :- ReadU64(b);
    var (kind, r2) :- ReadByte(r1);
    if kind == 0 then Some((Entry(sq, None), r2))
    else if kind == 1 then
      var (v, r3) :- ReadValue(r2);
      Some((Entry(sq, Some(v)), r3))
    else None
  }

  function ReadRow(b: bytes): Option<(Row, bytes)> {
    var (k, r1) :- ReadKey(b);
    var (e, r2) :- ReadEntry(r1);
    Some((Row(k, e), r2))
  }

  predicate RowFits(r: Row) {
    KeyFits(r.key) && (r.entry.value.Some? ==> |r.entry.value.value| <= MAX_VALUE)
  }

  lemma ReadKeyFront(k: bytes, rest: bytes)
    requires KeyFits(k)
    ensures ReadKey(PutKey(k, rest)) == Some((k, rest))
  {
    ReadU16Front(|k|, k + rest);
    TakeFront(k, rest);
  }

  lemma ReadValueFront(v: bytes, rest: bytes)
    requires |v| <= MAX_VALUE
    ensures ReadValue(PutValue(v, rest)) == Some((v, rest))
  {
    ReadU32Front(|v|, v + rest);
    TakeFront(v, rest);
  }

  lemma ReadEntryFront(e: Entry, rest: bytes)
    requires e.value.Some? ==> |e.value.value| <= MAX_VALUE
    ensures ReadEntry(PutEntry(e, rest)) == Some((e, rest))
  {
    hide LE, PutValue, ReadValue, ReadU64;
    if e.value.None? {
      ReadU64Front(e.seq_, [0] + rest);
      ReadByteFront(0, rest);
    } else {
      ReadU64Front(e.seq_, [1] + PutValue(e.value.value, rest));
      ReadByteFront(1, PutValue(e.value.value, rest));
      ReadValueFront(e.value.value, rest);
    }
  }

  lemma ReadRowFront(r: Row, rest: bytes)
    requires RowFits(r)
    ensures ReadRow(PutKey(r.key, PutEntry(r.entry, rest))) == Some((r, rest))
  {
    hide PutKey, ReadKey, PutEntry, ReadEntry;
    ReadKeyFront(r.key, PutEntry(r.entry, rest));
    ReadEntryFront(r.entry, rest);
  }

  lemma ReadEntryGives(b: bytes)
    requires ReadEntry(b).Some?
    ensures var (e, rest) := ReadEntry(b).value;
            (e.value.Some? ==> |e.value.value| <= MAX_VALUE) && b == PutEntry(e, rest)
  {
    hide LE;
  }

  lemma ReadRowGives(b: bytes)
    requires ReadRow(b).Some?
    ensures var (r, rest) := ReadRow(b).value; RowFits(r) && b == PutKey(r.key, PutEntry(r.entry, rest))
  {
    hide LE, ReadEntry, PutEntry;
    ReadEntryGives(ReadKey(b).value.1);
  }

  // -------------------------------------------------------------------- the parser

  /** May this row stand after `last`, in a body covering up to `through` at record `s`? */
  predicate RowFollows(last: Option<bytes>, r: Row, through: nat, s: nat) {
    (last.Some? ==> Lex(last.value, r.key)) && through < r.entry.seq_ <= s
  }

  function ReadRows(b: bytes, n: nat, last: Option<bytes>, through: nat, s: nat): Option<(seq<Row>, bytes)>
    decreases n
  {
    if n == 0 then Some(([], b)) else
    var (r, r1) :- ReadRow(b);
    if !RowFollows(last, r, through, s) then None else
    var (rows, r2) :- ReadRows(r1, n - 1, Some(r.key), through, s);
    Some(([r] + rows, r2))
  }

  function ReadRoot(b: bytes): Option<(Option<Bytes32>, bytes)> {
    var (flag, r1) :- ReadByte(b);
    if flag == 0 then Some((None, r1))
    else if flag == 1 then
      var (root, r2) :- Take(r1, 32);
      Some((Some(root), r2))
    else None
  }

  /** Reads one body and nothing after it. No row and no flush may come from a delta after number `s`. */
  function ParseBody(b: bytes, s: nat): Option<Body> {
    if |b| > MAX_BODY then None else
    var (root, r1) :- ReadRoot(b);
    var (through, r2) :- ReadU64(r1);
    if (root.None? && through != 0) || through > s then None else
    var (count, r3) :- ReadU32(r2);
    var (rows, r4) :- ReadRows(r3, count, None, through, s);
    if r4 == [] then Some(Body(root, through, rows)) else None
  }

  ghost predicate RowsOk(rows: seq<Row>, last: Option<bytes>, through: nat, s: nat) {
    && InOrder(rows)
    && (forall r :: r in rows ==> RowFits(r) && through < r.entry.seq_ <= s)
    && (last.Some? && rows != [] ==> Lex(last.value, rows[0].key))
  }

  /** A body that is legal at record `s`. */
  ghost predicate BodyOk(b: Body, s: nat) {
    && (b.root.None? ==> b.through == 0)
    && b.through <= s
    && RowsOk(b.rows, None, b.through, s)
    && |EncodeBody(b)| <= MAX_BODY
  }

  lemma RowsTail(rows: seq<Row>, last: Option<bytes>, through: nat, s: nat)
    requires rows != []
    ensures RowsOk(rows, last, through, s) <==>
            RowFits(rows[0]) && RowFollows(last, rows[0], through, s) && RowsOk(rows[1..], Some(rows[0].key), through, s)
  {
    hide RowFits;
    assert rows == [rows[0]] + rows[1..];
    assert rows[0] in rows;
    if RowFits(rows[0]) && RowFollows(last, rows[0], through, s) && RowsOk(rows[1..], Some(rows[0].key), through, s) {
      InOrderCons(rows[0], rows[1..]);
    }
  }

  lemma {:induction false} ReadRowsFront(rows: seq<Row>, last: Option<bytes>, through: nat, s: nat)
    requires RowsOk(rows, last, through, s)
    ensures ReadRows(PutRows(rows), |rows|, last, through, s) == Some((rows, []))
    decreases |rows|
  {
    hide RowFits, RowFollows, ReadRow, PutKey, PutEntry, RowsOk, InOrder;
    if rows != [] {
      RowsTail(rows, last, through, s);
      ReadRowsFront(rows[1..], Some(rows[0].key), through, s);
      ReadRowFront(rows[0], PutRows(rows[1..]));
      assert rows == [rows[0]] + rows[1..];
    }
  }

  lemma {:induction false} ReadRowsGives(b: bytes, n: nat, last: Option<bytes>, through: nat, s: nat)
    requires ReadRows(b, n, last, through, s).Some? && ReadRows(b, n, last, through, s).value.1 == []
    ensures var rows := ReadRows(b, n, last, through, s).value.0;
            |rows| == n && RowsOk(rows, last, through, s) && b == PutRows(rows)
    decreases n
  {
    hide RowFits, RowFollows, ReadRow, PutKey, PutEntry;
    if n > 0 {
      var (r, r1) := ReadRow(b).value;
      ReadRowGives(b);
      ReadRowsGives(r1, n - 1, Some(r.key), through, s);
      var rows := ReadRows(b, n, last, through, s).value.0;
      assert rows[1..] == ReadRows(r1, n - 1, Some(r.key), through, s).value.0;
      RowsTail(rows, last, through, s);
    }
  }

  lemma {:induction false} RowsLength(rows: seq<Row>)
    ensures |PutRows(rows)| >= |rows|
    decreases |rows|
  {
    if rows != [] {
      hide LE;
      RowsLength(rows[1..]);
    }
  }

  lemma ReadRootFront(root: Option<Bytes32>, rest: bytes)
    ensures ReadRoot(PutRoot(root, rest)) == Some((root, rest))
  {
    if root.None? {
      ReadByteFront(0, rest);
    } else {
      ReadByteFront(1, root.value + rest);
      TakeFront(root.value, rest);
    }
  }

  lemma ParseOfEncode(b: Body, s: nat)
    requires BodyOk(b, s)
    ensures ParseBody(EncodeBody(b), s) == Some(b)
  {
    hide RowsOk, PutRoot, ReadRoot, LE, ReadU32, ReadU64, PutRows;
    var t2 := PutRows(b.rows);
    var t1 := LE(|b.rows|, 4) + t2;
    ReadRootFront(b.root, LE(b.through, 8) + t1);
    ReadU64Front(b.through, t1);
    RowsLength(b.rows);
    EncodeLength(b);
    ReadU32Front(|b.rows|, t2);
    ReadRowsFront(b.rows, None, b.through, s);
  }

  lemma EncodeLength(b: Body)
    ensures |EncodeBody(b)| == 13 + (if b.root.Some? then 32 else 0) + |PutRows(b.rows)|
  {
  }

  lemma EncodeOfParse(b: bytes, s: nat)
    requires ParseBody(b, s).Some?
    ensures var r := ParseBody(b, s).value; BodyOk(r, s) && b == EncodeBody(r)
  {
    hide RowsOk, LE, ReadRows;
    var r1 := ReadRoot(b).value.1;
    var (through, r2) := ReadU64(r1).value;
    var (count, r3) := ReadU32(r2).value;
    ReadRowsGives(r3, count, None, through, s);
  }

  /** The parser accepts exactly the encodings of bodies legal at `s`, each body having one. */
  lemma ParseExact(b: bytes, s: nat, r: Body)
    ensures ParseBody(b, s) == Some(r) <==> BodyOk(r, s) && b == EncodeBody(r)
  {
    hide ParseBody, BodyOk, EncodeBody;
    if ParseBody(b, s).Some? { EncodeOfParse(b, s); }
    if BodyOk(r, s) && b == EncodeBody(r) { ParseOfEncode(r, s); }
  }

  // ------------------------------------------------------------------------- deltas

  predicate OpFits(op: Op) {
    match op
    case Set(k, v) => KeyFits(k) && |v| <= MAX_VALUE
    case Delete(k) => KeyFits(k)
    case Flush(_, _) => true
  }

  /** One operation of the delta numbered `s`; None if it breaks a limit, or flushes back, or flushes delta `s` itself. */
  function ApplyOp(b: Body, op: Op, s: u64): Option<Body> {
    match op
    case Set(k, v) => if OpFits(op) then Some(b.(rows := Insert(b.rows, k, Entry(s, Some(v))))) else None
    case Delete(k) => if OpFits(op) then Some(b.(rows := Insert(b.rows, k, Entry(s, None)))) else None
    case Flush(root, through) =>
      if through < b.through || through >= s then None
      else Some(Body(Some(root), through, Retain(b.rows, through)))
  }

  function ApplyOps(b: Body, ops: seq<Op>, s: u64): Option<Body>
    decreases |ops|
  {
    if ops == [] then Some(b) else
    var next :- ApplyOp(b, ops[0], s);
    ApplyOps(next, ops[1..], s)
  }

  /** A whole delta: all its operations are applied, or none is. */
  function Apply(b: Body, ops: seq<Op>, s: u64): Option<Body> {
    if ops == [] || |ops| > MAX_OPS || s == 0 then None else
    var r :- ApplyOps(b, ops, s);
    if |EncodeBody(r)| <= MAX_BODY then Some(r) else None
  }

  /** A key of 1 to 512 bytes, and a value of at most 65,536. */
  predicate OpProper(op: Op) {
    match op
    case Set(k, v) => 1 <= |k| <= 512 && |v| <= 65536
    case Delete(k) => 1 <= |k| <= 512
    case Flush(_, _) => true
  }

  /** Every flush covers deltas made before number `s`, and none uncovers what was covered. */
  ghost predicate FlushesProper(through: nat, ops: seq<Op>, s: nat) {
    && (forall j :: 0 <= j < |ops| && ops[j].Flush? ==> through <= ops[j].through < s)
    && (forall i, j :: 0 <= i < j < |ops| && ops[i].Flush? && ops[j].Flush? ==> ops[i].through <= ops[j].through)
  }

  /** EXACTLY which operations can be applied. */
  lemma {:induction false} ApplyOpsExact(b: Body, ops: seq<Op>, s: u64)
    ensures ApplyOps(b, ops, s).Some? <==> (forall op :: op in ops ==> OpProper(op)) && FlushesProper(b.through, ops, s)
    decreases |ops|
  {
    hide Insert, Retain;
    if ops != [] {
      var t := ops[1..];
      assert ops == [ops[0]] + t;
      FlushesCons(b.through, ops, s);
      if ApplyOp(b, ops[0], s).Some? {
        ApplyOpsExact(ApplyOp(b, ops[0], s).value, t, s);
      } else {
        assert ops[0] in ops;
      }
      hide FlushesProper;
      assert (forall op :: op in ops ==> OpProper(op)) <==> OpProper(ops[0]) && forall op :: op in t ==> OpProper(op);
    }
  }

  lemma FlushesCons(through: nat, ops: seq<Op>, s: nat)
    requires ops != []
    ensures FlushesProper(through, ops, s) <==>
            if ops[0].Flush? then through <= ops[0].through < s && FlushesProper(ops[0].through, ops[1..], s)
            else FlushesProper(through, ops[1..], s)
  {
    var t := ops[1..];
    forall j | 0 < j < |ops| ensures ops[j] == t[j - 1] {}
    if ops[0].Flush? && through <= ops[0].through < s && FlushesProper(ops[0].through, t, s) {
      forall j | 0 <= j < |ops| && ops[j].Flush? ensures through <= ops[j].through < s {
        if j > 0 { assert ops[j] == t[j - 1]; }
      }
      forall i, j | 0 <= i < j < |ops| && ops[i].Flush? && ops[j].Flush? ensures ops[i].through <= ops[j].through {
        assert ops[j] == t[j - 1];
        if i > 0 { assert ops[i] == t[i - 1]; }
      }
    }
    if !ops[0].Flush? && FlushesProper(through, t, s) {
      forall j | 0 <= j < |ops| && ops[j].Flush? ensures through <= ops[j].through < s { assert ops[j] == t[j - 1]; }
      forall i, j | 0 <= i < j < |ops| && ops[i].Flush? && ops[j].Flush? ensures ops[i].through <= ops[j].through {
        assert ops[j] == t[j - 1] && ops[i] == t[i - 1];
      }
    }
    if FlushesProper(through, ops, s) {
      forall j | 0 <= j < |t| && t[j].Flush? ensures ops[0].Flush? ==> ops[0].through <= t[j].through {
        assert t[j] == ops[j + 1];
      }
      forall i, j | 0 <= i < j < |t| && t[i].Flush? && t[j].Flush? ensures t[i].through <= t[j].through {
        assert t[j] == ops[j + 1] && t[i] == ops[i + 1];
      }
    }
  }

  /** EXACTLY which deltas a body takes: 1 to 4,096 proper operations, flushing forwards and nothing of this delta, that
      leave a body of at most 262,144 bytes. */
  lemma ApplyExact(b: Body, ops: seq<Op>, s: u64)
    ensures Apply(b, ops, s).Some? <==>
            && 1 <= |ops| <= 4096 && s >= 1
            && (forall op :: op in ops ==> OpProper(op)) && FlushesProper(b.through, ops, s)
            && (ApplyOps(b, ops, s).Some? ==> |EncodeBody(ApplyOps(b, ops, s).value)| <= 262144)
  {
    ApplyOpsExact(b, ops, s);
    hide OpProper, FlushesProper, EncodeBody, ApplyOps;
  }

  method ApplyDelta(b: Body, ops: seq<Op>, s: u64) returns (r: Option<Body>)
    ensures r == Apply(b, ops, s)
  {
    hide EncodeBody;
    if |ops| == 0 || |ops| > MAX_OPS || s == 0 { return None; }
    var root, through, rows := b.root, b.through, b.rows;
    var i := 0;
    while i < |ops|
      invariant 0 <= i <= |ops|
      invariant ApplyOps(Body(root, through, rows), ops[i..], s) == ApplyOps(b, ops, s)
    {
      assert ops[i..][1..] == ops[i + 1..];
      match ops[i] {
        case Set(k, v) =>
          if !(1 <= |k| <= MAX_KEY) || |v| > MAX_VALUE { return None; }
          rows := Insert(rows, k, Entry(s, Some(v)));
        case Delete(k) =>
          if !(1 <= |k| <= MAX_KEY) { return None; }
          rows := Insert(rows, k, Entry(s, None));
        case Flush(newRoot, upTo) =>
          if upTo < through || upTo >= s { return None; }
          root := Some(newRoot);
          through := upTo;
          rows := Retain(rows, upTo);
      }
      i := i + 1;
    }
    var out := Body(root, through, rows);
    return if |EncodeBody(out)| <= MAX_BODY then Some(out) else None;
  }

  /** A body's legality, size apart. */
  ghost predicate ShapeOk(b: Body, s: nat) {
    (b.root.None? ==> b.through == 0) && b.through <= s && RowsOk(b.rows, None, b.through, s)
  }

  lemma ApplyOpShape(b: Body, op: Op, s: u64)
    requires ShapeOk(b, s) && b.through < s && ApplyOp(b, op, s).Some?
    ensures var r := ApplyOp(b, op, s).value; ShapeOk(r, s) && r.through < s
  {
    match op
    case Set(k, v) => InsertOrdered(b.rows, k, Entry(s, Some(v)));
    case Delete(k) => InsertOrdered(b.rows, k, Entry(s, None));
    case Flush(_, through) =>
      RetainOrdered(b.rows, through);
      forall r | r in Retain(b.rows, through) ensures r in b.rows && r.entry.seq_ > through { RetainElem(b.rows, through, r); }
  }

  lemma {:induction false} ApplyOpsShape(b: Body, ops: seq<Op>, s: u64)
    requires s > 0 && ShapeOk(b, s) && b.through < s && ApplyOps(b, ops, s).Some?
    ensures var r := ApplyOps(b, ops, s).value; ShapeOk(r, s) && r.through < s
    decreases |ops|
  {
    if ops != [] {
      ApplyOpShape(b, ops[0], s);
      hide ShapeOk, ApplyOp;
      ApplyOpsShape(ApplyOp(b, ops[0], s).value, ops[1..], s);
    }
  }

  /** A legal step from a body legal at an earlier record always yields one the parser accepts at the new record. */
  lemma ApplyIsLegal(b: Body, ops: seq<Op>, s: u64, before: nat)
    requires BodyOk(b, before) && before < s && Apply(b, ops, s).Some?
    ensures BodyOk(Apply(b, ops, s).value, s)
    ensures ParseBody(EncodeBody(Apply(b, ops, s).value), s) == Apply(b, ops, s)
  {
    assert ShapeOk(b, s);
    ApplyOpsShape(b, ops, s);
    hide EncodeBody, RowsOk;
    ParseOfEncode(Apply(b, ops, s).value, s);
  }

  // -------------------------------------------------------------------- delta bytes

  function PutOp(op: Op, rest: bytes): bytes {
    match op
    case Set(k, v) => [1] + PutKey(k, PutValue(v, rest))
    case Delete(k) => [2] + PutKey(k, rest)
    case Flush(root, through) => [3] + (root + (LE(through, 8) + rest))
  }

  function PutOps(ops: seq<Op>): bytes {
    if ops == [] then [] else PutOp(ops[0], PutOps(ops[1..]))
  }

  function EncodeOps(ops: seq<Op>): bytes {
    LE(|ops|, 2) + PutOps(ops)
  }

  function ReadOp(b: bytes): Option<(Op, bytes)> {
    var (kind, r1) :- ReadByte(b);
    if kind == 1 then
      var (k, r2) :- ReadKey(r1);
      var (v, r3) :- ReadValue(r2);
      Some((Set(k, v), r3))
    else if kind == 2 then
      var (k, r2) :- ReadKey(r1);
      Some((Delete(k), r2))
    else if kind == 3 then
      var (root, r2) :- Take(r1, 32);
      var (through, r3) :- ReadU64(r2);
      Some((Flush(root, through), r3))
    else None
  }

  function ReadOps(b: bytes, n: nat): Option<(seq<Op>, bytes)>
    decreases n
  {
    if n == 0 then Some(([], b)) else
    var (op, r1) :- ReadOp(b);
    var (ops, r2) :- ReadOps(r1, n - 1);
    Some(([op] + ops, r2))
  }

  function ParseOps(b: bytes): Option<seq<Op>> {
    if |b| > MAX_BODY then None else
    var (n, r1) :- ReadU16(b);
    if n == 0 || n > MAX_OPS then None else
    var (ops, r2) :- ReadOps(r1, n);
    if r2 == [] then Some(ops) else None
  }

  /** A delta that has an encoding. */
  ghost predicate OpsOk(ops: seq<Op>) {
    1 <= |ops| <= MAX_OPS && (forall op :: op in ops ==> OpFits(op)) && |EncodeOps(ops)| <= MAX_BODY
  }

  lemma ReadOpFront(op: Op, rest: bytes)
    requires OpFits(op)
    ensures ReadOp(PutOp(op, rest)) == Some((op, rest))
  {
    hide LE, PutKey, ReadKey, PutValue, ReadValue, ReadU64;
    match op
    case Set(k, v) =>
      ReadByteFront(1, PutKey(k, PutValue(v, rest)));
      ReadKeyFront(k, PutValue(v, rest));
      ReadValueFront(v, rest);
    case Delete(k) =>
      ReadByteFront(2, PutKey(k, rest));
      ReadKeyFront(k, rest);
    case Flush(root, through) =>
      ReadByteFront(3, root + (LE(through, 8) + rest));
      TakeFront(root, LE(through, 8) + rest);
      ReadU64Front(through, rest);
  }

  lemma ReadKeyGives(b: bytes)
    requires ReadKey(b).Some?
    ensures var (k, rest) := ReadKey(b).value; KeyFits(k) && b == PutKey(k, rest)
  {
    hide LE;
  }

  lemma ReadValueGives(b: bytes)
    requires ReadValue(b).Some?
    ensures var (v, rest) := ReadValue(b).value; |v| <= MAX_VALUE && b == PutValue(v, rest)
  {
    hide LE;
  }

  lemma ReadOpGives(b: bytes)
    requires ReadOp(b).Some?
    ensures var (op, rest) := ReadOp(b).value; OpFits(op) && b == PutOp(op, rest)
  {
    hide LE, ReadKey, ReadValue, PutKey, PutValue, KeyFits;
    var (kind, r1) := ReadByte(b).value;
    if kind == 1 || kind == 2 { ReadKeyGives(r1); }
    if kind == 1 { ReadValueGives(ReadKey(r1).value.1); }
  }

  lemma {:induction false} ReadOpsFront(ops: seq<Op>)
    requires forall op :: op in ops ==> OpFits(op)
    ensures ReadOps(PutOps(ops), |ops|) == Some((ops, []))
    decreases |ops|
  {
    hide OpFits, PutOp, ReadOp;
    if ops != [] {
      assert ops[0] in ops;
      ReadOpsFront(ops[1..]);
      ReadOpFront(ops[0], PutOps(ops[1..]));
      assert ops == [ops[0]] + ops[1..];
    }
  }

  lemma {:induction false} ReadOpsGives(b: bytes, n: nat)
    requires ReadOps(b, n).Some? && ReadOps(b, n).value.1 == []
    ensures var ops := ReadOps(b, n).value.0;
            |ops| == n && (forall op :: op in ops ==> OpFits(op)) && b == PutOps(ops)
    decreases n
  {
    hide OpFits, PutOp, ReadOp;
    if n > 0 {
      ReadOpGives(b);
      var r1 := ReadOp(b).value.1;
      ReadOpsGives(r1, n - 1);
      var ops := ReadOps(b, n).value.0;
      assert ops[1..] == ReadOps(r1, n - 1).value.0;
    }
  }

  /** Deltas have one spelling too. */
  lemma OpsExact(b: bytes, ops: seq<Op>)
    ensures ParseOps(b) == Some(ops) <==> OpsOk(ops) && b == EncodeOps(ops)
  {
    hide OpFits, LE;
    if ParseOps(b) == Some(ops) {
      var (n, r1) := ReadU16(b).value;
      ReadOpsGives(r1, n);
    }
    if OpsOk(ops) && b == EncodeOps(ops) {
      ReadU16Front(|ops|, PutOps(ops));
      ReadOpsFront(ops);
    }
  }
}
