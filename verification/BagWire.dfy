/** The Bag's encodings (bag/src/wire.rs): unsigned pointers whose names are the work that bought them. */
module BagWire {
  import opened Options
  import opened Bytes
  import opened ByteOrder
  import opened Crypto
  import opened Sorting

  const MAX_LABEL := 64
  const MAX_M := 1024
  const MAX_PAYLOAD := 256
  const MAX_WORK_BITS := 64
  const MAGIC: bytes := [66, 71, 48, 49]  // "BG01"
  const NAME_DOMAIN: bytes := [66, 71, 48, 49, 45, 112, 116, 114]  // "BG01-ptr"

  datatype Params = Params(owner: Bytes32, workBits: byte, m: u16, payloadCap: u16, bucket: u32, bagLabel: bytes)

  predicate ParamsOk(p: Params) {
    && |p.bagLabel| <= MAX_LABEL
    && 1 <= p.m <= MAX_M
    && 1 <= p.payloadCap <= MAX_PAYLOAD
    && p.workBits <= MAX_WORK_BITS
  }

  function EncodeParams(p: Params): bytes {
    MAGIC + (p.owner + ([p.workBits] + (LE(p.m, 2) + (LE(p.payloadCap, 2) + (LE(p.bucket, 4) + p.bagLabel)))))
  }

  function ParseParams(b: bytes): Option<Params> {
    var (magic, r1) :- Take(b, 4);
    if magic != MAGIC then None else
    var (owner, r2) :- Take(r1, 32);
    var (bits, r3) :- ReadByte(r2);
    var (m, r4) :- ReadU16(r3);
    var (cap, r5) :- ReadU16(r4);
    var (bucket, r6) :- ReadU32(r5);
    var p := Params(owner, bits, m, cap, bucket, r6);
    if ParamsOk(p) then Some(p) else None
  }

  /** One encoding per parameter set: every contract key names one bag. */
  lemma ParamsExact(b: bytes, p: Params)
    ensures ParseParams(b) == Some(p) <==> ParamsOk(p) && b == EncodeParams(p)
  {
    var t5 := LE(p.bucket, 4) + p.bagLabel;
    var t4 := LE(p.payloadCap, 2) + t5;
    var t3 := LE(p.m, 2) + t4;
    var t2 := [p.workBits] + t3;
    hide LE, UnLE;
    TakeFront(MAGIC, p.owner + t2);
    TakeFront(p.owner, t2);
    ReadByteFront(p.workBits, t3);
    ReadU16Front(p.m, t4);
    ReadU16Front(p.payloadCap, t5);
    ReadU32Front(p.bucket, p.bagLabel);
  }

  function ParamsHash(c: Crypto, p: Params): Bytes32 {
    c.hash(EncodeParams(p))
  }

  // ----------------------------------------------------------------- pointers

  datatype Pointer = Pointer(payload: bytes, nonce: Bytes8)

  function Name(c: Crypto, ph: Bytes32, q: Pointer): Bytes32 {
    c.hash(NAME_DOMAIN + (ph + (LE(|q.payload|, 2) + (q.payload + q.nonce))))
  }

  datatype Held = Held(ptr: Pointer, name: Bytes32, work: nat)

  function HeldOf(c: Crypto, p: Params, q: Pointer): Held {
    var name := Name(c, ParamsHash(c, p), q);
    Held(q, name, LeadingZeros(name))
  }

  /** The comparison the source sorts by: more work is first, and of equal work the smaller name. */
  predicate RankLess(a: Held, b: Held) {
    a.work > b.work || (a.work == b.work && Lex(a.name, b.name))
  }

  function Order(h: Held): int {
    Num(h.name)
  }

  predicate WorkDerived(h: Held) {
    h.work == LeadingZeros(h.name)
  }

  lemma RankIsOrder(a: Held, b: Held)
    requires WorkDerived(a) && WorkDerived(b)
    ensures RankLess(a, b) <==> Order(a) < Order(b)
  {
    WorkOrderIsNameOrder(a.name, b.name);
    LexIsNum(a.name, b.name);
  }

  function PutPointer(q: Pointer, rest: bytes): bytes {
    LE(|q.payload|, 2) + (q.payload + (q.nonce + rest))
  }

  function ReadPointer(b: bytes, cap: nat): Option<(Pointer, bytes)> {
    var (n, r1) :- ReadU16(b);
    if n > cap then None else
    var (payload, r2) :- Take(r1, n);
    var (nonce, r3) :- Take(r2, 8);
    Some((Pointer(payload, nonce), r3))
  }

  lemma ReadPointerFront(q: Pointer, rest: bytes, cap: u16)
    requires |q.payload| <= cap
    ensures ReadPointer(PutPointer(q, rest), cap) == Some((q, rest))
  {
    ReadU16Front(|q.payload|, q.payload + (q.nonce + rest));
    TakeFront(q.payload, q.nonce + rest);
    TakeFront(q.nonce, rest);
  }

  lemma ReadPointerGives(b: bytes, cap: u16)
    requires ReadPointer(b, cap).Some?
    ensures var (q, rest) := ReadPointer(b, cap).value; |q.payload| <= cap && b == PutPointer(q, rest)
  {
  }

  // ------------------------------------------------------------------- states

  /** A bag's pointers, in rank order. */
  type BagState = seq<Held>

  predicate HeldOk(c: Crypto, p: Params, h: Held) {
    |h.ptr.payload| <= p.payloadCap && h == HeldOf(c, p, h.ptr) && h.work >= p.workBits
  }

  /** What `validate_state` accepts. */
  ghost predicate Valid(c: Crypto, p: Params, s: BagState) {
    && |s| <= p.m
    && (forall h :: h in s ==> HeldOk(c, p, h))
    && Strict(s, Order)
  }

  function PutPointers(hs: seq<Held>): bytes {
    if hs == [] then [] else PutPointer(hs[0].ptr, PutPointers(hs[1..]))
  }

  function Encode(s: BagState): bytes {
    MAGIC + (LE(|s|, 2) + PutPointers(s))
  }

  function ReadHeld(c: Crypto, p: Params, b: bytes): Option<(Held, bytes)> {
    var (q, rest) :- ReadPointer(b, p.payloadCap);
    var h := HeldOf(c, p, q);
    if h.work < p.workBits then None else Some((h, rest))
  }

  predicate Follows(prev: Option<Held>, h: Held) {
    prev.Some? ==> RankLess(prev.value, h)
  }

  function ReadAll(c: Crypto, p: Params, b: bytes, n: nat, prev: Option<Held>): Option<(seq<Held>, bytes)>
    decreases n
  {
    if n == 0 then Some(([], b)) else
    var (h, r1) :- ReadHeld(c, p, b);
    if !Follows(prev, h) then None else
    var (hs, r2) :- ReadAll(c, p, r1, n - 1, Some(h));
    Some(([h] + hs, r2))
  }

  function Parse(c: Crypto, p: Params, b: bytes): Option<BagState> {
    var (magic, r1) :- Take(b, 4);
    if magic != MAGIC then None else
    var (count, r2) :- ReadU16(r1);
    if count > p.m then None else
    var (held, r3) :- ReadAll(c, p, r2, count, None);
    if r3 == [] then Some(held) else None
  }

  ghost predicate ChainOk(c: Crypto, p: Params, hs: seq<Held>, prev: Option<Held>) {
    && Strict(hs, Order)
    && (forall h :: h in hs ==> HeldOk(c, p, h))
    && (prev.Some? ==> WorkDerived(prev.value))
    && (prev.Some? && hs != [] ==> Order(prev.value) < Order(hs[0]))
  }

  lemma ChainTail(c: Crypto, p: Params, hs: seq<Held>, prev: Option<Held>)
    requires hs != [] && (prev.Some? ==> WorkDerived(prev.value))
    ensures ChainOk(c, p, hs, prev) <==>
            HeldOk(c, p, hs[0]) && Follows(prev, hs[0]) && ChainOk(c, p, hs[1..], Some(hs[0]))
  {
    assert hs == [hs[0]] + hs[1..];
    assert hs[0] in hs;
    if prev.Some? && WorkDerived(hs[0]) { RankIsOrder(prev.value, hs[0]); }
    if HeldOk(c, p, hs[0]) && Follows(prev, hs[0]) && ChainOk(c, p, hs[1..], Some(hs[0])) {
      StrictCons(hs[0], hs[1..], Order);
    }
  }

  lemma ReadHeldFront(c: Crypto, p: Params, h: Held, rest: bytes)
    requires HeldOk(c, p, h)
    ensures ReadHeld(c, p, PutPointer(h.ptr, rest)) == Some((h, rest))
  {
    ReadPointerFront(h.ptr, rest, p.payloadCap);
    hide PutPointer, ReadPointer, HeldOf;
  }

  lemma ReadAllStep(c: Crypto, p: Params, h: Held, t: seq<Held>, prev: Option<Held>, rest: bytes)
    requires HeldOk(c, p, h) && Follows(prev, h)
    requires ReadAll(c, p, rest, |t|, Some(h)) == Some((t, []))
    ensures ReadAll(c, p, PutPointer(h.ptr, rest), |t| + 1, prev) == Some(([h] + t, []))
  {
    hide PutPointer, ReadHeld, Follows, HeldOk;
    ReadHeldFront(c, p, h, rest);
  }

  lemma {:induction false} ReadAllFront(c: Crypto, p: Params, hs: seq<Held>, prev: Option<Held>)
    requires ChainOk(c, p, hs, prev)
    ensures ReadAll(c, p, PutPointers(hs), |hs|, prev) == Some((hs, []))
    decreases |hs|
  {
    if hs != [] {
      ChainTail(c, p, hs, prev);
      hide PutPointer, ChainOk, Follows, HeldOk, ReadAll;
      ReadAllFront(c, p, hs[1..], Some(hs[0]));
      ReadAllStep(c, p, hs[0], hs[1..], prev, PutPointers(hs[1..]));
      assert hs == [hs[0]] + hs[1..];
    }
  }

  lemma {:induction false} ReadAllGives(c: Crypto, p: Params, b: bytes, n: nat, prev: Option<Held>)
    requires (prev.Some? ==> WorkDerived(prev.value)) && ReadAll(c, p, b, n, prev).Some?
    requires ReadAll(c, p, b, n, prev).value.1 == []
    ensures var hs := ReadAll(c, p, b, n, prev).value.0;
            |hs| == n && ChainOk(c, p, hs, prev) && b == PutPointers(hs)
    decreases n
  {
    if n > 0 {
      var (q, r0) := ReadPointer(b, p.payloadCap).value;
      ReadPointerGives(b, p.payloadCap);
      var (h, r1) := ReadHeld(c, p, b).value;
      assert HeldOk(c, p, h);
      hide PutPointer, ReadPointer, HeldOf, Follows, ReadHeld;
      ReadAllGives(c, p, r1, n - 1, Some(h));
      var hs := ReadAll(c, p, b, n, prev).value.0;
      assert hs[1..] == ReadAll(c, p, r1, n - 1, Some(h)).value.0;
      ChainTail(c, p, hs, prev);
    }
  }

  lemma ParseOfEncode(c: Crypto, p: Params, s: BagState)
    requires ParamsOk(p) && Valid(c, p, s)
    ensures Parse(c, p, Encode(s)) == Some(s)
  {
    TakeFront(MAGIC, LE(|s|, 2) + PutPointers(s));
    ReadU16Front(|s|, PutPointers(s));
    ReadAllFront(c, p, s, None);
  }

  lemma EncodeOfParse(c: Crypto, p: Params, b: bytes)
    requires Parse(c, p, b).Some?
    ensures var s := Parse(c, p, b).value; Valid(c, p, s) && b == Encode(s)
  {
    var (magic, r1) := Take(b, 4).value;
    var (count, r2) := ReadU16(r1).value;
    ReadAllGives(c, p, r2, count, None);
  }

  /** `validate_state` accepts exactly the encodings of valid bags, each bag having one. */
  lemma ParseExact(c: Crypto, p: Params, b: bytes, s: BagState)
    requires ParamsOk(p)
    ensures Parse(c, p, b) == Some(s) <==> Valid(c, p, s) && b == Encode(s)
  {
    if Parse(c, p, b).Some? { EncodeOfParse(c, p, b); }
    if Valid(c, p, s) && b == Encode(s) { ParseOfEncode(c, p, s); }
  }

  /** `4 + 2 + 1024 * (2 + 256 + 8)`. */
  const MAX_STATE := 272390

  lemma {:induction false} PointersLength(hs: seq<Held>, cap: nat)
    requires cap <= MAX_PAYLOAD && forall h :: h in hs ==> |h.ptr.payload| <= cap
    ensures |PutPointers(hs)| <= 266 * |hs|
    decreases |hs|
  {
    if hs != [] {
      assert hs[0] in hs;
      PointersLength(hs[1..], cap);
    }
  }

  lemma EncodeFits(c: Crypto, p: Params, s: BagState)
    requires ParamsOk(p) && Valid(c, p, s)
    ensures |Encode(s)| <= MAX_STATE
  {
    PointersLength(s, p.payloadCap);
  }

  /** `BagState::parse` as its loop runs. */
  method ReadBag(c: Crypto, p: Params, b: bytes) returns (r: Option<BagState>)
    ensures r == Parse(c, p, b)
  {
    hide ReadHeld, Follows, ReadU16;
    var head := Take(b, 4);
    if head.None? || head.value.0 != MAGIC { return None; }
    var count := ReadU16(head.value.1);
    if count.None? || count.value.0 > p.m { return None; }
    var n := count.value.0;
    ghost var whole := ReadAll(c, p, count.value.1, n, None);
    var rest := count.value.1;
    var held: seq<Held> := [];
    var prev: Option<Held> := None;
    var i := 0;
    assert whole.Some? ==> [] + whole.value.0 == whole.value.0;
    while i < n
      invariant 0 <= i <= n
      invariant var more := ReadAll(c, p, rest, n - i, prev);
                whole == if more.None? then None else Some((held + more.value.0, more.value.1))
    {
      var h := ReadHeld(c, p, rest);
      if h.None? || !Follows(prev, h.value.0) { return None; }
      ghost var more := ReadAll(c, p, h.value.1, n - i - 1, Some(h.value.0));
      assert more.Some? ==> held + ([h.value.0] + more.value.0) == held + [h.value.0] + more.value.0;
      held := held + [h.value.0];
      rest := h.value.1;
      prev := Some(h.value.0);
      i := i + 1;
    }
    assert held + [] == held;
    return if rest == [] then Some(held) else None;
  }

  /** `encode` as its loop runs. */
  method EncodeBag(s: BagState) returns (out: bytes)
    ensures out == Encode(s)
  {
    hide LE;
    out := MAGIC;
    out := out + LE(|s|, 2);
    var i := 0;
    while i < |s|
      invariant 0 <= i <= |s|
      invariant out + PutPointers(s[i..]) == Encode(s)
    {
      var q := s[i].ptr;
      var n := LE(|q.payload|, 2);
      ghost var rest := PutPointers(s[i + 1..]);
      assert s[i..][1..] == s[i + 1..];
      assert out + (n + (q.payload + (q.nonce + rest))) == out + n + q.payload + q.nonce + rest;
      out := out + n;
      out := out + q.payload;
      out := out + q.nonce;
      i := i + 1;
    }
    assert out + [] == out;
  }
}
