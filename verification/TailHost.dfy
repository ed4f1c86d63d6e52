/** The Tail's doors: states, deltas and the merge of either, from anyone, in any order (tail/src/lib.rs). */
module TailHost {
  import opened Options
  import opened Bytes
  import opened ByteOrder
  import opened Bits
  import opened Crypto
  import opened Doors
  import opened RegisterWire
  import opened RegisterCodec
  import opened TailBody
  import opened TailLog

  const STATE_MAGIC: bytes := [84, 76, 48, 49]  // "TL01"
  const DELTA_MAGIC: bytes := [84, 68, 48, 49]  // "TD01"
  const MAX_STATE := 263172  // 4 + 1024 + MAX_BODY

  /** What a host holds once there is something to hold; before that it holds None. */
  datatype Tail = Tail(signed: Signed, body: Body)

  // --------------------------------------------------------------------- encodings

  function EncodeTail(a: Authority, t: Tail): bytes {
    STATE_MAGIC + (PutSigned(a, t.signed, []) + EncodeBody(t.body))
  }

  function Encode(a: Authority, h: Option<Tail>): bytes {
    if h.None? then [] else EncodeTail(a, h.value)
  }

  function EncodeDelta(a: Authority, s: Signed, ops: seq<Op>): bytes {
    DELTA_MAGIC + (PutSigned(a, s, []) + EncodeOps(ops))
  }

  /** A signed part of exactly its authority's length. */
  function ReadPart(a: Authority, b: bytes): Option<(Signed, bytes)> {
    var (part, rest) :- Take(b, SignedLen(a));
    var (s, extra) :- ReadSigned(a, part);
    if extra == [] then Some((s, rest)) else None
  }

  lemma ReadPartFront(a: Authority, s: Signed, rest: bytes)
    requires SignedOk(a, s)
    ensures ReadPart(a, PutSigned(a, s, []) + rest) == Some((s, rest))
  {
    hide SignedLen, PutSigned, ReadSigned;
    SignedLength(a, s, []);
    TakeFront(PutSigned(a, s, []), rest);
    ReadSignedFront(a, s, []);
  }

  lemma ReadPartGives(a: Authority, b: bytes)
    requires ReadPart(a, b).Some?
    ensures var (s, rest) := ReadPart(a, b).value; SignedOk(a, s) && b == PutSigned(a, s, []) + rest
  {
    hide PutSigned, ReadSigned;
    ReadSignedGives(a, Take(b, SignedLen(a)).value.0);
  }

  /** The parse short of hash and signatures: no bytes are the tail that holds nothing, and None is a refusal. */
  function ParseUnverified(a: Authority, b: bytes): Option<Option<Tail>> {
    if b == [] then Some(None)
    else if |b| > MAX_STATE then None
    else
      var (magic, r1) :- Take(b, 4);
      if magic != STATE_MAGIC then None else
      var (signed, r2) :- ReadPart(a, r1);
      var body :- ParseBody(r2, signed.seq_);
      Some(Some(Tail(signed, body)))
  }

  ghost predicate TailOk(a: Authority, t: Tail) {
    SignedOk(a, t.signed) && BodyOk(t.body, t.signed.seq_)
  }

  predicate VerifyTail(c: Crypto, p: Params, t: Tail) {
    && !t.signed.terminal
    && t.signed.seq_ >= 1
    && t.signed.valueHash == BodyHash(c, t.body)
    && VerifySigned(c, p, t.signed)
  }

  /** What `validate_state` accepts, size apart. */
  ghost predicate Valid(c: Crypto, p: Params, h: Option<Tail>) {
    h.Some? ==> TailOk(p.authority, h.value) && VerifyTail(c, p, h.value)
  }

  /** One encoding per tail; and what is read is exactly the encodings that fit. */
  lemma ParseExact(a: Authority, b: bytes, h: Option<Tail>)
    ensures ParseUnverified(a, b) == Some(h) <==>
            (h.Some? ==> TailOk(a, h.value)) && b == Encode(a, h) && |b| <= MAX_STATE
  {
    hide PutSigned, ReadPart, EncodeBody, ParseBody, BodyOk, SignedOk;
    if ParseUnverified(a, b) == Some(h) && b != [] {
      var r1 := Take(b, 4).value.1;
      ReadPartGives(a, r1);
      TailBody.ParseExact(ReadPart(a, r1).value.1, h.value.signed.seq_, h.value.body);
    }
    if h.Some? && TailOk(a, h.value) && b == Encode(a, h) {
      var t := h.value;
      TakeFront(STATE_MAGIC, PutSigned(a, t.signed, []) + EncodeBody(t.body));
      ReadPartFront(a, t.signed, EncodeBody(t.body));
      TailBody.ParseExact(EncodeBody(t.body), t.signed.seq_, t.body);
    }
  }

  // ------------------------------------------------------------------------- merge

  function SeqOf(h: Option<Tail>): nat {
    if h.Some? then h.value.signed.seq_ else 0
  }

  function BodyOf(h: Option<Tail>): Body {
    if h.Some? then h.value.body else EMPTY
  }

  /** The tail after a delta: refused unless it is numbered one above what is held, and signed over the very body its
      operations make. */
  function ApplyDelta(c: Crypto, p: Params, held: Option<Tail>, d: bytes): Option<Tail> {
    var (magic, r1) :- Take(d, 4);
    if magic != DELTA_MAGIC then None else
    var (signed, r2) :- ReadPart(p.authority, r1);
    if signed.terminal || signed.seq_ != SeqOf(held) + 1 then None else
    var ops :- ParseOps(r2);
    var body :- Apply(BodyOf(held), ops, signed.seq_);
    if BodyHash(c, body) != signed.valueHash || !VerifySigned(c, p, signed) then None
    else Some(Tail(signed, body))
  }

  /** Any tail ranks above None. */
  predicate Above(t: Tail, held: Option<Tail>) {
    held.None? || Outranks(DecisionOf(t.signed), DecisionOf(held.value.signed))
  }

  predicate IsDelta(cand: bytes) {
    |cand| >= 4 && cand[..4] == DELTA_MAGIC
  }

  /** The first four bytes say what the candidate is. A delta that applies is taken; a state is taken if it ranks higher
      and verifies; anything else changes nothing. */
  function Absorb(c: Crypto, p: Params, held: Option<Tail>, cand: bytes): Option<Tail> {
    if IsDelta(cand) then
      var next := ApplyDelta(c, p, held, cand);
      if next.Some? then next else held
    else
      var x := ParseUnverified(p.authority, cand);
      if x.Some? && x.value.Some? && Above(x.value.value, held) && VerifyTail(c, p, x.value.value) then x.value else held
  }

  function AbsorbAll(c: Crypto, p: Params, held: Option<Tail>, cands: seq<bytes>): Option<Tail>
    decreases |cands|
  {
    if cands == [] then held else AbsorbAll(c, p, Absorb(c, p, held, cands[0]), cands[1..])
  }

  /** Whatever bytes arrive, a valid tail stays valid, and it is the same tail or one that ranks strictly above it. */
  lemma AbsorbKeepsValid(c: Crypto, p: Params, held: Option<Tail>, cand: bytes)
    requires Valid(c, p, held)
    ensures var r := Absorb(c, p, held, cand);
            Valid(c, p, r) && (r == held || (r.Some? && Above(r.value, held)))
  {
    hide ReadPart, SignedOk, BodyOk, VerifySigned, Apply, ParseOps, ParseUnverified, EncodeBody;
    var a := p.authority;
    if IsDelta(cand) {
      if ApplyDelta(c, p, held, cand).Some? {
        ReadPartGives(a, Take(cand, 4).value.1);
        DeltaIsLegal(c, p, held, cand);
      }
    } else if ParseUnverified(a, cand).Some? {
      ParseExact(a, cand, ParseUnverified(a, cand).value);
    }
  }

  lemma EmptyIsLegal()
    ensures BodyOk(EMPTY, 0)
  {
  }

  lemma DeltaIsLegal(c: Crypto, p: Params, held: Option<Tail>, d: bytes)
    requires Valid(c, p, held) && ApplyDelta(c, p, held, d).Some?
    ensures var t := ApplyDelta(c, p, held, d).value; BodyOk(t.body, t.signed.seq_)
  {
    hide ReadPart, SignedOk, BodyOk, VerifySigned, Apply, ParseOps, EncodeBody;
    EmptyIsLegal();
    var (signed, r2) := ReadPart(p.authority, Take(d, 4).value.1).value;
    ApplyIsLegal(BodyOf(held), ParseOps(r2).value, signed.seq_, SeqOf(held));
  }

  // ----------------------------------------------------------------------- closure

  /** The room the size bound leaves for the signed part is enough exactly up to 15 signatures. */
  lemma SignedPartFits(c: Crypto, a: Authority)
    requires AuthorityOk(c, a)
    ensures SignedLen(a) <= 1024 <==> SigsRequired(a) <= 15
  {
  }

  lemma EncodedSize(a: Authority, t: Tail)
    requires TailOk(a, t)
    ensures |EncodeTail(a, t)| == 4 + SignedLen(a) + |EncodeBody(t.body)| && |EncodeBody(t.body)| <= MAX_BODY
  {
    SignedLength(a, t.signed, []);
    hide PutSigned, EncodeBody, SignedLen;
  }

  /** Up to 15 signatures, whatever bytes a host with a valid tail absorbs, the tail it then stores reads back as
      itself and is valid. */
  lemma {:induction false} UpdateCloses(c: Crypto, p: Params, held: Option<Tail>, cands: seq<bytes>)
    requires ParamsOk(c, p) && SigsRequired(p.authority) <= 15 && Valid(c, p, held)
    ensures var r := AbsorbAll(c, p, held, cands);
            && Valid(c, p, r) && ParseUnverified(p.authority, Encode(p.authority, r)) == Some(r)
            && |Encode(p.authority, r)| <= MAX_STATE
    decreases |cands|
  {
    hide VerifyTail, EncodeTail, ParseUnverified, Absorb, TailOk;
    if cands == [] {
      SignedPartFits(c, p.authority);
      if held.Some? { EncodedSize(p.authority, held.value); }
      ParseExact(p.authority, Encode(p.authority, held), held);
    } else {
      AbsorbKeepsValid(c, p, held, cands[0]);
      UpdateCloses(c, p, Absorb(c, p, held, cands[0]), cands[1..]);
    }
  }

  /** Exactly which tails read back: those whose body leaves room for the signatures. */
  lemma ReadsBack(a: Authority, t: Tail)
    requires TailOk(a, t)
    ensures ParseUnverified(a, EncodeTail(a, t)) == Some(Some(t)) <==> SignedLen(a) + |EncodeBody(t.body)| <= 263168
  {
    EncodedSize(a, t);
    hide TailOk, EncodeTail, SignedLen, EncodeBody, ParseUnverified;
    ParseExact(a, EncodeTail(a, t), Some(t));
  }

  // A legal first delta whose body is the largest a body may be.

  function FullOp(i: byte): Op {
    Set([i], if i < 3 then Zeros(65536) else Zeros(65459))
  }

  function FullOps(): seq<Op> {
    [FullOp(0)] + ([FullOp(1)] + ([FullOp(2)] + ([FullOp(3)] + [])))
  }

  function FullRow(i: byte): Row {
    Row([i], Entry(1, Some(FullOp(i).value)))
  }

  function FullBody(): Body {
    Body(None, 0, [FullRow(0)] + ([FullRow(1)] + ([FullRow(2)] + ([FullRow(3)] + []))))
  }

  lemma RowBytes(i: byte, rows: seq<Row>)
    ensures |PutRows([FullRow(i)] + rows)| == 16 + |FullOp(i).value| + |PutRows(rows)|
  {
    var all := [FullRow(i)] + rows;
    assert all[0] == FullRow(i) && all[1..] == rows;
  }

  lemma OpBytes(i: byte, ops: seq<Op>)
    ensures |PutOps([FullOp(i)] + ops)| == 8 + |FullOp(i).value| + |PutOps(ops)|
  {
    var all := [FullOp(i)] + ops;
    assert all[0] == FullOp(i) && all[1..] == ops;
  }

  lemma FullSizes()
    ensures |EncodeBody(FullBody())| == MAX_BODY && OpsOk(FullOps())
  {
    hide PutRows, PutOps;
    assert |PutRows([])| == 0 && |PutOps([])| == 0 by { PutNothing(); }
    RowBytes(3, []);
    RowBytes(2, [FullRow(3)] + []);
    RowBytes(1, [FullRow(2)] + ([FullRow(3)] + []));
    RowBytes(0, [FullRow(1)] + ([FullRow(2)] + ([FullRow(3)] + [])));
    OpBytes(3, []);
    OpBytes(2, [FullOp(3)] + []);
    OpBytes(1, [FullOp(2)] + ([FullOp(3)] + []));
    OpBytes(0, [FullOp(1)] + ([FullOp(2)] + ([FullOp(3)] + [])));
  }

  lemma PutNothing()
    ensures |PutRows([])| == 0 && |PutOps([])| == 0
  {
  }

  lemma FullStep(rows: seq<Row>, i: byte)
    requires forall r :: r in rows ==> r.key != [] && r.key[0] < i
    ensures Insert(rows, [i], FullRow(i).entry) == rows + [FullRow(i)]
    decreases |rows|
  {
    if rows != [] {
      assert rows[0] in rows;
      FullStep(rows[1..], i);
      assert rows + [FullRow(i)] == [rows[0]] + (rows[1..] + [FullRow(i)]);
    }
  }

  lemma FullApplies()
    ensures Apply(EMPTY, FullOps(), 1) == Some(FullBody())
  {
    FullSizes();
    hide EncodeBody, Insert;
    FullStep([], 0);
    FullStep([FullRow(0)], 1);
    FullStep([FullRow(0)] + [FullRow(1)], 2);
    FullStep([FullRow(0)] + [FullRow(1)] + [FullRow(2)], 3);
    var b3 := Body(None, 0, [FullRow(0)] + [FullRow(1)] + [FullRow(2)]);
    var b2 := Body(None, 0, [FullRow(0)] + [FullRow(1)]);
    var b1 := Body(None, 0, [FullRow(0)]);
    assert [] + [FullRow(0)] == [FullRow(0)];
    assert b3.rows + [FullRow(3)] == FullBody().rows;
    OneOp(b3, 3, [], FullBody());
    OneOp(b2, 2, [FullOp(3)] + [], b3);
    OneOp(b1, 1, [FullOp(2)] + ([FullOp(3)] + []), b2);
    OneOp(EMPTY, 0, [FullOp(1)] + ([FullOp(2)] + ([FullOp(3)] + [])), b1);
    assert ApplyOps(FullBody(), [], 1) == Some(FullBody());
  }

  lemma OneOp(b: Body, i: byte, ops: seq<Op>, next: Body)
    requires next == b.(rows := Insert(b.rows, [i], FullRow(i).entry))
    ensures ApplyOps(b, [FullOp(i)] + ops, 1) == ApplyOps(next, ops, 1)
  {
    var all := [FullOp(i)] + ops;
    assert all[0] == FullOp(i) && all[1..] == ops;
  }

  /** With 16 of 16 signatures the bound is 43 bytes short: a delta of that writer that an empty host ACCEPTS leaves a
      tail whose stored bytes no host can read back. */
  lemma SixteenDoesNotClose(c: Crypto, p: Params, s: Signed)
    requires AuthorityOk(c, p.authority) && SigsRequired(p.authority) == 16 && SignedOk(p.authority, s)
    requires VerifyTail(c, p, Tail(s, FullBody())) && s.seq_ == 1
    ensures var t := Absorb(c, p, None, EncodeDelta(p.authority, s, FullOps()));
            && t == Some(Tail(s, FullBody())) && Valid(c, p, t)
            && ParseUnverified(p.authority, Encode(p.authority, t)).None?
  {
    FullSizes();
    FullApplies();
    hide EncodeBody, EncodeOps, Apply, OpsOk, ReadPart, VerifySigned, PutSigned, SignedOk, SignedLen;
    DeltaApplies(c, p, None, s, FullOps(), FullBody());
    AbsorbKeepsValid(c, p, None, EncodeDelta(p.authority, s, FullOps()));
    var t := Tail(s, FullBody());
    EncodedSize(p.authority, t);
    SignedSixteen(p.authority);
    var b := Encode(p.authority, Some(t));
    if ParseUnverified(p.authority, b).Some? { ParseExact(p.authority, b, ParseUnverified(p.authority, b).value); }
  }

  lemma {:induction false} OnesCount(n: nat)
    ensures CountOnes(Pow2(n) - 1) == n
    decreases n
  {
    if n > 0 {
      assert (Pow2(n) - 1) / 2 == Pow2(n - 1) - 1 && (Pow2(n) - 1) % 2 == 1;
      OnesCount(n - 1);
    }
  }

  function ZeroSigs(n: nat): (sigs: seq<Bytes64>)
    ensures |sigs| == n
  {
    seq(n, _ => Zeros(64))
  }

  lemma LowBitsFit(k: nat)
    requires k <= 16
    ensures Pow2(k) - 1 < 0x1_0000
  {
    Pow2Of16();
    Pow2Grows(k, 16);
  }

  lemma {:induction false} Pow2Grows(k: nat, n: nat)
    requires k <= n
    ensures Pow2(k) <= Pow2(n)
    decreases n
  {
    if k < n { Pow2Grows(k, n - 1); }
  }

  /** A part for a decision, with a signature in the place of each of the first keys an authority needs. */
  function PartFor(a: Authority, d: Decision): (s: Signed)
    requires SigsRequired(a) <= 16
    ensures DecisionOf(s) == d
  {
    LowBitsFit(SigsRequired(a));
    Signed(d.terminal, d.seq_, d.valueHash, if a.One? then 0 else Pow2(SigsRequired(a)) - 1, ZeroSigs(SigsRequired(a)))
  }

  lemma PartForOk(c: Crypto, a: Authority, d: Decision)
    requires AuthorityOk(c, a)
    ensures SignedOk(a, PartFor(a, d))
  {
    hide KeysOk, ZeroSigs, CountOnes, And, Pow2;
    if a.Quorum? {
      LowBitsFit(a.k);
      OnesCount(a.k);
      Pow2Grows(a.k, |a.keys|);
      MaskFindsStrayBits(Pow2(a.k) - 1, |a.keys|);
    }
  }

  /** EXACTLY the authorities whose tails always read back: those that need at most 15 signatures. */
  lemma ClosureExact(c: Crypto, a: Authority)
    requires AuthorityOk(c, a)
    ensures (forall t :: TailOk(a, t) ==> ParseUnverified(a, EncodeTail(a, t)) == Some(Some(t))) <==> SigsRequired(a) <= 15
  {
    SignedPartFits(c, a);
    hide ParseUnverified, EncodeTail, EncodeBody;
    forall t | TailOk(a, t) && SigsRequired(a) <= 15 ensures ParseUnverified(a, EncodeTail(a, t)) == Some(Some(t)) {
      EncodedSize(a, t);
      ReadsBack(a, t);
    }
    if SigsRequired(a) > 15 {
      assert SigsRequired(a) == 16;
      var s := PartFor(a, Decision(false, 1, Zeros(32)));
      PartForOk(c, a, Decision(false, 1, Zeros(32)));
      SignedSixteen(a);
      FullSizes();
      FullApplies();
      EmptyIsLegal();
      ApplyIsLegal(EMPTY, FullOps(), 1, 0);
      ReadsBack(a, Tail(s, FullBody()));
    }
  }

  lemma SignedSixteen(a: Authority)
    requires SigsRequired(a) == 16
    ensures SignedLen(a) == 1067
  {
  }

  /** The writer's own delta, on the record it was made for, is applied. */
  lemma DeltaApplies(c: Crypto, p: Params, held: Option<Tail>, s: Signed, ops: seq<Op>, body: Body)
    requires OpsOk(ops) && SignedOk(p.authority, s) && s.seq_ == SeqOf(held) + 1
    requires Apply(BodyOf(held), ops, s.seq_) == Some(body) && VerifyTail(c, p, Tail(s, body))
    ensures Absorb(c, p, held, EncodeDelta(p.authority, s, ops)) == Some(Tail(s, body))
  {
    hide EncodeOps, ParseOps, Apply, OpsOk, ReadPart, VerifySigned, PutSigned, SignedOk, BodyHash;
    var d := EncodeDelta(p.authority, s, ops);
    TakeFront(DELTA_MAGIC, PutSigned(p.authority, s, []) + EncodeOps(ops));
    ReadPartFront(p.authority, s, EncodeOps(ops));
    OpsExact(EncodeOps(ops), ops);
  }

  // ------------------------------------------------------------------------ safety

  /** The signed part a candidate carries: states and deltas have it in one place. */
  function Carried(a: Authority, cand: bytes): Option<Signed> {
    var (magic, r1) :- Take(cand, 4);
    var (signed, r2) :- ReadPart(a, r1);
    Some(signed)
  }

  /** The decision names a record of the log and the hash of the body the log has there. */
  predicate OverLog(c: Crypto, log: Log, d: Decision) {
    && !d.terminal && 1 <= d.seq_ <= |log| && BodyAfter(log[..d.seq_]).Some?
    && d.valueHash == BodyHash(c, BodyAfter(log[..d.seq_]).value)
  }

  /** If the part a candidate carries is one a tail can hold and its signatures verify, the writer signed it over the
      log. */
  ghost predicate WriterSigned(c: Crypto, p: Params, log: Log, cand: bytes) {
    var s := Carried(p.authority, cand);
    s.Some? && !s.value.terminal && s.value.seq_ >= 1 && VerifySigned(c, p, s.value) ==> OverLog(c, log, DecisionOf(s.value))
  }

  /** The writer made this log, and signed one body per seq: every signed part that arrives and verifies is over it. */
  ghost predicate OneBodyPerSeq(c: Crypto, p: Params, log: Log, cands: seq<bytes>) {
    BodyAfter(log).Some? && forall b :: b in cands ==> WriterSigned(c, p, log, b)
  }

  /** No two bodies in play share a hash. */
  ghost predicate NoBodyCollision(c: Crypto, play: set<Body>) {
    forall x, y :: x in play && y in play && BodyHash(c, x) == BodyHash(c, y) ==> x == y
  }

  /** The bodies in play: the log's own, the one a whole state carries, and what a delta would make of the log's. */
  ghost predicate LogInPlay(log: Log, play: set<Body>) {
    forall i: nat :: i <= |log| ==> BodyAfter(log[..i]).Some? ==> BodyAfter(log[..i]).value in play
  }

  ghost predicate CandidateInPlay(a: Authority, log: Log, cand: bytes, play: set<Body>) {
    && (var x := ParseUnverified(a, cand); x.Some? && x.value.Some? ==> x.value.value.body in play)
    && (forall i: nat :: i <= |log| ==> DeltaOutcome(a, BodyAfter(log[..i]), cand).Some? ==>
          DeltaOutcome(a, BodyAfter(log[..i]), cand).value in play)
  }

  /** The body a delta's operations would make of `base`, at the seq the delta names. */
  ghost function DeltaOutcome(a: Authority, base: Option<Body>, cand: bytes): Option<Body> {
    var (magic, r1) :- Take(cand, 4);
    if magic != DELTA_MAGIC then None else
    var (signed, r2) :- ReadPart(a, r1);
    var ops :- ParseOps(r2);
    var b :- base;
    Apply(b, ops, signed.seq_)
  }

  /** Empty, or the writer's own body at that seq. */
  ghost predicate Follows(log: Log, h: Option<Tail>) {
    h.Some? ==> 1 <= h.value.signed.seq_ <= |log| && Some(h.value.body) == BodyAfter(log[..h.value.signed.seq_])
  }

  /** What is taken from a candidate is the part it carries, and its signatures verified. */
  lemma TakenIsCarried(c: Crypto, p: Params, held: Option<Tail>, cand: bytes)
    requires Absorb(c, p, held, cand) != held
    ensures var r := Absorb(c, p, held, cand);
            && r.Some? && Carried(p.authority, cand) == Some(r.value.signed)
            && SignedOk(p.authority, r.value.signed) && VerifySigned(c, p, r.value.signed)
            && !r.value.signed.terminal && r.value.signed.seq_ >= 1 && r.value.signed.valueHash == BodyHash(c, r.value.body)
  {
    hide ReadPart, VerifySigned, Apply, ParseOps, BodyHash, ParseBody, SignedOk, Outranks;
    ReadPartGives(p.authority, Take(cand, 4).value.1);
  }

  /** EXACTLY when a host that takes something stays on the log: when the part it takes was signed over the log. */
  lemma StepExact(c: Crypto, p: Params, log: Log, play: set<Body>, held: Option<Tail>, cand: bytes)
    requires NoBodyCollision(c, play) && LogInPlay(log, play)
    requires CandidateInPlay(p.authority, log, cand, play) && Follows(log, held)
    requires Absorb(c, p, held, cand) != held
    ensures var r := Absorb(c, p, held, cand); r.Some? && (Follows(log, r) <==> OverLog(c, log, DecisionOf(r.value.signed)))
  {
    TakenIsCarried(c, p, held, cand);
    hide ReadPart, VerifySigned, Apply, ParseOps, ParseUnverified, BodyHash, BodyAfter, Outranks;
    var r := Absorb(c, p, held, cand);
    var s := r.value.signed;
    if OverLog(c, log, DecisionOf(s)) {
      assert BodyAfter(log[..s.seq_]).value in play;
      if IsDelta(cand) {
        StartOfLog(log);
        assert Some(BodyOf(held)) == BodyAfter(log[..SeqOf(held)]);
        assert DeltaOutcome(p.authority, BodyAfter(log[..SeqOf(held)]), cand) == Some(r.value.body);
      }
      assert r.value.body in play;
    }
  }

  lemma SafeStep(c: Crypto, p: Params, log: Log, play: set<Body>, held: Option<Tail>, cand: bytes)
    requires WriterSigned(c, p, log, cand) && NoBodyCollision(c, play) && LogInPlay(log, play)
    requires CandidateInPlay(p.authority, log, cand, play) && Follows(log, held)
    ensures Follows(log, Absorb(c, p, held, cand))
  {
    hide ReadPart, VerifySigned, NoBodyCollision, LogInPlay, CandidateInPlay, Follows, Absorb, Carried, OverLog;
    if Absorb(c, p, held, cand) != held {
      TakenIsCarried(c, p, held, cand);
      StepExact(c, p, log, play, held, cand);
    }
  }

  lemma StartOfLog(log: Log)
    ensures BodyAfter(log[..0]) == Some(EMPTY)
  {
    assert log[..0] == [];
  }

  /** Safety over every run: whatever bytes reach a host, from anyone, in any order, its tail is empty or the writer's
      own body at its seq. */
  lemma {:induction false} SafeRun(c: Crypto, p: Params, log: Log, play: set<Body>, held: Option<Tail>, cands: seq<bytes>)
    requires OneBodyPerSeq(c, p, log, cands) && NoBodyCollision(c, play) && LogInPlay(log, play)
    requires forall b :: b in cands ==> CandidateInPlay(p.authority, log, b, play)
    requires Follows(log, held)
    ensures Follows(log, AbsorbAll(c, p, held, cands))
    decreases |cands|
  {
    hide WriterSigned, NoBodyCollision, LogInPlay, CandidateInPlay, Follows, Absorb;
    if cands != [] {
      assert cands[0] in cands;
      SafeStep(c, p, log, play, held, cands[0]);
      SafeRun(c, p, log, play, Absorb(c, p, held, cands[0]), cands[1..]);
    }
  }

  /** What a reader of any host sees: the tail laid over the tree at `through` is the writer's log replayed up to the
      seq the host holds, key by key. */
  lemma HostReadsTheLog(c: Crypto, p: Params, log: Log, play: set<Body>, cands: seq<bytes>, key: bytes)
    requires OneBodyPerSeq(c, p, log, cands) && NoBodyCollision(c, play) && LogInPlay(log, play)
    requires forall b :: b in cands ==> CandidateInPlay(p.authority, log, b, play)
    ensures var r := AbsorbAll(c, p, None, cands);
            && SeqOf(r) <= |log| && BodyOf(r).through <= SeqOf(r)
            && Overlay(BodyOf(r), Replay(log, BodyOf(r).through, key), key) == Replay(log, SeqOf(r), key)
  {
    var r := AbsorbAll(c, p, None, cands);
    SafeRun(c, p, log, play, None, cands);
    StartOfLog(log);
    hide AbsorbAll, NoBodyCollision, LogInPlay, CandidateInPlay, BodyAfter, Overlay, Replay, OneBodyPerSeq;
    var so := log[..SeqOf(r)];
    assert BodyAfter(so) == Some(BodyOf(r));
    OverlayIsReplay(so, key);
    ReplayOfPrefix(log, SeqOf(r), BodyOf(r).through, key);
    ReplayOfPrefix(log, SeqOf(r), SeqOf(r), key);
  }

  lemma ReplayOfPrefix(log: Log, n: nat, m: nat, key: bytes)
    requires m <= n <= |log|
    ensures Replay(log[..n], m, key) == Replay(log, m, key)
  {
    assert log[..n][..m] == log[..m];
  }

  // --------------------------------------------------------------- progress, agreement

  /** What the writer publishes: a verifying signature over the body at every seq, each delta encodable. */
  ghost predicate Published(c: Crypto, p: Params, log: Log, signed: seq<Signed>) {
    && BodyAfter(log).Some? && |signed| == |log|
    && forall i :: 0 <= i < |log| ==>
         && OpsOk(log[i]) && SignedOk(p.authority, signed[i]) && signed[i].seq_ == i + 1
         && BodyAfter(log[..i + 1]).Some? && VerifyTail(c, p, Tail(signed[i], BodyAfter(log[..i + 1]).value))
  }

  function DeltaBytes(a: Authority, log: Log, signed: seq<Signed>, from: nat): seq<bytes>
    requires |signed| == |log| && from <= |log|
    decreases |log| - from
  {
    if from == |log| then [] else [EncodeDelta(a, signed[from], log[from])] + DeltaBytes(a, log, signed, from + 1)
  }

  lemma LogStep(log: Log, i: nat)
    requires i < |log| && BodyAfter(log[..i + 1]).Some?
    ensures i + 1 < 0x1_0000_0000_0000_0000 && BodyAfter(log[..i]).Some?
    ensures Apply(BodyAfter(log[..i]).value, log[i], i + 1) == BodyAfter(log[..i + 1])
  {
    var l := log[..i + 1];
    assert l[..i] == log[..i] && l[i] == log[i];
    hide Apply;
  }

  /** The writer's next delta is taken by any host that follows the log. */
  lemma NextDelta(c: Crypto, p: Params, log: Log, signed: seq<Signed>, held: Option<Tail>)
    requires Published(c, p, log, signed) && Follows(log, held) && SeqOf(held) < |log|
    ensures var i := SeqOf(held);
            var r := Absorb(c, p, held, EncodeDelta(p.authority, signed[i], log[i]));
            SeqOf(r) == i + 1 && Follows(log, r)
  {
    hide Apply, OpsOk, SignedOk, BodyAfter, EncodeDelta, Absorb, VerifyTail;
    var i := SeqOf(held);
    StartOfLog(log);
    assert OpsOk(log[i]) && SignedOk(p.authority, signed[i]);
    LogStep(log, i);
    var body := BodyAfter(log[..i + 1]).value;
    DeltaApplies(c, p, held, signed[i], log[i], body);
  }

  lemma AbsorbCons(c: Crypto, p: Params, held: Option<Tail>, b: bytes, rest: seq<bytes>)
    ensures AbsorbAll(c, p, held, [b] + rest) == AbsorbAll(c, p, Absorb(c, p, held, b), rest)
  {
    assert ([b] + rest)[1..] == rest;
  }

  lemma {:induction false} DeltasFrom(c: Crypto, p: Params, log: Log, signed: seq<Signed>, held: Option<Tail>, from: nat)
    requires Published(c, p, log, signed) && Follows(log, held) && SeqOf(held) == from <= |log| == |signed|
    ensures var r := AbsorbAll(c, p, held, DeltaBytes(p.authority, log, signed, from)); SeqOf(r) == |log| && Follows(log, r)
    decreases |log| - from
  {
    hide Published, EncodeDelta, Absorb, Follows;
    if from < |log| {
      var d := EncodeDelta(p.authority, signed[from], log[from]);
      NextDelta(c, p, log, signed, held);
      AbsorbCons(c, p, held, d, DeltaBytes(p.authority, log, signed, from + 1));
      DeltasFrom(c, p, log, signed, Absorb(c, p, held, d), from + 1);
    }
  }

  /** Progress: a host that gets the writer's deltas in order holds the writer's newest body. */
  lemma DeltasInOrder(c: Crypto, p: Params, log: Log, signed: seq<Signed>, held: Option<Tail>)
    requires Published(c, p, log, signed) && Follows(log, held)
    ensures var r := AbsorbAll(c, p, held, DeltaBytes(p.authority, log, signed, SeqOf(held)));
            SeqOf(r) == |log| && Some(BodyOf(r)) == BodyAfter(log)
  {
    DeltasFrom(c, p, log, signed, held, SeqOf(held));
    StartOfLog(log);
    hide BodyAfter, AbsorbAll;
    assert log[..|log|] == log;
  }

  lemma {:induction false} AbsorbAllAppend(c: Crypto, p: Params, held: Option<Tail>, x: seq<bytes>, y: seq<bytes>)
    ensures AbsorbAll(c, p, held, x + y) == AbsorbAll(c, p, AbsorbAll(c, p, held, x), y)
    decreases |x|
  {
    hide Absorb;
    if x == [] {
      assert x + y == y;
    } else {
      assert (x + y)[1..] == x[1..] + y;
      AbsorbAllAppend(c, p, Absorb(c, p, held, x[0]), x[1..], y);
    }
  }

  /** Rank never falls, over any run. */
  lemma {:induction false} RunNeverFalls(c: Crypto, p: Params, held: Option<Tail>, cands: seq<bytes>)
    requires Valid(c, p, held)
    ensures var r := AbsorbAll(c, p, held, cands);
            && Valid(c, p, r) && SeqOf(r) >= SeqOf(held)
            && (r == held || (r.Some? && Above(r.value, held)))
    decreases |cands|
  {
    if cands != [] {
      var next := Absorb(c, p, held, cands[0]);
      AbsorbKeepsValid(c, p, held, cands[0]);
      RunNeverFalls(c, p, next, cands[1..]);
      var r := AbsorbAll(c, p, next, cands[1..]);
      if held.Some? && next != held && r != next {
        OutranksTransitive(DecisionOf(r.value.signed), DecisionOf(next.value.signed), DecisionOf(held.value.signed));
      }
    }
  }

  /** A valid whole state that fits is taken up: whatever is held, the result ranks no lower. */
  lemma StateIsAbsorbed(c: Crypto, p: Params, held: Option<Tail>, t: Tail)
    requires Valid(c, p, held) && Valid(c, p, Some(t)) && |EncodeTail(p.authority, t)| <= MAX_STATE
    ensures var r := Absorb(c, p, held, EncodeTail(p.authority, t));
            && r == (if Above(t, held) then Some(t) else held)
            && SeqOf(r) >= t.signed.seq_
  {
    var b := EncodeTail(p.authority, t);
    assert b[1] == 76;
    ParseExact(p.authority, b, Some(t));
  }

  /** The candidate is a whole state that is valid. */
  ghost predicate Offers(c: Crypto, p: Params, cand: bytes, t: Tail) {
    !IsDelta(cand) && ParseUnverified(p.authority, cand) == Some(Some(t)) && VerifyTail(c, p, t)
  }

  /** Merging whole states keeps the highest decision offered, even when the writer forked. */
  lemma {:induction false} StatesKeepTheBest(c: Crypto, p: Params, held: Option<Tail>, cands: seq<bytes>)
    requires forall b :: b in cands ==> !IsDelta(b)
    ensures var r := AbsorbAll(c, p, held, cands);
            && (r != held ==> exists b :: b in cands && r.Some? && Offers(c, p, b, r.value))
            && (held.Some? ==> r.Some? && !Outranks(DecisionOf(held.value.signed), DecisionOf(r.value.signed)))
            && (forall b, t :: b in cands && Offers(c, p, b, t) ==>
                  r.Some? && !Outranks(DecisionOf(t.signed), DecisionOf(r.value.signed)))
    decreases |cands|
  {
    hide ParseUnverified, VerifyTail, IsDelta, DecisionOf, Outranks;
    if held.Some? { OutranksTotal(DecisionOf(held.value.signed), DecisionOf(held.value.signed)); }
    if cands != [] {
      var b := cands[0];
      assert b in cands;
      var next := Absorb(c, p, held, b);
      StatesKeepTheBest(c, p, next, cands[1..]);
      var r := AbsorbAll(c, p, next, cands[1..]);
      assert cands == [b] + cands[1..];
      if next.Some? { StaysBelow(c, p, held, b, next, r); }
    }
  }

  lemma StaysBelow(c: Crypto, p: Params, held: Option<Tail>, b: bytes, next: Option<Tail>, r: Option<Tail>)
    requires !IsDelta(b) && next == Absorb(c, p, held, b) && next.Some? && r.Some?
    requires !Outranks(DecisionOf(next.value.signed), DecisionOf(r.value.signed))
    ensures held.Some? ==> !Outranks(DecisionOf(held.value.signed), DecisionOf(r.value.signed))
    ensures forall t :: Offers(c, p, b, t) ==> !Outranks(DecisionOf(t.signed), DecisionOf(r.value.signed))
  {
    hide ParseUnverified, VerifyTail, IsDelta, DecisionOf, Outranks;
    var dn, dr := DecisionOf(next.value.signed), DecisionOf(r.value.signed);
    OutranksTotal(dn, dr);
    if held.Some? {
      var dh := DecisionOf(held.value.signed);
      OutranksTotal(dn, dh);
      BelowTransitive(dh, dn, dr);
    }
    forall t | Offers(c, p, b, t) ensures !Outranks(DecisionOf(t.signed), dr) {
      OutranksTotal(DecisionOf(t.signed), dn);
      BelowTransitive(DecisionOf(t.signed), dn, dr);
    }
  }

  lemma BelowTransitive(d: Decision, e: Decision, f: Decision)
    requires !Outranks(d, e) && !Outranks(e, f)
    ensures !Outranks(d, f)
  {
    hide Outranks;
    OutranksTotal(d, e);
    OutranksTotal(e, f);
    OutranksTotal(d, f);
    if Outranks(f, e) && Outranks(e, d) { OutranksTransitive(f, e, d); }
  }

  /** So the same whole states, in any order and any number, leave one decision. */
  lemma StatesCommute(c: Crypto, p: Params, xs: seq<bytes>, ys: seq<bytes>)
    requires forall b :: b in xs ==> !IsDelta(b)
    requires forall b :: b in xs <==> b in ys
    ensures SummaryOf(AbsorbAll(c, p, None, xs)) == SummaryOf(AbsorbAll(c, p, None, ys))
  {
    StatesKeepTheBest(c, p, None, xs);
    StatesKeepTheBest(c, p, None, ys);
    var x, y := AbsorbAll(c, p, None, xs), AbsorbAll(c, p, None, ys);
    hide AbsorbAll, Outranks, Offers;
    if x.Some? && y.Some? { OutranksTotal(DecisionOf(x.value.signed), DecisionOf(y.value.signed)); }
  }

  /** Once the newest state has reached a host, nothing that arrived before or arrives after it matters: every such
      host holds the writer's newest body. */
  lemma NewestStateWins(c: Crypto, p: Params, log: Log, play: set<Body>, newest: Tail, before: seq<bytes>, after: seq<bytes>)
    requires OneBodyPerSeq(c, p, log, before + [EncodeTail(p.authority, newest)] + after)
    requires NoBodyCollision(c, play) && LogInPlay(log, play)
    requires forall b :: b in before + [EncodeTail(p.authority, newest)] + after ==> CandidateInPlay(p.authority, log, b, play)
    requires Valid(c, p, Some(newest)) && newest.signed.seq_ == |log|
    requires |EncodeTail(p.authority, newest)| <= MAX_STATE
    ensures var r := AbsorbAll(c, p, None, before + [EncodeTail(p.authority, newest)] + after);
            SeqOf(r) == |log| && Some(BodyOf(r)) == BodyAfter(log)
  {
    var b := EncodeTail(p.authority, newest);
    var h1 := AbsorbAll(c, p, None, before);
    SafeRun(c, p, log, play, None, before + [b] + after);
    AbsorbAllAppend(c, p, None, before + [b], after);
    AbsorbAllAppend(c, p, None, before, [b]);
    var one: seq<bytes> := [b];
    assert AbsorbAll(c, p, h1, one) == Absorb(c, p, h1, b) by { assert one[1..] == []; }
    hide OneBodyPerSeq, NoBodyCollision, LogInPlay, CandidateInPlay, BodyAfter, Absorb, AbsorbAll, EncodeTail, Valid;
    RunNeverFalls(c, p, None, before);
    StateIsAbsorbed(c, p, h1, newest);
    AbsorbKeepsValid(c, p, h1, b);
    RunNeverFalls(c, p, Absorb(c, p, h1, b), after);
    StartOfLog(log);
    assert log[..|log|] == log;
  }

  // --------------------------------------------------------------------- summaries

  /** Eight bytes of seq and the hash of the body; no bytes before the first write. */
  function SummaryOf(h: Option<Tail>): bytes {
    if h.None? then [] else LE(h.value.signed.seq_, 8) + h.value.signed.valueHash
  }

  /** The state a peer is sent: nothing if its summary is this one's. */
  function DeltaFor(a: Authority, h: Option<Tail>, summary: bytes): bytes {
    if summary == SummaryOf(h) then [] else Encode(a, h)
  }

  /** Two hosts report one summary exactly when they hold one decision, whoever signed it. */
  lemma SummaryExact(c: Crypto, p: Params, x: Option<Tail>, y: Option<Tail>)
    requires Valid(c, p, x) && Valid(c, p, y)
    ensures SummaryOf(x) == SummaryOf(y) <==>
            (x.None? && y.None?) || (x.Some? && y.Some? && DecisionOf(x.value.signed) == DecisionOf(y.value.signed))
  {
    hide LE, UnLE, VerifySigned, TailOk, BodyHash;
    if x.Some? && y.Some? && SummaryOf(x) == SummaryOf(y) {
      var s, t := x.value.signed, y.value.signed;
      assert LE(s.seq_, 8) == SummaryOf(x)[..8] == SummaryOf(y)[..8] == LE(t.seq_, 8);
      assert s.valueHash == SummaryOf(x)[8..] == SummaryOf(y)[8..] == t.valueHash;
      PowValues();
      UnLEOfLE(s.seq_, 8);
      UnLEOfLE(t.seq_, 8);
    }
  }

  /** One round of sync either way round is the merge of the two: the higher decision of the pair. Nothing is sent exactly
      when there is nothing held, or the receiver holds the same decision. */
  lemma OneRoundSync(c: Crypto, p: Params, x: Option<Tail>, y: Option<Tail>)
    requires Valid(c, p, x) && Valid(c, p, y) && |Encode(p.authority, x)| <= MAX_STATE
    ensures var r := Absorb(c, p, y, DeltaFor(p.authority, x, SummaryOf(y)));
            r == if x.Some? && Above(x.value, y) then x else y
    ensures DeltaFor(p.authority, x, SummaryOf(y)) == [] <==>
            x.None? || (y.Some? && DecisionOf(x.value.signed) == DecisionOf(y.value.signed))
  {
    SummaryExact(c, p, x, y);
    hide EncodeTail, TailOk, VerifySigned, BodyHash;
    if x.Some? && y.Some? { OutranksTotal(DecisionOf(x.value.signed), DecisionOf(y.value.signed)); }
    if x.Some? && SummaryOf(x) != SummaryOf(y) { StateIsAbsorbed(c, p, y, x.value); }
  }

  // ----------------------------------------------------------------- the update door

  method UpdateState(c: Crypto, p: Params, state: bytes, data: seq<UpdateData>) returns (r: Option<bytes>)
    ensures r.Some? <==> ParseUnverified(p.authority, state).Some?
    ensures r.Some? ==> r.value == Encode(p.authority,
      AbsorbAll(c, p, ParseUnverified(p.authority, state).value, Candidates(data)))
  {
    hide ParseUnverified, Absorb, Encode;
    var parsed := ParseUnverified(p.authority, state);
    if parsed.None? { return None; }
    var held := parsed.value;
    var i := 0;
    while i < |data|
      invariant 0 <= i <= |data|
      invariant AbsorbAll(c, p, held, Candidates(data[i..])) == AbsorbAll(c, p, parsed.value, Candidates(data))
    {
      assert data[i..][1..] == data[i + 1..];
      AbsorbAllAppend(c, p, held, CandidatesOf(data[i]), Candidates(data[i + 1..]));
      held := AbsorbItem(c, p, held, CandidatesOf(data[i]));
      i := i + 1;
    }
    return Some(Encode(p.authority, held));
  }

  method AbsorbItem(c: Crypto, p: Params, held: Option<Tail>, cands: seq<bytes>) returns (r: Option<Tail>)
    ensures r == AbsorbAll(c, p, held, cands)
  {
    hide Absorb;
    r := held;
    for i := 0 to |cands|
      invariant AbsorbAll(c, p, r, cands[i..]) == AbsorbAll(c, p, held, cands)
    {
      assert cands[i..][1..] == cands[i + 1..];
      r := Absorb(c, p, r, cands[i]);
    }
  }
}
