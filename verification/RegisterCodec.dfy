/** Records, evidence and whole Register states as bytes (register/src/wire.rs). */
module RegisterCodec {
  import opened Options
  import opened Bytes
  import opened Crypto
  import opened Bits
  import opened RegisterWire

  // ---------------------------------------------------------------- signature blocks

  function PutSigs(sigs: seq<Bytes64>, rest: bytes): bytes {
    if sigs == [] then rest else sigs[0] + PutSigs(sigs[1..], rest)
  }

  function ReadSigs(b: bytes, n: nat): Option<(seq<Bytes64>, bytes)>
    decreases n
  {
    if n == 0 then Some(([], b)) else
    var (s, r1) :- Take(b, 64);
    var (ss, r2) :- ReadSigs(r1, n - 1);
    Some(([s] + ss, r2))
  }

  lemma {:induction false} ReadSigsFront(sigs: seq<Bytes64>, rest: bytes)
    ensures ReadSigs(PutSigs(sigs, rest), |sigs|) == Some((sigs, rest))
    decreases |sigs|
  {
    if sigs != [] {
      ReadSigsFront(sigs[1..], rest);
      TakeFront(sigs[0], PutSigs(sigs[1..], rest));
      assert sigs == [sigs[0]] + sigs[1..];
    }
  }

  lemma {:induction false} ReadSigsGives(b: bytes, n: nat)
    requires ReadSigs(b, n).Some?
    ensures var (sigs, rest) := ReadSigs(b, n).value; |sigs| == n && b == PutSigs(sigs, rest)
    decreases n
  {
    if n > 0 {
      var r1 := Take(b, 64).value.1;
      ReadSigsGives(r1, n - 1);
      var sigs := ReadSigs(b, n).value.0;
      assert sigs[1..] == ReadSigs(r1, n - 1).value.0;
    }
  }

  /** Bitmap (mode 1 only), then exactly the required signatures. */
  function PutBlock(a: Authority, bitmap: u16, sigs: seq<Bytes64>, rest: bytes): bytes {
    if a.One? then PutSigs(sigs, rest) else LE(bitmap, 2) + PutSigs(sigs, rest)
  }

  function ReadBlock(a: Authority, b: bytes): Option<(u16, seq<Bytes64>, bytes)> {
    var (bitmap, r1) :- (if a.One? then Some((0, b)) else ReadU16(b));
    var (sigs, r2) :- ReadSigs(r1, SigsRequired(a));
    if SigsOk(a, bitmap, sigs) then Some((bitmap, sigs, r2)) else None
  }

  lemma ReadBlockFront(a: Authority, bitmap: u16, sigs: seq<Bytes64>, rest: bytes)
    requires SigsOk(a, bitmap, sigs)
    ensures ReadBlock(a, PutBlock(a, bitmap, sigs, rest)) == Some((bitmap, sigs, rest))
  {
    ReadSigsFront(sigs, rest);
    ReadU16Front(bitmap, PutSigs(sigs, rest));
  }

  lemma ReadBlockGives(a: Authority, b: bytes)
    requires ReadBlock(a, b).Some?
    ensures var (bitmap, sigs, rest) := ReadBlock(a, b).value;
            SigsOk(a, bitmap, sigs) && b == PutBlock(a, bitmap, sigs, rest)
  {
    hide SigsOk;
    if a.One? { ReadSigsGives(b, 1); } else { ReadSigsGives(ReadU16(b).value.1, a.k); }
  }

  // ------------------------------------------------------------------- signed parts

  function BoolByte(b: bool): byte {
    if b then 1 else 0
  }

  /** Accepting 2 to 255 would give true 255 encodings. */
  function ReadBool(b: bytes): Option<(bool, bytes)> {
    var (x, rest) :- ReadByte(b);
    if x > 1 then None else Some((x == 1, rest))
  }

  predicate SignedOk(a: Authority, s: Signed) {
    SigsOk(a, s.bitmap, s.sigs)
  }

  function PutSigned(a: Authority, s: Signed, rest: bytes): bytes {
    [BoolByte(s.terminal)] + (LE(s.seq_, 8) + (s.valueHash + PutBlock(a, s.bitmap, s.sigs, rest)))
  }

  function ReadSigned(a: Authority, b: bytes): Option<(Signed, bytes)> {
    var (terminal, r1) :- ReadBool(b);
    var (sq, r2) :- ReadU64(r1);
    var (vh, r3) :- Take(r2, 32);
    var (bitmap, sigs, r4) :- ReadBlock(a, r3);
    Some((Signed(terminal, sq, vh, bitmap, sigs), r4))
  }

  lemma ReadSignedFront(a: Authority, s: Signed, rest: bytes)
    requires SignedOk(a, s)
    ensures ReadSigned(a, PutSigned(a, s, rest)) == Some((s, rest))
  {
    hide LE, PutBlock, ReadBlock, ReadU64;
    var t2 := PutBlock(a, s.bitmap, s.sigs, rest);
    var t1 := LE(s.seq_, 8) + (s.valueHash + t2);
    ReadByteFront(BoolByte(s.terminal), t1);
    ReadU64Front(s.seq_, s.valueHash + t2);
    TakeFront(s.valueHash, t2);
    ReadBlockFront(a, s.bitmap, s.sigs, rest);
  }

  lemma ReadSignedGives(a: Authority, b: bytes)
    requires ReadSigned(a, b).Some?
    ensures var (s, rest) := ReadSigned(a, b).value; SignedOk(a, s) && b == PutSigned(a, s, rest)
  {
    hide LE, PutBlock, ReadBlock;
    ReadBlockGives(a, Take(ReadU64(ReadBool(b).value.1).value.1, 32).value.1);
  }

  /** Encoded length of a signed part: the same for every signed part of one authority. */
  function SignedLen(a: Authority): nat {
    41 + BitmapLen(a) + SigsRequired(a) * 64
  }

  lemma {:induction false} SigsLength(sigs: seq<Bytes64>, rest: bytes)
    ensures |PutSigs(sigs, rest)| == 64 * |sigs| + |rest|
    decreases |sigs|
  {
    if sigs != [] { SigsLength(sigs[1..], rest); }
  }

  lemma SignedLength(a: Authority, s: Signed, rest: bytes)
    requires SignedOk(a, s)
    ensures |PutSigned(a, s, rest)| == SignedLen(a) + |rest|
  {
    SigsLength(s.sigs, rest);
  }

  // ------------------------------------------------------------------------ records

  datatype Record = Record(signed: Signed, value: bytes)

  predicate RecordOk(c: Crypto, a: Authority, r: Record) {
    && SignedOk(a, r.signed)
    && |r.value| <= MAX_VALUE
    && (r.signed.terminal ==> |r.value| == TERMINAL_VALUE_LEN)
    && r.signed.valueHash == c.hash(r.value)
  }

  /** Saturating, so that an over-cap value is refused rather than cut short. */
  function PutRecord(a: Authority, r: Record, rest: bytes): bytes {
    [BoolByte(r.signed.terminal)] + (LE(r.signed.seq_, 8) + (LE(Min(|r.value|, 0xFFFF), 2) + (r.value
      + PutBlock(a, r.signed.bitmap, r.signed.sigs, rest))))
  }

  /** What reads the same in a record whoever signs it: everything before the signatures. */
  function ReadPrefix(b: bytes): Option<(bool, u64, bytes, bytes)> {
    var (terminal, r1) :- ReadBool(b);
    var (sq, r2) :- ReadU64(r1);
    var (vlen, r3) :- ReadU16(r2);
    if vlen > MAX_VALUE || (terminal && vlen != TERMINAL_VALUE_LEN) then None else
    var (value, r4) :- Take(r3, vlen);
    Some((terminal, sq, value, r4))
  }

  function ReadRecord(c: Crypto, a: Authority, b: bytes): Option<(Record, bytes)> {
    var (terminal, sq, value, r1) :- ReadPrefix(b);
    var (bitmap, sigs, r2) :- ReadBlock(a, r1);
    Some((Record(Signed(terminal, sq, c.hash(value), bitmap, sigs), value), r2))
  }

  lemma ReadPrefixFront(terminal: bool, sq: u64, value: bytes, rest: bytes)
    requires |value| <= MAX_VALUE && (terminal ==> |value| == TERMINAL_VALUE_LEN)
    ensures ReadPrefix([BoolByte(terminal)] + (LE(sq, 8) + (LE(Min(|value|, 0xFFFF), 2) + (value + rest))))
         == Some((terminal, sq, value, rest))
  {
    hide LE, ReadU64, ReadU16;
    var t2 := LE(Min(|value|, 0xFFFF), 2) + (value + rest);
    ReadByteFront(BoolByte(terminal), LE(sq, 8) + t2);
    ReadU64Front(sq, t2);
    ReadU16Front(|value|, value + rest);
    TakeFront(value, rest);
  }

  lemma ReadRecordFront(c: Crypto, a: Authority, r: Record, rest: bytes)
    requires RecordOk(c, a, r)
    ensures ReadRecord(c, a, PutRecord(a, r, rest)) == Some((r, rest))
  {
    hide LE, ReadPrefix, PutBlock, ReadBlock;
    ReadPrefixFront(r.signed.terminal, r.signed.seq_, r.value, PutBlock(a, r.signed.bitmap, r.signed.sigs, rest));
    ReadBlockFront(a, r.signed.bitmap, r.signed.sigs, rest);
  }

  lemma ReadPrefixGives(b: bytes)
    requires ReadPrefix(b).Some?
    ensures var (terminal, sq, value, rest) := ReadPrefix(b).value;
            && |value| <= MAX_VALUE && (terminal ==> |value| == TERMINAL_VALUE_LEN)
            && b == [BoolByte(terminal)] + (LE(sq, 8) + (LE(Min(|value|, 0xFFFF), 2) + (value + rest)))
  {
    hide LE;
  }

  lemma ReadRecordGives(c: Crypto, a: Authority, b: bytes)
    requires ReadRecord(c, a, b).Some?
    ensures var (r, rest) := ReadRecord(c, a, b).value; RecordOk(c, a, r) && b == PutRecord(a, r, rest)
  {
    hide LE, ReadPrefix, PutBlock, ReadBlock;
    ReadPrefixGives(b);
    ReadBlockGives(a, ReadPrefix(b).value.3);
  }

  lemma RecordLength(c: Crypto, a: Authority, r: Record, rest: bytes)
    requires RecordOk(c, a, r)
    ensures |PutRecord(a, r, rest)| == 11 + |r.value| + BitmapLen(a) + SigsRequired(a) * 64 + |rest|
  {
    SigsLength(r.signed.sigs, rest);
  }

  // ----------------------------------------------------------------------- evidence

  datatype Evidence = Evidence(a: Signed, b: Signed)

  /** Two parts that conflict, the one that does not outrank the other in front. */
  predicate EvidenceOk(a: Authority, e: Evidence) {
    && SignedOk(a, e.a) && SignedOk(a, e.b)
    && !Outranks(DecisionOf(e.a), DecisionOf(e.b))
    && Conflicts(DecisionOf(e.a), DecisionOf(e.b))
  }

  /** Evidence of a fork, if the two parts prove one. */
  function NewEvidence(x: Signed, y: Signed): Option<Evidence> {
    if !Conflicts(DecisionOf(x), DecisionOf(y)) then None
    else if !Outranks(DecisionOf(x), DecisionOf(y)) then Some(Evidence(x, y))
    else Some(Evidence(y, x))
  }

  function PutEvidence(a: Authority, e: Evidence): bytes {
    PutSigned(a, e.a, PutSigned(a, e.b, []))
  }

  /** Two signed parts of known length, and nothing after them. */
  function ReadEvidence(a: Authority, b: bytes): Option<Evidence> {
    var (x, r1) :- ReadSigned(a, b);
    var (y, r2) :- ReadSigned(a, r1);
    if r2 == [] && EvidenceOk(a, Evidence(x, y)) then Some(Evidence(x, y)) else None
  }

  // ------------------------------------------------------------------------- states

  datatype RegState = RegState(record: Option<Record>, evidence: Option<Evidence>)

  predicate StateOk(c: Crypto, a: Authority, s: RegState) {
    && (s.record.Some? ==> RecordOk(c, a, s.record.value))
    && (s.evidence.Some? ==> EvidenceOk(a, s.evidence.value))
  }

  predicate VerifyState(c: Crypto, p: Params, s: RegState) {
    && (s.record.Some? ==> VerifySigned(c, p, s.record.value.signed))
    && (s.evidence.Some? ==> VerifySigned(c, p, s.evidence.value.a) && VerifySigned(c, p, s.evidence.value.b))
  }

  /** What `validate_state` accepts. */
  predicate Valid(c: Crypto, p: Params, s: RegState) {
    StateOk(c, p.authority, s) && VerifyState(c, p, s)
  }

  function ProofBytes(a: Authority, e: Option<Evidence>): bytes {
    if e.Some? then PutEvidence(a, e.value) else []
  }

  /** A register that holds nothing is written as no bytes. */
  function Encode(a: Authority, s: RegState): bytes {
    if s.record.None? && s.evidence.None? then []
    else
      var flags := (if s.record.Some? then 1 else 0) + (if s.evidence.Some? then 2 else 0);
      var proof := ProofBytes(a, s.evidence);
      MAGIC + ([flags] + if s.record.Some? then PutRecord(a, s.record.value, proof) else proof)
  }

  function ReadRecordIf(c: Crypto, a: Authority, b: bytes, flagged: bool): Option<(Option<Record>, bytes)> {
    if !flagged then Some((None, b)) else
    var (r, rest) :- ReadRecord(c, a, b);
    Some((Some(r), rest))
  }

  function ReadEvidenceIf(a: Authority, b: bytes, flagged: bool): Option<Option<Evidence>> {
    if !flagged then (if b == [] then Some(None) else None) else
    var e :- ReadEvidence(a, b);
    Some(Some(e))
  }

  /** Structure only. */
  function ParseUnverified(c: Crypto, p: Params, b: bytes): Option<RegState> {
    if b == [] then Some(RegState(None, None)) else
    var (magic, r1) :- Take(b, 4);
    if magic != MAGIC then None else
    var (flags, r2) :- ReadByte(r1);
    if flags == 0 || flags > 3 then None else
    var (record, r3) :- ReadRecordIf(c, p.authority, r2, flags % 2 == 1);
    var evidence :- ReadEvidenceIf(p.authority, r3, flags / 2 == 1);
    Some(RegState(record, evidence))
  }

  function Parse(c: Crypto, p: Params, b: bytes): Option<RegState> {
    var s :- ParseUnverified(c, p, b);
    if VerifyState(c, p, s) then Some(s) else None
  }

  lemma EvidenceExact(a: Authority, b: bytes, e: Evidence)
    ensures ReadEvidence(a, b) == Some(e) <==> EvidenceOk(a, e) && b == PutEvidence(a, e)
  {
    hide PutSigned, ReadSigned, Outranks, Conflicts;
    if ReadEvidence(a, b) == Some(e) {
      ReadSignedGives(a, b);
      ReadSignedGives(a, ReadSigned(a, b).value.1);
    }
    if EvidenceOk(a, e) && b == PutEvidence(a, e) {
      ReadSignedFront(a, e.a, PutSigned(a, e.b, []));
      ReadSignedFront(a, e.b, []);
    }
  }

  lemma ParseOfEncode(c: Crypto, p: Params, s: RegState)
    requires StateOk(c, p.authority, s)
    ensures ParseUnverified(c, p, Encode(p.authority, s)) == Some(s)
  {
    hide PutRecord, ReadRecord, PutEvidence, ReadEvidence, RecordOk, EvidenceOk;
    var a := p.authority;
    var proof := ProofBytes(a, s.evidence);
    var body := if s.record.Some? then PutRecord(a, s.record.value, proof) else proof;
    var flags: byte := (if s.record.Some? then 1 else 0) + (if s.evidence.Some? then 2 else 0);
    if s.record.Some? { ReadRecordFront(c, a, s.record.value, proof); }
    if s.evidence.Some? { EvidenceExact(a, proof, s.evidence.value); }
    assert ReadRecordIf(c, a, body, s.record.Some?) == Some((s.record, proof));
    assert ReadEvidenceIf(a, proof, s.evidence.Some?) == Some(s.evidence);
    hide ReadRecordIf, ReadEvidenceIf, ProofBytes;
    TakeFront(MAGIC, [flags] + body);
    ReadByteFront(flags, body);
  }

  lemma ReadEvidenceIfGives(a: Authority, b: bytes, flagged: bool)
    requires ReadEvidenceIf(a, b, flagged).Some?
    ensures var e := ReadEvidenceIf(a, b, flagged).value;
            && (e.Some? <==> flagged) && (e.Some? ==> EvidenceOk(a, e.value)) && b == ProofBytes(a, e)
  {
    hide PutEvidence, ReadEvidence, EvidenceOk;
    if flagged { EvidenceExact(a, b, ReadEvidence(a, b).value); }
  }

  lemma ReadRecordIfGives(c: Crypto, a: Authority, b: bytes, flagged: bool)
    requires ReadRecordIf(c, a, b, flagged).Some?
    ensures var (r, rest) := ReadRecordIf(c, a, b, flagged).value;
            && (r.Some? <==> flagged) && (r.Some? ==> RecordOk(c, a, r.value))
            && b == if r.Some? then PutRecord(a, r.value, rest) else rest
  {
    hide PutRecord, ReadRecord, RecordOk;
    if flagged { ReadRecordGives(c, a, b); }
  }

  lemma EncodeOfParse(c: Crypto, p: Params, b: bytes)
    requires ParseUnverified(c, p, b).Some?
    ensures var s := ParseUnverified(c, p, b).value; StateOk(c, p.authority, s) && b == Encode(p.authority, s)
  {
    hide ReadRecordIf, ReadEvidenceIf, PutRecord, PutEvidence, RecordOk, EvidenceOk;
    if b != [] {
      var (flags, r2) := ReadByte(Take(b, 4).value.1).value;
      ReadRecordIfGives(c, p.authority, r2, flags % 2 == 1);
      ReadEvidenceIfGives(p.authority, ReadRecordIf(c, p.authority, r2, flags % 2 == 1).value.1, flags / 2 == 1);
    }
  }

  /** One encoding per state, for one key and for every k of n, with or without evidence. */
  lemma ParseExact(c: Crypto, p: Params, b: bytes, s: RegState)
    ensures ParseUnverified(c, p, b) == Some(s) <==> StateOk(c, p.authority, s) && b == Encode(p.authority, s)
    ensures Parse(c, p, b) == Some(s) <==> Valid(c, p, s) && b == Encode(p.authority, s)
  {
    hide ParseUnverified, StateOk, Encode, VerifyState;
    if ParseUnverified(c, p, b).Some? { EncodeOfParse(c, p, b); }
    if StateOk(c, p.authority, s) && b == Encode(p.authority, s) { ParseOfEncode(c, p, s); }
  }

  /** `record_head`: reads the record of a state without knowing its keys. */
  function RecordHead(b: bytes): Option<(bool, u64, bytes)> {
    var (magic, r1) :- Take(b, 4);
    if magic != MAGIC then None else
    var (flags, r2) :- ReadByte(r1);
    if flags % 2 == 0 || flags > 3 then None else
    var (terminal, sq, value, _) :- ReadPrefix(r2);
    Some((terminal, sq, value))
  }

  /** The params-free reader and the full parser agree on every byte string the parser accepts. */
  lemma RecordHeadAgrees(c: Crypto, p: Params, b: bytes)
    requires ParseUnverified(c, p, b).Some?
    ensures var s := ParseUnverified(c, p, b).value;
            RecordHead(b) == if s.record.None? then None
                             else Some((s.record.value.signed.terminal, s.record.value.signed.seq_, s.record.value.value))
  {
    hide ReadPrefix, ReadBlock, ReadEvidence;
  }

  const MAX_STATE := 65536

  /** The size guard never refuses a state: a full value, 16 of 16, and evidence stay below it. */
  lemma EncodeFits(c: Crypto, p: Params, s: RegState)
    requires AuthorityOk(c, p.authority) && StateOk(c, p.authority, s)
    ensures |Encode(p.authority, s)| <= MAX_STATE
  {
    var a := p.authority;
    var proof := ProofBytes(a, s.evidence);
    assert SigsRequired(a) <= 16;
    if s.evidence.Some? {
      SignedLength(a, s.evidence.value.b, []);
      SignedLength(a, s.evidence.value.a, PutSigned(a, s.evidence.value.b, []));
    }
    if s.record.Some? { RecordLength(c, a, s.record.value, proof); }
    hide PutSigned, PutRecord;
  }
}
