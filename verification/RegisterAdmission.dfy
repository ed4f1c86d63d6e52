/** What the states a Register accepts prove, said without the contract's own vocabulary: the bytes that are signed, the
    members that signed them, and what a record and a proof of a fork must say (register/src/wire.rs). */
module RegisterAdmission {
  import opened Options
  import opened Bytes
  import opened ByteOrder
  import opened Bits
  import opened Crypto
  import opened RegisterWire
  import opened RegisterCodec
  import opened RegisterMerge
  import opened RegisterGossip
  import opened RegisterHost
  import opened RegisterProofs

  // -------------------------------------------------------------------- authorities

  /** One usable key, or k of at most 16 usable keys in rising order. */
  predicate KeysProper(c: Crypto, a: Authority) {
    match a
    case One(key) => UnLE(key[31 := key[31] % 128]) < Pow2(255) - 19 && c.point(key)
    case Quorum(k, keys) =>
      && 1 <= k <= |keys| <= 16
      && (forall i :: 0 <= i < |keys| ==> UnLE(keys[i][31 := keys[i][31] % 128]) < Pow2(255) - 19 && c.point(keys[i]))
      && (forall i, j :: 0 <= i < j < |keys| ==> Num(keys[i]) < Num(keys[j]))
  }

  lemma KeyMeans(c: Crypto, key: Bytes32)
    ensures UsableKey(c, key) <==> UnLE(key[31 := key[31] % 128]) < Pow2(255) - 19 && c.point(key)
  {
    CanonicalKeyMeaning(key);
  }

  lemma RisingKeys(c: Crypto, keys: seq<Bytes32>)
    requires forall i :: 0 <= i < |keys| ==> UsableKey(c, keys[i])
    ensures KeysOk(c, keys) <==> forall i, j :: 0 <= i < j < |keys| ==> Num(keys[i]) < Num(keys[j])
  {
    hide UsableKey, Lex, Num;
    if KeysOk(c, keys) {
      forall i, j | 0 <= i < j < |keys| ensures Num(keys[i]) < Num(keys[j]) {
        SortedKeysDistinct(c, keys, i, j);
        LexIsNum(keys[i], keys[j]);
      }
    }
    if forall i, j :: 0 <= i < j < |keys| ==> Num(keys[i]) < Num(keys[j]) {
      forall i | 0 < i < |keys| ensures Lex(keys[i - 1], keys[i]) { LexIsNum(keys[i - 1], keys[i]); }
    }
  }

  lemma AuthorityExact(c: Crypto, a: Authority)
    ensures AuthorityOk(c, a) <==> KeysProper(c, a)
  {
    match a
    case One(key) => KeyMeans(c, key);
    case Quorum(k, keys) =>
      forall key: Bytes32 ensures UsableKey(c, key) <==> UnLE(key[31 := key[31] % 128]) < Pow2(255) - 19 && c.point(key) {
        KeyMeans(c, key);
      }
      hide UsableKey, UnLE, Pow2, Num;
      if forall i :: 0 <= i < |keys| ==> UsableKey(c, keys[i]) { RisingKeys(c, keys); }
  }

  // --------------------------------------------------------------------- signatures

  /** What a signature covers: the register, whether it ends it, the seq and the hash of the value. */
  function SignedBytes(p: Params, s: Signed): bytes {
    Ascii("RG01-sig") + (p.hash + ([if s.terminal then 1 else 0] + (LE(s.seq_, 8) + s.valueHash)))
  }

  /** A signature speaks for one register only, unless the hash collides on the two encodings. */
  lemma MessageNamesRegister(c: Crypto, p: Params, q: Params, d: Decision, e: Decision)
    requires ParamsOk(c, p) && ParamsOk(c, q) && HashInjective(c, {EncodeParams(p), EncodeParams(q)})
    ensures Message(p, d) == Message(q, e) <==> p == q && d == e
  {
    hide Message, EncodeParams, AuthorityOk;
    MessageNamesDecision(p, q, d, e);
    if p.hash == q.hash {
      assert EncodeParams(p) == EncodeParams(q);
      ParamsExact(c, EncodeParams(p), p);
      ParamsExact(c, EncodeParams(p), q);
    }
  }

  /** The shape of a signature block: for one key one signature; for k of n, k signatures and a bitmap that names k of the
      n keys and no other. */
  predicate BlockProper(a: Authority, bitmap: u16, sigs: seq<Bytes64>) {
    match a
    case One(_) => bitmap == 0 && |sigs| == 1
    case Quorum(k, keys) => bitmap < Pow2(|keys|) && |Indices(bitmap, |keys|, 0)| == k == |sigs|
  }

  lemma BlockExact(c: Crypto, a: Authority, bitmap: u16, sigs: seq<Bytes64>)
    requires AuthorityOk(c, a)
    ensures SigsOk(a, bitmap, sigs) <==> BlockProper(a, bitmap, sigs)
  {
    if a.Quorum? {
      MaskFindsStrayBits(bitmap, |a.keys|);
      hide And, CountOnes, Indices, Pow2, Allowed, KeysOk;
      if bitmap < Pow2(|a.keys|) { IndicesCount(bitmap, |a.keys|, 0); }
    }
  }

  /** The one key signed; or each key the bitmap names signed, its signature in its own place. */
  predicate EachSigned(c: Crypto, p: Params, s: Signed) {
    match p.authority
    case One(key) => |s.sigs| == 1 && c.verifies(key, SignedBytes(p, s), s.sigs[0])
    case Quorum(_, keys) =>
      var at := Indices(s.bitmap, |keys|, 0);
      && |at| == |s.sigs|
      && forall j :: 0 <= j < |at| ==> at[j] < |keys| && c.verifies(keys[at[j]], SignedBytes(p, s), s.sigs[j])
  }

  /** EXACTLY when a signed part verifies, whatever its shape. */
  lemma SignatureExact(c: Crypto, p: Params, s: Signed)
    ensures VerifySigned(c, p, s) <==> EachSigned(c, p, s)
  {
    MessageBytes(p, s);
    if p.authority.Quorum? {
      var keys := p.authority.keys;
      var at := Indices(s.bitmap, |keys|, 0);
      FlaggedAreIndices(keys, s.bitmap, 0);
      hide Indices, Message, SignedBytes, Flagged, KeysAt, Bit;
      assert SignersOf(p.authority, s.bitmap) == KeysAt(keys, at);
      KeysAtIndices(keys, s.bitmap);
    }
    hide Message, SignedBytes;
  }

  lemma MessageBytes(p: Params, s: Signed)
    ensures Message(p, DecisionOf(s)) == SignedBytes(p, s)
  {
    hide LE;
    assert SIG_DOMAIN == Ascii("RG01-sig");
  }

  lemma KeysAtIndices(keys: seq<Bytes32>, bitmap: nat)
    ensures var at := Indices(bitmap, |keys|, 0);
            |KeysAt(keys, at)| == |at| && forall j :: 0 <= j < |at| ==> at[j] < |keys| && KeysAt(keys, at)[j] == keys[at[j]]
  {
    hide Indices, Bit;
    var at := Indices(bitmap, |keys|, 0);
    if at == [] { NoKeysAt(keys); } else { KeyAt(keys, at, 0); }
    forall j | 0 <= j < |at| ensures at[j] < |keys| && KeysAt(keys, at)[j] == keys[at[j]] {
      assert at[j] in at;
      IndexMeaning(bitmap, |keys|, 0, at[j]);
      KeyAt(keys, at, j);
    }
  }

  lemma NoKeysAt(keys: seq<Bytes32>)
    ensures KeysAt(keys, []) == []
  {
  }

  // -------------------------------------------------------------------------- states

  predicate PartProper(c: Crypto, p: Params, s: Signed) {
    BlockProper(p.authority, s.bitmap, s.sigs) && EachSigned(c, p, s)
  }

  /** A record carries the value its signers signed the hash of; what ends a register has 32 bytes. */
  predicate RecordProper(c: Crypto, p: Params, r: Record) {
    && PartProper(c, p, r.signed)
    && r.signed.valueHash == c.hash(r.value) && |r.value| <= 4096
    && (r.signed.terminal ==> |r.value| == 32)
  }

  /** Evidence is two signed decisions that prove a fork, the higher one behind. */
  predicate EvidenceProper(c: Crypto, p: Params, e: Evidence) {
    && PartProper(c, p, e.a) && PartProper(c, p, e.b)
    && Fork(DecisionOf(e.a), DecisionOf(e.b))
    && AtLeastAsHigh(DecisionOf(e.b), DecisionOf(e.a))
  }

  predicate Accepted(c: Crypto, p: Params, s: RegState) {
    && (s.record.Some? ==> RecordProper(c, p, s.record.value))
    && (s.evidence.Some? ==> EvidenceProper(c, p, s.evidence.value))
  }

  lemma PartExact(c: Crypto, p: Params, s: Signed)
    requires AuthorityOk(c, p.authority)
    ensures SignedOk(p.authority, s) && VerifySigned(c, p, s) <==> PartProper(c, p, s)
  {
    hide SigsOk, BlockProper, VerifySigned, EachSigned, AuthorityOk;
    BlockExact(c, p.authority, s.bitmap, s.sigs);
    SignatureExact(c, p, s);
  }

  /** EXACTLY the states that are valid, in plain terms. */
  lemma ValidExact(c: Crypto, p: Params, s: RegState)
    requires ParamsOk(c, p)
    ensures Valid(c, p, s) <==> Accepted(c, p, s)
  {
    hide SignedOk, VerifySigned, PartProper, AuthorityOk, Outranks, AtLeastAsHigh;
    if s.record.Some? { PartExact(c, p, s.record.value.signed); }
    if s.evidence.Some? {
      var e := s.evidence.value;
      PartExact(c, p, e.a);
      PartExact(c, p, e.b);
      OutranksInNumbers(DecisionOf(e.a), DecisionOf(e.b));
    }
  }

  /** And EXACTLY what full validation accepts. */
  lemma ValidationExact(c: Crypto, p: Params, b: bytes, s: RegState)
    requires ParamsOk(c, p)
    ensures Parse(c, p, b) == Some(s) <==> Accepted(c, p, s) && b == Encode(p.authority, s)
  {
    hide Parse, Valid, Accepted, Encode;
    ParseExact(c, p, b, s);
    ValidExact(c, p, s);
  }

  /** Whatever a host is sent, everything it holds afterwards is signed and true of its value, and its proof is a fork; and
      its record ranks at or above every verified record it was given. */
  lemma HostAccepted(c: Crypto, p: Params, cands: seq<bytes>)
    requires ParamsOk(c, p)
    ensures var r := AbsorbAll(c, p, RegState(None, None), cands);
            && Accepted(c, p, r)
            && forall d :: d in RecordsIn(c, p, cands) ==>
                 r.record.Some? && AtLeastAsHigh(DecisionOf(r.record.value.signed), d)
  {
    hide Accepted, AbsorbAll, RecordsIn, Outranks, AtLeastAsHigh, ParamsOk;
    var empty, r := RegState(None, None), AbsorbAll(c, p, RegState(None, None), cands);
    HostsConverge(c, p, cands, cands);
    UpdateCloses(c, p, empty, cands);
    ValidExact(c, p, r);
    forall d | d in RecordsIn(c, p, cands) ensures r.record.Some? && AtLeastAsHigh(DecisionOf(r.record.value.signed), d) {
      OutranksInNumbers(d, DecisionOf(r.record.value.signed));
    }
  }
}
