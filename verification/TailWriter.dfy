/** Writers to show the Tail's claims on: a signature scheme that accepts exactly what a log's writer signs, for every
    authority; and the writers the size bound fails (tail/src/lib.rs). */
module TailWriter {
  import opened Options
  import opened Bytes
  import opened ByteOrder
  import opened Bits
  import opened Crypto
  import opened Sample
  import opened RegisterWire
  import R = RegisterCodec
  import opened TailBody
  import opened TailLog
  import opened TailHost

  // ------------------------------------------------------ a writer of one body per seq

  /** The message of a decision over the log. */
  ghost predicate LogMessage(c: Crypto, p: Params, log: Log, m: bytes) {
    exists d: Decision :: m == Message(p, d) && OverLog(c, log, d)
  }

  /** The same hash and points, with signatures that verify over the log's decisions and nothing else. */
  ghost function WriterOf(c: Crypto, p: Params, log: Log): Crypto {
    c.(verifies := (k: Bytes32, m: bytes, x: Bytes64) => LogMessage(c, p, log, m))
  }

  /** A well-shaped part has a signature, so under that scheme it verifies only over the log. */
  lemma VerifiesOnlyOverLog(c: Crypto, p: Params, log: Log, s: Signed)
    requires AuthorityOk(c, p.authority) && R.SignedOk(p.authority, s) && VerifySigned(WriterOf(c, p, log), p, s)
    ensures OverLog(c, log, DecisionOf(s))
  {
    hide OverLog, Message, SignersOf, CountOnes, And, Allowed;
    var keys := SignersOf(p.authority, s.bitmap);
    assert |s.sigs| >= 1;
    assert WriterOf(c, p, log).verifies(keys[0], Message(p, DecisionOf(s)), s.sigs[0]);
    assert LogMessage(c, p, log, Message(p, DecisionOf(s)));
    var d :| Message(p, DecisionOf(s)) == Message(p, d) && OverLog(c, log, d);
    MessageNamesDecision(p, p, DecisionOf(s), d);
  }

  /** As many keys are walked as there are signatures. */
  lemma SignersMatch(a: Authority, s: Signed)
    requires R.SignedOk(a, s)
    ensures |SignersOf(a, s.bitmap)| == |s.sigs|
  {
    if a.Quorum? {
      SelectedIndices(a, s.bitmap, s.sigs);
      hide SigsOk, Indices, SignersOf, KeysAt;
      var at := Indices(s.bitmap, |a.keys|, 0);
      if |at| > 0 { KeyAt(a.keys, at, 0); } else { assert |KeysAt(a.keys, at)| == 0 by { NoKeys(a.keys); } }
    }
  }

  lemma NoKeys(keys: seq<Bytes32>)
    ensures KeysAt(keys, []) == []
  {
  }

  /** Under that scheme the hypothesis of the Tail's safety holds for EVERY legal log and everything that can arrive. */
  lemma WriterSignsOneBody(c: Crypto, p: Params, log: Log, cands: seq<bytes>)
    requires AuthorityOk(c, p.authority) && BodyAfter(log).Some?
    ensures OneBodyPerSeq(WriterOf(c, p, log), p, log, cands)
  {
    var w := WriterOf(c, p, log);
    forall b | b in cands ensures WriterSigned(w, p, log, b) {
      var s := Carried(p.authority, b);
      hide VerifySigned, R.SignedOk, OverLog, ReadPart, BodyAfter;
      if s.Some? && VerifySigned(w, p, s.value) {
        ReadPartGives(p.authority, Take(b, 4).value.1);
        VerifiesOnlyOverLog(c, p, log, s.value);
        SameHash(c, p, log, DecisionOf(s.value));
      }
    }
  }

  /** What is over the log does not depend on signatures. */
  lemma SameHash(c: Crypto, p: Params, log: Log, d: Decision)
    ensures OverLog(WriterOf(c, p, log), log, d) <==> OverLog(c, log, d)
  {
  }

  /** The decision at one record of the log. */
  function DecisionAt(c: Crypto, log: Log, i: nat): Decision
    requires i < |log| && BodyAfter(log[..i + 1]).Some?
  {
    Decision(false, |log[..i + 1]|, BodyHash(c, BodyAfter(log[..i + 1]).value))
  }

  lemma {:induction false} PrefixLegal(log: Log, n: nat)
    requires BodyAfter(log).Some? && n <= |log|
    ensures BodyAfter(log[..n]).Some?
    decreases |log|
  {
    if n == |log| {
      assert log[..n] == log;
    } else {
      PrefixLegal(log[..|log| - 1], n);
      assert log[..|log| - 1][..n] == log[..n];
    }
  }

  lemma PrefixesLegal(log: Log)
    requires BodyAfter(log).Some?
    ensures forall n: nat :: n <= |log| ==> BodyAfter(log[..n]).Some?
  {
    forall n: nat | n <= |log| ensures BodyAfter(log[..n]).Some? { PrefixLegal(log, n); }
  }

  /** What the writer signs: a part for every record of the log. */
  function SignaturesOf(c: Crypto, a: Authority, log: Log): (parts: seq<Signed>)
    requires BodyAfter(log).Some? && SigsRequired(a) <= 16
    ensures |parts| == |log|
  {
    PrefixesLegal(log);
    seq(|log|, i requires 0 <= i < |log| => PartFor(a, DecisionAt(c, log, i)))
  }

  /** And every such log can be published: each part is well-shaped and verifies over the body it names. */
  lemma WriterPublishes(c: Crypto, p: Params, log: Log)
    requires AuthorityOk(c, p.authority) && BodyAfter(log).Some?
    requires forall ops :: ops in log ==> OpsOk(ops)
    ensures SigsRequired(p.authority) <= 16
    ensures Published(WriterOf(c, p, log), p, log, SignaturesOf(c, p.authority, log))
  {
    var w, parts := WriterOf(c, p, log), SignaturesOf(c, p.authority, log);
    PrefixesLegal(log);
    hide R.SignedOk, VerifyTail, BodyAfter, OpsOk, AuthorityOk, PartFor;
    forall i | 0 <= i < |log|
      ensures R.SignedOk(p.authority, parts[i]) && parts[i].seq_ == i + 1
      ensures VerifyTail(w, p, Tail(parts[i], BodyAfter(log[..i + 1]).value))
    {
      RecordSigned(c, p, log, i);
    }
  }

  lemma RecordSigned(c: Crypto, p: Params, log: Log, i: nat)
    requires AuthorityOk(c, p.authority) && i < |log| && BodyAfter(log[..i + 1]).Some?
    ensures SigsRequired(p.authority) <= 16
    ensures var s := PartFor(p.authority, DecisionAt(c, log, i));
            && R.SignedOk(p.authority, s) && s.seq_ == i + 1
            && VerifyTail(WriterOf(c, p, log), p, Tail(s, BodyAfter(log[..i + 1]).value))
  {
    assert SigsRequired(p.authority) <= 16;
    hide R.SignedOk, VerifySigned, BodyAfter, AuthorityOk, PartFor;
    var d := DecisionAt(c, log, i);
    PartForOk(c, p.authority, d);
    OverLogVerifies(c, p, log, PartFor(p.authority, d));
  }

  lemma OverLogVerifies(c: Crypto, p: Params, log: Log, s: Signed)
    requires R.SignedOk(p.authority, s) && OverLog(c, log, DecisionOf(s))
    ensures VerifySigned(WriterOf(c, p, log), p, s)
  {
    SignersMatch(p.authority, s);
    hide R.SignedOk, OverLog, Message, SignersOf;
    assert LogMessage(c, p, log, Message(p, DecisionOf(s)));
  }

  // ----------------------------------------------------------- any k of n, concretely

  function SampleKey(i: byte): Bytes32 {
    [i] + Zeros(31)
  }

  function SampleKeys(n: nat): seq<Bytes32>
    requires n <= 256
  {
    seq(n, i requires 0 <= i < n => SampleKey(i))
  }

  /** k of n under keys that differ in their first byte. */
  function QuorumParams(k: nat, n: nat): Params
    requires n <= 256
  {
    var a := Quorum(k, SampleKeys(n));
    Params(a, [], SampleCrypto().hash(EncodeParams(Params(a, [], Zeros(32)))))
  }

  lemma SampleKeyUsable(i: byte)
    ensures UsableKey(SampleCrypto(), SampleKey(i))
  {
    var b := SampleKey(i);
    assert ClearSign(b) == b && b[1..] == Zeros(31);
    ZeroNumber(31);
    ModulusValue();
  }

  lemma QuorumParamsOk(k: nat, n: nat)
    requires 1 <= k <= n <= 16
    ensures ParamsOk(SampleCrypto(), QuorumParams(k, n))
  {
    var keys := SampleKeys(n);
    forall i | 0 <= i < n ensures UsableKey(SampleCrypto(), keys[i]) { SampleKeyUsable(i); }
    hide UsableKey, PutKeys;
    assert forall i :: 0 < i < n ==> Lex(keys[i - 1], keys[i]);
  }

  // One delta that writes one row.

  const ONE_OP: Op := Set([1], [7])
  const ONE_LOG: Log := [[ONE_OP]]
  const ONE_BODY: Body := Body(None, 0, [Row([1], Entry(1, Some([7])))])

  lemma OneDelta()
    ensures OpsOk([ONE_OP]) && Apply(EMPTY, [ONE_OP], 1) == Some(ONE_BODY) && Apply(ONE_BODY, [ONE_OP], 1) == Some(ONE_BODY)
    ensures BodyAfter([]) == Some(EMPTY) && BodyAfter(ONE_LOG) == Some(ONE_BODY)
    ensures |EncodeBody(ONE_BODY)| <= 64
  {
    OneSizes();
    hide EncodeBody, EncodeOps;
    var ops := [ONE_OP];
    assert ops[1..] == [];
    assert ONE_LOG[..0] == [];
    assert Insert([], [1], Entry(1, Some([7]))) == ONE_BODY.rows;
    assert Insert(ONE_BODY.rows, [1], Entry(1, Some([7]))) == ONE_BODY.rows;
    assert ApplyOps(EMPTY, ops, 1) == ApplyOps(ONE_BODY, [], 1);
    assert ApplyOps(ONE_BODY, ops, 1) == ApplyOps(ONE_BODY, [], 1);
  }

  lemma OneSizes()
    ensures |EncodeBody(ONE_BODY)| <= 64 && |EncodeOps([ONE_OP])| <= 64
  {
    assert ONE_BODY.rows[1..] == [];
    var ops := [ONE_OP];
    assert ops[1..] == [];
    assert |PutOps(ops)| == |PutOp(ONE_OP, PutOps([]))|;
  }

  lemma EndsIn(b: bytes, n: byte)
    requires b != [] && b[|b| - 1] == n
    ensures SampleCrypto().hash(BODY_DOMAIN + b)[31] == n
  {
    assert (BODY_DOMAIN + b)[|BODY_DOMAIN + b| - 1] == n;
  }

  lemma BodiesEnd()
    ensures var e := EncodeBody(EMPTY); e != [] && e[|e| - 1] == 0
    ensures var e := EncodeBody(ONE_BODY); e != [] && e[|e| - 1] == 7
  {
    assert ONE_BODY.rows[1..] == [];
    assert PutRows(ONE_BODY.rows) == PutKey([1], PutEntry(Entry(1, Some([7])), []));
    assert LE(0, 4) == [0, 0, 0, 0];
  }

  lemma OneInPlay()
    ensures var play := {EMPTY, ONE_BODY}; NoBodyCollision(SampleCrypto(), play) && LogInPlay(ONE_LOG, play)
  {
    OneDelta();
    BodiesEnd();
    hide EncodeBody, BodyAfter, SampleCrypto, Apply;
    EndsIn(EncodeBody(EMPTY), 0);
    EndsIn(EncodeBody(ONE_BODY), 7);
    assert ONE_LOG[..0] == [] && ONE_LOG[..1] == ONE_LOG;
  }

  lemma OneDeltaInPlay(a: Authority, s: Signed)
    requires R.SignedOk(a, s) && s.seq_ == 1
    ensures CandidateInPlay(a, ONE_LOG, EncodeDelta(a, s, [ONE_OP]), {EMPTY, ONE_BODY})
  {
    OneDelta();
    hide R.PutSigned, R.SignedOk, ReadPart, EncodeOps, ParseOps, Apply, OpsOk, BodyAfter;
    ReadPartFront(a, s, EncodeOps([ONE_OP]));
    TakeFront(DELTA_MAGIC, R.PutSigned(a, s, []) + EncodeOps([ONE_OP]));
    OpsExact(EncodeOps([ONE_OP]), [ONE_OP]);
    assert ONE_LOG[..0] == [] && ONE_LOG[..1] == ONE_LOG;
  }

  lemma OneStateInPlay(a: Authority, s: Signed)
    requires R.SignedOk(a, s) && s.seq_ == 1 && TailOk(a, Tail(s, ONE_BODY)) && |EncodeTail(a, Tail(s, ONE_BODY))| <= MAX_STATE
    ensures CandidateInPlay(a, ONE_LOG, EncodeTail(a, Tail(s, ONE_BODY)), {EMPTY, ONE_BODY})
  {
    hide TailOk, EncodeBody, R.PutSigned, ReadPart, BodyAfter;
    TailHost.ParseExact(a, EncodeTail(a, Tail(s, ONE_BODY)), Some(Tail(s, ONE_BODY)));
    TakeFront(STATE_MAGIC, R.PutSigned(a, s, []) + EncodeBody(ONE_BODY));
  }

  lemma OneTailOk(a: Authority, s: Signed)
    requires R.SignedOk(a, s) && s.seq_ == 1 && SigsRequired(a) <= 16
    ensures TailOk(a, Tail(s, ONE_BODY)) && |EncodeTail(a, Tail(s, ONE_BODY))| <= MAX_STATE
  {
    OneDelta();
    hide EncodeBody, R.SignedOk, Apply, EncodeOps, BodyAfter;
    EmptyIsLegal();
    ApplyIsLegal(EMPTY, [ONE_OP], 1, 0);
    hide BodyOk;
    EncodedSize(a, Tail(s, ONE_BODY));
  }

  /** The delta brings an empty host to the record, and the whole state then changes nothing. */
  lemma OneAbsorbed(c: Crypto, p: Params, t: Tail)
    requires Valid(c, p, Some(t)) && t.signed.seq_ == 1 && t.body == ONE_BODY
    requires |EncodeTail(p.authority, t)| <= MAX_STATE
    ensures AbsorbAll(c, p, None, [EncodeDelta(p.authority, t.signed, [ONE_OP])] + [EncodeTail(p.authority, t)]) == Some(t)
  {
    OneDelta();
    hide EncodeBody, R.SignedOk, Apply, EncodeOps, BodyAfter, VerifyTail, EncodeTail, EncodeDelta, Absorb, TailOk, OpsOk;
    var d, b := EncodeDelta(p.authority, t.signed, [ONE_OP]), EncodeTail(p.authority, t);
    assert R.SignedOk(p.authority, t.signed) by { TailHasPart(p.authority, t); }
    DeltaApplies(c, p, None, t.signed, [ONE_OP], ONE_BODY);
    StateIsAbsorbed(c, p, Some(t), t);
    AbsorbCons(c, p, None, d, [b]);
    AbsorbCons(c, p, Some(t), b, []);
    assert [b] + [] == [b];
  }

  lemma TailHasPart(a: Authority, t: Tail)
    requires TailOk(a, t)
    ensures R.SignedOk(a, t.signed)
  {
  }

  /** What the writer of that delta sends. */
  function OneCandidates(a: Authority, t: Tail): seq<bytes> {
    [EncodeDelta(a, t.signed, [ONE_OP])] + [EncodeTail(a, t)]
  }

  /** The tail its writer publishes, under the scheme in which it is the only one who signs. */
  lemma OneWriter(p: Params) returns (c: Crypto, t: Tail)
    requires AuthorityOk(SampleCrypto(), p.authority)
    ensures c == WriterOf(SampleCrypto(), p, ONE_LOG)
    ensures Valid(c, p, Some(t)) && |EncodeTail(p.authority, t)| <= MAX_STATE
    ensures R.SignedOk(p.authority, t.signed) && t.signed.seq_ == 1 && t.body == ONE_BODY
  {
    c := WriterOf(SampleCrypto(), p, ONE_LOG);
    OneDelta();
    assert ONE_LOG[..1] == ONE_LOG && SigsRequired(p.authority) <= 16;
    hide SampleCrypto, BodyAfter, R.SignedOk, VerifyTail, TailOk, EncodeTail, EncodeBody, Apply, AuthorityOk, PartFor;
    RecordSigned(SampleCrypto(), p, ONE_LOG, 0);
    t := Tail(PartFor(p.authority, DecisionAt(SampleCrypto(), ONE_LOG, 0)), ONE_BODY);
    OneTailOk(p.authority, t.signed);
  }

  /** Nothing the safety theorems ask for is out of reach: under every authority there is a writer of a log that is not
      empty, with candidates that meet every hypothesis and bring a host to its record. */
  lemma OneTail(p: Params) returns (c: Crypto, t: Tail)
    requires AuthorityOk(SampleCrypto(), p.authority)
    ensures c == WriterOf(SampleCrypto(), p, ONE_LOG)
    ensures var play, cands := {EMPTY, ONE_BODY}, OneCandidates(p.authority, t);
            && OneBodyPerSeq(c, p, ONE_LOG, cands) && NoBodyCollision(c, play) && LogInPlay(ONE_LOG, play)
            && (forall b :: b in cands ==> CandidateInPlay(p.authority, ONE_LOG, b, play))
            && AbsorbAll(c, p, None, cands) == Some(t) && t.signed.seq_ == 1 && t.body == ONE_BODY
  {
    assert SigsRequired(p.authority) <= 16 && BodyAfter(ONE_LOG).Some? by { OneDelta(); }
    hide SampleCrypto, BodyHash, BodyAfter, R.SignedOk, VerifyTail, TailOk, EncodeTail, EncodeDelta, AuthorityOk,
         AbsorbAll, CandidateInPlay, LogInPlay, OneBodyPerSeq, NoBodyCollision, WriterOf;
    c, t := OneWriter(p);
    OneAbsorbed(c, p, t);
    OneInPlay();
    OneDeltaInPlay(p.authority, t.signed);
    OneTailOk(p.authority, t.signed);
    OneStateInPlay(p.authority, t.signed);
    WriterSignsOneBody(SampleCrypto(), p, ONE_LOG, OneCandidates(p.authority, t));
    SameCollisions(SampleCrypto(), p, {EMPTY, ONE_BODY});
  }

  /** Every k of n among them. */
  lemma QuorumTail(k: nat, n: nat) returns (c: Crypto, p: Params, t: Tail)
    requires 1 <= k <= n <= 16
    ensures ParamsOk(c, p) && p.authority.Quorum? && p.authority.k == k && |p.authority.keys| == n
    ensures var play, cands := {EMPTY, ONE_BODY}, OneCandidates(p.authority, t);
            && OneBodyPerSeq(c, p, ONE_LOG, cands) && NoBodyCollision(c, play) && LogInPlay(ONE_LOG, play)
            && (forall b :: b in cands ==> CandidateInPlay(p.authority, ONE_LOG, b, play))
            && AbsorbAll(c, p, None, cands) == Some(t) && t.signed.seq_ == 1 && t.body == ONE_BODY
  {
    QuorumParamsOk(k, n);
    p := QuorumParams(k, n);
    assert |p.authority.keys| == n;
    SameParams(p);
    hide SampleCrypto, QuorumParams, AbsorbAll, CandidateInPlay, LogInPlay, OneBodyPerSeq, NoBodyCollision, WriterOf,
         ParamsOk, OneCandidates;
    c, t := OneTail(p);
  }

  lemma SameParams(p: Params)
    requires ParamsOk(SampleCrypto(), p)
    ensures AuthorityOk(SampleCrypto(), p.authority) && ParamsOk(WriterOf(SampleCrypto(), p, ONE_LOG), p)
  {
    hide CanonicalKey, EncodeParams, SampleCrypto;
  }

  lemma SameCollisions(c: Crypto, p: Params, play: set<Body>)
    ensures NoBodyCollision(WriterOf(c, p, ONE_LOG), play) <==> NoBodyCollision(c, play)
  {
    hide EncodeBody;
    assert forall b :: BodyHash(WriterOf(c, p, ONE_LOG), b) == BodyHash(c, b);
  }

  // ------------------------------------------------ a writer the size bound fails

  /** Signatures that all verify make any well-shaped part verify. */
  lemma AllVerify(c: Crypto, p: Params, s: Signed)
    requires R.SignedOk(p.authority, s) && forall k, m, x :: c.verifies(k, m, x)
    ensures VerifySigned(c, p, s)
  {
    SignersMatch(p.authority, s);
    hide R.SignedOk, Message, SignersOf;
  }

  /** An empty host under a 16-signature authority accepts a delta and stores a tail nobody can read back. */
  lemma SixteenHost(c: Crypto, p: Params) returns (d: bytes)
    requires AuthorityOk(c, p.authority) && SigsRequired(p.authority) == 16 && forall k, m, x :: c.verifies(k, m, x)
    ensures var r := Absorb(c, p, None, d);
            && r.Some? && Valid(c, p, r) && r.value.body == FullBody()
            && ParseUnverified(p.authority, Encode(p.authority, r)).None?
  {
    hide AuthorityOk, R.SignedOk, FullBody, FullOps, BodyHash, VerifySigned, Encode, EncodeDelta, Absorb, ParseUnverified,
         Valid, SigsRequired;
    var s := PartFor(p.authority, Decision(false, 1, BodyHash(c, FullBody())));
    PartForOk(c, p.authority, DecisionOf(s));
    AllVerify(c, p, s);
    SixteenDoesNotClose(c, p, s);
    d := EncodeDelta(p.authority, s, FullOps());
  }

  /** The tail a host stores can be read back. */
  ghost predicate StoredReads(c: Crypto, p: Params, d: bytes) {
    var r := Absorb(c, p, None, d);
    ParseUnverified(p.authority, Encode(p.authority, r)) == Some(r)
  }

  /** EXACTLY the parameters under which whatever an empty host is offered, and whatever its signatures say, what it then
      stores reads back: those that need at most 15 signatures. */
  lemma HostClosureExact(c: Crypto, p: Params)
    requires ParamsOk(c, p)
    ensures (forall v, d :: StoredReads(c.(verifies := v), p, d)) <==> SigsRequired(p.authority) <= 15
  {
    assert AuthorityOk(c, p.authority);
    if SigsRequired(p.authority) <= 15 {
      forall v, d ensures StoredReads(c.(verifies := v), p, d) { FifteenReads(c.(verifies := v), p, d); }
    } else {
      var all := c.(verifies := (k: Bytes32, m: bytes, x: Bytes64) => true);
      assert AuthorityOk(all, p.authority);
      hide AuthorityOk, StoredReads;
      var d := SixteenHost(all, p);
      assert !StoredReads(all, p, d);
    }
  }

  lemma FifteenReads(c: Crypto, p: Params, d: bytes)
    requires ParamsOk(c, p) && SigsRequired(p.authority) <= 15
    ensures StoredReads(c, p, d)
  {
    hide Absorb, ParseUnverified, Encode, ParamsOk;
    var one: seq<bytes> := [d];
    assert one[1..] == [];
    UpdateCloses(c, p, None, one);
    assert AbsorbAll(c, p, None, one) == AbsorbAll(c, p, Absorb(c, p, None, d), []);
  }

  /** Such a host, concretely: 16 keys that must all sign. */
  lemma SixteenKeys() returns (c: Crypto, p: Params, d: bytes)
    ensures ParamsOk(c, p) && p.authority.Quorum? && p.authority.k == 16 && |p.authority.keys| == 16
    ensures var r := Absorb(c, p, None, d);
            && r.Some? && Valid(c, p, r) && ParseUnverified(p.authority, Encode(p.authority, r)).None?
  {
    c, p := SampleCrypto(), QuorumParams(16, 16);
    QuorumParamsOk(16, 16);
    assert |p.authority.keys| == 16 && forall k, m, x :: c.verifies(k, m, x);
    assert AuthorityOk(c, p.authority);
    hide SampleCrypto, QuorumParams, AuthorityOk, ParamsOk, Encode, EncodeDelta, Absorb, ParseUnverified, Valid;
    d := SixteenHost(c, p);
  }
}
