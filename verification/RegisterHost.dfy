/** The Register's doors: summaries, the two update policies side by side, and the update loop
    (register/src/lib.rs). */
module RegisterHost {
  import opened Options
  import opened Bytes
  import opened Crypto
  import opened Doors
  import opened Sample
  import opened RegisterWire
  import opened RegisterCodec
  import opened RegisterGossip
  import opened RegisterMerge

  // --------------------------------------------------------------------- summaries

  function EncodeDecision(d: Decision): bytes {
    [BoolByte(d.terminal)] + (LE(d.seq_, 8) + d.valueHash)
  }

  function PairBytes(s: RegState): bytes {
    if s.evidence.None? then []
    else EncodeDecision(DecisionOf(s.evidence.value.a)) + EncodeDecision(DecisionOf(s.evidence.value.b))
  }

  /** The record's decision, or the zeros an empty register reports. */
  function DecisionFields(s: RegState): Decision {
    if s.record.Some? then DecisionOf(s.record.value.signed) else Decision(false, 0, Zeros(32))
  }

  function SummaryOf(c: Crypto, s: RegState): bytes {
    EncodeDecision(DecisionFields(s)) + c.hash(PairBytes(s))
  }

  lemma EncodeDecisionInjective(d: Decision, e: Decision, r: bytes, q: bytes)
    ensures |EncodeDecision(d)| == 41
    ensures EncodeDecision(d) + r == EncodeDecision(e) + q <==> d == e && r == q
  {
    if EncodeDecision(d) + r == EncodeDecision(e) + q {
      var x, y := EncodeDecision(d), EncodeDecision(e);
      assert x == (x + r)[..41] == (y + q)[..41] == y;
      assert r == (x + r)[41..] == (y + q)[41..] == q;
      assert x[0] == BoolByte(d.terminal) && y[0] == BoolByte(e.terminal);
      assert x[1..9] == LE(d.seq_, 8) && y[1..9] == LE(e.seq_, 8);
      assert x[9..] == d.valueHash && y[9..] == e.valueHash;
      PowValues();
      UnLEOfLE(d.seq_, 8);
      UnLEOfLE(e.seq_, 8);
    }
  }

  lemma PairBytesInjective(s: RegState, t: RegState)
    ensures PairBytes(s) == PairBytes(t) <==> Pair(s) == Pair(t)
  {
    hide EncodeDecision;
    if s.evidence.Some? {
      EncodeDecisionInjective(DecisionOf(s.evidence.value.a), DecisionOf(s.evidence.value.a), [], []);
      if t.evidence.Some? {
        var b, e := EncodeDecision(DecisionOf(s.evidence.value.b)), EncodeDecision(DecisionOf(t.evidence.value.b));
        EncodeDecisionInjective(DecisionOf(s.evidence.value.a), DecisionOf(t.evidence.value.a), b, e);
        EncodeDecisionInjective(DecisionOf(s.evidence.value.b), DecisionOf(t.evidence.value.b), [], []);
        assert b + [] == b && e + [] == e;
      }
    }
    if t.evidence.Some? {
      EncodeDecisionInjective(DecisionOf(t.evidence.value.a), DecisionOf(t.evidence.value.a), [], []);
    }
  }

  /** Two replicas report one summary exactly when they agree on the decision and on the PAIR their proof names, whoever
      signed either. A merge settles the decision and the evidence KEY, which two different pairs can share. */
  lemma SummaryExact(c: Crypto, s: RegState, t: RegState)
    requires c.hash(PairBytes(s)) == c.hash(PairBytes(t)) ==> PairBytes(s) == PairBytes(t)
    ensures SummaryOf(c, s) == SummaryOf(c, t) <==> DecisionFields(s) == DecisionFields(t) && Pair(s) == Pair(t)
  {
    hide EncodeDecision, PairBytes, Pair;
    PairBytesInjective(s, t);
    EncodeDecisionInjective(DecisionFields(s), DecisionFields(t), c.hash(PairBytes(s)), c.hash(PairBytes(t)));
  }

  /** Two replicas whose exchange changes neither hold one decision and one evidence key. They report one summary
      exactly when their proofs are one pair - which the key forces when there is no proof, or when the register was
      ended twice at one seq, and in no other case. */
  lemma SyncedSummaries(c: Crypto, p: Params, x: RegState, y: RegState)
    requires Valid(c, p, x) && Valid(c, p, y)
    requires ViewOf(Absorb(c, p, x, y)) == ViewOf(x) && ViewOf(Absorb(c, p, y, x)) == ViewOf(y)
    requires c.hash(PairBytes(x)) == c.hash(PairBytes(y)) ==> PairBytes(x) == PairBytes(y)
    ensures ViewOf(x) == ViewOf(y) && Absorb(c, p, x, y) == x && Absorb(c, p, y, x) == y
    ensures SummaryOf(c, x) == SummaryOf(c, y) <==> Pair(x) == Pair(y)
    ensures x.evidence.None? || TerminalTie(Pair(x).value.0, Pair(x).value.1) ==> SummaryOf(c, x) == SummaryOf(c, y)
  {
    QuietPairAgrees(c, p, x, y);
    SummaryExact(c, x, y);
    SecondWitnessIsNoOp(c, p, x, y);
    SecondWitnessIsNoOp(c, p, y, x);
    if x.evidence.Some? {
      KeyForcesPair(Pair(x).value.0, Pair(x).value.1);
      hide PairKey, TerminalTie, Outranks, Conflicts, SummaryOf, Absorb, KeyLess;
      assert CanonicalPair(Pair(x).value.0, Pair(x).value.1) && CanonicalPair(Pair(y).value.0, Pair(y).value.1);
    }
  }

  /** And in every other case the promise fails as soon as the signers have signed the other pair: the two replicas stay
      synced, and apart, for ever. */
  lemma OtherPairStaysApart(c: Crypto, p: Params, x: RegState, u: Signed, v: Signed)
    requires Valid(c, p, x) && x.evidence.Some? && !TerminalTie(Pair(x).value.0, Pair(x).value.1)
    requires (DecisionOf(u), DecisionOf(v)) == OtherPair(Pair(x).value.0, Pair(x).value.1)
    requires SignedOk(p.authority, u) && SignedOk(p.authority, v) && VerifySigned(c, p, u) && VerifySigned(c, p, v)
    requires var y := RegState(x.record, Some(Evidence(u, v)));
             c.hash(PairBytes(x)) == c.hash(PairBytes(y)) ==> PairBytes(x) == PairBytes(y)
    ensures var y := RegState(x.record, Some(Evidence(u, v)));
            && Valid(c, p, y) && ViewOf(x) == ViewOf(y)
            && Absorb(c, p, x, y) == x && Absorb(c, p, y, x) == y
            && SummaryOf(c, x) != SummaryOf(c, y)
  {
    var y := RegState(x.record, Some(Evidence(u, v)));
    OtherPairShares(Pair(x).value.0, Pair(x).value.1);
    hide PairKey, TerminalTie, OtherPair, Outranks, Conflicts, SummaryOf, Absorb, VerifySigned, SignedOk, PairBytes;
    SummaryExact(c, x, y);
    SecondWitnessIsNoOp(c, p, x, y);
    SecondWitnessIsNoOp(c, p, y, x);
  }

  lemma ProofHash(a: Signed, b: Signed)
    ensures SampleCrypto().hash(PairBytes(SampleProof(a, b)))[31] == b.valueHash[31]
  {
    var x, y := EncodeDecision(DecisionOf(a)), EncodeDecision(DecisionOf(b));
    EncodeDecisionInjective(DecisionOf(a), DecisionOf(a), [], []);
    EncodeDecisionInjective(DecisionOf(b), DecisionOf(b), [], []);
    assert (x + y)[81] == y[40] == b.valueHash[31];
  }

  lemma ApartOnceSynced(c: Crypto, p: Params, x: RegState, y: RegState)
    requires ViewOf(x) == ViewOf(y) && c.hash(PairBytes(x)) != c.hash(PairBytes(y))
    ensures Absorb(c, p, x, y) == x && Absorb(c, p, y, x) == y && SummaryOf(c, x) != SummaryOf(c, y)
  {
    SecondWitnessIsNoOp(c, p, x, y);
    SecondWitnessIsNoOp(c, p, y, x);
    hide Absorb, PairBytes, EncodeDecision;
    EncodeDecisionInjective(DecisionFields(x), DecisionFields(y), c.hash(PairBytes(x)), c.hash(PairBytes(y)));
  }

  /** Concrete synced replicas that report two summaries for ever: two ends that swap their values, and an ordinary fork
      against the fork in which one of its values ended the register. */
  lemma SyncedApart()
    ensures var c, p := SampleCrypto(), SampleParams([]);
            var x, y := EndedTwice(), EndsSwapped();
            && Valid(c, p, x) && Valid(c, p, y)
            && Absorb(c, p, x, y) == x && Absorb(c, p, y, x) == y && SummaryOf(c, x) != SummaryOf(c, y)
    ensures var c, p := SampleCrypto(), SampleParams([]);
            var x, y := LiveFork(), ForkWithEnd();
            && Valid(c, p, x) && Valid(c, p, y)
            && Absorb(c, p, x, y) == x && Absorb(c, p, y, x) == y && SummaryOf(c, x) != SummaryOf(c, y)
  {
    KeysCollide();
    ProofHash(SampleSigned(true, 1, 1), SampleSigned(true, 2, 2));
    ProofHash(SampleSigned(true, 1, 2), SampleSigned(true, 2, 1));
    ProofHash(SampleSigned(false, 5, 2), SampleSigned(false, 5, 1));
    ProofHash(SampleSigned(false, 5, 1), SampleSigned(true, 5, 2));
    assert HashOf(1)[31] == 1 && HashOf(2)[31] == 2;
    hide SampleCrypto, SampleParams, Valid, Absorb, SummaryOf, PairBytes, ViewOf;
    ApartOnceSynced(SampleCrypto(), SampleParams([]), EndedTwice(), EndsSwapped());
    ApartOnceSynced(SampleCrypto(), SampleParams([]), LiveFork(), ForkWithEnd());
  }

  // -------------------------------------------------------------- the two policies

  /** The policy of the contract: signatures are looked at after decisions are compared, and only of a part that would be
      kept. */
  function VerifyLate(c: Crypto, p: Params, held: bytes, cand: bytes): Option<bytes> {
    if |held| > MAX_STATE then None else
    var h :- ParseUnverified(c, p, held);
    var x :- ParseUnverified(c, p, cand);
    Some(Encode(p.authority, Absorb(c, p, h, x)))
  }

  /** The policy it replaced: both states are checked whole before they are merged. */
  function VerifyEagerly(c: Crypto, p: Params, held: bytes, cand: bytes): Option<bytes> {
    if |held| > MAX_STATE then None else
    var h :- Parse(c, p, held);
    var x :- Parse(c, p, cand);
    Some(Encode(p.authority, Update(h, x)))
  }

  /** Whenever the eager policy answers, so does the late one, and both answers read back as valid states with one
      record and one evidence key. */
  lemma PoliciesAgree(c: Crypto, p: Params, held: bytes, cand: bytes)
    requires ParamsOk(c, p) && VerifyEagerly(c, p, held, cand).Some?
    ensures var late := VerifyLate(c, p, held, cand);
            && late.Some?
            && Parse(c, p, late.value).Some? && Parse(c, p, VerifyEagerly(c, p, held, cand).value).Some?
            && var l, e := Parse(c, p, late.value).value, Parse(c, p, VerifyEagerly(c, p, held, cand).value).value;
               l.record == e.record && ViewOf(l) == ViewOf(e)
  {
    hide Update, Absorb, Encode, ParseUnverified, StateOk, VerifyState, ViewOf, ParamsOk;
    var h, x := Parse(c, p, held).value, Parse(c, p, cand).value;
    ParseExact(c, p, held, h);
    ParseExact(c, p, cand, x);
    AbsorbAgreesWithEager(c, p, h, x);
    AbsorbCloses(c, p, h, x);
    UpdateValid(c, p, h, x);
    ParseExact(c, p, Encode(p.authority, Update(h, x)), Update(h, x));
  }

  // ----------------------------------------------------------------- the update door

  function AbsorbBytes(c: Crypto, p: Params, held: RegState, b: bytes): RegState {
    var cand := ParseUnverified(c, p, b);
    if cand.Some? then Absorb(c, p, held, cand.value) else held
  }

  function AbsorbAll(c: Crypto, p: Params, held: RegState, cands: seq<bytes>): RegState
    decreases |cands|
  {
    if cands == [] then held else AbsorbAll(c, p, AbsorbBytes(c, p, held, cands[0]), cands[1..])
  }

  method UpdateState(c: Crypto, p: Params, state: bytes, data: seq<UpdateData>) returns (r: Option<bytes>)
    ensures r.Some? <==> |state| <= MAX_STATE && ParseUnverified(c, p, state).Some?
    ensures r.Some? ==> r.value == Encode(p.authority, AbsorbAll(c, p, ParseUnverified(c, p, state).value, Candidates(data)))
  {
    hide ParseUnverified, Absorb, Encode;
    if |state| > MAX_STATE { return None; }
    var parsed := ParseUnverified(c, p, state);
    if parsed.None? { return None; }
    var held := parsed.value;
    var cands := Flatten(data);
    var i := 0;
    while i < |cands|
      invariant 0 <= i <= |cands|
      invariant AbsorbAll(c, p, held, cands[i..]) == AbsorbAll(c, p, parsed.value, cands)
    {
      assert cands[i..][1..] == cands[i + 1..];
      var cand := ParseUnverified(c, p, cands[i]);
      if cand.Some? { held := Absorb(c, p, held, cand.value); }
      i := i + 1;
    }
    return Some(Encode(p.authority, held));
  }

  /** A host that holds a valid register answers every update, of any bytes at all, with a valid register. */
  lemma {:induction false} UpdateCloses(c: Crypto, p: Params, held: RegState, cands: seq<bytes>)
    requires ParamsOk(c, p) && Valid(c, p, held)
    ensures var r := AbsorbAll(c, p, held, cands);
            Valid(c, p, r) && Parse(c, p, Encode(p.authority, r)) == Some(r) && |Encode(p.authority, r)| <= MAX_STATE
    decreases |cands|
  {
    if cands == [] {
      AbsorbCloses(c, p, held, RegState(None, None));
      SecondWitnessIsNoOp(c, p, held, RegState(None, None));
    } else {
      hide Absorb, Encode, Valid;
      if ParseUnverified(c, p, cands[0]).Some? {
        EncodeOfParse(c, p, cands[0]);
        AbsorbCloses(c, p, held, ParseUnverified(c, p, cands[0]).value);
      }
      UpdateCloses(c, p, AbsorbBytes(c, p, held, cands[0]), cands[1..]);
    }
  }

  // ------------------------------------------------------------------ hosts converge

  /** The candidates a host can read, as steps of a gossip run with one replica. */
  function Received(c: Crypto, p: Params, cands: seq<bytes>): seq<Step>
    decreases |cands|
  {
    if cands == [] then []
    else
      var cand := ParseUnverified(c, p, cands[0]);
      (if cand.Some? then [Receive(0, cand.value)] else []) + Received(c, p, cands[1..])
  }

  /** The record decisions that verify among what a host was given. */
  ghost function RecordsIn(c: Crypto, p: Params, cands: seq<bytes>): set<Decision>
    decreases |cands|
  {
    if cands == [] then {}
    else
      var cand := ParseUnverified(c, p, cands[0]);
      (if cand.Some? then RecordsOf(VerifiedRecord(c, p, cand.value)) else {}) + RecordsIn(c, p, cands[1..])
  }

  lemma OneReceive(c: Crypto, p: Params, r: Replica, cand: RegState, rest: seq<Step>)
    ensures Run(c, p, [r], [Receive(0, cand)] + rest)
         == Run(c, p, [Meet(c, p, r, cand, RecordsOf(VerifiedRecord(c, p, cand)),
                            ProofsOf(VerifiedEvidence(c, p, cand)))], rest)
  {
    hide Meet, VerifiedRecord, VerifiedEvidence, RecordsOf, ProofsOf;
    var steps := [Receive(0, cand)] + rest;
    assert steps[0] == Receive(0, cand) && steps[1..] == rest;
    var met := Meet(c, p, r, cand, RecordsOf(VerifiedRecord(c, p, cand)), ProofsOf(VerifiedEvidence(c, p, cand)));
    assert [r][0 := met] == [met];
  }

  /** A host's update loop is a gossip run of one replica, whose past is the records that verified. */
  lemma {:induction false} HostIsReplica(c: Crypto, p: Params, r: Replica, cands: seq<bytes>)
    ensures forall i :: 0 <= i < |Received(c, p, cands)| ==> StepOk(c, p, Received(c, p, cands)[i])
    ensures var after := Run(c, p, [r], Received(c, p, cands));
            && |after| == 1 && after[0].state == AbsorbAll(c, p, r.state, cands)
            && after[0].records == r.records + RecordsIn(c, p, cands)
    decreases |cands|
  {
    hide ParseUnverified, Absorb, VerifiedRecord, VerifiedEvidence, RecordsOf, ProofsOf, StateOk;
    if cands == [] {
      assert r.records + {} == r.records;
    } else {
      var cand := ParseUnverified(c, p, cands[0]);
      var rest := Received(c, p, cands[1..]);
      if cand.Some? {
        EncodeOfParse(c, p, cands[0]);
        var records := RecordsOf(VerifiedRecord(c, p, cand.value));
        var met := Meet(c, p, r, cand.value, records, ProofsOf(VerifiedEvidence(c, p, cand.value)));
        HostIsReplica(c, p, met, cands[1..]);
        OneReceive(c, p, r, cand.value, rest);
        assert r.records + records + RecordsIn(c, p, cands[1..]) == r.records + (records + RecordsIn(c, p, cands[1..]));
      } else {
        HostIsReplica(c, p, r, cands[1..]);
        assert [] + rest == rest;
        assert {} + RecordsIn(c, p, cands[1..]) == RecordsIn(c, p, cands[1..]);
      }
    }
  }

  /** A host that starts empty holds the highest verified decision it was ever given; hosts given the same verified
      decisions hold the same, whatever the order, the batches, the repetitions and the junk in between. */
  lemma HostsConverge(c: Crypto, p: Params, hc: seq<bytes>, kc: seq<bytes>)
    requires ParamsOk(c, p) && RecordsIn(c, p, hc) == RecordsIn(c, p, kc)
    ensures var h, k := AbsorbAll(c, p, RegState(None, None), hc), AbsorbAll(c, p, RegState(None, None), kc);
            && ViewOf(h).decision == ViewOf(k).decision
            && (h.record.None? <==> RecordsIn(c, p, hc) == {})
            && (h.record.Some? ==>
                  DecisionOf(h.record.value.signed) in RecordsIn(c, p, hc)
                  && forall d :: d in RecordsIn(c, p, hc) ==> !Outranks(d, DecisionOf(h.record.value.signed)))
  {
    var empty := Fresh(1);
    FreshGood(c, p, 1);
    assert empty == [Replica(RegState(None, None), {}, {})];
    HostIsReplica(c, p, empty[0], hc);
    HostIsReplica(c, p, empty[0], kc);
    hide Run, Fresh, AbsorbAll, RecordsIn, Received, StepOk;
    var x, y := Run(c, p, empty, Received(c, p, hc)), Run(c, p, empty, Received(c, p, kc));
    RunGood(c, p, empty, Received(c, p, hc));
    RunGood(c, p, empty, Received(c, p, kc));
    assert x[0] in x && y[0] in y;
    assert {} + RecordsIn(c, p, hc) == RecordsIn(c, p, hc) && {} + RecordsIn(c, p, kc) == RecordsIn(c, p, kc);
    hide Valid, HoldsProof, Outranks;
    SamePastSameDecision(c, p, x[0], y[0]);
  }
}
