/** What a Tail's host takes, byte string by byte string: the writer's next delta, a higher state, and nothing else
    (tail/src/lib.rs). */
module TailDoors {
  import opened Options
  import opened Bytes
  import opened ByteOrder
  import opened Crypto
  import opened Doors
  import opened RegisterWire
  import R = RegisterCodec
  import opened RegisterProofs
  import RegisterAdmission
  import opened TailBody
  import opened TailHost

  // ------------------------------------------------------------------ what a tail proves

  /** A live part at seq 1 or later, signed over the hash of the body it comes with. */
  predicate Proves(c: Crypto, p: Params, s: Signed, body: Body) {
    && !s.terminal && s.seq_ >= 1
    && s.valueHash == c.hash(Ascii("TL01-body") + EncodeBody(body))
    && RegisterAdmission.EachSigned(c, p, s)
  }

  lemma ProvesExact(c: Crypto, p: Params, t: Tail)
    ensures VerifyTail(c, p, t) <==> Proves(c, p, t.signed, t.body)
  {
    hide EncodeBody, RegisterAdmission.EachSigned, VerifySigned;
    RegisterAdmission.SignatureExact(c, p, t.signed);
    assert BODY_DOMAIN == Ascii("TL01-body");
  }

  // -------------------------------------------------------------------------- deltas

  /** The delta is the one made for what is held: the next seq, and signed over the very body its operations make. */
  predicate Fits(c: Crypto, p: Params, held: Option<Tail>, s: Signed, ops: seq<Op>) {
    && s.seq_ == SeqOf(held) + 1
    && Apply(BodyOf(held), ops, s.seq_).Some?
    && Proves(c, p, s, Apply(BodyOf(held), ops, s.seq_).value)
  }

  /** EXACTLY when a delta is taken, and what it leaves. */
  lemma DeltaExact(c: Crypto, p: Params, held: Option<Tail>, s: Signed, ops: seq<Op>)
    requires R.SignedOk(p.authority, s) && OpsOk(ops)
    ensures Absorb(c, p, held, EncodeDelta(p.authority, s, ops))
         == if Fits(c, p, held, s, ops) then Some(Tail(s, Apply(BodyOf(held), ops, s.seq_).value)) else held
  {
    hide EncodeOps, ParseOps, Apply, OpsOk, ReadPart, VerifySigned, R.PutSigned, R.SignedOk, BodyHash,
         RegisterAdmission.EachSigned, EncodeBody;
    var a := p.authority;
    TakeFront(DELTA_MAGIC, R.PutSigned(a, s, []) + EncodeOps(ops));
    ReadPartFront(a, s, EncodeOps(ops));
    OpsExact(EncodeOps(ops), ops);
    if Apply(BodyOf(held), ops, s.seq_).Some? { ProvesExact(c, p, Tail(s, Apply(BodyOf(held), ops, s.seq_).value)); }
  }

  // -------------------------------------------------------------------------- states

  /** Strictly above what is held, in numbers; nothing held is below everything. */
  predicate Higher(s: Signed, held: Option<Tail>) {
    held.None? || !AtLeastAsHigh(DecisionOf(held.value.signed), DecisionOf(s))
  }

  /** EXACTLY when a state is taken. */
  lemma StateExact(c: Crypto, p: Params, held: Option<Tail>, t: Tail)
    requires TailOk(p.authority, t) && |EncodeTail(p.authority, t)| <= MAX_STATE
    ensures Absorb(c, p, held, EncodeTail(p.authority, t))
         == if Proves(c, p, t.signed, t.body) && Higher(t.signed, held) then Some(t) else held
  {
    var b := EncodeTail(p.authority, t);
    assert b[1] == 76;
    hide EncodeTail, TailOk, VerifyTail, Proves, Outranks, AtLeastAsHigh, ParseUnverified;
    TailHost.ParseExact(p.authority, b, Some(t));
    ProvesExact(c, p, t);
    if held.Some? { OutranksInNumbers(DecisionOf(t.signed), DecisionOf(held.value.signed)); }
  }

  /** Nothing else is ever taken. */
  lemma NothingElse(c: Crypto, p: Params, held: Option<Tail>, b: bytes)
    requires Absorb(c, p, held, b) != held
    ensures var a, r := p.authority, Absorb(c, p, held, b);
            || (r.Some? && TailOk(a, r.value) && b == EncodeTail(a, r.value))
            || exists s, ops :: R.SignedOk(a, s) && OpsOk(ops) && b == EncodeDelta(a, s, ops)
  {
    hide ReadPart, VerifySigned, Apply, ParseOps, BodyHash, R.SignedOk, Outranks, EncodeOps, OpsOk, TailOk, EncodeTail,
         ParseUnverified, R.PutSigned;
    var a := p.authority;
    if IsDelta(b) {
      var r1 := Take(b, 4).value.1;
      var (s, r2) := ReadPart(a, r1).value;
      ReadPartGives(a, r1);
      var ops := ParseOps(r2).value;
      OpsExact(r2, ops);
      assert b == EncodeDelta(a, s, ops);
    } else {
      TailHost.ParseExact(a, b, ParseUnverified(a, b).value);
    }
  }

  // ------------------------------------------------------------------------- batches

  /** A state and the delta made for it arrive as one item, and a host that holds nothing ends with the delta applied. */
  lemma StateThenDelta(c: Crypto, p: Params, t: Tail, s: Signed, ops: seq<Op>)
    requires Valid(c, p, Some(t)) && |EncodeTail(p.authority, t)| <= MAX_STATE
    requires R.SignedOk(p.authority, s) && OpsOk(ops) && Fits(c, p, Some(t), s, ops)
    ensures AbsorbAll(c, p, None, Candidates([StateAndDelta(EncodeTail(p.authority, t), EncodeDelta(p.authority, s, ops))]))
         == Some(Tail(s, Apply(t.body, ops, s.seq_).value))
  {
    hide EncodeTail, EncodeDelta, Absorb, TailOk, VerifyTail, Apply, OpsOk, R.SignedOk, Proves, Candidates;
    var b, d := EncodeTail(p.authority, t), EncodeDelta(p.authority, s, ops);
    OffersInOrder([], [], b, d);
    StateIsAbsorbed(c, p, None, t);
    DeltaExact(c, p, Some(t), s, ops);
    AbsorbCons(c, p, None, b, [d]);
    AbsorbCons(c, p, Some(t), d, []);
    assert [b] + [d] == [b, d] && [d] + [] == [d];
  }
}
