/** What a Register accepts and what it keeps, in plain terms: the bytes that are signed, the members that signed them, and
    the numbers by which decisions and proofs of forks are compared (register/src/wire.rs, register/src/merge.rs). */
module RegisterProofs {
  import opened Options
  import opened Bytes
  import opened ByteOrder
  import opened Bits
  import opened Crypto
  import opened RegisterWire
  import opened RegisterCodec
  import opened RegisterMerge
  import opened RegisterGossip

  // -------------------------------------------------------------- decisions in numbers

  /** `e` ranks at or above `d`: no end is lost, then no seq, and last the lower number wins. */
  predicate AtLeastAsHigh(e: Decision, d: Decision) {
    && (d.terminal ==> e.terminal)
    && (d.terminal == e.terminal ==> d.seq_ <= e.seq_)
    && (d.terminal == e.terminal && d.seq_ == e.seq_ ==> Num(e.valueHash) <= Num(d.valueHash))
  }

  lemma OutranksInNumbers(d: Decision, e: Decision)
    ensures Outranks(d, e) <==> !AtLeastAsHigh(e, d)
  {
    LexIsNum(d.valueHash, e.valueHash);
  }

  // ----------------------------------------------------------------- proofs in numbers

  predicate BothEnd(x: Decision, y: Decision) {
    x.terminal && y.terminal
  }

  /** The smaller and the larger of two numbers. */
  function Small(a: nat, b: nat): nat {
    if a <= b then a else b
  }

  function Large(a: nat, b: nat): nat {
    if a <= b then b else a
  }

  /** The fork `x`, `y` is at least as strong a fact as the fork `u`, `v`: a register ended twice is stronger than any other
      fork; then the lower seqs are, then the lower values. */
  predicate NoWeaker(x: Decision, y: Decision, u: Decision, v: Decision) {
    if BothEnd(x, y) != BothEnd(u, v) then BothEnd(x, y)
    else if Small(x.seq_, y.seq_) != Small(u.seq_, v.seq_) then Small(x.seq_, y.seq_) < Small(u.seq_, v.seq_)
    else if Large(x.seq_, y.seq_) != Large(u.seq_, v.seq_) then Large(x.seq_, y.seq_) < Large(u.seq_, v.seq_)
    else
      var (xl, xh) := (Small(Num(x.valueHash), Num(y.valueHash)), Large(Num(x.valueHash), Num(y.valueHash)));
      var (ul, uh) := (Small(Num(u.valueHash), Num(v.valueHash)), Large(Num(u.valueHash), Num(v.valueHash)));
      if xl != ul then xl < ul else xh <= uh
  }

  lemma HashesInNumbers(x: Bytes32, y: Bytes32)
    ensures Num(LowHash(x, y)) == Small(Num(x), Num(y)) && Num(HighHash(x, y)) == Large(Num(x), Num(y))
  {
    LexIsNum(y, x);
  }

  lemma KeyInNumbers(x: Decision, y: Decision, u: Decision, v: Decision)
    ensures !KeyLess(PairKey(u, v), PairKey(x, y)) <==> NoWeaker(x, y, u, v)
  {
    var k, l := PairKey(x, y), PairKey(u, v);
    HashesInNumbers(x.valueHash, y.valueHash);
    HashesInNumbers(u.valueHash, v.valueHash);
    LexIsNum(l.lowHash, k.lowHash);
    LexIsNum(l.highHash, k.highHash);
    if Num(l.lowHash) == Num(k.lowHash) { NumInjective(l.lowHash, k.lowHash); }
    hide Num, Lex;
  }

  predicate Stronger(e: Evidence, f: Evidence) {
    NoWeaker(DecisionOf(e.a), DecisionOf(e.b), DecisionOf(f.a), DecisionOf(f.b))
  }

  /** Two records prove a fork: one seq with two values, or two ends with two values. */
  predicate Fork(x: Decision, y: Decision) {
    x.valueHash != y.valueHash && (x.seq_ == y.seq_ || (x.terminal && y.terminal))
  }

  /** What an update leaves as evidence: there is some EXACTLY when either side had some or the two records prove a fork,
      and it is at least as strong as each of those. */
  lemma UpdateKeepsStrongest(x: RegState, y: RegState)
    ensures var r, both := Update(x, y).evidence, x.record.Some? && y.record.Some?;
            && (r.Some? <==>
                  || x.evidence.Some? || y.evidence.Some?
                  || (both && Fork(DecisionOf(x.record.value.signed), DecisionOf(y.record.value.signed))))
            && (x.evidence.Some? ==> Stronger(r.value, x.evidence.value))
            && (y.evidence.Some? ==> Stronger(r.value, y.evidence.value))
            && (both && Fork(DecisionOf(x.record.value.signed), DecisionOf(y.record.value.signed)) ==>
                  NoWeaker(DecisionOf(r.value.a), DecisionOf(r.value.b),
                           DecisionOf(x.record.value.signed), DecisionOf(y.record.value.signed)))
  {
    var r := Update(x, y).evidence;
    UpdateMinimum(x, y);
    if x.evidence.Some? { StrongerIsLower(r.value, x.evidence.value); }
    if y.evidence.Some? { StrongerIsLower(r.value, y.evidence.value); }
    if x.record.Some? && y.record.Some? && r.Some? {
      var d, e := DecisionOf(x.record.value.signed), DecisionOf(y.record.value.signed);
      KeyInNumbers(DecisionOf(r.value.a), DecisionOf(r.value.b), d, e);
    }
    hide NoWeaker, KeyLess, PairKey, Update;
  }

  lemma StrongerIsLower(e: Evidence, f: Evidence)
    ensures !KeyLess(KeyOf(f), KeyOf(e)) <==> Stronger(e, f)
  {
    KeyInNumbers(DecisionOf(e.a), DecisionOf(e.b), DecisionOf(f.a), DecisionOf(f.b));
  }

  lemma UpdateMinimum(x: RegState, y: RegState)
    ensures var r, both := Update(x, y).evidence, x.record.Some? && y.record.Some?;
            && (r.Some? <==>
                  || x.evidence.Some? || y.evidence.Some?
                  || (both && Conflicts(DecisionOf(x.record.value.signed), DecisionOf(y.record.value.signed))))
            && (x.evidence.Some? ==> !KeyLess(KeyOf(x.evidence.value), KeyOf(r.value)))
            && (y.evidence.Some? ==> !KeyLess(KeyOf(y.evidence.value), KeyOf(r.value)))
            && (both && Conflicts(DecisionOf(x.record.value.signed), DecisionOf(y.record.value.signed)) ==>
                  !KeyLess(PairKey(DecisionOf(x.record.value.signed), DecisionOf(y.record.value.signed)), KeyOf(r.value)))
  {
    var d := Detect(x, y).evidence;
    DetectFinds(x, y);
    UpdateKeys(x, y);
    hide Outranks, KeyLess, PairKey, Conflicts, Update;
    LowestIsLow(x.evidence, y.evidence, d);
  }

  /** The evidence of an update is one of the three, by key the lowest. */
  lemma UpdateKeys(x: RegState, y: RegState)
    ensures Update(x, y).evidence == MinEvidence(MinEvidence(x.evidence, y.evidence), Detect(x, y).evidence)
  {
  }

  lemma LowestIsLow(x: Option<Evidence>, y: Option<Evidence>, z: Option<Evidence>)
    ensures var m := MinEvidence(MinEvidence(x, y), z);
            && (m.Some? <==> x.Some? || y.Some? || z.Some?)
            && (x.Some? ==> !KeyLess(KeyOf(x.value), KeyOf(m.value)))
            && (y.Some? ==> !KeyLess(KeyOf(y.value), KeyOf(m.value)))
            && (z.Some? ==> !KeyLess(KeyOf(z.value), KeyOf(m.value)))
  {
    hide KeyOf, KeyLess;
    var n := MinEvidence(x, y);
    if x.Some? {
      KeyTotal(KeyOf(x.value), KeyOf(x.value));
      MinEvidenceLow(x, y, KeyOf(x.value));
      MinEvidenceLow(n, z, KeyOf(x.value));
    }
    if y.Some? {
      KeyTotal(KeyOf(y.value), KeyOf(y.value));
      MinEvidenceLow(x, y, KeyOf(y.value));
      MinEvidenceLow(n, z, KeyOf(y.value));
    }
    if z.Some? {
      KeyTotal(KeyOf(z.value), KeyOf(z.value));
      MinEvidenceLow(n, z, KeyOf(z.value));
    }
  }

  // --------------------------------------------------------------------- whole runs

  /** Over any run of candidates and syncs a replica's decision never falls and its proof never weakens, in numbers. */
  lemma RunRises(c: Crypto, p: Params, sys: seq<Replica>, steps: seq<Step>, i: nat)
    requires i < |sys|
    ensures |Run(c, p, sys, steps)| == |sys|
    ensures var x, y := sys[i].state, Run(c, p, sys, steps)[i].state;
            && (x.record.Some? ==>
                  y.record.Some? && AtLeastAsHigh(DecisionOf(y.record.value.signed), DecisionOf(x.record.value.signed)))
            && (x.evidence.Some? ==> y.evidence.Some? && Stronger(y.evidence.value, x.evidence.value))
  {
    hide Run, Outranks, KeyLess, KeyOf, AtLeastAsHigh, NoWeaker;
    RunStands(c, p, sys, steps, i);
    var x, y := sys[i].state, Run(c, p, sys, steps)[i].state;
    if x.record.Some? { OutranksInNumbers(DecisionOf(x.record.value.signed), DecisionOf(y.record.value.signed)); }
    if x.evidence.Some? { StrongerIsLower(y.evidence.value, x.evidence.value); }
  }

  /** And from nothing: what a replica ends with ranks at or above every verified decision of its causal past, and its proof
      is at least as strong as every verified proof of it. */
  lemma RunHoldsBest(c: Crypto, p: Params, n: nat, steps: seq<Step>, r: Replica)
    requires ParamsOk(c, p) && forall i :: 0 <= i < |steps| ==> StepOk(c, p, steps[i])
    requires r in Run(c, p, Fresh(n), steps)
    ensures forall d :: d in r.records ==>
              r.state.record.Some? && AtLeastAsHigh(DecisionOf(r.state.record.value.signed), d)
    ensures forall q :: q in r.proofs ==>
              && r.state.evidence.Some?
              && NoWeaker(DecisionOf(r.state.evidence.value.a), DecisionOf(r.state.evidence.value.b), q.0, q.1)
  {
    hide Run, Fresh, StepOk, Outranks, KeyLess, PairKey, AtLeastAsHigh, NoWeaker, Valid, ParamsOk;
    RunFromNothing(c, p, n, steps);
    assert Good(c, p, r);
    forall d | d in r.records
      ensures r.state.record.Some? && AtLeastAsHigh(DecisionOf(r.state.record.value.signed), d)
    {
      OutranksInNumbers(d, DecisionOf(r.state.record.value.signed));
    }
    forall q | q in r.proofs
      ensures r.state.evidence.Some?
      ensures NoWeaker(DecisionOf(r.state.evidence.value.a), DecisionOf(r.state.evidence.value.b), q.0, q.1)
    {
      KeyInNumbers(DecisionOf(r.state.evidence.value.a), DecisionOf(r.state.evidence.value.b), q.0, q.1);
    }
  }
}
