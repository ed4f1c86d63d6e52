/** Whole gossip runs of a Register: many replicas, candidates from anyone, syncs in any order
    (register/src/merge.rs, register/src/lib.rs). */
module RegisterGossip {
  import opened Options
  import opened Bytes
  import opened Crypto
  import opened RegisterWire
  import opened RegisterCodec
  import opened RegisterMerge

  /** A replica's state, and its causal past: the record decisions and the proven pairs that ever reached it. */
  datatype Replica = Replica(state: RegState, records: set<Decision>, proofs: set<(Decision, Decision)>)

  /** A candidate from anywhere reaches replica `to`; or `to` is handed the state of `from`. */
  datatype Step = Receive(to: nat, cand: RegState) | Sync(to: nat, from: nat)

  function RecordsOf(s: RegState): set<Decision> {
    if s.record.Some? then {DecisionOf(s.record.value.signed)} else {}
  }

  function ProofsOf(s: RegState): set<(Decision, Decision)> {
    if s.evidence.Some? then {(DecisionOf(s.evidence.value.a), DecisionOf(s.evidence.value.b))} else {}
  }

  function Meet(c: Crypto, p: Params, r: Replica, cand: RegState,
                 records: set<Decision>, proofs: set<(Decision, Decision)>): Replica {
    Replica(Absorb(c, p, r.state, cand), r.records + records, r.proofs + proofs)
  }

  function Next(c: Crypto, p: Params, sys: seq<Replica>, step: Step): seq<Replica> {
    if step.to >= |sys| then sys else
    match step
    case Receive(to, cand) =>
      // Only what verifies becomes part of the past.
      sys[to := Meet(c, p, sys[to], cand, RecordsOf(VerifiedRecord(c, p, cand)), ProofsOf(VerifiedEvidence(c, p, cand)))]
    case Sync(to, from) =>
      if from >= |sys| then sys
      else sys[to := Meet(c, p, sys[to], sys[from].state, sys[from].records, sys[from].proofs)]
  }

  function Run(c: Crypto, p: Params, sys: seq<Replica>, steps: seq<Step>): seq<Replica>
    decreases |steps|
  {
    if steps == [] then sys else Run(c, p, Next(c, p, sys, steps[0]), steps[1..])
  }

  /** Every candidate received is one the parser produced; its signatures may be anything. */
  predicate StepOk(c: Crypto, p: Params, step: Step) {
    step.Receive? ==> StateOk(c, p.authority, step.cand)
  }

  // ------------------------------------------------------------------- the invariant

  /** The record decision is the maximum rank in the causal past. */
  predicate HoldsMax(r: Replica) {
    && (r.state.record.None? <==> r.records == {})
    && (r.state.record.Some? ==>
          var d := DecisionOf(r.state.record.value.signed);
          d in r.records && forall e :: e in r.records ==> !Outranks(e, d))
  }

  /** The evidence pairs two conflicting decisions from the past: two records that reached this replica, or a proof
      that did. And it is at or below every proof that did. */
  predicate HoldsProof(r: Replica) {
    && (r.state.evidence.Some? ==>
          var a, b := DecisionOf(r.state.evidence.value.a), DecisionOf(r.state.evidence.value.b);
          Conflicts(a, b) && ((a, b) in r.proofs || (a in r.records && b in r.records)))
    && (forall q :: q in r.proofs ==>
          r.state.evidence.Some? && !KeyLess(PairKey(q.0, q.1), KeyOf(r.state.evidence.value)))
  }

  predicate Good(c: Crypto, p: Params, r: Replica) {
    Valid(c, p, r.state) && HoldsMax(r) && HoldsProof(r)
  }

  predicate AllGood(c: Crypto, p: Params, sys: seq<Replica>) {
    forall r :: r in sys ==> Good(c, p, r)
  }

  /** What meeting a candidate does to the record and to the evidence. */
  lemma AbsorbView(c: Crypto, p: Params, held: RegState, cand: RegState)
    ensures var v := VerifiedRecord(c, p, cand);
            var e := VerifiedEvidence(c, p, cand);
            var r := Absorb(c, p, held, cand);
            && r.record == MaxRecord(held.record, v.record)
            && r.evidence == MinEvidence(MinEvidence(held.evidence, Detect(held, v).evidence), e.evidence)
  {
    AbsorbIsUpdates(c, p, held, cand);
    hide VerifySigned, VerifyEvidence, Outranks, KeyLess, KeyOf, NewEvidence, DecisionOf, Absorb;
  }

  lemma MeetHoldsMax(c: Crypto, p: Params, r: Replica, cand: RegState,
                 records: set<Decision>, proofs: set<(Decision, Decision)>)
    requires HoldsMax(r) && HoldsMax(Replica(VerifiedRecord(c, p, cand), records, {}))
    ensures HoldsMax(Meet(c, p, r, cand, records, proofs))
  {
    AbsorbView(c, p, r.state, cand);
    var v := VerifiedRecord(c, p, cand);
    hide Absorb, VerifiedRecord, VerifiedEvidence, Outranks, Detect, MinEvidence;
    if v.record.Some? && r.state.record.Some? {
      var x, y := DecisionOf(r.state.record.value.signed), DecisionOf(v.record.value.signed);
      OutranksTotal(x, y);
      forall e | e in r.records + records
        ensures !Outranks(e, if Outranks(y, x) then y else x)
      {
        if Outranks(y, x) && Outranks(e, y) { OutranksTransitive(e, y, x); }
        if Outranks(x, y) && Outranks(e, x) { OutranksTransitive(e, x, y); }
      }
    }
  }

  /** The lower of two proofs stays at or below everything either was at or below. */
  lemma MinEvidenceLow(x: Option<Evidence>, y: Option<Evidence>, k: Key)
    requires (x.Some? && !KeyLess(k, KeyOf(x.value))) || (y.Some? && !KeyLess(k, KeyOf(y.value)))
    ensures var m := MinEvidence(x, y); m.Some? && !KeyLess(k, KeyOf(m.value))
  {
    hide KeyLess, KeyOf;
    if x.Some? && y.Some? {
      var a, b := KeyOf(x.value), KeyOf(y.value);
      KeyTotal(a, b);
      if KeyLess(k, b) && KeyLess(b, a) { KeyTransitive(k, b, a); }
      if KeyLess(k, a) && KeyLess(a, b) { KeyTransitive(k, a, b); }
    }
  }

  lemma MinEvidenceIsOne(x: Option<Evidence>, y: Option<Evidence>)
    ensures MinEvidence(x, y) == x || MinEvidence(x, y) == y
    ensures MinEvidence(x, y).None? <==> x.None? && y.None?
  {
  }

  predicate Witnessed(e: Option<Evidence>, records: set<Decision>, proofs: set<(Decision, Decision)>) {
    e.Some? ==>
      var a, b := DecisionOf(e.value.a), DecisionOf(e.value.b);
      Conflicts(a, b) && ((a, b) in proofs || (a in records && b in records))
  }

  lemma DetectedIsWitnessed(x: RegState, y: RegState, records: set<Decision>, proofs: set<(Decision, Decision)>)
    requires RecordsOf(x) <= records && RecordsOf(y) <= records
    ensures Witnessed(Detect(x, y).evidence, records, proofs)
  {
    if x.record.Some? && y.record.Some? {
      PairKeySymmetric(DecisionOf(x.record.value.signed), DecisionOf(y.record.value.signed));
    }
  }

  lemma MeetHoldsProof(c: Crypto, p: Params, r: Replica, cand: RegState,
                 records: set<Decision>, proofs: set<(Decision, Decision)>)
    requires HoldsMax(r) && HoldsProof(r)
    requires RecordsOf(VerifiedRecord(c, p, cand)) <= records
    requires HoldsProof(Replica(VerifiedEvidence(c, p, cand), records, proofs))
    ensures HoldsProof(Meet(c, p, r, cand, records, proofs))
  {
    AbsorbView(c, p, r.state, cand);
    var d := Detect(r.state, VerifiedRecord(c, p, cand)).evidence;
    var e := VerifiedEvidence(c, p, cand).evidence;
    var m := MinEvidence(r.state.evidence, d);
    var allR, allP := r.records + records, r.proofs + proofs;
    DetectedIsWitnessed(r.state, VerifiedRecord(c, p, cand), allR, allP);
    MinEvidenceIsOne(r.state.evidence, d);
    MinEvidenceIsOne(m, e);
    assert Witnessed(r.state.evidence, allR, allP) && Witnessed(e, allR, allP);
    hide Absorb, VerifiedRecord, VerifiedEvidence, Detect, MinEvidence, KeyLess, KeyOf, Conflicts;
    forall q | q in allP
      ensures MinEvidence(m, e).Some? && !KeyLess(PairKey(q.0, q.1), KeyOf(MinEvidence(m, e).value))
    {
      if q in r.proofs { MinEvidenceLow(r.state.evidence, d, PairKey(q.0, q.1)); }
      MinEvidenceLow(m, e, PairKey(q.0, q.1));
    }
  }

  lemma MeetGood(c: Crypto, p: Params, r: Replica, cand: RegState,
                 records: set<Decision>, proofs: set<(Decision, Decision)>)
    requires ParamsOk(c, p) && Good(c, p, r) && StateOk(c, p.authority, cand)
    requires HoldsMax(Replica(VerifiedRecord(c, p, cand), records, {}))
    requires HoldsProof(Replica(VerifiedEvidence(c, p, cand), records, proofs))
    ensures Good(c, p, Meet(c, p, r, cand, records, proofs))
  {
    MeetHoldsMax(c, p, r, cand, records, proofs);
    MeetHoldsProof(c, p, r, cand, records, proofs);
    AbsorbCloses(c, p, r.state, cand);
  }

  lemma NextGood(c: Crypto, p: Params, sys: seq<Replica>, step: Step)
    requires ParamsOk(c, p) && AllGood(c, p, sys) && StepOk(c, p, step)
    ensures AllGood(c, p, Next(c, p, sys, step))
  {
    if step.to < |sys| {
      var r := sys[step.to];
      assert r in sys;
      match step
      case Receive(to, cand) =>
        OutranksSelf(VerifiedRecord(c, p, cand));
        KeySelf(VerifiedEvidence(c, p, cand));
        hide Good, Absorb, Outranks, KeyLess;
        MeetGood(c, p, r, cand, RecordsOf(VerifiedRecord(c, p, cand)), ProofsOf(VerifiedEvidence(c, p, cand)));
      case Sync(to, from) =>
        if from < |sys| {
          var o := sys[from];
          assert o in sys;
          assert VerifiedRecord(c, p, o.state) == RegState(o.state.record, None);
          assert VerifiedEvidence(c, p, o.state) == RegState(None, o.state.evidence);
          MeetGood(c, p, r, o.state, o.records, o.proofs);
        }
    }
  }

  lemma OutranksSelf(s: RegState)
    ensures HoldsMax(Replica(s, RecordsOf(s), {}))
  {
    if s.record.Some? { OutranksTotal(DecisionOf(s.record.value.signed), DecisionOf(s.record.value.signed)); }
  }

  lemma KeySelf(s: RegState)
    requires s.evidence.Some? ==> Conflicts(DecisionOf(s.evidence.value.a), DecisionOf(s.evidence.value.b))
    ensures forall records :: HoldsProof(Replica(s, records, ProofsOf(s)))
  {
    if s.evidence.Some? { KeyTotal(KeyOf(s.evidence.value), KeyOf(s.evidence.value)); }
  }

  // ------------------------------------------------------------------- over whole runs

  /** After ANY run of candidates and syncs: every replica's state is fully verified, its record decision is the
      maximum of its causal past, and its evidence pairs two conflicting decisions from that past. */
  lemma {:induction false} RunGood(c: Crypto, p: Params, sys: seq<Replica>, steps: seq<Step>)
    requires ParamsOk(c, p) && AllGood(c, p, sys)
    requires forall i :: 0 <= i < |steps| ==> StepOk(c, p, steps[i])
    ensures AllGood(c, p, Run(c, p, sys, steps)) && |Run(c, p, sys, steps)| == |sys|
    decreases |steps|
  {
    if steps != [] {
      NextGood(c, p, sys, steps[0]);
      hide AllGood, Next;
      assert |Next(c, p, sys, steps[0])| == |sys| by { NextSize(c, p, sys, steps[0]); }
      RunGood(c, p, Next(c, p, sys, steps[0]), steps[1..]);
    }
  }

  /** `n` replicas that have seen nothing. */
  function Fresh(n: nat): seq<Replica> {
    if n == 0 then [] else [Replica(RegState(None, None), {}, {})] + Fresh(n - 1)
  }

  lemma {:induction false} FreshGood(c: Crypto, p: Params, n: nat)
    ensures AllGood(c, p, Fresh(n)) && |Fresh(n)| == n
  {
    if n > 0 { FreshGood(c, p, n - 1); }
  }

  /** The same from nothing. */
  lemma RunFromNothing(c: Crypto, p: Params, n: nat, steps: seq<Step>)
    requires ParamsOk(c, p) && forall i :: 0 <= i < |steps| ==> StepOk(c, p, steps[i])
    ensures AllGood(c, p, Run(c, p, Fresh(n), steps))
  {
    FreshGood(c, p, n);
    hide AllGood, StepOk, Fresh, Run;
    RunGood(c, p, Fresh(n), steps);
  }

  lemma NextSize(c: Crypto, p: Params, sys: seq<Replica>, step: Step)
    ensures |Next(c, p, sys, step)| == |sys|
  {
  }

  /** What no later step undoes: a proof stays and its key never rises; a decision is never outranked by what
      replaces it backwards; a terminal record stays terminal, and if its value ever changes the fork is proved. */
  ghost predicate Stands(x: RegState, y: RegState) {
    && (x.evidence.Some? ==> y.evidence.Some? && !KeyLess(KeyOf(x.evidence.value), KeyOf(y.evidence.value)))
    && (x.record.Some? ==>
          y.record.Some? && !Outranks(DecisionOf(x.record.value.signed), DecisionOf(y.record.value.signed)))
    && (x.record.Some? && x.record.value.signed.terminal ==>
          && y.record.value.signed.terminal
          && (y.record.value.signed.valueHash != x.record.value.signed.valueHash ==> y.evidence.Some?))
  }

  lemma StandsTransitive(x: RegState, y: RegState, z: RegState)
    requires Stands(x, y) && Stands(y, z)
    ensures Stands(x, z)
  {
    if x.evidence.Some? {
      var a, b, d := KeyOf(x.evidence.value), KeyOf(y.evidence.value), KeyOf(z.evidence.value);
      KeyTotal(a, b);
      KeyTotal(b, d);
      if KeyLess(a, d) && KeyLess(d, b) { KeyTransitive(a, d, b); }
    }
    if x.record.Some? {
      var a, b, d := DecisionOf(x.record.value.signed), DecisionOf(y.record.value.signed), DecisionOf(z.record.value.signed);
      OutranksTotal(a, b);
      OutranksTotal(b, d);
      hide KeyOf, KeyLess;
      if Outranks(a, d) && Outranks(d, b) { OutranksTransitive(a, d, b); }
    }
  }

  lemma UpdateStands(x: RegState, y: RegState)
    ensures Stands(x, Update(x, y))
  {
    if x.evidence.Some? { EvidenceSticks(x, y); }
    if x.record.Some? {
      OutranksTotal(DecisionOf(x.record.value.signed), DecisionOf(x.record.value.signed));
      if y.record.Some? { OutranksTotal(DecisionOf(x.record.value.signed), DecisionOf(y.record.value.signed)); }
    }
    hide KeyLess, KeyOf;
  }

  lemma {:induction false} RunStands(c: Crypto, p: Params, sys: seq<Replica>, steps: seq<Step>, i: nat)
    requires i < |sys|
    ensures |Run(c, p, sys, steps)| == |sys|
    ensures Stands(sys[i].state, Run(c, p, sys, steps)[i].state)
    decreases |steps|
  {
    if steps == [] {
      UpdateStands(sys[i].state, RegState(None, None));
      UpdateEmpty(sys[i].state);
    } else {
      var next := Next(c, p, sys, steps[0]);
      NextSize(c, p, sys, steps[0]);
      NextStands(c, p, sys, steps[0], i);
      hide Next, Stands;
      RunStands(c, p, next, steps[1..], i);
      StandsTransitive(sys[i].state, next[i].state, Run(c, p, sys, steps)[i].state);
    }
  }

  lemma NextStands(c: Crypto, p: Params, sys: seq<Replica>, step: Step, i: nat)
    requires i < |sys|
    ensures |Next(c, p, sys, step)| == |sys| && Stands(sys[i].state, Next(c, p, sys, step)[i].state)
  {
    var x := sys[i].state;
    UpdateStands(x, RegState(None, None));
    UpdateEmpty(x);
    var cand := if step.Receive? then step.cand else if step.from < |sys| then sys[step.from].state else RegState(None, None);
    AbsorbIsUpdates(c, p, x, cand);
    UpdateStands(x, VerifiedRecord(c, p, cand));
    UpdateStands(Update(x, VerifiedRecord(c, p, cand)), VerifiedEvidence(c, p, cand));
    StandsTransitive(x, Update(x, VerifiedRecord(c, p, cand)), Absorb(c, p, x, cand));
    hide Stands, Absorb, Update;
  }

  // --------------------------------------------------------------------- convergence

  /** Replicas with one causal past hold one decision, whatever order it reached them in. */
  lemma SamePastSameDecision(c: Crypto, p: Params, r: Replica, q: Replica)
    requires Good(c, p, r) && Good(c, p, q) && r.records == q.records
    ensures ViewOf(r.state).decision == ViewOf(q.state).decision
  {
    if r.state.record.Some? {
      OutranksTotal(DecisionOf(r.state.record.value.signed), DecisionOf(q.state.record.value.signed));
    }
  }

  /** When an exchange between two replicas, each way, changes what neither says, they say the same. */
  lemma QuietPairAgrees(c: Crypto, p: Params, x: RegState, y: RegState)
    requires VerifyState(c, p, x) && VerifyState(c, p, y)
    requires ViewOf(Absorb(c, p, x, y)) == ViewOf(x) && ViewOf(Absorb(c, p, y, x)) == ViewOf(y)
    ensures ViewOf(x) == ViewOf(y)
  {
    AbsorbAgreesWithEager(c, p, x, y);
    AbsorbAgreesWithEager(c, p, y, x);
    UpdateDecision(x, y);
    UpdateDecision(y, x);
    var vx, vy := ViewOf(x), ViewOf(y);
    var dx, dy := ViewOf(Detect(x, y)).key, ViewOf(Detect(y, x)).key;
    MaxDecisionLaws(vx.decision, vy.decision, None);
    hide ViewOf, Update, Absorb, Detect, Outranks, KeyLess, VerifyState;
    LowestOfThree(vx.key, vy.key, dx);
    LowestOfThree(vy.key, vx.key, dy);
    MinKeyLaws(vx.key, vy.key, None);
  }

  /** A minimum of three that equals the first is already the minimum of the first two. */
  lemma LowestOfThree(x: Option<Key>, y: Option<Key>, z: Option<Key>)
    requires MinKey(MinKey(x, y), z) == x
    ensures MinKey(x, y) == x
  {
    var m := MinKey(x, y);
    MinKeyLaws(x, y, y);
    MinKeyLaws(y, y, y);
    MinKeyLaws(m, z, y);
    MinKeyLaws(m, y, z);
    MinKeyLaws(z, y, z);
    hide MinKey;
  }

  /** Quiescence is agreement: when no exchange between any two replicas changes what either says, all replicas hold
      one decision and one evidence key. */
  lemma QuietSystemAgrees(c: Crypto, p: Params, sys: seq<Replica>)
    requires AllGood(c, p, sys)
    requires forall i, j :: 0 <= i < |sys| && 0 <= j < |sys| ==>
      ViewOf(Absorb(c, p, sys[i].state, sys[j].state)) == ViewOf(sys[i].state)
    ensures forall i, j :: 0 <= i < |sys| && 0 <= j < |sys| ==> ViewOf(sys[i].state) == ViewOf(sys[j].state)
  {
    forall i, j | 0 <= i < |sys| && 0 <= j < |sys| ensures ViewOf(sys[i].state) == ViewOf(sys[j].state) {
      assert sys[i] in sys && sys[j] in sys;
      QuietPairAgrees(c, p, sys[i].state, sys[j].state);
    }
  }

  /** Once two replicas hold one decision, an exchange is the join: no new evidence can come of it, so from then on
      gossip is a semilattice and only the lowest proof spreads. */
  lemma AgreedExchangeIsJoin(c: Crypto, p: Params, x: RegState, y: RegState)
    requires VerifyState(c, p, y) && ViewOf(x).decision == ViewOf(y).decision
    ensures ViewOf(Absorb(c, p, x, y)) == JoinView(ViewOf(x), ViewOf(y))
  {
    AbsorbAgreesWithEager(c, p, x, y);
    UpdateDecision(x, y);
  }

  // ------------------------------------------------------------- quiet is reached

  /** Replica 0 takes in every other replica's state, one by one; then hands its own to each of them. */
  function GatherFrom(i: nat, n: nat): seq<Step>
    decreases n - i
  {
    if i >= n then [] else [Sync(0, i)] + GatherFrom(i + 1, n)
  }

  function ScatterFrom(i: nat, n: nat): seq<Step>
    decreases n - i
  {
    if i >= n then [] else [Sync(i, 0)] + ScatterFrom(i + 1, n)
  }

  /** One round: gather, then scatter. */
  function Round(c: Crypto, p: Params, sys: seq<Replica>): seq<Replica> {
    Run(c, p, Run(c, p, sys, GatherFrom(1, |sys|)), ScatterFrom(1, |sys|))
  }

  lemma RunFirst(c: Crypto, p: Params, sys: seq<Replica>, step: Step, rest: seq<Step>)
    ensures Run(c, p, sys, [step] + rest) == Run(c, p, Next(c, p, sys, step), rest)
  {
    assert ([step] + rest)[1..] == rest;
    hide Next;
  }

  /** What one exchange does to the view of the replica that receives, and to no other. */
  lemma SyncView(c: Crypto, p: Params, sys: seq<Replica>, to: nat, from: nat)
    requires ParamsOk(c, p) && AllGood(c, p, sys) && to < |sys| && from < |sys|
    ensures var next := Next(c, p, sys, Sync(to, from));
            && |next| == |sys| && AllGood(c, p, next)
            && (forall j :: 0 <= j < |sys| && j != to ==> next[j] == sys[j])
            && ViewOf(next[to].state) == UpdateView(ViewOf(sys[to].state), ViewOf(sys[from].state))
  {
    assert sys[to] in sys && sys[from] in sys;
    NextGood(c, p, sys, Sync(to, from));
    AbsorbAgreesWithEager(c, p, sys[to].state, sys[from].state);
    UpdateViews(sys[to].state, sys[from].state);
    hide Absorb, Update, ViewOf, UpdateView, AllGood;
  }

  ghost predicate DecisionAtLeast(x: View, y: View) {
    MaxDecision(x.decision, y.decision) == x.decision
  }

  ghost predicate KeyAtMost(x: View, y: View) {
    MinKey(x.key, y.key) == x.key
  }

  /** What an update leaves is at least both sides' decision, and at most both sides' key. */
  lemma UpdateBounds(x: View, y: View, z: View)
    ensures DecisionAtLeast(UpdateView(x, y), y)
    ensures DecisionAtLeast(x, z) ==> DecisionAtLeast(UpdateView(x, y), z)
    ensures KeyAtMost(UpdateView(x, y), y)
    ensures KeyAtMost(x, z) ==> KeyAtMost(UpdateView(x, y), z)
  {
    var f := ForkKey(x.decision, y.decision);
    hide MaxDecision, MinKey, ForkKey;
    MaxDecisionLaws(x.decision, y.decision, y.decision);
    MaxDecisionLaws(y.decision, y.decision, y.decision);
    MaxDecisionLaws(x.decision, y.decision, z.decision);
    MaxDecisionLaws(y.decision, x.decision, z.decision);
    MinKeyLaws(MinKey(x.key, y.key), f, y.key);
    MinKeyLaws(f, y.key, y.key);
    MinKeyLaws(x.key, y.key, y.key);
    MinKeyLaws(MinKey(x.key, y.key), y.key, f);
    MinKeyLaws(y.key, y.key, y.key);
    MinKeyLaws(MinKey(x.key, y.key), f, z.key);
    MinKeyLaws(f, z.key, z.key);
    MinKeyLaws(MinKey(x.key, y.key), z.key, f);
    MinKeyLaws(x.key, y.key, z.key);
    MinKeyLaws(y.key, z.key, z.key);
    MinKeyLaws(y.key, x.key, z.key);
  }

  lemma SelfBounds(x: View)
    ensures DecisionAtLeast(x, x) && KeyAtMost(x, x)
  {
    MaxDecisionLaws(x.decision, x.decision, x.decision);
    MinKeyLaws(x.key, x.key, x.key);
  }

  /** Gathering moves replica 0 only, to at least every decision and at most every key it met. */
  lemma {:induction false} Gathers(c: Crypto, p: Params, sys: seq<Replica>, i: nat)
    requires ParamsOk(c, p) && AllGood(c, p, sys) && 1 <= i <= |sys|
    ensures var r := Run(c, p, sys, GatherFrom(i, |sys|));
            && |r| == |sys| && AllGood(c, p, r)
            && (forall j :: 1 <= j < |sys| ==> r[j] == sys[j])
            && (forall v :: DecisionAtLeast(ViewOf(sys[0].state), v) ==> DecisionAtLeast(ViewOf(r[0].state), v))
            && (forall v :: KeyAtMost(ViewOf(sys[0].state), v) ==> KeyAtMost(ViewOf(r[0].state), v))
            && (forall j :: i <= j < |sys| ==> DecisionAtLeast(ViewOf(r[0].state), ViewOf(sys[j].state))
                                               && KeyAtMost(ViewOf(r[0].state), ViewOf(sys[j].state)))
    decreases |sys| - i
  {
    hide AllGood, ViewOf, UpdateView, DecisionAtLeast, KeyAtMost, Next;
    if i < |sys| {
      var next := Next(c, p, sys, Sync(0, i));
      SyncView(c, p, sys, 0, i);
      RunFirst(c, p, sys, Sync(0, i), GatherFrom(i + 1, |sys|));
      Gathers(c, p, next, i + 1);
      var x, y := ViewOf(sys[0].state), ViewOf(sys[i].state);
      UpdateBounds(x, y, y);
      forall v ensures DecisionAtLeast(x, v) ==> DecisionAtLeast(UpdateView(x, y), v)
               ensures KeyAtMost(x, v) ==> KeyAtMost(UpdateView(x, y), v) { UpdateBounds(x, y, v); }
    }
  }

  /** Scattering gives each replica what an exchange with replica 0 gives it, and leaves replica 0 alone. */
  lemma {:induction false} Scatters(c: Crypto, p: Params, sys: seq<Replica>, i: nat)
    requires ParamsOk(c, p) && AllGood(c, p, sys) && 1 <= i <= |sys|
    ensures var r := Run(c, p, sys, ScatterFrom(i, |sys|));
            && |r| == |sys| && AllGood(c, p, r)
            && (forall j :: 0 <= j < i ==> r[j] == sys[j])
            && (forall j :: i <= j < |sys| ==>
                  ViewOf(r[j].state) == UpdateView(ViewOf(sys[j].state), ViewOf(sys[0].state)))
    decreases |sys| - i
  {
    hide AllGood, ViewOf, UpdateView, Next;
    if i < |sys| {
      var next := Next(c, p, sys, Sync(i, 0));
      SyncView(c, p, sys, i, 0);
      RunFirst(c, p, sys, Sync(i, 0), ScatterFrom(i + 1, |sys|));
      Scatters(c, p, next, i + 1);
    }
  }

  lemma UpdateToHighest(x: View, top: View)
    requires DecisionAtLeast(top, x)
    ensures UpdateView(x, top).decision == top.decision
  {
    MaxDecisionLaws(x.decision, top.decision, None);
  }

  lemma NoForkWithOneself(d: Option<Decision>)
    ensures ForkKey(d, d) == None
  {
  }

  lemma UpdateToLowest(x: View, top: View)
    requires x.decision == top.decision && KeyAtMost(top, x)
    ensures UpdateView(x, top) == top
  {
    MaxDecisionLaws(x.decision, top.decision, None);
    MinKeyLaws(x.key, top.key, None);
    NoForkWithOneself(x.decision);
  }

  ghost predicate OneDecision(sys: seq<Replica>) {
    forall j :: 0 <= j < |sys| ==> ViewOf(sys[j].state).decision == ViewOf(sys[0].state).decision
  }

  ghost predicate OneView(sys: seq<Replica>) {
    forall j :: 0 <= j < |sys| ==> ViewOf(sys[j].state) == ViewOf(sys[0].state)
  }

  /** One round settles the decision. */
  lemma FirstRound(c: Crypto, p: Params, sys: seq<Replica>)
    requires ParamsOk(c, p) && AllGood(c, p, sys) && sys != []
    ensures var r := Round(c, p, sys); |r| == |sys| && AllGood(c, p, r) && OneDecision(r)
  {
    hide AllGood, ViewOf, UpdateView, DecisionAtLeast, KeyAtMost, Run;
    var g := Run(c, p, sys, GatherFrom(1, |sys|));
    Gathers(c, p, sys, 1);
    Scatters(c, p, g, 1);
    var r := Round(c, p, sys);
    forall j | 1 <= j < |sys| ensures ViewOf(r[j].state).decision == ViewOf(r[0].state).decision {
      UpdateToHighest(ViewOf(g[j].state), ViewOf(g[0].state));
    }
  }

  /** From one decision, another round settles the proof. */
  lemma SecondRound(c: Crypto, p: Params, sys: seq<Replica>)
    requires ParamsOk(c, p) && AllGood(c, p, sys) && sys != [] && OneDecision(sys)
    ensures var r := Round(c, p, sys); |r| == |sys| && AllGood(c, p, r) && OneView(r)
  {
    var g := Run(c, p, sys, GatherFrom(1, |sys|));
    var r := Round(c, p, sys);
    GatherKeepsDecision(c, p, sys, 1);
    hide AllGood, ViewOf, UpdateView, DecisionAtLeast, KeyAtMost, Run;
    Gathers(c, p, sys, 1);
    Scatters(c, p, g, 1);
    forall j | 1 <= j < |sys| ensures ViewOf(r[j].state) == ViewOf(r[0].state) {
      UpdateToLowest(ViewOf(g[j].state), ViewOf(g[0].state));
    }
  }

  lemma {:induction false} GatherKeepsDecision(c: Crypto, p: Params, sys: seq<Replica>, i: nat)
    requires ParamsOk(c, p) && AllGood(c, p, sys) && 1 <= i <= |sys| && OneDecision(sys)
    ensures |Run(c, p, sys, GatherFrom(i, |sys|))| == |sys|
    ensures ViewOf(Run(c, p, sys, GatherFrom(i, |sys|))[0].state).decision == ViewOf(sys[0].state).decision
    decreases |sys| - i
  {
    hide AllGood, ViewOf, Next;
    if i < |sys| {
      SyncView(c, p, sys, 0, i);
      MaxDecisionLaws(ViewOf(sys[0].state).decision, ViewOf(sys[0].state).decision, None);
      RunFirst(c, p, sys, Sync(0, i), GatherFrom(i + 1, |sys|));
      GatherKeepsDecision(c, p, Next(c, p, sys, Sync(0, i)), i + 1);
    }
  }

  /** Quiet IS reached, from any state of any run: after two gather-and-scatter rounds - four exchanges a replica - no
      exchange between any two replicas changes anything, byte for byte, and all say the same. */
  lemma TwoRoundsAreQuiet(c: Crypto, p: Params, sys: seq<Replica>)
    requires ParamsOk(c, p) && AllGood(c, p, sys) && sys != []
    ensures var r := Round(c, p, Round(c, p, sys));
            && |r| == |sys| && OneView(r)
            && forall i, j :: 0 <= i < |r| && 0 <= j < |r| ==> Absorb(c, p, r[i].state, r[j].state) == r[i].state
  {
    hide AllGood, Round, Absorb;
    FirstRound(c, p, sys);
    SecondRound(c, p, Round(c, p, sys));
    var r := Round(c, p, Round(c, p, sys));
    forall i, j | 0 <= i < |r| && 0 <= j < |r| ensures Absorb(c, p, r[i].state, r[j].state) == r[i].state {
      SecondWitnessIsNoOp(c, p, r[i].state, r[j].state);
    }
  }
}
