/** The Register's merge: a join of what two replicas hold, and the proof of any fork it notices (register/src/merge.rs),
    and the late-verifying `absorb` (register/src/lib.rs). */
module RegisterMerge {
  import opened Options
  import opened Bytes
  import opened Crypto
  import opened RegisterWire
  import opened RegisterCodec
  import opened Sample

  // ------------------------------------------------------------------ evidence keys

  datatype Key = Key(notTerminal: bool, lowSeq: u64, highSeq: u64, lowHash: Bytes32, highHash: Bytes32)

  function LowHash(x: Bytes32, y: Bytes32): Bytes32 {
    if Lex(y, x) then y else x
  }

  function HighHash(x: Bytes32, y: Bytes32): Bytes32 {
    if Lex(y, x) then x else y
  }

  /** The numbers of a pair, each sorted on its own: whether both ended the register, the two seqs, the two hashes. */
  function PairKey(x: Decision, y: Decision): Key {
    Key(!(x.terminal && y.terminal), Min(x.seq_, y.seq_), if x.seq_ <= y.seq_ then y.seq_ else x.seq_,
        LowHash(x.valueHash, y.valueHash), HighHash(x.valueHash, y.valueHash))
  }

  function KeyOf(e: Evidence): Key {
    PairKey(DecisionOf(e.a), DecisionOf(e.b))
  }

  predicate KeyLess(x: Key, y: Key) {
    if x.notTerminal != y.notTerminal then y.notTerminal
    else if x.lowSeq != y.lowSeq then x.lowSeq < y.lowSeq
    else if x.highSeq != y.highSeq then x.highSeq < y.highSeq
    else if x.lowHash != y.lowHash then Lex(x.lowHash, y.lowHash)
    else Lex(x.highHash, y.highHash)
  }

  lemma KeyTotal(x: Key, y: Key)
    ensures KeyLess(x, y) || x == y || KeyLess(y, x)
    ensures !(KeyLess(x, y) && KeyLess(y, x))
    ensures !KeyLess(x, x)
  {
    LexTotal(x.lowHash, y.lowHash);
    LexTotal(x.highHash, y.highHash);
    LexTotal(x.highHash, x.highHash);
  }

  lemma KeyTransitive(x: Key, y: Key, z: Key)
    requires KeyLess(x, y) && KeyLess(y, z)
    ensures KeyLess(x, z)
  {
    LexTotal(x.lowHash, y.lowHash);
    if Lex(x.lowHash, y.lowHash) && Lex(y.lowHash, z.lowHash) {
      LexTransitive(x.lowHash, y.lowHash, z.lowHash);
      LexTotal(x.lowHash, z.lowHash);
    }
    if Lex(x.highHash, y.highHash) && Lex(y.highHash, z.highHash) { LexTransitive(x.highHash, y.highHash, z.highHash); }
  }

  /** A pair has one key whichever side it is read from, so replicas that notice one fork prefer one proof. */
  lemma PairKeySymmetric(x: Decision, y: Decision)
    ensures PairKey(x, y) == PairKey(y, x)
    ensures Conflicts(x, y) == Conflicts(y, x)
  {
    LexTotal(x.valueHash, y.valueHash);
  }

  /** Exactly what a key remembers of a pair: whether both ends are terminal, the two seqs and the two hashes -
      but not which seq goes with which hash. */
  lemma KeyMeaning(x: Decision, y: Decision, u: Decision, v: Decision)
    ensures PairKey(x, y) == PairKey(u, v) <==>
            && ((x.terminal && y.terminal) == (u.terminal && v.terminal))
            && multiset{x.seq_, y.seq_} == multiset{u.seq_, v.seq_}
            && multiset{x.valueHash, y.valueHash} == multiset{u.valueHash, v.valueHash}
  {
    LexTotal(x.valueHash, y.valueHash);
    LexTotal(u.valueHash, v.valueHash);
    TwoOf(x.seq_, y.seq_, u.seq_, v.seq_);
    TwoOf(x.valueHash, y.valueHash, u.valueHash, v.valueHash);
  }

  lemma TwoOf<T>(a: T, b: T, c: T, d: T)
    ensures multiset{a, b} == multiset{c, d} <==> (a == c && b == d) || (a == d && b == c)
  {
    if multiset{a, b} == multiset{c, d} {
      assert a in multiset{c, d} && b in multiset{c, d} && c in multiset{a, b} && d in multiset{a, b};
      if a == b { assert multiset{a, b}[a] == 2; }
      if c == d { assert multiset{c, d}[c] == 2; }
    }
  }

  // -------------------------------------------------------------------------- merge

  /** The record whose decision ranks higher. Of two witnesses of one decision the left one stays, and a host passes what
      it holds on the left. */
  function MaxRecord(x: Option<Record>, y: Option<Record>): Option<Record> {
    if x.Some? && y.Some? then
      if Outranks(DecisionOf(y.value.signed), DecisionOf(x.value.signed)) then y else x
    else if x.Some? then x else y
  }

  function MinEvidence(x: Option<Evidence>, y: Option<Evidence>): Option<Evidence> {
    if x.Some? && y.Some? then
      if KeyLess(KeyOf(y.value), KeyOf(x.value)) then y else x
    else if x.Some? then x else y
  }

  function Join(x: RegState, y: RegState): RegState {
    RegState(MaxRecord(x.record, y.record), MinEvidence(x.evidence, y.evidence))
  }

  /** The proof two records make, if they conflict: no other function makes one. */
  function Detect(x: RegState, y: RegState): RegState {
    RegState(None,
             if x.record.Some? && y.record.Some? then NewEvidence(x.record.value.signed, y.record.value.signed) else None)
  }

  function Update(x: RegState, y: RegState): RegState {
    Join(Join(x, y), Detect(x, y))
  }

  // --------------------------------------------------------------------------- laws

  /** What replicas compare: the record's decision and the evidence's KEY. */
  datatype View = View(decision: Option<Decision>, key: Option<Key>)

  function ViewOf(s: RegState): View {
    View(if s.record.Some? then Some(DecisionOf(s.record.value.signed)) else None,
         if s.evidence.Some? then Some(KeyOf(s.evidence.value)) else None)
  }

  function MaxDecision(x: Option<Decision>, y: Option<Decision>): Option<Decision> {
    if x.Some? && y.Some? then (if Outranks(y.value, x.value) then y else x) else if x.Some? then x else y
  }

  function MinKey(x: Option<Key>, y: Option<Key>): Option<Key> {
    if x.Some? && y.Some? then (if KeyLess(y.value, x.value) then y else x) else if x.Some? then x else y
  }

  function JoinView(x: View, y: View): View {
    View(MaxDecision(x.decision, y.decision), MinKey(x.key, y.key))
  }

  lemma MaxDecisionLaws(x: Option<Decision>, y: Option<Decision>, z: Option<Decision>)
    ensures MaxDecision(x, y) == MaxDecision(y, x)
    ensures MaxDecision(MaxDecision(x, y), z) == MaxDecision(x, MaxDecision(y, z))
    ensures MaxDecision(x, x) == x
  {
    hide Outranks;
    if x.Some? && y.Some? { OutranksTotal(x.value, y.value); }
    if y.Some? && z.Some? { OutranksTotal(y.value, z.value); }
    if x.Some? && z.Some? { OutranksTotal(x.value, z.value); }
    if x.Some? && y.Some? && z.Some? {
      if Outranks(z.value, y.value) && Outranks(y.value, x.value) { OutranksTransitive(z.value, y.value, x.value); }
      if Outranks(x.value, y.value) && Outranks(y.value, z.value) { OutranksTransitive(x.value, y.value, z.value); }
    }
  }

  lemma MinKeyLaws(x: Option<Key>, y: Option<Key>, z: Option<Key>)
    ensures MinKey(x, y) == MinKey(y, x)
    ensures MinKey(MinKey(x, y), z) == MinKey(x, MinKey(y, z))
    ensures MinKey(x, x) == x
  {
    hide KeyLess;
    if x.Some? && y.Some? { KeyTotal(x.value, y.value); }
    if y.Some? && z.Some? { KeyTotal(y.value, z.value); }
    if x.Some? && z.Some? { KeyTotal(x.value, z.value); }
    if x.Some? && y.Some? && z.Some? {
      if KeyLess(z.value, y.value) && KeyLess(y.value, x.value) { KeyTransitive(z.value, y.value, x.value); }
      if KeyLess(x.value, y.value) && KeyLess(y.value, z.value) { KeyTransitive(x.value, y.value, z.value); }
    }
  }

  lemma JoinViews(x: RegState, y: RegState)
    ensures ViewOf(Join(x, y)) == JoinView(ViewOf(x), ViewOf(y))
  {
    hide Outranks, KeyLess, KeyOf, DecisionOf;
  }

  /** The join is a semilattice on decisions and evidence keys - and idempotent on the bytes. */
  lemma JoinLaws(x: RegState, y: RegState, z: RegState)
    ensures ViewOf(Join(x, y)) == ViewOf(Join(y, x))
    ensures ViewOf(Join(Join(x, y), z)) == ViewOf(Join(x, Join(y, z)))
    ensures Join(x, x) == x
  {
    var vx, vy, vz := ViewOf(x), ViewOf(y), ViewOf(z);
    JoinViews(x, y);
    JoinViews(y, x);
    JoinViews(Join(x, y), z);
    JoinViews(y, z);
    JoinViews(x, Join(y, z));
    hide ViewOf, Outranks, KeyLess;
    MaxDecisionLaws(vx.decision, vy.decision, vz.decision);
    MinKeyLaws(vx.key, vy.key, vz.key);
  }

  /** The decisions a state's evidence pairs. */
  function Pair(s: RegState): Option<(Decision, Decision)> {
    if s.evidence.Some? then Some((DecisionOf(s.evidence.value.a), DecisionOf(s.evidence.value.b))) else None
  }

  /** On the evidence's decisions themselves the join is commutative EXACTLY when two proofs with one key are one
      pair: the key forgets which seq carried which hash, and of a tie the left state's pair stays. */
  lemma JoinCommutesOnPairs(x: RegState, y: RegState)
    ensures Pair(Join(x, y)) == Pair(Join(y, x)) <==>
            (x.evidence.Some? && y.evidence.Some? && KeyOf(x.evidence.value) == KeyOf(y.evidence.value) ==>
               Pair(x) == Pair(y))
  {
    hide KeyLess, DecisionOf, KeyOf;
    if x.evidence.Some? && y.evidence.Some? {
      KeyTotal(KeyOf(x.evidence.value), KeyOf(y.evidence.value));
      if Pair(x) == Pair(y) { PairDecidesKey(x.evidence.value, y.evidence.value); }
    }
  }

  lemma PairDecidesKey(e: Evidence, f: Evidence)
    requires DecisionOf(e.a) == DecisionOf(f.a) && DecisionOf(e.b) == DecisionOf(f.b)
    ensures KeyOf(e) == KeyOf(f)
  {
  }

  /** Whatever the order, the decision is the join's. */
  lemma UpdateDecision(x: RegState, y: RegState)
    ensures ViewOf(Update(x, y)).decision == MaxDecision(ViewOf(x).decision, ViewOf(y).decision)
    ensures Update(x, y).record == MaxRecord(x.record, y.record)
    ensures ViewOf(Update(x, y)).key
         == MinKey(MinKey(ViewOf(x).key, ViewOf(y).key), ViewOf(Detect(x, y)).key)
  {
    hide Outranks, KeyLess, KeyOf, DecisionOf, NewEvidence;
  }

  /** The key of the fork two decisions prove, if they prove one. */
  function ForkKey(x: Option<Decision>, y: Option<Decision>): Option<Key> {
    if x.Some? && y.Some? && Conflicts(x.value, y.value) then Some(PairKey(x.value, y.value)) else None
  }

  lemma DetectFinds(x: RegState, y: RegState)
    ensures ViewOf(Detect(x, y)).key == ForkKey(ViewOf(x).decision, ViewOf(y).decision)
  {
    if x.record.Some? && y.record.Some? {
      PairKeySymmetric(DecisionOf(x.record.value.signed), DecisionOf(y.record.value.signed));
    }
  }

  /** `update` on what replicas compare. */
  function UpdateView(x: View, y: View): View {
    View(MaxDecision(x.decision, y.decision), MinKey(MinKey(x.key, y.key), ForkKey(x.decision, y.decision)))
  }

  lemma UpdateViews(x: RegState, y: RegState)
    ensures ViewOf(Update(x, y)) == UpdateView(ViewOf(x), ViewOf(y))
  {
    UpdateDecision(x, y);
    DetectFinds(x, y);
    hide Update, ViewOf;
  }

  /** The forks each association of three decisions looks at. */
  function LeftForks(x: Option<Decision>, y: Option<Decision>, z: Option<Decision>): Option<Key> {
    MinKey(ForkKey(x, y), ForkKey(MaxDecision(x, y), z))
  }

  function RightForks(x: Option<Decision>, y: Option<Decision>, z: Option<Decision>): Option<Key> {
    MinKey(ForkKey(y, z), ForkKey(x, MaxDecision(y, z)))
  }

  /** The lowest key among the three states' proofs and one fork. */
  function Lowest(x: View, y: View, z: View, fork: Option<Key>): Option<Key> {
    MinKey(MinKey(MinKey(x.key, y.key), z.key), fork)
  }

  lemma LeftUpdate(x: View, y: View, z: View)
    ensures UpdateView(UpdateView(x, y), z)
         == View(MaxDecision(MaxDecision(x.decision, y.decision), z.decision),
                 Lowest(x, y, z, LeftForks(x.decision, y.decision, z.decision)))
  {
    var f, g := ForkKey(x.decision, y.decision), ForkKey(MaxDecision(x.decision, y.decision), z.decision);
    var k := MinKey(x.key, y.key);
    hide ForkKey, MaxDecision, MinKey;
    MinKeyLaws(k, f, z.key);
    MinKeyLaws(f, z.key, k);
    MinKeyLaws(k, z.key, f);
    MinKeyLaws(MinKey(k, z.key), f, g);
  }

  lemma RightUpdate(x: View, y: View, z: View)
    ensures UpdateView(x, UpdateView(y, z))
         == View(MaxDecision(x.decision, MaxDecision(y.decision, z.decision)),
                 Lowest(x, y, z, RightForks(x.decision, y.decision, z.decision)))
  {
    var f, g := ForkKey(y.decision, z.decision), ForkKey(x.decision, MaxDecision(y.decision, z.decision));
    var k := MinKey(y.key, z.key);
    hide ForkKey, MaxDecision, MinKey;
    MinKeyLaws(x.key, k, f);
    MinKeyLaws(x.key, y.key, z.key);
    MinKeyLaws(MinKey(x.key, k), f, g);
  }

  /** EXACTLY when `update` is associative on three states: when the lowest proof each association ends with - the three
      held proofs, and the two forks that association gets to look at - is the same. The decision always is. */
  lemma UpdateAssociates(x: RegState, y: RegState, z: RegState)
    ensures var vx, vy, vz := ViewOf(x), ViewOf(y), ViewOf(z);
            && ViewOf(Update(Update(x, y), z)).decision == ViewOf(Update(x, Update(y, z))).decision
            && (ViewOf(Update(Update(x, y), z)) == ViewOf(Update(x, Update(y, z))) <==>
                  Lowest(vx, vy, vz, LeftForks(vx.decision, vy.decision, vz.decision))
                  == Lowest(vx, vy, vz, RightForks(vx.decision, vy.decision, vz.decision)))
  {
    UpdateViews(x, y);
    UpdateViews(Update(x, y), z);
    UpdateViews(y, z);
    UpdateViews(x, Update(y, z));
    hide ViewOf, Update, UpdateView, Lowest, LeftForks, RightForks;
    LeftUpdate(ViewOf(x), ViewOf(y), ViewOf(z));
    RightUpdate(ViewOf(x), ViewOf(y), ViewOf(z));
    MaxDecisionLaws(ViewOf(x).decision, ViewOf(y).decision, ViewOf(z).decision);
  }

  lemma ForkSymmetric(x: Option<Decision>, y: Option<Decision>)
    ensures ForkKey(x, y) == ForkKey(y, x)
  {
    if x.Some? && y.Some? { PairKeySymmetric(x.value, y.value); }
  }

  /** If the state in the middle holds the highest decision, both associations look at the same forks. */
  lemma MiddleHighest(x: RegState, y: RegState, z: RegState)
    requires MaxDecision(ViewOf(x).decision, ViewOf(y).decision) == ViewOf(y).decision
    requires MaxDecision(ViewOf(y).decision, ViewOf(z).decision) == ViewOf(y).decision
    ensures ViewOf(Update(Update(x, y), z)) == ViewOf(Update(x, Update(y, z)))
  {
    UpdateAssociates(x, y, z);
    var dx, dy, dz := ViewOf(x).decision, ViewOf(y).decision, ViewOf(z).decision;
    hide Update, ViewOf, ForkKey, MaxDecision, MinKey;
    MinKeyLaws(ForkKey(dx, dy), ForkKey(dy, dz), None);
  }

  /** If no two of the three decisions conflict, there is no fork to miss. */
  lemma NoForkNoOrder(x: RegState, y: RegState, z: RegState)
    requires ForkKey(ViewOf(x).decision, ViewOf(y).decision).None?
    requires ForkKey(ViewOf(y).decision, ViewOf(z).decision).None?
    requires ForkKey(ViewOf(x).decision, ViewOf(z).decision).None?
    ensures ViewOf(Update(Update(x, y), z)) == ViewOf(Update(x, Update(y, z)))
  {
    UpdateAssociates(x, y, z);
    hide Update, ViewOf, Outranks, Conflicts, PairKey, KeyLess;
  }

  // ------------------------------------------------------------- states to show it on

  /** One key, under primitives that accept every signature. */
  function SampleParams(tag: bytes): Params {
    var a := One(Zeros(32));
    Params(a, tag, SampleCrypto().hash(EncodeParams(Params(a, tag, Zeros(32)))))
  }

  /** The hash of the one-byte value `n`, and of anything else that ends in `n`. */
  function HashOf(n: byte): Bytes32 {
    Zeros(31) + [n]
  }

  function SampleSigned(terminal: bool, sq: u64, n: byte): Signed {
    Signed(terminal, sq, HashOf(n), 0, [Zeros(64)])
  }

  function SampleRecord(sq: u64, n: byte): RegState {
    RegState(Some(Record(SampleSigned(false, sq, n), [n])), None)
  }

  function SampleProof(a: Signed, b: Signed): RegState {
    RegState(None, Some(Evidence(a, b)))
  }

  lemma SampleParamsOk(tag: bytes)
    requires |tag| <= MAX_LABEL
    ensures ParamsOk(SampleCrypto(), SampleParams(tag))
  {
    ZeroKeyUsable(SampleCrypto());
    hide UsableKey;
  }

  lemma SampleRecordValid(sq: u64, n: byte)
    ensures Valid(SampleCrypto(), SampleParams([]), SampleRecord(sq, n))
  {
    hide Message, Zeros;
    assert SampleCrypto().hash([n]) == HashOf(n);
  }

  lemma SampleProofValid(a: Signed, b: Signed)
    requires a.bitmap == 0 && |a.sigs| == 1 && b.bitmap == 0 && |b.sigs| == 1
    requires !Outranks(DecisionOf(a), DecisionOf(b)) && Conflicts(DecisionOf(a), DecisionOf(b))
    ensures Valid(SampleCrypto(), SampleParams([]), SampleProof(a, b))
  {
    hide Message, Outranks, Conflicts;
  }

  lemma HashesDiffer()
    ensures HashOf(1) != HashOf(2) && Lex(HashOf(1), HashOf(2))
  {
    assert HashOf(1)[31] == 1 && HashOf(2)[31] == 2;
    LexLast(HashOf(1), HashOf(2));
    assert HashOf(1)[..31] == Zeros(31) == HashOf(2)[..31];
  }

  /** `update` is deliberately NOT associative: three valid states, two of them a fork of version 5, of which one order
      proves the fork and the other never looks at it. */
  lemma UpdateNotAssociative() returns (c: Crypto, p: Params, x: RegState, y: RegState, z: RegState)
    ensures ParamsOk(c, p) && Valid(c, p, x) && Valid(c, p, y) && Valid(c, p, z)
    ensures Update(Update(x, y), z).evidence.Some?
    ensures Update(x, Update(y, z)).evidence.None?
  {
    c, p := SampleCrypto(), SampleParams([]);
    x, y, z := SampleRecord(5, 1), SampleRecord(5, 2), SampleRecord(6, 1);
    SampleParamsOk([]);
    SampleRecordValid(5, 1);
    SampleRecordValid(5, 2);
    SampleRecordValid(6, 1);
    HashesDiffer();
    hide SampleCrypto, SampleParams, ParamsOk, Valid, HashOf;
  }

  // ------------------------------------------------------------ one key, many pairs

  /** A pair as evidence holds it: really a conflict, the lower decision first. */
  predicate CanonicalPair(x: Decision, y: Decision) {
    Conflicts(x, y) && !Outranks(x, y)
  }

  /** A register ended twice at one seq. */
  predicate TerminalTie(x: Decision, y: Decision) {
    x.terminal && y.terminal && x.seq_ == y.seq_
  }

  /** Another canonical pair with the same key, when the pair is not a terminal tie: two ends at different seqs swap
      their values; two live decisions, or a live one and an end, of one seq change which of them is terminal. */
  function OtherPair(x: Decision, y: Decision): (Decision, Decision) {
    if x.terminal && y.terminal then (x.(valueHash := y.valueHash), y.(valueHash := x.valueHash))
    else if !y.terminal then (x, y.(terminal := true))
    else if Lex(x.valueHash, y.valueHash) then (y.(terminal := false), x)
    else (x, y.(terminal := false))
  }

  lemma OtherPairShares(x: Decision, y: Decision)
    requires CanonicalPair(x, y) && !TerminalTie(x, y)
    ensures var (u, v) := OtherPair(x, y);
            CanonicalPair(u, v) && PairKey(u, v) == PairKey(x, y) && (u, v) != (x, y)
  {
    LexTotal(x.valueHash, y.valueHash);
  }

  lemma TieIsAlone(x: Decision, y: Decision, u: Decision, v: Decision)
    requires CanonicalPair(x, y) && TerminalTie(x, y) && CanonicalPair(u, v) && PairKey(u, v) == PairKey(x, y)
    ensures (u, v) == (x, y)
  {
    LexTotal(x.valueHash, y.valueHash);
    LexTotal(u.valueHash, v.valueHash);
  }

  /** EXACTLY when a key forces its pair: when the register was ended twice at one seq. Every other fork - an ordinary
      one included - shares its key with a different pair. */
  lemma KeyForcesPair(x: Decision, y: Decision)
    requires CanonicalPair(x, y)
    ensures (forall u, v :: CanonicalPair(u, v) && PairKey(u, v) == PairKey(x, y) ==> (u, v) == (x, y)) <==> TerminalTie(x, y)
  {
    hide CanonicalPair, PairKey, TerminalTie, OtherPair;
    if TerminalTie(x, y) {
      forall u, v | CanonicalPair(u, v) && PairKey(u, v) == PairKey(x, y) ensures (u, v) == (x, y) {
        TieIsAlone(x, y, u, v);
      }
    } else {
      OtherPairShares(x, y);
      var (u, v) := OtherPair(x, y);
      assert CanonicalPair(u, v) && PairKey(u, v) == PairKey(x, y);
    }
  }

  /** A register ended twice, and the same two ends with their values swapped. */
  function EndedTwice(): RegState {
    SampleProof(SampleSigned(true, 1, 1), SampleSigned(true, 2, 2))
  }

  function EndsSwapped(): RegState {
    SampleProof(SampleSigned(true, 1, 2), SampleSigned(true, 2, 1))
  }

  /** An ordinary fork of one version, and the fork in which one of its values ended the register. */
  function LiveFork(): RegState {
    SampleProof(SampleSigned(false, 5, 2), SampleSigned(false, 5, 1))
  }

  function ForkWithEnd(): RegState {
    SampleProof(SampleSigned(false, 5, 1), SampleSigned(true, 5, 2))
  }

  lemma CollidingStatesValid()
    ensures var c, p := SampleCrypto(), SampleParams([]);
            && Valid(c, p, EndedTwice()) && Valid(c, p, EndsSwapped())
            && Valid(c, p, LiveFork()) && Valid(c, p, ForkWithEnd())
  {
    HashesDiffer();
    LexTotal(HashOf(1), HashOf(2));
    hide HashOf;
    SampleProofValid(SampleSigned(true, 1, 1), SampleSigned(true, 2, 2));
    SampleProofValid(SampleSigned(true, 1, 2), SampleSigned(true, 2, 1));
    SampleProofValid(SampleSigned(false, 5, 2), SampleSigned(false, 5, 1));
    SampleProofValid(SampleSigned(false, 5, 1), SampleSigned(true, 5, 2));
  }

  /** Valid states whose proofs share a key and prove different pairs; the join does not commute on the pairs. */
  lemma KeysCollide()
    ensures var c, p := SampleCrypto(), SampleParams([]);
            && ParamsOk(c, p)
            && Valid(c, p, EndedTwice()) && Valid(c, p, EndsSwapped())
            && Valid(c, p, LiveFork()) && Valid(c, p, ForkWithEnd())
    ensures ViewOf(EndedTwice()) == ViewOf(EndsSwapped())
    ensures Pair(Join(EndedTwice(), EndsSwapped())) != Pair(Join(EndsSwapped(), EndedTwice()))
    ensures ViewOf(LiveFork()) == ViewOf(ForkWithEnd())
    ensures Pair(Join(LiveFork(), ForkWithEnd())) != Pair(Join(ForkWithEnd(), LiveFork()))
  {
    CollidingStatesValid();
    SampleParamsOk([]);
    HashesDiffer();
    LexTotal(HashOf(1), HashOf(2));
    hide SampleCrypto, SampleParams, ParamsOk, Valid, HashOf;
    JoinCommutesOnPairs(EndedTwice(), EndsSwapped());
    JoinCommutesOnPairs(LiveFork(), ForkWithEnd());
  }

  // ------------------------------------------------------------------- verify late

  /** Could the candidate's record change anything? A greater decision, or a conflict whose proof beats the held. */
  predicate RecordUseful(held: RegState, r: Record) {
    if held.record.None? then true
    else if Outranks(DecisionOf(r.signed), DecisionOf(held.record.value.signed)) then true
    else
      var e := NewEvidence(r.signed, held.record.value.signed);
      e.Some? && (held.evidence.None? || KeyLess(KeyOf(e.value), KeyOf(held.evidence.value)))
  }

  predicate EvidenceUseful(held: RegState, e: Evidence) {
    held.evidence.None? || KeyLess(KeyOf(e), KeyOf(held.evidence.value))
  }

  predicate VerifyEvidence(c: Crypto, p: Params, e: Evidence) {
    VerifySigned(c, p, e.a) && VerifySigned(c, p, e.b)
  }

  function AbsorbRecord(c: Crypto, p: Params, held: RegState, r: Option<Record>): RegState {
    if r.Some? && RecordUseful(held, r.value) && VerifySigned(c, p, r.value.signed)
    then Update(held, RegState(r, None)) else held
  }

  /** Merge a parsed candidate, checking the signatures of a part only if it would be kept. Usefulness of the evidence is
      judged against the state held BEFORE the record was merged. */
  function Absorb(c: Crypto, p: Params, held: RegState, cand: RegState): RegState {
    var out := AbsorbRecord(c, p, held, cand.record);
    if cand.evidence.Some? && EvidenceUseful(held, cand.evidence.value) && VerifyEvidence(c, p, cand.evidence.value)
    then Update(out, RegState(None, cand.evidence)) else out
  }

  /** The candidate's record alone, if its signatures hold; and its evidence alone, likewise. */
  function VerifiedRecord(c: Crypto, p: Params, cand: RegState): RegState {
    if cand.record.Some? && VerifySigned(c, p, cand.record.value.signed) then RegState(cand.record, None)
    else RegState(None, None)
  }

  function VerifiedEvidence(c: Crypto, p: Params, cand: RegState): RegState {
    if cand.evidence.Some? && VerifyEvidence(c, p, cand.evidence.value) then RegState(None, cand.evidence)
    else RegState(None, None)
  }

  lemma UpdateEmpty(x: RegState)
    ensures Update(x, RegState(None, None)) == x
  {
  }

  lemma NewEvidenceSymmetric(x: Signed, y: Signed)
    ensures NewEvidence(x, y) == NewEvidence(y, x)
  {
    OutranksTotal(DecisionOf(x), DecisionOf(y));
    PairKeySymmetric(DecisionOf(x), DecisionOf(y));
  }

  lemma UselessRecord(held: RegState, r: Record)
    requires !RecordUseful(held, r)
    ensures Update(held, RegState(Some(r), None)) == held
  {
    NewEvidenceSymmetric(r.signed, held.record.value.signed);
    hide Outranks, KeyLess, KeyOf, DecisionOf, NewEvidence;
  }

  lemma UselessEvidence(held: RegState, out: RegState, e: Evidence)
    requires !EvidenceUseful(held, e)
    requires out.evidence.Some? && !KeyLess(KeyOf(held.evidence.value), KeyOf(out.evidence.value))
    ensures Update(out, RegState(None, Some(e))) == out
  {
    hide KeyLess, KeyOf;
    KeyTotal(KeyOf(e), KeyOf(held.evidence.value));
    if KeyLess(KeyOf(e), KeyOf(out.evidence.value)) && KeyLess(KeyOf(out.evidence.value), KeyOf(held.evidence.value)) {
      KeyTransitive(KeyOf(e), KeyOf(out.evidence.value), KeyOf(held.evidence.value));
    }
    KeyTotal(KeyOf(out.evidence.value), KeyOf(held.evidence.value));
  }

  /** Evidence is sticky: once held it stays, and its key never rises. */
  lemma EvidenceSticks(x: RegState, y: RegState)
    requires x.evidence.Some?
    ensures Update(x, y).evidence.Some?
    ensures !KeyLess(KeyOf(x.evidence.value), KeyOf(Update(x, y).evidence.value))
  {
    hide Outranks, KeyLess, KeyOf, NewEvidence;
    var k := KeyOf(x.evidence.value);
    KeyTotal(k, k);
    if y.evidence.Some? { KeyTotal(k, KeyOf(y.evidence.value)); }
    var d := Detect(x, y).evidence;
    if d.Some? {
      KeyTotal(k, KeyOf(d.value));
      if y.evidence.Some? {
        KeyTotal(KeyOf(y.evidence.value), KeyOf(d.value));
        if KeyLess(KeyOf(d.value), KeyOf(y.evidence.value)) && KeyLess(KeyOf(y.evidence.value), k) {
          KeyTransitive(KeyOf(d.value), KeyOf(y.evidence.value), k);
        }
      }
    }
  }

  /** Verifying late is exact: `absorb` leaves, byte for byte, what `update` with the candidate's verified record and
      then with its verified evidence leaves. */
  lemma AbsorbIsUpdates(c: Crypto, p: Params, held: RegState, cand: RegState)
    ensures Absorb(c, p, held, cand)
         == Update(Update(held, VerifiedRecord(c, p, cand)), VerifiedEvidence(c, p, cand))
  {
    hide VerifySigned, VerifyEvidence, KeyLess, KeyOf, Outranks, Update;
    var out := AbsorbRecord(c, p, held, cand.record);
    UpdateEmpty(held);
    UpdateEmpty(out);
    if cand.record.Some? && !RecordUseful(held, cand.record.value) { UselessRecord(held, cand.record.value); }
    assert out == Update(held, VerifiedRecord(c, p, cand));
    if cand.evidence.Some? && !EvidenceUseful(held, cand.evidence.value) {
      EvidenceSticks(held, VerifiedRecord(c, p, cand));
      UselessEvidence(held, out, cand.evidence.value);
    }
  }

  /** It agrees with verifying everything first, on the record and on the evidence key. */
  lemma AbsorbAgreesWithEager(c: Crypto, p: Params, held: RegState, cand: RegState)
    requires VerifyState(c, p, cand)
    ensures Absorb(c, p, held, cand).record == Update(held, cand).record
    ensures ViewOf(Absorb(c, p, held, cand)) == ViewOf(Update(held, cand))
  {
    AbsorbIsUpdates(c, p, held, cand);
    var r, e := VerifiedRecord(c, p, cand), VerifiedEvidence(c, p, cand);
    assert r == RegState(cand.record, None) && e == RegState(None, cand.evidence);
    UpdateDecision(held, r);
    UpdateDecision(Update(held, r), e);
    UpdateDecision(held, cand);
    assert Detect(held, r) == Detect(held, cand);
    hide Update, Detect, KeyLess, Outranks;
    MinKeyLaws(ViewOf(held).key, ViewOf(Detect(held, cand)).key, ViewOf(cand).key);
    MinKeyLaws(ViewOf(held).key, ViewOf(cand).key, ViewOf(Detect(held, cand)).key);
    MinKeyLaws(ViewOf(Detect(held, cand)).key, ViewOf(cand).key, None);
  }

  /** Exactly when a candidate changes the state: one of its parts is useful and really signed. */
  lemma AbsorbChanges(c: Crypto, p: Params, held: RegState, cand: RegState)
    ensures Absorb(c, p, held, cand) != held <==>
            || (cand.record.Some? && RecordUseful(held, cand.record.value) && VerifySigned(c, p, cand.record.value.signed))
            || (cand.evidence.Some? && EvidenceUseful(held, cand.evidence.value) && VerifyEvidence(c, p, cand.evidence.value))
  {
    hide VerifySigned, VerifyEvidence, Outranks, KeyLess, KeyOf, NewEvidence, DecisionOf;
    var out := AbsorbRecord(c, p, held, cand.record);
    if out != held { UsefulRecordChanges(held, cand.record.value); }
    if cand.record.Some? && RecordUseful(held, cand.record.value) { UsefulRecordChanges(held, cand.record.value); }
    if cand.evidence.Some? && EvidenceUseful(held, cand.evidence.value) {
      UsefulEvidenceChanges(held, out, cand.evidence.value);
    }
    if held.evidence.Some? {
      EvidenceSticks(held, VerifiedRecord(c, p, cand));
      EvidenceSticks(out, RegState(None, cand.evidence));
    }
  }

  /** A state strictly ahead of `held`: a greater decision, or evidence that beats what is held. */
  predicate Ahead(held: RegState, s: RegState) {
    || (s.record.Some? &&
        (held.record.None? || Outranks(DecisionOf(s.record.value.signed), DecisionOf(held.record.value.signed))))
    || (s.evidence.Some? && EvidenceUseful(held, s.evidence.value))
  }

  lemma UsefulRecordChanges(held: RegState, r: Record)
    requires RecordUseful(held, r)
    ensures Ahead(held, Update(held, RegState(Some(r), None)))
    ensures Update(held, RegState(Some(r), None)) != held
  {
    if held.record.Some? {
      NewEvidenceSymmetric(r.signed, held.record.value.signed);
      OutranksTotal(DecisionOf(r.signed), DecisionOf(r.signed));
    }
    if held.evidence.Some? { KeyTotal(KeyOf(held.evidence.value), KeyOf(held.evidence.value)); }
  }

  lemma UsefulEvidenceChanges(held: RegState, out: RegState, e: Evidence)
    requires EvidenceUseful(held, e)
    ensures Update(out, RegState(None, Some(e))) != held
  {
    hide KeyLess, KeyOf;
    if held.evidence.Some? {
      var k := KeyOf(held.evidence.value);
      KeyTotal(k, k);
      if out.evidence.Some? { KeyTotal(k, KeyOf(out.evidence.value)); }
      KeyTotal(KeyOf(e), k);
    }
  }

  /** Decisions that are held already, under whatever signatures, change no byte. */
  lemma SecondWitnessIsNoOp(c: Crypto, p: Params, held: RegState, cand: RegState)
    requires cand.record.Some? ==>
      held.record.Some? && DecisionOf(cand.record.value.signed) == DecisionOf(held.record.value.signed)
    requires cand.evidence.Some? ==> held.evidence.Some? && KeyOf(cand.evidence.value) == KeyOf(held.evidence.value)
    ensures Absorb(c, p, held, cand) == held
  {
    if cand.record.Some? { OutranksTotal(DecisionOf(cand.record.value.signed), DecisionOf(cand.record.value.signed)); }
    if cand.evidence.Some? { KeyTotal(KeyOf(cand.evidence.value), KeyOf(cand.evidence.value)); }
  }

  lemma NewEvidenceOk(a: Authority, x: Signed, y: Signed)
    requires SignedOk(a, x) && SignedOk(a, y) && NewEvidence(x, y).Some?
    ensures EvidenceOk(a, NewEvidence(x, y).value)
    ensures NewEvidence(x, y).value == Evidence(x, y) || NewEvidence(x, y).value == Evidence(y, x)
  {
    OutranksTotal(DecisionOf(x), DecisionOf(y));
  }

  lemma UpdateValid(c: Crypto, p: Params, x: RegState, y: RegState)
    requires Valid(c, p, x) && Valid(c, p, y)
    ensures Valid(c, p, Update(x, y))
  {
    hide VerifySigned, SignedOk, Outranks, KeyLess, KeyOf, Conflicts, NewEvidence;
    if x.record.Some? && y.record.Some? && NewEvidence(x.record.value.signed, y.record.value.signed).Some? {
      NewEvidenceOk(p.authority, x.record.value.signed, y.record.value.signed);
    }
  }

  /** From a valid held state, whatever parsed candidate arrives, the result encodes and passes full validation. */
  lemma AbsorbCloses(c: Crypto, p: Params, held: RegState, cand: RegState)
    requires ParamsOk(c, p) && Valid(c, p, held) && StateOk(c, p.authority, cand)
    ensures var r := Absorb(c, p, held, cand);
            Valid(c, p, r) && Parse(c, p, Encode(p.authority, r)) == Some(r) && |Encode(p.authority, r)| <= MAX_STATE
  {
    hide Update, Absorb, VerifySigned, EvidenceOk, RecordOk;
    AbsorbIsUpdates(c, p, held, cand);
    UpdateValid(c, p, held, VerifiedRecord(c, p, cand));
    UpdateValid(c, p, Update(held, VerifiedRecord(c, p, cand)), VerifiedEvidence(c, p, cand));
    var r := Absorb(c, p, held, cand);
    ParseExact(c, p, Encode(p.authority, r), r);
    EncodeFits(c, p, r);
  }
}
