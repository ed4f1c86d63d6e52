/** What a run of a Set keeps, in plain numbers: the newest version of every slot, and the slots that the limits leave
    (set/src/wire.rs, set/src/merge.rs). */
module SetOrder {
  import opened Options
  import opened Bytes
  import opened ByteOrder
  import opened Crypto
  import opened Sorting
  import opened SetWire
  import opened SetCodec
  import opened SetMerge
  import opened SetRuns
  import opened SetHost
  import LaminarCut
  import TopK

  // -------------------------------------------------------------- the newest version

  /** `e` supersedes `d` or is `d`: no seal is lost, then no time, then no delete, and last the lower number wins. */
  predicate AtLeastAsNew(e: Decision, d: Decision) {
    && (d.sealed ==> e.sealed)
    && (d.sealed == e.sealed ==> d.ts <= e.ts)
    && (d.sealed == e.sealed && d.ts == e.ts ==> (d.tombstone ==> e.tombstone))
    && (d.sealed == e.sealed && d.ts == e.ts && d.tombstone == e.tombstone ==> Num(e.payloadHash) <= Num(d.payloadHash))
  }

  lemma OutranksInNumbers(d: Decision, e: Decision)
    ensures Outranks(d, e) <==> !AtLeastAsNew(e, d)
  {
    LexIsNum(d.payloadHash, e.payloadHash);
  }

  /** The newest version wins, over every run: what is held for a slot supersedes everything any input offered for it. */
  lemma NewestWins(c: Crypto, p: Params, who: Bytes32 -> Bytes32, run: Run, h: Held, d: Decision)
    requires AllReadable(c, p, who, Inputs(run))
    requires h in Eval(c, p, run).held && Offered(c, Inputs(run), h.slot, d)
    ensures AtLeastAsNew(DecisionOf(c, h.item), d)
    ensures d.sealed ==> h.item.sealed
    ensures d.sealed == h.item.sealed ==> d.ts <= h.item.ts
    ensures d.sealed == h.item.sealed && d.ts == h.item.ts ==>
              && (d.tombstone ==> h.item.tombstone)
              && (d.tombstone == h.item.tombstone ==> Num(c.hash(h.item.payload)) <= Num(d.payloadHash))
  {
    hide Outranks, AllReadable, Eval, Offered, Num;
    NothingResurrected(c, p, who, run, h, d);
    OutranksInNumbers(d, DecisionOf(c, h.item));
  }

  /** What a host was offered for a slot: by the state it started from, or by an item of a readable candidate that
      verifies. */
  ghost predicate HostOffered(c: Crypto, p: Params, held: SetState, cands: seq<bytes>, g: Held) {
    || g in held.held
    || exists b :: b in cands && |b| <= MAX_STATE && CarriesVerified(c, p, b, g)
  }

  predicate CarriesVerified(c: Crypto, p: Params, b: bytes, g: Held) {
    var s := ParseUnverified(c, p, b);
    s.Some? && g in s.value.held && VerifyItem(c, p, g.item)
  }

  /** The inputs of a run stay inputs as the run goes on. */
  lemma {:induction false} InputsStay(c: Crypto, p: Params, run: Run, cands: seq<bytes>)
    ensures Inputs(run) <= Inputs(HostRun(c, p, run, cands))
    decreases |cands|
  {
    hide ParseUnverified, VerifiedPart;
    if cands != [] {
      if |cands[0]| <= MAX_STATE && ParseUnverified(c, p, cands[0]).Some? {
        InputsStay(c, p, Merge(run, Leaf(VerifiedPart(c, p, ParseUnverified(c, p, cands[0]).value))), cands[1..]);
      } else {
        InputsStay(c, p, run, cands[1..]);
      }
    }
  }

  lemma {:induction false} CandidateIsInput(c: Crypto, p: Params, run: Run, cands: seq<bytes>, b: bytes)
    requires b in cands && |b| <= MAX_STATE && ParseUnverified(c, p, b).Some?
    ensures VerifiedPart(c, p, ParseUnverified(c, p, b).value) in Inputs(HostRun(c, p, run, cands))
    decreases |cands|
  {
    hide ParseUnverified, VerifiedPart;
    var readable := |cands[0]| <= MAX_STATE && ParseUnverified(c, p, cands[0]).Some?;
    var next := if readable then Merge(run, Leaf(VerifiedPart(c, p, ParseUnverified(c, p, cands[0]).value))) else run;
    if b == cands[0] {
      InputsStay(c, p, next, cands[1..]);
    } else {
      CandidateIsInput(c, p, next, cands[1..], b);
    }
  }

  /** The newest version wins at a host too, whatever else arrives, in whatever order. */
  lemma HostNewestWins(c: Crypto, p: Params, who: Bytes32 -> Bytes32, held: SetState, cands: seq<bytes>, h: Held, g: Held)
    requires AllReadable(c, p, who, Inputs(HostRun(c, p, Leaf(held), cands)))
    requires h in AbsorbAll(c, p, held, cands).held && HostOffered(c, p, held, cands, g) && g.slot == h.slot
    ensures AtLeastAsNew(DecisionOf(c, h.item), DecisionOf(c, g.item))
  {
    var run := HostRun(c, p, Leaf(held), cands);
    HostIsRun(c, p, Leaf(held), cands);
    InputsStay(c, p, Leaf(held), cands);
    if g !in held.held {
      var b :| b in cands && |b| <= MAX_STATE && CarriesVerified(c, p, b, g);
      CandidateIsInput(c, p, Leaf(held), cands, b);
      var s := ParseUnverified(c, p, b).value;
      FilterElem(s.held, (x: Held) => VerifyItem(c, p, x.item), g);
      assert g in VerifiedPart(c, p, s).held;
    }
    hide AtLeastAsNew, DecisionOf, Readable, VerifyItem, ParseUnverified, HostRun, AbsorbAll, Eval;
    assert Offered(c, Inputs(run), h.slot, DecisionOf(c, g.item));
    NewestWins(c, p, who, run, h, DecisionOf(c, g.item));
  }

  // ---------------------------------------------------------------- the slots that stay

  /** The signer's held slots that rank before `x`, and those of the whole tier. */
  ghost function AheadOfSigner(who: Bytes32 -> Bytes32, s: SetState, x: Bytes32): set<Bytes32> {
    set y | y in SlotSet(s.held) && who(y) == who(x) && Num(y) < Num(x)
  }

  ghost function AheadInTier(p: Params, who: Bytes32 -> Bytes32, s: SetState, x: Bytes32): set<Bytes32> {
    set y | y in SlotSet(s.held) && (who(y) == p.owner <==> who(x) == p.owner) && Num(y) < Num(x)
  }

  lemma AheadIsBelow(p: Params, who: Bytes32 -> Bytes32, s: SetState, x: Bytes32)
    ensures var rule := RuleOf(p, who);
            && AheadOfSigner(who, s, x) == TopK.Below(LaminarCut.Of(rule, SlotSet(s.held), who(x)), rule.rank, x)
            && AheadInTier(p, who, s, x)
               == TopK.Below(LaminarCut.InTier(rule, SlotSet(s.held), rule.tier(rule.who(x))), rule.rank, x)
  {
    hide SlotSet, Num;
  }

  /** EXACTLY which slots a run holds: those offered whose signer holds fewer than `quota`, and whose tier fewer than
      `m`, ahead of them. */
  lemma HeldExactly(c: Crypto, p: Params, who: Bytes32 -> Bytes32, run: Run, x: Bytes32)
    requires AllReadable(c, p, who, Inputs(run))
    ensures var r := Eval(c, p, run);
            x in SlotSet(r.held) <==>
              && x in SlotsIn(Inputs(run))
              && |AheadOfSigner(who, r, x)| < p.quota && |AheadInTier(p, who, r, x)| < p.m
  {
    hide Readable, BestOffer, LowestDenied, SlotSet, AheadOfSigner, AheadInTier;
    RunSays(c, p, who, run);
    var u, rule := SlotsIn(Inputs(run)), RuleOf(p, who);
    SlotsInjective(u, p, who);
    AheadIsBelow(p, who, Eval(c, p, run), x);
    if x in u { LaminarCut.CutIsGreedy(rule, u, x); }
  }

  /** To be ahead is to have at least as much work. */
  lemma AheadMeansWork(y: Bytes32, x: Bytes32)
    requires Num(y) < Num(x)
    ensures LeadingZeros(y) >= LeadingZeros(x)
  {
    WorkOrderIsNameOrder(y, x);
    LexIsNum(y, x);
  }

  /** Tiers do not compete: runs that were offered the same for the slots of one tier hold the same
      there, whatever the other tier was offered. */
  lemma TiersDoNotCompete(c: Crypto, p: Params, who: Bytes32 -> Bytes32, run: Run, other: Run, h: Held)
    requires AllReadable(c, p, who, Inputs(run)) && AllReadable(c, p, who, Inputs(other))
    requires forall x, d :: TierOf(p, who(x)) == h.tier ==> (Offered(c, Inputs(run), x, d) <==> Offered(c, Inputs(other), x, d))
    requires h in Eval(c, p, run).held
    ensures exists g :: g in Eval(c, p, other).held && g.slot == h.slot && DecisionOf(c, g.item) == DecisionOf(c, h.item)
  {
    hide Canonical, LowestDenied, Outranks, DecisionOf, Offered;
    RunSays(c, p, who, run);
    RunSays(c, p, who, other);
    assert who(h.slot) == h.item.signer && TierOf(p, who(h.slot)) == h.tier;
    SlotStays(c, p, who, Inputs(run), Inputs(other), h.slot);
    assert h.slot in SlotSet(Eval(c, p, run).held);
    var g :| g in Eval(c, p, other).held && g.slot == h.slot;
    BestIsUnique(c, Inputs(other), h.slot, DecisionOf(c, h.item), DecisionOf(c, g.item));
  }

  lemma SlotStays(c: Crypto, p: Params, who: Bytes32 -> Bytes32, x: set<SetState>, y: set<SetState>, s: Bytes32)
    requires forall z, d :: TierOf(p, who(z)) == TierOf(p, who(s)) ==> (Offered(c, x, z, d) <==> Offered(c, y, z, d))
    ensures s in LaminarCut.Cut(RuleOf(p, who), SlotsIn(x)) <==> s in LaminarCut.Cut(RuleOf(p, who), SlotsIn(y))
  {
    var rule := RuleOf(p, who);
    var t := rule.tier(who(s));
    SameTierOffers(c, p, who, x, y, TierOf(p, who(s)));
    LaminarCut.TiersApart(rule, SlotsIn(x), SlotsIn(y), t);
    hide LaminarCut.Cut, SlotsIn, Offered;
    assert s in LaminarCut.InTier(rule, LaminarCut.Cut(rule, SlotsIn(x)), t) <==> s in LaminarCut.Cut(rule, SlotsIn(x));
    assert s in LaminarCut.InTier(rule, LaminarCut.Cut(rule, SlotsIn(y)), t) <==> s in LaminarCut.Cut(rule, SlotsIn(y));
  }

  lemma SameTierOffers(c: Crypto, p: Params, who: Bytes32 -> Bytes32, x: set<SetState>, y: set<SetState>, t: Tier)
    requires forall s, d :: TierOf(p, who(s)) == t ==> (Offered(c, x, s, d) <==> Offered(c, y, s, d))
    ensures var r := RuleOf(p, who);
            LaminarCut.InTier(r, SlotsIn(x), TierIndex(t)) == LaminarCut.InTier(r, SlotsIn(y), TierIndex(t))
  {
    forall s: Bytes32 | TierOf(p, who(s)) == t ensures s in SlotsIn(x) <==> s in SlotsIn(y) {
      SlotIsOffered(c, x, s);
      SlotIsOffered(c, y, s);
    }
  }

  lemma SlotIsOffered(c: Crypto, states: set<SetState>, slot: Bytes32)
    ensures slot in SlotsIn(states) <==> exists d :: Offered(c, states, slot, d)
  {
    if slot in SlotsIn(states) {
      var s :| s in states && slot in SlotSet(s.held);
      var h :| h in s.held && h.slot == slot;
      assert Offered(c, states, slot, DecisionOf(c, h.item));
    }
    if d :| Offered(c, states, slot, d) {
      var s, h :| s in states && h in s.held && h.slot == slot && DecisionOf(c, h.item) == d;
      assert slot in SlotSet(s.held);
    }
  }
}
