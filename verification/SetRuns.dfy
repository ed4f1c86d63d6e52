/** Whole runs of joins: what a Set says depends on WHICH states were merged, never on how. */
module SetRuns {
  import opened Options
  import opened Bytes
  import opened Crypto
  import opened Sorting
  import opened TopK
  import opened LaminarCut
  import opened SetWire
  import opened SetMerge

  /** Any way of joining: every order and every association is one of these trees. */
  datatype Run = Leaf(state: SetState) | Merge(left: Run, right: Run)

  function Eval(c: Crypto, p: Params, run: Run): SetState {
    match run
    case Leaf(s) => s
    case Merge(l, r) => Join(c, p, Eval(c, p, l), Eval(c, p, r))
  }

  function Inputs(run: Run): set<SetState> {
    match run
    case Leaf(s) => {s}
    case Merge(l, r) => Inputs(l) + Inputs(r)
  }

  /** A state that parses, whose slots belong to the signers `who` names. A slot name is a hash over its signer, so
      `who` exists as long as no two signers in play collide on one name. */
  ghost predicate Readable(c: Crypto, p: Params, who: Bytes32 -> Bytes32, s: SetState) {
    Canonical(c, p, s) && Owned(p, who, s.held)
  }

  ghost predicate AllReadable(c: Crypto, p: Params, who: Bytes32 -> Bytes32, states: set<SetState>) {
    forall s :: s in states ==> Readable(c, p, who, s)
  }

  // --------------------------------------------------- what a set of inputs offers

  ghost function SlotsIn(states: set<SetState>): set<Bytes32> {
    set s, x | s in states && x in SlotSet(s.held) :: x
  }

  ghost function DeniedIn(states: set<SetState>): set<Bytes32> {
    set s, k | s in states && k in DenySet(s.deny) :: k
  }

  ghost predicate Offered(c: Crypto, states: set<SetState>, slot: Bytes32, d: Decision) {
    exists s, h :: s in states && h in s.held && h.slot == slot && DecisionOf(c, h.item) == d
  }

  /** The best decision any input offers for a slot. */
  ghost predicate BestOffer(c: Crypto, states: set<SetState>, slot: Bytes32, d: Decision) {
    Offered(c, states, slot, d) && forall e :: Offered(c, states, slot, e) ==> !Outranks(e, d)
  }

  lemma BestIsUnique(c: Crypto, states: set<SetState>, slot: Bytes32, d: Decision, e: Decision)
    requires BestOffer(c, states, slot, d) && BestOffer(c, states, slot, e)
    ensures d == e
  {
    OutranksTotal(d, e);
  }

  /** What a state must say after merging `states`: the best decision per slot over all inputs, cut ONCE, and the
      lowest denied keys. */
  ghost predicate Says(c: Crypto, p: Params, who: Bytes32 -> Bytes32, states: set<SetState>, s: SetState) {
    && SlotSet(s.held) == LaminarCut.Cut(RuleOf(p, who), SlotsIn(states))
    && (forall h :: h in s.held ==> BestOffer(c, states, h.slot, DecisionOf(c, h.item)))
    && DenySet(s.deny) == LowestDenied(DeniedIn(states))
  }

  // -------------------------------------------------------------------- one leaf

  lemma LeafSays(c: Crypto, p: Params, who: Bytes32 -> Bytes32, s: SetState)
    requires Readable(c, p, who, s)
    ensures Says(c, p, who, {s}, s)
  {
    HeldDistinct(c, p, s.held, who);
    assert SlotsIn({s}) == SlotSet(s.held) && DeniedIn({s}) == DenySet(s.deny);
    LeafSlots(p, who, s);
    LeafDenied(s);
    forall h | h in s.held ensures BestOffer(c, {s}, h.slot, DecisionOf(c, h.item)) {
      OutranksTotal(DecisionOf(c, h.item), DecisionOf(c, h.item));
      forall e | Offered(c, {s}, h.slot, e) ensures e == DecisionOf(c, h.item) {
        var g :| g in s.held && g.slot == h.slot && DecisionOf(c, g.item) == e;
        FindSelf(s.held, g);
        FindSelf(s.held, h);
      }
    }
  }

  lemma LeafSlots(p: Params, who: Bytes32 -> Bytes32, s: SetState)
    requires Strict(s.held, Order) && DistinctSlots(s.held) && Owned(p, who, s.held) && WithinLimits(p, s.held)
    ensures LaminarCut.Cut(RuleOf(p, who), SlotSet(s.held)) == SlotSet(s.held)
  {
    assert [] + s.held == s.held;
    GreedyKeepsAll(p, s.held, []);
    SortFixed(s.held, Order);
    CutIsTwoPass(p, who, s.held);
  }

  lemma LeafDenied(s: SetState)
    requires Strict(s.deny, DenyOrder) && |s.deny| <= MAX_DENY
    ensures LowestDenied(DenySet(s.deny)) == DenySet(s.deny)
  {
    var f := (d: Deny) => d.signer;
    SortedTop.LabelsSize(s.deny, f, KeyNum(), DenyOrder);
    assert SortedTop.Labels(s.deny, f) == DenySet(s.deny);
    TopAll(DenySet(s.deny), KeyNum(), MAX_DENY);
  }

  // ------------------------------------------------------------------- one merge

  lemma ReadableParts(c: Crypto, p: Params, who: Bytes32 -> Bytes32, s: SetState)
    requires Readable(c, p, who, s)
    ensures DistinctSlots(s.held) && Owned(p, who, s.held) && p.owner !in DenySet(s.deny)
  {
    HeldDistinct(c, p, s.held, who);
  }

  /** The slots of a merge, and for each of them the better of the two sides. */
  lemma MergeHeld(c: Crypto, p: Params, who: Bytes32 -> Bytes32, x: set<Bytes32>, a: SetState, y: set<Bytes32>, b: SetState)
    requires Readable(c, p, who, a) && Readable(c, p, who, b)
    requires SlotSet(a.held) == LaminarCut.Cut(RuleOf(p, who), x) && SlotSet(b.held) == LaminarCut.Cut(RuleOf(p, who), y)
    ensures var j := Join(c, p, a, b).held;
            && SlotSet(j) == LaminarCut.Cut(RuleOf(p, who), x + y)
            && forall h :: h in j ==> Some(h) == Better(c, Find(a.held, h.slot), Find(b.held, h.slot))
  {
    ReadableParts(c, p, who, a);
    ReadableParts(c, p, who, b);
    hide LaminarCut.Cut, RuleOf, Readable, Better, DistinctSlots, Owned, Find;
    JoinHeld(c, p, who, a.held, b.held);
    MergeSlots(p, who, x, y);
  }

  lemma MergeSays(c: Crypto, p: Params, who: Bytes32 -> Bytes32,
                  ins: set<SetState>, a: SetState, jns: set<SetState>, b: SetState)
    requires Readable(c, p, who, a) && Readable(c, p, who, b)
    requires Says(c, p, who, ins, a) && Says(c, p, who, jns, b)
    ensures Says(c, p, who, ins + jns, Join(c, p, a, b))
  {
    hide LaminarCut.Cut, RuleOf, LowestDenied, Readable, BestOffer, Better, Join, Outranks, DecisionOf, DistinctSlots, Owned;
    var j := Join(c, p, a, b);
    ReadableParts(c, p, who, a);
    ReadableParts(c, p, who, b);
    MergeHeld(c, p, who, SlotsIn(ins), a, SlotsIn(jns), b);
    MergeDenied(c, p, a, b, DeniedIn(ins), DeniedIn(jns));
    assert SlotsIn(ins + jns) == SlotsIn(ins) + SlotsIn(jns);
    assert DeniedIn(ins + jns) == DeniedIn(ins) + DeniedIn(jns);
    forall h | h in j.held ensures BestOffer(c, ins + jns, h.slot, DecisionOf(c, h.item)) {
      assert h.slot in SlotSet(j.held);
      MergeBest(c, p, who, ins, a, jns, b, h);
    }
  }

  lemma MergeReadable(c: Crypto, p: Params, who: Bytes32 -> Bytes32, a: SetState, b: SetState)
    requires Readable(c, p, who, a) && Readable(c, p, who, b)
    ensures Readable(c, p, who, Join(c, p, a, b))
  {
    HeldDistinct(c, p, a.held, who);
    HeldDistinct(c, p, b.held, who);
    JoinCanonical(c, p, a, b);
    MergeOwned(c, p, who, a.held, b.held);
  }

  lemma MergeOwned(c: Crypto, p: Params, who: Bytes32 -> Bytes32, a: seq<Held>, b: seq<Held>)
    requires DistinctSlots(a) && DistinctSlots(b) && Owned(p, who, a) && Owned(p, who, b)
    ensures Owned(p, who, Sort(CutHeld(p, OfferAll(c, [], a + b)), Order))
  {
    var m := OfferAll(c, [], a + b);
    MergedFrom(c, a, b);
    CutShape(p, m);
    SortFixed(CutHeld(p, m), Order);
  }

  /** Cutting both sides first changes nothing: the cut of the union is all that survives. */
  lemma MergeSlots(p: Params, who: Bytes32 -> Bytes32, x: set<Bytes32>, y: set<Bytes32>)
    ensures var r := RuleOf(p, who);
            LaminarCut.Cut(r, LaminarCut.Cut(r, x) + LaminarCut.Cut(r, y)) == LaminarCut.Cut(r, x + y)
  {
    var r := RuleOf(p, who);
    hide LaminarCut.Cut, RuleOf;
    SlotsInjective(x + y, p, who);
    SlotsInjective(LaminarCut.Cut(r, y) + x, p, who);
    CutAbsorbs(r, x, LaminarCut.Cut(r, y));
    CutSubset(r, y);
    assert x + LaminarCut.Cut(r, y) == LaminarCut.Cut(r, y) + x;
    CutAbsorbs(r, y, x);
    assert y + x == x + y;
  }

  lemma CutSubset(r: Rule, y: set<Bytes32>)
    ensures LaminarCut.Cut(r, y) <= y
  {
  }

  /** A slot kept from the union was kept on every side that saw it, so no better decision was ever thrown away. */
  lemma MergeBest(c: Crypto, p: Params, who: Bytes32 -> Bytes32,
                  ins: set<SetState>, a: SetState, jns: set<SetState>, b: SetState, h: Held)
    requires Says(c, p, who, ins, a) && Says(c, p, who, jns, b)
    requires h.slot in LaminarCut.Cut(RuleOf(p, who), SlotsIn(ins) + SlotsIn(jns))
    requires Some(h) == Better(c, Find(a.held, h.slot), Find(b.held, h.slot))
    ensures BestOffer(c, ins + jns, h.slot, DecisionOf(c, h.item))
  {
    var u := SlotsIn(ins) + SlotsIn(jns);
    var d := DecisionOf(c, h.item);
    FindIn(a.held, h.slot);
    FindIn(b.held, h.slot);
    SlotsInjective(u, p, who);
    CutHereditary(RuleOf(p, who), SlotsIn(ins), u);
    CutHereditary(RuleOf(p, who), SlotsIn(jns), u);
    hide LaminarCut.Cut, RuleOf, Outranks, DecisionOf, Find, LowestDenied, Injective;
    if Find(a.held, h.slot).Some? {
      SideBest(c, ins, h.slot, DecisionOf(c, Find(a.held, h.slot).value.item), d);
    }
    if Find(b.held, h.slot).Some? {
      SideBest(c, jns, h.slot, DecisionOf(c, Find(b.held, h.slot).value.item), d);
    }
    if Find(a.held, h.slot).Some? && Find(b.held, h.slot).Some? {
      OutranksTotal(DecisionOf(c, Find(a.held, h.slot).value.item), DecisionOf(c, Find(b.held, h.slot).value.item));
    }
    forall e | Offered(c, ins + jns, h.slot, e) ensures !Outranks(e, d) { OfferedOnASide(c, ins, jns, h.slot, e); }
    if Find(a.held, h.slot) == Some(h) { OfferedGrows(c, ins, ins + jns, h.slot, d); }
    if Find(b.held, h.slot) == Some(h) { OfferedGrows(c, jns, ins + jns, h.slot, d); }
  }

  lemma OfferedOnASide(c: Crypto, ins: set<SetState>, jns: set<SetState>, slot: Bytes32, e: Decision)
    requires Offered(c, ins + jns, slot, e)
    ensures (slot in SlotsIn(ins) && Offered(c, ins, slot, e)) || (slot in SlotsIn(jns) && Offered(c, jns, slot, e))
  {
    var s, g :| s in ins + jns && g in s.held && g.slot == slot && DecisionOf(c, g.item) == e;
    assert slot in SlotSet(s.held);
    if s in ins {
      assert Offered(c, ins, slot, e);
    } else {
      assert Offered(c, jns, slot, e);
    }
  }

  lemma OfferedGrows(c: Crypto, s: set<SetState>, t: set<SetState>, slot: Bytes32, d: Decision)
    requires s <= t && Offered(c, s, slot, d)
    ensures Offered(c, t, slot, d)
  {
  }

  lemma SideBest(c: Crypto, states: set<SetState>, slot: Bytes32, mine: Decision, d: Decision)
    requires BestOffer(c, states, slot, mine)
    ensures mine == d || Outranks(d, mine) ==> forall e :: Offered(c, states, slot, e) ==> !Outranks(e, d)
  {
    if mine == d || Outranks(d, mine) {
      forall e | Offered(c, states, slot, e) ensures !Outranks(e, d) {
        if Outranks(e, d) && Outranks(d, mine) { OutranksTransitive(e, d, mine); }
      }
    }
  }

  lemma MergeDenied(c: Crypto, p: Params, a: SetState, b: SetState, x: set<Bytes32>, y: set<Bytes32>)
    requires DenySet(a.deny) == LowestDenied(x) && DenySet(b.deny) == LowestDenied(y)
    requires p.owner !in DenySet(a.deny) && p.owner !in DenySet(b.deny)
    ensures DenySet(Join(c, p, a, b).deny) == LowestDenied(x + y)
  {
    JoinDenyFinds(p, a.deny, b.deny);
    forall s: set<Bytes32> ensures Injective(s, KeyNum()) { KeysInjective(s); }
    TopAbsorbs(x, LowestDenied(y), KeyNum(), MAX_DENY);
    assert x + LowestDenied(y) == LowestDenied(y) + x && y + x == x + y;
    TopAbsorbs(y, x, KeyNum(), MAX_DENY);
  }

  lemma KeysInjective(s: set<Bytes32>)
    ensures Injective(s, KeyNum())
  {
    forall x, y | x in s && y in s && Num(x) == Num(y) ensures x == y { NumInjective(x, y); }
  }

  // -------------------------------------------------------------------- whole runs

  /** However joins of parsed states are ordered or associated, the result says the best decision per slot over all
      inputs, cut once, and the lowest 64 denied keys - and it parses again. */
  lemma {:induction false} RunSays(c: Crypto, p: Params, who: Bytes32 -> Bytes32, run: Run)
    requires AllReadable(c, p, who, Inputs(run))
    ensures Says(c, p, who, Inputs(run), Eval(c, p, run))
    ensures Readable(c, p, who, Eval(c, p, run))
    decreases run
  {
    match run
    case Leaf(s) =>
      LeafSays(c, p, who, s);
    case Merge(l, r) =>
      RunSays(c, p, who, l);
      RunSays(c, p, who, r);
      MergeSays(c, p, who, Inputs(l), Eval(c, p, l), Inputs(r), Eval(c, p, r));
      MergeReadable(c, p, who, Eval(c, p, l), Eval(c, p, r));
  }

  /** What a state says, apart from who signed it: the decision of each held slot, and the denied keys. */
  ghost function Facts(c: Crypto, s: SetState): (map<Bytes32, Decision>, set<Bytes32>) {
    (map x | x in SlotSet(s.held) :: DecisionAt(c, s.held, x), DenySet(s.deny))
  }

  ghost function DecisionAt(c: Crypto, hs: seq<Held>, slot: Bytes32): Decision
    requires slot in SlotSet(hs)
  {
    FindIn(hs, slot);
    DecisionOf(c, Find(hs, slot).value.item)
  }

  /** The slots a reader sees, with their decisions. */
  ghost function VisibleFacts(c: Crypto, s: SetState): set<(Bytes32, Decision)> {
    set h | h in Visible(s) :: (h.slot, DecisionOf(c, h.item))
  }

  lemma SaidAlike(c: Crypto, p: Params, who: Bytes32 -> Bytes32, states: set<SetState>, s: SetState, t: SetState)
    requires Says(c, p, who, states, s) && Says(c, p, who, states, t)
    ensures Facts(c, s) == Facts(c, t)
  {
    hide LaminarCut.Cut, LowestDenied, BestOffer, DecisionOf;
    forall x | x in SlotSet(s.held)
      ensures DecisionAt(c, s.held, x) == DecisionAt(c, t.held, x)
    {
      FindIn(s.held, x);
      FindIn(t.held, x);
      BestIsUnique(c, states, x, DecisionOf(c, Find(s.held, x).value.item), DecisionOf(c, Find(t.held, x).value.item));
    }
    assert Facts(c, s).0 == Facts(c, t).0;
  }

  /** The same decisions for the same slots, and the same denied keys - however they were split into states. */
  ghost predicate SameOffers(c: Crypto, x: set<SetState>, y: set<SetState>) {
    DeniedIn(x) == DeniedIn(y) && forall slot, d :: Offered(c, x, slot, d) <==> Offered(c, y, slot, d)
  }

  lemma OfferedSlots(c: Crypto, x: set<SetState>, y: set<SetState>)
    requires forall slot, d :: Offered(c, x, slot, d) ==> Offered(c, y, slot, d)
    ensures SlotsIn(x) <= SlotsIn(y)
  {
    forall slot | slot in SlotsIn(x) ensures slot in SlotsIn(y) {
      var s, h :| s in x && h in s.held && h.slot == slot;
      assert Offered(c, x, slot, DecisionOf(c, h.item));
      var t, g :| t in y && g in t.held && g.slot == slot && DecisionOf(c, g.item) == DecisionOf(c, h.item);
      assert slot in SlotSet(t.held);
    }
  }

  /** What a state must say depends only on what was offered. */
  lemma SaysByOffers(c: Crypto, p: Params, who: Bytes32 -> Bytes32, x: set<SetState>, y: set<SetState>, s: SetState)
    requires SameOffers(c, x, y) && Says(c, p, who, x, s)
    ensures Says(c, p, who, y, s)
  {
    hide LaminarCut.Cut, RuleOf, LowestDenied, Offered, BestOffer, DecisionOf, DeniedIn, SlotsIn;
    OfferedSlots(c, x, y);
    OfferedSlots(c, y, x);
    assert SlotsIn(x) == SlotsIn(y);
    forall h | h in s.held ensures BestOffer(c, y, h.slot, DecisionOf(c, h.item)) {
      BestByOffers(c, x, y, h.slot, DecisionOf(c, h.item));
    }
  }

  lemma BestByOffers(c: Crypto, x: set<SetState>, y: set<SetState>, slot: Bytes32, d: Decision)
    requires SameOffers(c, x, y) && BestOffer(c, x, slot, d)
    ensures BestOffer(c, y, slot, d)
  {
    hide Offered, Outranks, DeniedIn;
  }

  /** Two runs that were offered the same decisions and denials say the same, whatever the order, the association, the
      repetitions and the way they were cut into states. */
  lemma RunsAgree(c: Crypto, p: Params, who: Bytes32 -> Bytes32, run: Run, other: Run)
    requires SameOffers(c, Inputs(run), Inputs(other))
    requires AllReadable(c, p, who, Inputs(run)) && AllReadable(c, p, who, Inputs(other))
    ensures Facts(c, Eval(c, p, run)) == Facts(c, Eval(c, p, other))
    ensures VisibleFacts(c, Eval(c, p, run)) == VisibleFacts(c, Eval(c, p, other))
  {
    RunSays(c, p, who, run);
    RunSays(c, p, who, other);
    var s, t := Eval(c, p, run), Eval(c, p, other);
    ReadableParts(c, p, who, s);
    ReadableParts(c, p, who, t);
    hide Eval, Inputs, AllReadable, Readable, Says, SameOffers, Owned, DistinctSlots;
    SaysByOffers(c, p, who, Inputs(run), Inputs(other), s);
    SaidAlike(c, p, who, Inputs(other), s, t);
    VisibleWithin(c, p, who, s, t);
    VisibleWithin(c, p, who, t, s);
  }

  lemma VisibleWithin(c: Crypto, p: Params, who: Bytes32 -> Bytes32, s: SetState, t: SetState)
    requires DistinctSlots(s.held) && DistinctSlots(t.held) && Owned(p, who, s.held) && Owned(p, who, t.held)
    requires Facts(c, s) == Facts(c, t)
    ensures VisibleFacts(c, s) <= VisibleFacts(c, t)
  {
    forall f | f in VisibleFacts(c, s) ensures f in VisibleFacts(c, t) {
      var h :| h in Visible(s) && f == (h.slot, DecisionOf(c, h.item));
      VisibleElem(s, h);
      FindSelf(s.held, h);
      FindIn(t.held, h.slot);
      assert h.slot in Facts(c, s).0.Keys;
      assert h.slot in Facts(c, t).0.Keys;
      var g := Find(t.held, h.slot).value;
      assert Facts(c, s).0[h.slot] == Facts(c, t).0[h.slot];
      VisibleElem(t, g);
    }
  }

  lemma VisibleElem(s: SetState, h: Held)
    ensures h in Visible(s) <==> h in s.held && h.item.signer !in DenySet(s.deny)
  {
    FilterElem(s.held, (h: Held) => h.item.signer !in Denied(s), h);
  }

  // ------------------------------------------------------------ what follows at once

  /** The join is a semilattice on facts. */
  lemma JoinLaws(c: Crypto, p: Params, who: Bytes32 -> Bytes32, x: SetState, y: SetState, z: SetState)
    requires Readable(c, p, who, x) && Readable(c, p, who, y) && Readable(c, p, who, z)
    ensures Facts(c, Join(c, p, x, y)) == Facts(c, Join(c, p, y, x))
    ensures Facts(c, Join(c, p, Join(c, p, x, y), z)) == Facts(c, Join(c, p, x, Join(c, p, y, z)))
    ensures Facts(c, Join(c, p, x, x)) == Facts(c, x)
  {
    hide Facts, Join, Readable;
    var (lx, ly, lz) := (Leaf(x), Leaf(y), Leaf(z));
    SameInputsAgree(c, p, who, Merge(lx, ly), Merge(ly, lx));
    SameInputsAgree(c, p, who, Merge(Merge(lx, ly), lz), Merge(lx, Merge(ly, lz)));
    SameInputsAgree(c, p, who, Merge(lx, lx), lx);
  }

  lemma SameInputsAgree(c: Crypto, p: Params, who: Bytes32 -> Bytes32, run: Run, other: Run)
    requires Inputs(run) == Inputs(other) && AllReadable(c, p, who, Inputs(run))
    ensures Facts(c, Eval(c, p, run)) == Facts(c, Eval(c, p, other))
  {
    hide Facts, Eval, Readable, Offered, DeniedIn, VisibleFacts;
    RunsAgree(c, p, who, run, other);
  }

  /** An evicted slot never returns: once some of the inputs are enough to evict it, every run over at least those
      inputs leaves it out. */
  lemma EvictedStaysOut(c: Crypto, p: Params, who: Bytes32 -> Bytes32, run: Run, early: set<SetState>, slot: Bytes32)
    requires AllReadable(c, p, who, Inputs(run)) && early <= Inputs(run)
    requires slot in SlotsIn(early) && slot !in LaminarCut.Cut(RuleOf(p, who), SlotsIn(early))
    ensures slot !in SlotSet(Eval(c, p, run).held)
  {
    RunSays(c, p, who, run);
    SlotsInjective(SlotsIn(Inputs(run)), p, who);
    assert SlotsIn(early) <= SlotsIn(Inputs(run));
    CutHereditary(RuleOf(p, who), SlotsIn(early), SlotsIn(Inputs(run)));
  }

  /** No tombstone is resurrected, no seal broken and no edit undone: what a run holds for a slot is never outranked by
      anything any input ever offered for it, a sealed offer leaves a sealed decision, and none of its kind is later. */
  lemma NothingResurrected(c: Crypto, p: Params, who: Bytes32 -> Bytes32, run: Run, h: Held, d: Decision)
    requires AllReadable(c, p, who, Inputs(run))
    requires h in Eval(c, p, run).held && Offered(c, Inputs(run), h.slot, d)
    ensures !Outranks(d, DecisionOf(c, h.item))
    ensures d.sealed ==> h.item.sealed
    ensures d.sealed == h.item.sealed ==> d.ts <= h.item.ts
    ensures d.tombstone && d.ts == h.item.ts && d.sealed == h.item.sealed ==> h.item.tombstone
  {
    RunSays(c, p, who, run);
  }

  /** Merging with nothing changes nothing, witnesses included. */
  lemma JoinEmpty(c: Crypto, p: Params, s: SetState)
    requires Canonical(c, p, s) && DistinctSlots(s.held)
    ensures Join(c, p, s, SetState([], [])) == s
    ensures Join(c, p, SetState([], []), s) == s
  {
    assert s.held + [] == s.held && [] + s.held == s.held;
    assert s.deny + [] == s.deny && [] + s.deny == s.deny;
    HeldUnmoved(c, p, s.held);
    DenyUnmoved(p, s.deny);
  }

  lemma HeldUnmoved(c: Crypto, p: Params, hs: seq<Held>)
    requires DistinctSlots(hs) && Strict(hs, Order) && WithinLimits(p, hs)
    ensures Sort(CutHeld(p, OfferAll(c, [], hs)), Order) == hs
  {
    assert [] + hs == hs;
    OfferAllDistinct(c, [], hs);
    SortFixed(hs, Order);
    GreedyKeepsAll(p, hs, []);
  }

  lemma DenyUnmoved(p: Params, ds: seq<Deny>)
    requires Strict(ds, DenyOrder) && |ds| <= MAX_DENY && forall d :: d in ds ==> d.signer != p.owner
    ensures JoinDeny(p, ds, []) == ds && JoinDeny(p, [], ds) == ds
  {
    assert ds + [] == ds && [] + ds == ds;
    SortFixed(ds, DenyOrder);
    DedupFixed(ds, DenyOrder);
    FilterAll(ds, (d: Deny) => d.signer != p.owner);
    assert ds[..|ds|] == ds;
  }

  // -------------------------------------------------- from collision-freeness to `who`

  /** No two slots in play share a name and differ in their signer. */
  ghost predicate NoSlotCollision(states: set<SetState>) {
    forall s, t, h, g :: s in states && t in states && h in s.held && g in t.held && h.slot == g.slot ==>
      h.item.signer == g.item.signer
  }

  ghost function SignerIn(states: set<SetState>, slot: Bytes32): Bytes32 {
    if exists s, h :: s in states && h in s.held && h.slot == slot
    then (var s, h :| s in states && h in s.held && h.slot == slot; h.item.signer)
    else Zeros(32)
  }

  /** With no collision of slot names among the inputs, runs that were offered the same say the same. */
  lemma CollisionFreeRunsAgree(c: Crypto, p: Params, run: Run, other: Run)
    requires SameOffers(c, Inputs(run), Inputs(other))
    requires forall s :: s in Inputs(run) + Inputs(other) ==> Canonical(c, p, s)
    requires NoSlotCollision(Inputs(run) + Inputs(other))
    ensures Facts(c, Eval(c, p, run)) == Facts(c, Eval(c, p, other))
    ensures VisibleFacts(c, Eval(c, p, run)) == VisibleFacts(c, Eval(c, p, other))
  {
    var states := Inputs(run) + Inputs(other);
    var who := (x: Bytes32) => SignerIn(states, x);
    forall s | s in states ensures Owned(p, who, s.held) {}
    hide Inputs, SameOffers, Canonical, Owned, NoSlotCollision, Facts, VisibleFacts;
    assert AllReadable(c, p, who, Inputs(run)) && AllReadable(c, p, who, Inputs(other));
    RunsAgree(c, p, who, run, other);
  }
}
