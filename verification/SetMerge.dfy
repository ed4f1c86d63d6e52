/** The Set's join (set/src/merge.rs): every slot of both sides with its better decision, cut back to the limits. */
module SetMerge {
  import opened Options
  import opened Bytes
  import opened Crypto
  import opened Sorting
  import opened SortedTop
  import opened TopK
  import opened LaminarCut
  import opened SetWire

  // ------------------------------------------------------- best decision per slot

  ghost function SlotSet(hs: seq<Held>): set<Bytes32> {
    set h | h in hs :: h.slot
  }

  ghost predicate DistinctSlots(hs: seq<Held>) {
    forall i, j :: 0 <= i < j < |hs| ==> hs[i].slot != hs[j].slot
  }

  /** The entry held for a slot: the first one. */
  function Find(hs: seq<Held>, slot: Bytes32): Option<Held> {
    if hs == [] then None else if hs[0].slot == slot then Some(hs[0]) else Find(hs[1..], slot)
  }

  function Position(hs: seq<Held>, slot: Bytes32): (i: int)
    ensures 0 <= i ==> i < |hs| && hs[i].slot == slot
    ensures i < 0 ==> forall h :: h in hs ==> h.slot != slot
  {
    if hs == [] then -1
    else if hs[0].slot == slot then 0
    else
      var i := Position(hs[1..], slot);
      if i < 0 then -1 else i + 1
  }

  /** Only a decision that outranks the one held replaces it; one more signature over what is decided already does not. */
  predicate Displaces(c: Crypto, h: Held, incumbent: Held) {
    Outranks(DecisionOf(c, h.item), DecisionOf(c, incumbent.item))
  }

  function Better(c: Crypto, x: Option<Held>, y: Option<Held>): Option<Held> {
    if x.None? then y
    else if y.Some? && Displaces(c, y.value, x.value) then y
    else x
  }

  /** Offer one more entry to a list that holds one entry per slot. */
  function Offer(c: Crypto, slots: seq<Held>, h: Held): seq<Held> {
    var i := Position(slots, h.slot);
    if i < 0 then slots + [h]
    else if Displaces(c, h, slots[i]) then slots[i := h]
    else slots
  }

  function OfferAll(c: Crypto, slots: seq<Held>, hs: seq<Held>): seq<Held>
    decreases |hs|
  {
    if hs == [] then slots else OfferAll(c, Offer(c, slots, hs[0]), hs[1..])
  }

  lemma {:induction false} FindIn(hs: seq<Held>, slot: Bytes32)
    ensures Find(hs, slot).Some? <==> slot in SlotSet(hs)
    ensures Find(hs, slot).Some? ==> Find(hs, slot).value in hs && Find(hs, slot).value.slot == slot
    decreases |hs|
  {
    if hs != [] {
      FindIn(hs[1..], slot);
      assert hs == [hs[0]] + hs[1..];
      assert hs[0] in hs;
    }
  }

  lemma {:induction false} FindDistinct(hs: seq<Held>, i: nat)
    requires DistinctSlots(hs) && i < |hs|
    ensures Find(hs, hs[i].slot) == Some(hs[i])
    decreases |hs|
  {
    if i > 0 {
      FindDistinct(hs[1..], i - 1);
    }
  }

  lemma FindSelf(hs: seq<Held>, h: Held)
    requires DistinctSlots(hs) && h in hs
    ensures Find(hs, h.slot) == Some(h)
  {
    var i :| 0 <= i < |hs| && hs[i] == h;
    FindDistinct(hs, i);
  }

  lemma {:induction false} FindAppend(a: seq<Held>, b: seq<Held>, slot: Bytes32)
    ensures Find(a + b, slot) == if Find(a, slot).Some? then Find(a, slot) else Find(b, slot)
    decreases |a|
  {
    if a == [] {
      assert a + b == b;
    } else {
      FindAppend(a[1..], b, slot);
      assert (a + b)[1..] == a[1..] + b;
    }
  }

  /** One offer moves one slot, and leaves one entry per slot. */
  lemma OfferFinds(c: Crypto, slots: seq<Held>, h: Held, slot: Bytes32)
    requires DistinctSlots(slots)
    ensures DistinctSlots(Offer(c, slots, h))
    ensures Find(Offer(c, slots, h), slot)
         == if slot == h.slot then Better(c, Find(slots, slot), Some(h)) else Find(slots, slot)
  {
    var i := Position(slots, h.slot);
    var r := Offer(c, slots, h);
    FindIn(slots, slot);
    FindIn(r, slot);
    if i < 0 {
      FindAppend(slots, [h], slot);
      forall j | 0 <= j < |slots| ensures slots[j].slot != h.slot { assert slots[j] in slots; }
    } else {
      FindDistinct(slots, i);
      forall j | 0 <= j < |r| ensures r[j].slot == slots[j].slot {}
      if slot in SlotSet(slots) {
        var j :| 0 <= j < |slots| && slots[j].slot == slot;
        FindDistinct(slots, j);
        FindDistinct(r, j);
      } else {
        forall j | 0 <= j < |r| ensures r[j].slot != slot { assert slots[j] in slots; }
      }
    }
  }

  /** The fold over one entry per slot holds, for every slot, the better of the two sides. */
  lemma {:induction false} OfferAllFinds(c: Crypto, slots: seq<Held>, hs: seq<Held>, slot: Bytes32)
    requires DistinctSlots(slots) && DistinctSlots(hs)
    ensures DistinctSlots(OfferAll(c, slots, hs))
    ensures Find(OfferAll(c, slots, hs), slot) == Better(c, Find(slots, slot), Find(hs, slot))
    decreases |hs|
  {
    if hs != [] {
      OfferFinds(c, slots, hs[0], slot);
      OfferAllFinds(c, Offer(c, slots, hs[0]), hs[1..], slot);
      FindIn(hs[1..], slot);
      forall j | 0 <= j < |hs[1..]| ensures hs[1..][j].slot != hs[0].slot { assert hs[1..][j] == hs[j + 1]; }
    }
  }

  lemma {:induction false} OfferAllAppend(c: Crypto, slots: seq<Held>, a: seq<Held>, b: seq<Held>)
    ensures OfferAll(c, slots, a + b) == OfferAll(c, OfferAll(c, slots, a), b)
    decreases |a|
  {
    if a == [] {
      assert a + b == b;
    } else {
      OfferAllAppend(c, Offer(c, slots, a[0]), a[1..], b);
      assert (a + b)[1..] == a[1..] + b;
    }
  }

  /** Entries of distinct slots are taken as they come. */
  lemma {:induction false} OfferAllDistinct(c: Crypto, slots: seq<Held>, hs: seq<Held>)
    requires DistinctSlots(slots + hs)
    ensures OfferAll(c, slots, hs) == slots + hs
    decreases |hs|
  {
    if hs == [] {
      assert slots + hs == slots;
    } else {
      forall j | 0 <= j < |slots| ensures slots[j].slot != hs[0].slot {
        assert (slots + hs)[j] == slots[j] && (slots + hs)[|slots|] == hs[0];
      }
      assert slots + [hs[0]] + hs[1..] == slots + hs;
      OfferAllDistinct(c, slots + [hs[0]], hs[1..]);
    }
  }

  // ---------------------------------------------------------------------- the cut

  predicate Full(p: Params, kept: seq<Held>, h: Held) {
    CountTier(kept, h.tier) >= p.m || CountSigner(kept, h.item.signer) >= p.quota
  }

  /** One pass in rank order: take an entry unless its tier or its signer is already full of kept ones. */
  function Greedy(p: Params, hs: seq<Held>, kept: seq<Held>): seq<Held>
    decreases |hs|
  {
    if hs == [] then kept
    else Greedy(p, hs[1..], if Full(p, kept, hs[0]) then kept else kept + [hs[0]])
  }

  function CutHeld(p: Params, slots: seq<Held>): seq<Held> {
    Greedy(p, Sort(slots, Order), [])
  }

  function TierIndex(t: Tier): nat {
    if t.Owner? then 0 else 1
  }

  lemma {:induction false} CountTierAppend(hs: seq<Held>, h: Held, t: Tier)
    ensures CountTier(hs + [h], t) == CountTier(hs, t) + if h.tier == t then 1 else 0
    decreases |hs|
  {
    if hs == [] {
      assert hs + [h] == [h];
    } else {
      CountTierAppend(hs[1..], h, t);
      assert (hs + [h])[1..] == hs[1..] + [h];
    }
  }

  lemma {:induction false} CountSignerAppend(hs: seq<Held>, h: Held, k: Bytes32)
    ensures CountSigner(hs + [h], k) == CountSigner(hs, k) + if h.item.signer == k then 1 else 0
    decreases |hs|
  {
    if hs == [] {
      assert hs + [h] == [h];
    } else {
      CountSignerAppend(hs[1..], h, k);
      assert (hs + [h])[1..] == hs[1..] + [h];
    }
  }

  /** The loop with its two counters. */
  method Cut(p: Params, slots: seq<Held>) returns (kept: seq<Held>)
    ensures kept == CutHeld(p, slots)
  {
    var sorted := Sort(slots, Order);
    var perSigner: map<Bytes32, nat> := map[];
    var perTier: seq<nat> := [0, 0];
    kept := [];
    var i := 0;
    while i < |sorted|
      invariant 0 <= i <= |sorted| && |perTier| == 2
      invariant Greedy(p, sorted[i..], kept) == CutHeld(p, slots)
      invariant perTier[0] == CountTier(kept, Owner) && perTier[1] == CountTier(kept, CapHolder)
      invariant forall k: Bytes32 :: CountSigner(kept, k) == if k in perSigner then perSigner[k] else 0
    {
      var h := sorted[i];
      var tier := TierIndex(h.tier);
      var key := h.item.signer;
      var before := kept;
      i := i + 1;
      assert sorted[i - 1..][1..] == sorted[i..];
      if perTier[tier] >= p.m { continue; }
      if key !in perSigner { perSigner := perSigner[key := 0]; }
      if perSigner[key] >= p.quota { continue; }
      perSigner := perSigner[key := perSigner[key] + 1];
      perTier := perTier[tier := perTier[tier] + 1];
      kept := kept + [h];
      CountTierAppend(before, h, Owner);
      CountTierAppend(before, h, CapHolder);
      forall k: Bytes32 ensures CountSigner(kept, k) == if k in perSigner then perSigner[k] else 0 {
        CountSignerAppend(before, h, k);
      }
    }
  }

  /** The kept list is a part of the list walked, in its order, and within both bounds. */
  lemma {:induction false} GreedyShape(p: Params, hs: seq<Held>, kept: seq<Held>, k: Bytes32)
    requires Strict(kept + hs, Order)
    requires CountTier(kept, Owner) <= p.m && CountTier(kept, CapHolder) <= p.m && CountSigner(kept, k) <= p.quota
    ensures var g := Greedy(p, hs, kept);
            && Strict(g, Order)
            && (forall h :: h in g ==> h in kept || h in hs)
            && CountTier(g, Owner) <= p.m && CountTier(g, CapHolder) <= p.m && CountSigner(g, k) <= p.quota
    decreases |hs|
  {
    if hs == [] {
      assert kept + hs == kept;
    } else {
      var next := if Full(p, kept, hs[0]) then kept else kept + [hs[0]];
      CountTierAppend(kept, hs[0], Owner);
      CountTierAppend(kept, hs[0], CapHolder);
      CountSignerAppend(kept, hs[0], k);
      SkipStrict(kept, hs);
      GreedyShape(p, hs[1..], next, k);
    }
  }

  lemma SkipStrict(kept: seq<Held>, hs: seq<Held>)
    requires Strict(kept + hs, Order) && hs != []
    ensures Strict(kept + hs[1..], Order) && Strict(kept + [hs[0]] + hs[1..], Order)
  {
    hide Order;
    var n := |kept|;
    var all := kept + hs;
    var r := kept + hs[1..];
    assert kept + [hs[0]] + hs[1..] == all;
    forall i | 0 <= i < |r| ensures r[i] == all[if i < n then i else i + 1] {}
  }

  /** A list already within the limits is kept whole. */
  lemma {:induction false} GreedyKeepsAll(p: Params, hs: seq<Held>, kept: seq<Held>)
    requires WithinLimits(p, kept + hs)
    ensures Greedy(p, hs, kept) == kept + hs
    decreases |hs|
  {
    if hs == [] {
      assert kept + hs == kept;
    } else {
      CountsGrow(kept, hs, hs[0].tier, hs[0].item.signer);
      assert hs[0] in kept + hs;
      assert kept + hs == kept + [hs[0]] + hs[1..];
      GreedyKeepsAll(p, hs[1..], kept + [hs[0]]);
    }
  }

  lemma {:induction false} CountsGrow(kept: seq<Held>, hs: seq<Held>, t: Tier, k: Bytes32)
    requires hs != []
    ensures CountTier(kept + hs, t) >= CountTier(kept, t) + if hs[0].tier == t then 1 else 0
    ensures CountSigner(kept + hs, k) >= CountSigner(kept, k) + if hs[0].item.signer == k then 1 else 0
    decreases |kept|
  {
    if kept == [] {
      assert kept + hs == hs;
    } else {
      CountsGrow(kept[1..], hs, t, k);
      assert (kept + hs)[1..] == kept[1..] + hs;
    }
  }

  // ------------------------------------------- the one pass is the two-pass filter

  /** Slots of one Set as the cut sees them; `who` names each slot's signer. */
  ghost function RuleOf(p: Params, who: Bytes32 -> Bytes32): Rule {
    Rule((s: Bytes32) => Num(s), who, (k: Bytes32) => TierIndex(TierOf(p, k)), p.quota, p.m)
  }

  /** Every slot in the list belongs to the signer `who` names, and sits in that signer's tier. */
  ghost predicate Owned(p: Params, who: Bytes32 -> Bytes32, hs: seq<Held>) {
    forall h :: h in hs ==> h.item.signer == who(h.slot) && h.tier == TierOf(p, h.item.signer)
  }

  lemma SlotsInjective(s: set<Bytes32>, p: Params, who: Bytes32 -> Bytes32)
    ensures Injective(s, RuleOf(p, who).rank)
  {
    forall x, y | x in s && y in s && Num(x) == Num(y) ensures x == y { NumInjective(x, y); }
  }

  lemma {:induction false} CountsAreSizes(p: Params, who: Bytes32 -> Bytes32, hs: seq<Held>, t: Tier, k: Bytes32)
    requires Owned(p, who, hs) && DistinctSlots(hs)
    ensures CountTier(hs, t) == |InTier(RuleOf(p, who), SlotSet(hs), TierIndex(t))|
    ensures CountSigner(hs, k) == |Of(RuleOf(p, who), SlotSet(hs), k)|
    decreases |hs|
  {
    var r := RuleOf(p, who);
    if hs == [] {
      assert InTier(r, SlotSet(hs), TierIndex(t)) == {} && Of(r, SlotSet(hs), k) == {};
    } else {
      assert hs[0] in hs;
      FrontSlot(hs);
      CountsAreSizes(p, who, hs[1..], t, k);
      assert r.tier(r.who(hs[0].slot)) == TierIndex(hs[0].tier);
      hide Of, InTier, SlotSet, RuleOf;
      AddMember(r, SlotSet(hs[1..]), hs[0].slot, TierIndex(t), k);
      assert SlotSet(hs) == SlotSet(hs[1..]) + {hs[0].slot};
    }
  }

  lemma FrontSlot(hs: seq<Held>)
    requires hs != [] && DistinctSlots(hs)
    ensures SlotSet(hs) == {hs[0].slot} + SlotSet(hs[1..]) && hs[0].slot !in SlotSet(hs[1..])
    ensures DistinctSlots(hs[1..])
  {
    var rest := hs[1..];
    assert hs == [hs[0]] + rest;
    forall h | h in rest ensures h.slot != hs[0].slot {
      var j :| 0 <= j < |rest| && rest[j] == h;
      assert hs[j + 1] == h;
    }
  }

  /** Among slots of one tier, those walked before `sorted[i]` are exactly the better-ranked ones. */
  lemma WalkedAreBelow(p: Params, who: Bytes32 -> Bytes32, sorted: seq<Held>, i: nat, slot: Bytes32)
    requires Owned(p, who, sorted) && Strict(sorted, Order) && i < |sorted|
    requires slot in SlotSet(sorted) && TierOf(p, who(slot)) == sorted[i].tier
    ensures slot in SlotSet(sorted[..i]) <==> Num(slot) < Num(sorted[i].slot)
  {
    hide TierOf, Pow256, Num;
    var j :| 0 <= j < |sorted| && sorted[j].slot == slot;
    assert sorted[j] in sorted;
    if j < i {
      assert sorted[..i][j].slot == slot;
      assert Order(sorted[j]) < Order(sorted[i]);
    } else {
      forall k | 0 <= k < i ensures sorted[..i][k].slot != slot {
        assert sorted[k] in sorted && Order(sorted[k]) < Order(sorted[j]);
      }
    }
  }

  /** What the loop has kept so far: the part of the cut it has walked past. */
  ghost predicate KeptSoFar(p: Params, who: Bytes32 -> Bytes32, sorted: seq<Held>, i: nat, kept: seq<Held>)
    requires i <= |sorted|
  {
    && SlotSet(kept) == LaminarCut.Cut(RuleOf(p, who), SlotSet(sorted)) * SlotSet(sorted[..i])
    && DistinctSlots(kept)
    && forall h :: h in kept ==> h in sorted[..i]
  }

  lemma DistinctBySorted(hs: seq<Held>)
    requires Strict(hs, Order) && forall a, b :: a in hs && b in hs && a.slot == b.slot ==> a.tier == b.tier
    ensures DistinctSlots(hs)
  {
    forall i, j | 0 <= i < j < |hs| ensures hs[i].slot != hs[j].slot {
      assert hs[i] in hs && hs[j] in hs && Order(hs[i]) < Order(hs[j]);
    }
  }

  /** One step decides its slot as the two-pass filter does. */
  lemma GreedyStep(p: Params, who: Bytes32 -> Bytes32, sorted: seq<Held>, i: nat, kept: seq<Held>)
    requires Owned(p, who, sorted) && Strict(sorted, Order) && i < |sorted|
    requires KeptSoFar(p, who, sorted, i, kept)
    ensures Full(p, kept, sorted[i]) <==> sorted[i].slot !in LaminarCut.Cut(RuleOf(p, who), SlotSet(sorted))
  {
    var r := RuleOf(p, who);
    var u := SlotSet(sorted);
    var h := sorted[i];
    var x := h.slot;
    var g := h.item.signer;
    var t := TierIndex(h.tier);
    assert h in sorted;
    SlotsInjective(u, p, who);
    CutIsGreedy(r, u, x);
    CountsAreSizes(p, who, kept, h.tier, g);
    var cut := LaminarCut.Cut(r, u);
    forall y | y in cut && r.tier(r.who(y)) == t ensures y in SlotSet(kept) <==> Num(y) < Num(x) {
      WalkedAreBelow(p, who, sorted, i, y);
    }
    assert InTier(r, SlotSet(kept), t) == Below(InTier(r, cut, t), r.rank, x);
    assert Of(r, SlotSet(kept), g) == Below(Of(r, cut, g), r.rank, x);
  }

  lemma {:induction false} GreedyIsTwoPass(p: Params, who: Bytes32 -> Bytes32, sorted: seq<Held>, i: nat, kept: seq<Held>)
    requires Owned(p, who, sorted) && Strict(sorted, Order) && i <= |sorted|
    requires KeptSoFar(p, who, sorted, i, kept)
    ensures SlotSet(Greedy(p, sorted[i..], kept)) == LaminarCut.Cut(RuleOf(p, who), SlotSet(sorted))
    decreases |sorted| - i
  {
    if i == |sorted| {
      assert sorted[..i] == sorted;
    } else {
      var h := sorted[i];
      var next := if Full(p, kept, h) then kept else kept + [h];
      GreedyStep(p, who, sorted, i, kept);
      OneMoreWalked(p, who, sorted, i, kept);
      assert sorted[i..][1..] == sorted[i + 1..];
      GreedyIsTwoPass(p, who, sorted, i + 1, next);
    }
  }

  lemma OneMoreWalked(p: Params, who: Bytes32 -> Bytes32, sorted: seq<Held>, i: nat, kept: seq<Held>)
    requires Owned(p, who, sorted) && Strict(sorted, Order) && i < |sorted|
    requires KeptSoFar(p, who, sorted, i, kept)
    requires Full(p, kept, sorted[i]) <==> sorted[i].slot !in LaminarCut.Cut(RuleOf(p, who), SlotSet(sorted))
    ensures KeptSoFar(p, who, sorted, i + 1, if Full(p, kept, sorted[i]) then kept else kept + [sorted[i]])
  {
    hide LaminarCut.Cut, Full, Order, RuleOf;
    var h := sorted[i];
    assert sorted[..i + 1] == sorted[..i] + [h];
    SlotSetAppend(sorted[..i], h);
    if !Full(p, kept, h) {
      SlotSetAppend(kept, h);
      NewSlot(p, who, sorted, i, kept);
    }
  }

  lemma SlotSetAppend(hs: seq<Held>, h: Held)
    ensures SlotSet(hs + [h]) == SlotSet(hs) + {h.slot}
  {
    assert forall x :: x in hs + [h] <==> x in hs || x == h;
  }

  lemma NewSlot(p: Params, who: Bytes32 -> Bytes32, sorted: seq<Held>, i: nat, kept: seq<Held>)
    requires Owned(p, who, sorted) && Strict(sorted, Order) && i < |sorted|
    requires DistinctSlots(kept) && forall h :: h in kept ==> h in sorted[..i]
    ensures DistinctSlots(kept + [sorted[i]])
  {
    var h := sorted[i];
    forall j | 0 <= j < |kept| ensures kept[j].slot != h.slot {
      assert kept[j] in kept;
      var n :| 0 <= n < i && sorted[..i][n] == kept[j];
      assert sorted[n] in sorted && h in sorted && Order(sorted[n]) < Order(h);
    }
  }

  /** The slots the one-pass cut keeps are those of the two passes: signers bounded first, tiers after. */
  lemma CutIsTwoPass(p: Params, who: Bytes32 -> Bytes32, slots: seq<Held>)
    requires Owned(p, who, slots) && DistinctSlots(slots)
    ensures SlotSet(CutHeld(p, slots)) == LaminarCut.Cut(RuleOf(p, who), SlotSet(slots))
  {
    var sorted := Sort(slots, Order);
    SortedSlots(slots);
    assert sorted[0..] == sorted && sorted[..0] == [];
    GreedyIsTwoPass(p, who, sorted, 0, []);
  }

  lemma SortedSlots(slots: seq<Held>)
    requires DistinctSlots(slots)
    ensures var sorted := Sort(slots, Order);
            && Strict(sorted, Order)
            && (forall h :: h in sorted <==> h in slots)
            && SlotSet(sorted) == SlotSet(slots)
  {
    forall i, j | 0 <= i < j < |slots| ensures Order(slots[i]) != Order(slots[j]) {
      if Order(slots[i]) == Order(slots[j]) { OrderInjective(slots[i], slots[j]); }
    }
    SortStrict(slots, Order);
    forall h ensures h in Sort(slots, Order) <==> h in slots { SortElem(slots, Order, h); }
  }

  /** What the cut leaves, entry by entry: sorted, within the limits, and nothing that was not offered. */
  lemma CutShape(p: Params, slots: seq<Held>)
    requires DistinctSlots(slots)
    ensures var g := CutHeld(p, slots);
            && Strict(g, Order)
            && (forall h :: h in g ==> h in slots)
            && WithinLimits(p, g)
  {
    var sorted := Sort(slots, Order);
    SortedSlots(slots);
    assert [] + sorted == sorted;
    forall k: Bytes32 ensures CountSigner(CutHeld(p, slots), k) <= p.quota {
      GreedyShape(p, sorted, [], k);
    }
    GreedyShape(p, sorted, [], Zeros(32));
  }

  // --------------------------------------------------------------------- the join

  /** Of both lists the `MAX_DENY` lowest keys, each with its first witness; the owner is struck out after the cut. */
  function JoinDeny(p: Params, a: seq<Deny>, b: seq<Deny>): seq<Deny> {
    var all := Dedup(Sort(a + b, DenyOrder), DenyOrder);
    Filter(all[..Min(MAX_DENY, |all|)], (d: Deny) => d.signer != p.owner)
  }

  function Join(c: Crypto, p: Params, a: SetState, b: SetState): SetState {
    SetState(JoinDeny(p, a.deny, b.deny), Sort(CutHeld(p, OfferAll(c, [], a.held + b.held)), Order))
  }

  method JoinStates(c: Crypto, p: Params, a: SetState, b: SetState) returns (r: SetState)
    ensures r == Join(c, p, a, b)
  {
    var deny := Dedup(Sort(a.deny + b.deny, DenyOrder), DenyOrder);
    deny := deny[..Min(MAX_DENY, |deny|)];
    deny := Filter(deny, (d: Deny) => d.signer != p.owner);
    var all := a.held + b.held;
    var slots: seq<Held> := [];
    var i := 0;
    while i < |all|
      invariant 0 <= i <= |all|
      invariant OfferAll(c, slots, all[i..]) == OfferAll(c, [], all)
    {
      var h := all[i];
      var at := Position(slots, h.slot);
      if at < 0 {
        slots := slots + [h];
      } else if Outranks(DecisionOf(c, h.item), DecisionOf(c, slots[at].item)) {
        slots := slots[at := h];
      }
      assert all[i..][1..] == all[i + 1..];
      i := i + 1;
    }
    var held := Cut(p, slots);
    r := SetState(deny, Sort(held, Order));
  }

  /** The slots a join holds, before and after the cut. */
  lemma MergedFinds(c: Crypto, a: seq<Held>, b: seq<Held>, slot: Bytes32)
    requires DistinctSlots(a) && DistinctSlots(b)
    ensures DistinctSlots(OfferAll(c, [], a + b))
    ensures Find(OfferAll(c, [], a + b), slot) == Better(c, Find(a, slot), Find(b, slot))
  {
    OfferAllAppend(c, [], a, b);
    assert [] + a == a;
    OfferAllDistinct(c, [], a);
    OfferAllFinds(c, a, b, slot);
  }

  lemma MergedFrom(c: Crypto, a: seq<Held>, b: seq<Held>)
    requires DistinctSlots(a) && DistinctSlots(b)
    ensures DistinctSlots(OfferAll(c, [], a + b))
    ensures forall h :: h in OfferAll(c, [], a + b) ==> h in a || h in b
    ensures SlotSet(OfferAll(c, [], a + b)) == SlotSet(a) + SlotSet(b)
  {
    var m := OfferAll(c, [], a + b);
    MergedFinds(c, a, b, Zeros(32));
    forall h | h in m ensures h in a || h in b {
      MergedFinds(c, a, b, h.slot);
      FindSelf(m, h);
      FindIn(a, h.slot);
      FindIn(b, h.slot);
    }
    forall s: Bytes32 ensures s in SlotSet(m) <==> s in SlotSet(a) + SlotSet(b) {
      MergedFinds(c, a, b, s);
      FindIn(m, s);
      FindIn(a, s);
      FindIn(b, s);
    }
  }

  /** The join keeps the slots the two-pass cut of the union keeps, each with the better side's decision. */
  lemma JoinHeld(c: Crypto, p: Params, who: Bytes32 -> Bytes32, a: seq<Held>, b: seq<Held>)
    requires DistinctSlots(a) && DistinctSlots(b) && Owned(p, who, a) && Owned(p, who, b)
    ensures var j := Sort(CutHeld(p, OfferAll(c, [], a + b)), Order);
            && SlotSet(j) == LaminarCut.Cut(RuleOf(p, who), SlotSet(a) + SlotSet(b))
            && forall h :: h in j ==> Some(h) == Better(c, Find(a, h.slot), Find(b, h.slot))
  {
    var m := OfferAll(c, [], a + b);
    MergedFrom(c, a, b);
    CutIsTwoPass(p, who, m);
    CutShape(p, m);
    SortFixed(CutHeld(p, m), Order);
    forall h | h in CutHeld(p, m) ensures Some(h) == Better(c, Find(a, h.slot), Find(b, h.slot)) {
      FindSelf(m, h);
      MergedFinds(c, a, b, h.slot);
    }
  }

  lemma HeldDistinct(c: Crypto, p: Params, hs: seq<Held>, who: Bytes32 -> Bytes32)
    requires Strict(hs, Order) && Owned(p, who, hs)
    ensures DistinctSlots(hs)
  {
    forall a, b | a in hs && b in hs && a.slot == b.slot ensures a.tier == b.tier {}
    DistinctBySorted(hs);
  }

  // ------------------------------------------------------------------ the denials

  ghost function DenySet(ds: seq<Deny>): set<Bytes32> {
    set d | d in ds :: d.signer
  }

  ghost function KeyNum(): Bytes32 -> int {
    (k: Bytes32) => Num(k)
  }

  ghost function LowestDenied(ks: set<Bytes32>): set<Bytes32> {
    Top(ks, KeyNum(), MAX_DENY)
  }

  /** Every key offered keeps the first witness offered for it. */
  lemma JoinDenyFinds(p: Params, a: seq<Deny>, b: seq<Deny>)
    ensures var j := JoinDeny(p, a, b);
            && Strict(j, DenyOrder) && |j| <= MAX_DENY
            && (forall d :: d in j ==> d.signer != p.owner && (d in a || d in b))
            && DenySet(j) == LowestDenied(DenySet(a) + DenySet(b)) - {p.owner}
  {
    var all := Dedup(Sort(a + b, DenyOrder), DenyOrder);
    var cut := all[..Min(MAX_DENY, |all|)];
    var keep := (d: Deny) => d.signer != p.owner;
    UniqueSorted(a + b, DenyOrder);
    FilterStrict(cut, keep, DenyOrder);
    FilterElem(cut, keep, Deny(Zeros(32), Zeros(64)));
    forall d | d in all ensures d in a || d in b {
      FirstOfStrict(all, DenyOrder, d);
      FirstIn(a + b, DenyOrder, DenyOrder(d));
    }
    forall d | d in Filter(cut, keep) ensures d.signer != p.owner && (d in a || d in b) {
      FilterElem(cut, keep, d);
      assert d in cut;
    }
    var f := (d: Deny) => d.signer;
    PrefixIsTop(all, f, KeyNum(), DenyOrder, MAX_DENY);
    DedupDenySet(a + b);
    assert Labels(all, f) == DenySet(all) && Labels(cut, f) == DenySet(cut);
    assert DenySet(a + b) == DenySet(a) + DenySet(b);
    FilterDenySet(p, cut);
  }

  lemma FilterDenySet(p: Params, ds: seq<Deny>)
    ensures DenySet(Filter(ds, (d: Deny) => d.signer != p.owner)) == DenySet(ds) - {p.owner}
  {
    var keep := (d: Deny) => d.signer != p.owner;
    forall k ensures k in DenySet(Filter(ds, keep)) <==> k in DenySet(ds) - {p.owner} {
      if k in DenySet(Filter(ds, keep)) {
        var d :| d in Filter(ds, keep) && d.signer == k;
        FilterElem(ds, keep, d);
      }
      if k in DenySet(ds) - {p.owner} {
        var d :| d in ds && d.signer == k;
        FilterElem(ds, keep, d);
      }
    }
  }

  lemma DedupDenySet(ds: seq<Deny>)
    ensures DenySet(Dedup(Sort(ds, DenyOrder), DenyOrder)) == DenySet(ds)
  {
    var all := Dedup(Sort(ds, DenyOrder), DenyOrder);
    UniqueSortedKeys(ds, DenyOrder);
    forall k: Bytes32 ensures k in DenySet(all) <==> k in DenySet(ds) {
      SameKeys(all, k);
      SameKeys(ds, k);
    }
  }

  lemma SameKeys(ds: seq<Deny>, k: Bytes32)
    ensures k in DenySet(ds) <==> Num(k) in Keys(ds, DenyOrder)
  {
    if Num(k) in Keys(ds, DenyOrder) {
      var d :| d in ds && DenyOrder(d) == Num(k);
      NumInjective(d.signer, k);
    }
  }

  // --------------------------------------------------------------------- closure

  lemma {:induction false} OfferAllFrom(c: Crypto, slots: seq<Held>, hs: seq<Held>)
    requires DistinctSlots(slots)
    ensures DistinctSlots(OfferAll(c, slots, hs))
    ensures forall h :: h in OfferAll(c, slots, hs) ==> h in slots || h in hs
    decreases |hs|
  {
    if hs != [] {
      OfferFinds(c, slots, hs[0], hs[0].slot);
      OfferAllFrom(c, Offer(c, slots, hs[0]), hs[1..]);
      assert forall h :: h in Offer(c, slots, hs[0]) ==> h in slots || h == hs[0];
    }
  }

  lemma JoinFrom(c: Crypto, p: Params, a: SetState, b: SetState)
    ensures var j := Join(c, p, a, b);
            && Strict(j.held, Order) && WithinLimits(p, j.held)
            && (forall h :: h in j.held ==> h in a.held || h in b.held)
  {
    OfferAllFrom(c, [], a.held + b.held);
    CutShape(p, OfferAll(c, [], a.held + b.held));
    SortFixed(CutHeld(p, OfferAll(c, [], a.held + b.held)), Order);
  }

  /** Every bound the parser enforces, the join enforces on its output: both sides need only be made of well-formed
      slots, so this covers deltas and filtered candidates too. */
  lemma JoinCanonical(c: Crypto, p: Params, a: SetState, b: SetState)
    requires forall h :: h in a.held || h in b.held ==> HeldOk(c, p, h)
    ensures Canonical(c, p, Join(c, p, a, b))
  {
    JoinFrom(c, p, a, b);
    JoinDenyFinds(p, a.deny, b.deny);
  }

  lemma JoinVerified(c: Crypto, p: Params, a: SetState, b: SetState)
    requires Verified(c, p, a) && Verified(c, p, b)
    ensures Verified(c, p, Join(c, p, a, b))
  {
    JoinFrom(c, p, a, b);
    JoinDenyFinds(p, a.deny, b.deny);
  }
}
