/** What a host does with a Set: read a state, check its limits, and absorb candidates, verifying late
    (set/src/lib.rs and the loops of set/src/wire.rs). */
module SetHost {
  import opened Options
  import opened Bytes
  import opened Crypto
  import opened Doors
  import opened Lists
  import opened Sorting
  import opened SetWire
  import opened SetCodec
  import opened SetMerge
  import opened SetRuns

  // ------------------------------------------------------------------ the limits

  function Signers(hs: seq<Held>): seq<bytes> {
    if hs == [] then [] else [hs[0].item.signer] + Signers(hs[1..])
  }

  lemma {:induction false} CountIsMultiplicity(hs: seq<Held>, k: Bytes32)
    ensures CountSigner(hs, k) == multiset(Signers(hs))[k]
    ensures k in Signers(hs) <==> exists h :: h in hs && h.item.signer == k
    decreases |hs|
  {
    if hs != [] {
      CountIsMultiplicity(hs[1..], k);
      assert hs == [hs[0]] + hs[1..];
    }
  }

  lemma CountBySorted(hs: seq<Held>, k: Bytes32)
    ensures CountSigner(hs, k) == multiset(Sort(Signers(hs), KeyOrder))[k]
    ensures k in Sort(Signers(hs), KeyOrder) <==> exists h :: h in hs && h.item.signer == k
  {
    CountIsMultiplicity(hs, k);
    SortSorts(Signers(hs), KeyOrder);
    SortElem(Signers(hs), KeyOrder, k);
  }

  /** After `i` signers: the current run is the last signer's count so far, and no count is over the quota. */
  ghost predicate RunsOk(s: seq<bytes>, i: nat, run: nat, quota: nat) {
    1 <= i <= |s| && run + 1 == multiset(s[..i])[s[i - 1]] && forall k: bytes :: multiset(s[..i])[k] <= quota
  }

  /** In a sorted list of keys, one that differs from its neighbour has not been seen before. */
  lemma NewRun(s: seq<bytes>, i: nat)
    requires Sorted(s, KeyOrder) && 0 < i < |s| && s[i - 1] != s[i]
    requires forall b :: b in s ==> |b| == 32
    ensures multiset(s[..i])[s[i]] == 0
  {
    if s[i] in s[..i] {
      var j :| 0 <= j < i && s[j] == s[i];
      if j < i - 1 { assert KeyOrder(s[j]) <= KeyOrder(s[i - 1]); }
      assert s[i - 1] in s && s[i] in s;
      NumInjective(s[i - 1], s[i]);
    }
  }

  lemma RunStep(s: seq<bytes>, i: nat, run: nat, quota: nat)
    requires Sorted(s, KeyOrder) && i < |s| && RunsOk(s, i, run, quota)
    requires forall b :: b in s ==> |b| == 32
    ensures var next := if s[i - 1] == s[i] then run + 1 else 0;
            && next + 1 == multiset(s[..i + 1])[s[i]]
            && (next + 1 <= quota ==> RunsOk(s, i + 1, next, quota))
  {
    assert s[..i + 1] == s[..i] + [s[i]];
    if s[i - 1] != s[i] { NewRun(s, i); }
  }

  lemma SignersAreKeys(hs: seq<Held>)
    ensures forall b :: b in Sort(Signers(hs), KeyOrder) ==> |b| == 32
  {
    forall b | b in Sort(Signers(hs), KeyOrder) ensures |b| == 32 {
      SortElem(Signers(hs), KeyOrder, b);
      SignerIsKey(hs, b);
    }
  }

  lemma {:induction false} SignerIsKey(hs: seq<Held>, b: bytes)
    requires b in Signers(hs)
    ensures |b| == 32
    decreases |hs|
  {
    if b != hs[0].item.signer { SignerIsKey(hs[1..], b); }
  }

  /** A long run is a signer over its quota. */
  lemma LongRun(p: Params, hs: seq<Held>, i: nat)
    requires i < |Sort(Signers(hs), KeyOrder)|
    requires multiset(Sort(Signers(hs), KeyOrder)[..i + 1])[Sort(Signers(hs), KeyOrder)[i]] > p.quota
    ensures !WithinLimits(p, hs)
  {
    var s := Sort(Signers(hs), KeyOrder);
    SignersAreKeys(hs);
    assert s[i] in s;
    CountBySorted(hs, s[i]);
    assert s == s[..i + 1] + s[i + 1..];
  }

  lemma FirstRun(s: seq<bytes>, quota: nat)
    requires s != [] && quota >= 1
    ensures RunsOk(s, 1, 0, quota)
  {
    assert s[..1] == [s[0]];
  }

  /** A walk that met no long run has found no signer over its quota. */
  lemma WalkedAll(p: Params, hs: seq<Held>, run: nat)
    requires CountTier(hs, Owner) <= p.m && CountTier(hs, CapHolder) <= p.m
    requires var s := Sort(Signers(hs), KeyOrder); s != [] ==> RunsOk(s, |s|, run, p.quota)
    ensures WithinLimits(p, hs)
  {
    var s := Sort(Signers(hs), KeyOrder);
    assert s[..|s|] == s;
    forall h | h in hs ensures CountSigner(hs, h.item.signer) <= p.quota { CountBySorted(hs, h.item.signer); }
  }

  /** `within_limits`: count each tier, then walk the sorted signers for a run longer than the quota. */
  method CheckLimits(p: Params, hs: seq<Held>) returns (ok: bool)
    requires p.quota >= 1
    ensures ok <==> WithinLimits(p, hs)
  {
    if CountTier(hs, Owner) > p.m || CountTier(hs, CapHolder) > p.m { return false; }
    hide RunsOk, Sorted, WithinLimits, Sort, Signers;
    var signers: seq<bytes> := Sort(Signers(hs), KeyOrder);
    SortSorts(Signers(hs), KeyOrder);
    SignersAreKeys(hs);
    if |signers| > 0 { FirstRun(signers, p.quota); }
    var run := 0;
    var i := 1;
    while i < |signers|
      invariant i >= 1
      invariant |signers| > 0 ==> i <= |signers| && RunsOk(signers, i, run, p.quota)
    {
      RunStep(signers, i, run, p.quota);
      run := if signers[i - 1] == signers[i] then run + 1 else 0;
      if run + 1 > p.quota {
        LongRun(p, hs, i);
        return false;
      }
      i := i + 1;
    }
    WalkedAll(p, hs, run);
    return true;
  }

  // -------------------------------------------------------------------- the parser

  /** `parse_unverified` as its loops run. */
  method ReadState(c: Crypto, p: Params, b: bytes) returns (r: Option<SetState>)
    requires ParamsOk(c, p)
    ensures r == ParseUnverified(c, p, b)
  {
    hide ReadDeny, ReadSlot, ReadU16, Follows, DenyFollows, WithinLimits;
    var head := Take(b, 4);
    if head.None? || head.value.0 != MAGIC { return None; }
    var dcount := ReadU16(head.value.1);
    if dcount.None? || dcount.value.0 > MAX_DENY { return None; }
    var deny := ReadDenyList(p, dcount.value.1, dcount.value.0);
    if deny.None? { return None; }
    var count := ReadU16(deny.value.1);
    if count.None? || count.value.0 > Min(2 * p.m, 0xFFFF) { return None; }
    var held := ReadItemList(c, p, count.value.1, count.value.0);
    if held.None? || held.value.1 != [] { return None; }
    var ok := CheckLimits(p, held.value.0);
    if !ok { return None; }
    return Some(SetState(deny.value.0, held.value.0));
  }

  function Last<T>(s: seq<T>): Option<T> {
    if s == [] then None else Some(s[|s| - 1])
  }

  method ReadDenyList(p: Params, b: bytes, n: nat) returns (r: Option<(seq<Deny>, bytes)>)
    ensures r == ReadDenies(p, b, n, None)
  {
    hide ReadDeny, DenyFollows;
    AfterNothing(ReadDenies(p, b, n, None));
    var rest := b;
    var deny: seq<Deny> := [];
    var i := 0;
    while i < n
      invariant 0 <= i <= n
      invariant ReadDenies(p, b, n, None) == After(deny, ReadDenies(p, rest, n - i, Last(deny)))
    {
      var d := ReadDeny(rest);
      if d.None? || !DenyFollows(p, Last(deny), d.value.0) { return None; }
      AfterMore(deny, [d.value.0], ReadDenies(p, d.value.1, n - i - 1, Some(d.value.0)));
      deny := deny + [d.value.0];
      rest := d.value.1;
      i := i + 1;
    }
    assert deny + [] == deny;
    return Some((deny, rest));
  }

  method ReadItemList(c: Crypto, p: Params, b: bytes, n: nat) returns (r: Option<(seq<Held>, bytes)>)
    ensures r == ReadItems(c, p, b, n, None)
  {
    hide ReadSlot, Follows;
    AfterNothing(ReadItems(c, p, b, n, None));
    var rest := b;
    var held: seq<Held> := [];
    var i := 0;
    while i < n
      invariant 0 <= i <= n
      invariant ReadItems(c, p, b, n, None) == After(held, ReadItems(c, p, rest, n - i, Last(held)))
    {
      var h := ReadSlot(c, p, rest);
      if h.None? || !Follows(Last(held), h.value.0) { return None; }
      AfterMore(held, [h.value.0], ReadItems(c, p, h.value.1, n - i - 1, Some(h.value.0)));
      held := held + [h.value.0];
      rest := h.value.1;
      i := i + 1;
    }
    assert held + [] == held;
    return Some((held, rest));
  }

  // ------------------------------------------------------------------- the encoder

  lemma PutHeadSplit(h: Head, x: bytes, rest: bytes)
    ensures PutHead(h, x + rest) == PutHead(h, x) + rest
  {
    var n, t, f := [|h.itemKey| % 256], LE(h.ts, 8), [h.flags];
    assert h.signer + (n + (h.itemKey + (t + (f + (x + rest))))) == h.signer + (n + (h.itemKey + (t + (f + x)))) + rest;
  }

  lemma PutTailSplit(t: Tail, rest: bytes)
    ensures PutTail(t, rest) == PutTail(t, []) + rest
  {
    assert t.nonce + (t.sig + rest) == t.nonce + (t.sig + []) + rest;
    if t.cap.Some? {
      var k, x := t.cap.value, t.nonce + (t.sig + []);
      var f, u := LE(k.from, 4), LE(k.to, 4);
      assert k.grantee + (k.paramsSansBucket + (f + (u + (k.sig + (x + rest)))))
          == k.grantee + (k.paramsSansBucket + (f + (u + (k.sig + x)))) + rest;
    }
  }

  /** An item's bytes do not depend on what follows them. */
  lemma PutItemSplit(i: Item, rest: bytes)
    ensures PutItem(i, rest) == PutItem(i, []) + rest
  {
    hide PutHead, PutTail, LE;
    PutTailSplit(TailOf(i), rest);
    var n, t := LE(|i.payload|, 2), PutTail(TailOf(i), []);
    assert n + (i.payload + (t + rest)) == n + (i.payload + t) + rest;
    PutHeadSplit(HeadOf(i), n + (i.payload + t), rest);
  }

  /** `encode` as its loops run: two counts, and the two lists appended one entry at a time. */
  method EncodeState(s: SetState) returns (out: bytes)
    ensures out == Encode(s)
  {
    hide PutItem, LE;
    ghost var tail := LE(|s.held|, 2) + PutItems(s.held, []);
    out := MAGIC;
    out := out + LE(|s.deny|, 2);
    var i := 0;
    while i < |s.deny|
      invariant 0 <= i <= |s.deny|
      invariant out + PutDenies(s.deny[i..], tail) == Encode(s)
    {
      ghost var rest := PutDenies(s.deny[i + 1..], tail);
      var d := s.deny[i];
      assert s.deny[i..][1..] == s.deny[i + 1..];
      assert out + (d.signer + (d.sig + rest)) == out + d.signer + d.sig + rest;
      out := out + d.signer;
      out := out + d.sig;
      i := i + 1;
    }
    assert out + (LE(|s.held|, 2) + PutItems(s.held, [])) == out + LE(|s.held|, 2) + PutItems(s.held, []);
    out := out + LE(|s.held|, 2);
    assert s.held[0..] == s.held;
    i := 0;
    while i < |s.held|
      invariant 0 <= i <= |s.held|
      invariant out + PutItems(s.held[i..], []) == Encode(s)
    {
      ghost var rest := PutItems(s.held[i + 1..], []);
      var item := PutItem(s.held[i].item, []);
      assert s.held[i..][1..] == s.held[i + 1..];
      PutItemSplit(s.held[i].item, rest);
      assert out + (item + rest) == out + item + rest;
      out := out + item;
      i := i + 1;
    }
    assert out + [] == out;
  }

  // ------------------------------------------------------------------- verify late

  /** Could this slot win against what is held? */
  predicate Beats(c: Crypto, held: seq<Held>, h: Held) {
    var x := Find(held, h.slot);
    x.None? || Displaces(c, h, x.value)
  }

  function UsefulItem(c: Crypto, p: Params, held: SetState): Held -> bool {
    (h: Held) => Beats(c, held.held, h) && VerifyItem(c, p, h.item)
  }

  function UsefulDenial(c: Crypto, p: Params, held: SetState): Deny -> bool {
    (d: Deny) => d.signer !in Denied(held) && VerifyDeny(c, p, d)
  }

  /** The parts of a candidate worth a signature check, once checked. */
  function UsefulPart(c: Crypto, p: Params, held: SetState, cand: SetState): SetState {
    SetState(
      Filter(cand.deny, UsefulDenial(c, p, held)),
      Sort(Filter(cand.held, UsefulItem(c, p, held)), Order))
  }

  function Absorb(c: Crypto, p: Params, held: SetState, cand: SetState): SetState {
    Join(c, p, held, UsefulPart(c, p, held, cand))
  }

  /** The signature is looked at only if the decision could win the slot. */
  method CollectUseful(c: Crypto, p: Params, held: SetState, cand: seq<Held>) returns (useful: seq<Held>)
    ensures useful == Filter(cand, UsefulItem(c, p, held))
  {
    hide Beats, VerifyItem;
    var keep := UsefulItem(c, p, held);
    useful := [];
    var i := 0;
    while i < |cand|
      invariant 0 <= i <= |cand|
      invariant useful + Filter(cand[i..], keep) == Filter(cand, keep)
    {
      var h := cand[i];
      var rest := Filter(cand[i + 1..], keep);
      assert cand[i..][1..] == cand[i + 1..];
      assert useful + ([h] + rest) == useful + [h] + rest && [] + rest == rest;
      if Beats(c, held.held, h) && VerifyItem(c, p, h.item) {
        useful := useful + [h];
      }
      i := i + 1;
    }
    assert useful + [] == useful;
  }

  method AbsorbCandidate(c: Crypto, p: Params, held: SetState, cand: SetState) returns (r: SetState)
    ensures r == Absorb(c, p, held, cand)
  {
    hide UsefulDenial, UsefulItem, Join;
    var deny := Filter(cand.deny, UsefulDenial(c, p, held));
    var useful := CollectUseful(c, p, held, cand.held);
    r := JoinStates(c, p, held, SetState(deny, Sort(useful, Order)));
  }

  /** The candidate with everything that does not verify removed. */
  function VerifiedPart(c: Crypto, p: Params, cand: SetState): SetState {
    SetState(
      Filter(cand.deny, (d: Deny) => VerifyDeny(c, p, d)),
      Filter(cand.held, (h: Held) => VerifyItem(c, p, h.item)))
  }

  lemma {:induction false} PositionFinds(hs: seq<Held>, slot: Bytes32)
    ensures Position(hs, slot) >= 0 ==> Find(hs, slot) == Some(hs[Position(hs, slot)])
    ensures Position(hs, slot) < 0 ==> Find(hs, slot) == None
    decreases |hs|
  {
    if hs != [] { PositionFinds(hs[1..], slot); }
  }

  /** `slots` holds, for every slot `base` holds, that decision or a better one. */
  ghost predicate AtLeast(c: Crypto, base: seq<Held>, slots: seq<Held>) {
    forall x :: Find(base, x).Some? ==>
      Find(slots, x).Some? && (Find(slots, x) == Find(base, x) || Displaces(c, Find(slots, x).value, Find(base, x).value))
  }

  lemma OfferAtLeast(c: Crypto, base: seq<Held>, slots: seq<Held>, h: Held)
    requires AtLeast(c, base, slots) && DistinctSlots(slots)
    ensures AtLeast(c, base, Offer(c, slots, h)) && DistinctSlots(Offer(c, slots, h))
    ensures !Beats(c, base, h) ==> Offer(c, slots, h) == slots
  {
    OfferFinds(c, slots, h, h.slot);
    PositionFinds(slots, h.slot);
    hide Offer, Outranks, DecisionOf, Find;
    forall x | Find(base, x).Some?
      ensures Find(Offer(c, slots, h), x).Some?
      ensures Find(Offer(c, slots, h), x) == Find(base, x)
           || Displaces(c, Find(Offer(c, slots, h), x).value, Find(base, x).value)
    {
      OfferFinds(c, slots, h, x);
      DisplacesChain(c, h, Find(slots, x).value, Find(base, x).value);
    }
    if !Beats(c, base, h) {
      DisplacesChain(c, h, Find(slots, h.slot).value, Find(base, h.slot).value);
      OfferLoser(c, slots, h);
    }
  }

  lemma DisplacesChain(c: Crypto, h: Held, x: Held, y: Held)
    ensures Displaces(c, h, x) && Displaces(c, x, y) ==> Displaces(c, h, y)
  {
    if Displaces(c, h, x) && Displaces(c, x, y) {
      OutranksTransitive(DecisionOf(c, h.item), DecisionOf(c, x.item), DecisionOf(c, y.item));
    }
  }

  lemma OfferLoser(c: Crypto, slots: seq<Held>, h: Held)
    requires Find(slots, h.slot).Some? && !Displaces(c, h, Find(slots, h.slot).value)
    ensures Offer(c, slots, h) == slots
  {
    PositionFinds(slots, h.slot);
  }

  /** Slots that cannot beat what was held at the start never enter, wherever in the fold they stand: two selections
      that differ only in such slots fold alike. */
  lemma {:induction false} LosersDontMatter(c: Crypto, base: seq<Held>, slots: seq<Held>, hs: seq<Held>,
                                            f: Held -> bool, g: Held -> bool)
    requires AtLeast(c, base, slots) && DistinctSlots(slots)
    requires forall h :: h in hs && f(h) != g(h) ==> !Beats(c, base, h)
    ensures OfferAll(c, slots, Filter(hs, f)) == OfferAll(c, slots, Filter(hs, g))
    decreases |hs|
  {
    hide Offer, Beats, AtLeast;
    if hs != [] {
      var h := hs[0];
      var t := hs[1..];
      assert h in hs;
      OfferAtLeast(c, base, slots, h);
      LosersDontMatter(c, base, slots, t, f, g);
      LosersDontMatter(c, base, Offer(c, slots, h), t, f, g);
      assert ([h] + Filter(t, f))[1..] == Filter(t, f) && [] + Filter(t, f) == Filter(t, f);
      assert ([h] + Filter(t, g))[1..] == Filter(t, g) && [] + Filter(t, g) == Filter(t, g);
    }
  }

  lemma KnownDenialsDontMatter(c: Crypto, p: Params, held: SetState, cand: SetState)
    ensures JoinDeny(p, held.deny, UsefulPart(c, p, held, cand).deny) == JoinDeny(p, held.deny, VerifiedPart(c, p, cand).deny)
  {
    var f := UsefulDenial(c, p, held);
    var g := (d: Deny) => VerifyDeny(c, p, d);
    var x := Dedup(Sort(held.deny + Filter(cand.deny, f), DenyOrder), DenyOrder);
    var y := Dedup(Sort(held.deny + Filter(cand.deny, g), DenyOrder), DenyOrder);
    UniqueSorted(held.deny + Filter(cand.deny, f), DenyOrder);
    UniqueSorted(held.deny + Filter(cand.deny, g), DenyOrder);
    forall k ensures First(x, DenyOrder, k) == First(y, DenyOrder, k) {
      FirstAppend(held.deny, Filter(cand.deny, f), DenyOrder, k);
      FirstAppend(held.deny, Filter(cand.deny, g), DenyOrder, k);
      FirstIn(held.deny, DenyOrder, k);
      if k !in Keys(held.deny, DenyOrder) {
        FirstFilter(cand.deny, f, g, DenyOrder, k);
      }
    }
    StrictByFirst(x, y, DenyOrder);
  }

  lemma {:induction false} AtLeastSelf(c: Crypto, held: seq<Held>)
    ensures AtLeast(c, held, OfferAll(c, [], held)) && DistinctSlots(OfferAll(c, [], held))
  {
    AtLeastFold(c, [], held, []);
    assert [] + held == held;
  }

  /** Folding a list in leaves, for each slot, at least the FIRST entry the list has for it. */
  lemma {:induction false} AtLeastFold(c: Crypto, done: seq<Held>, hs: seq<Held>, slots: seq<Held>)
    requires DistinctSlots(slots) && AtLeast(c, done, slots)
    requires forall x :: Find(slots, x).Some? ==> Find(done, x).Some?
    ensures AtLeast(c, done + hs, OfferAll(c, slots, hs)) && DistinctSlots(OfferAll(c, slots, hs))
    decreases |hs|
  {
    if hs == [] {
      assert done + hs == done;
    } else {
      var next := Offer(c, slots, hs[0]);
      OfferAtLeast(c, done, slots, hs[0]);
      forall x ensures Find(next, x).Some? ==> Find(done + [hs[0]], x).Some?
               ensures Find(done + [hs[0]], x).Some? ==> Find(next, x).Some?
               ensures Find(done, x).None? ==> Find(done + [hs[0]], x) == Find(next, x)
      {
        OfferFinds(c, slots, hs[0], x);
        FindAppend(done, [hs[0]], x);
      }
      forall x ensures Find(done, x).Some? ==> Find(done + [hs[0]], x) == Find(done, x) { FindAppend(done, [hs[0]], x); }
      assert AtLeast(c, done + [hs[0]], next);
      assert done + [hs[0]] + hs[1..] == done + hs;
      AtLeastFold(c, done + [hs[0]], hs[1..], next);
    }
  }

  /** Verifying late is exact: skipping the checks that could not matter leaves, witness for witness, what joining
      the verified part of the candidate leaves. */
  lemma AbsorbIsJoin(c: Crypto, p: Params, held: SetState, cand: SetState)
    requires Strict(cand.held, Order)
    ensures Absorb(c, p, held, cand) == Join(c, p, held, VerifiedPart(c, p, cand))
  {
    var keep := UsefulItem(c, p, held);
    var useful := Filter(cand.held, keep);
    var ok := (h: Held) => VerifyItem(c, p, h.item);
    var all := Filter(cand.held, ok);
    KnownDenialsDontMatter(c, p, held, cand);
    FilterStrict(cand.held, keep, Order);
    SortFixed(useful, Order);
    AtLeastSelf(c, held.held);
    LosersDontMatter(c, held.held, OfferAll(c, [], held.held), cand.held, keep, ok);
    OfferAllAppend(c, [], held.held, useful);
    OfferAllAppend(c, [], held.held, all);
  }

  // -------------------------------------------------------------- closure, in bytes

  lemma {:induction false} FilterCounts(hs: seq<Held>, keep: Held -> bool, t: Tier, k: Bytes32)
    ensures CountTier(Filter(hs, keep), t) <= CountTier(hs, t)
    ensures CountSigner(Filter(hs, keep), k) <= CountSigner(hs, k)
    decreases |hs|
  {
    if hs != [] {
      FilterCounts(hs[1..], keep, t, k);
      var f := Filter(hs[1..], keep);
      assert [] + f == f;
      assert ([hs[0]] + f)[1..] == f;
    }
  }

  /** Any part of a canonical state is one. */
  lemma PartCanonical(c: Crypto, p: Params, s: SetState, f: Deny -> bool, g: Held -> bool)
    requires Canonical(c, p, s)
    ensures Canonical(c, p, SetState(Filter(s.deny, f), Filter(s.held, g)))
  {
    FilterStrict(s.deny, f, DenyOrder);
    FilterStrict(s.held, g, Order);
    FilterElem(s.deny, f, Deny(Zeros(32), Zeros(64)));
    forall d | d in Filter(s.deny, f) ensures d in s.deny { FilterElem(s.deny, f, d); }
    forall h | h in Filter(s.held, g) ensures h in s.held { FilterElem(s.held, g, h); }
    forall h: Held ensures CountSigner(Filter(s.held, g), h.item.signer) <= CountSigner(s.held, h.item.signer) {
      FilterCounts(s.held, g, Owner, h.item.signer);
    }
    FilterCounts(s.held, g, Owner, Zeros(32));
    FilterCounts(s.held, g, CapHolder, Zeros(32));
  }

  lemma VerifiedPartValid(c: Crypto, p: Params, cand: SetState)
    requires Canonical(c, p, cand)
    ensures Valid(c, p, VerifiedPart(c, p, cand))
  {
    var f := (d: Deny) => VerifyDeny(c, p, d);
    var g := (h: Held) => VerifyItem(c, p, h.item);
    PartCanonical(c, p, cand, f, g);
    forall d | d in Filter(cand.deny, f) ensures VerifyDeny(c, p, d) { FilterElem(cand.deny, f, d); }
    forall h | h in Filter(cand.held, g) ensures VerifyItem(c, p, h.item) { FilterElem(cand.held, g, h); }
  }

  /** From a valid held state, whatever parsed candidate arrives, the result encodes within the size bound and passes
      full validation as the same state. */
  lemma AbsorbCloses(c: Crypto, p: Params, held: SetState, cand: SetState)
    requires ParamsOk(c, p) && Valid(c, p, held) && Canonical(c, p, cand)
    ensures var r := Absorb(c, p, held, cand);
            Valid(c, p, r) && Parse(c, p, Encode(r)) == Some(r) && |Encode(r)| <= MAX_STATE
  {
    var v := VerifiedPart(c, p, cand);
    AbsorbIsJoin(c, p, held, cand);
    VerifiedPartValid(c, p, cand);
    JoinCanonical(c, p, held, v);
    JoinVerified(c, p, held, v);
    ParseExact(c, p, Encode(Join(c, p, held, v)), Join(c, p, held, v));
    EncodeFits(c, p, Join(c, p, held, v));
  }

  /** Decisions and denials that are held already, under whatever signatures, change no byte. */
  lemma SecondWitnessIsNoOp(c: Crypto, p: Params, held: SetState, cand: SetState)
    requires Canonical(c, p, held) && DistinctSlots(held.held) && Strict(cand.held, Order)
    requires forall d :: d in cand.deny ==> d.signer in DenySet(held.deny)
    requires forall h :: h in cand.held ==> !Beats(c, held.held, h)
    ensures Absorb(c, p, held, cand) == held
  {
    var f := UsefulDenial(c, p, held);
    var g := UsefulItem(c, p, held);
    FilterNone(cand.deny, f);
    FilterNone(cand.held, g);
    JoinEmpty(c, p, held);
  }

  // ------------------------------------------------------------- the update door

  /** One candidate, as bytes: too long or unreadable is ignored, never fatal. */
  function AbsorbBytes(c: Crypto, p: Params, held: SetState, b: bytes): SetState {
    if |b| <= MAX_STATE && ParseUnverified(c, p, b).Some? then Absorb(c, p, held, ParseUnverified(c, p, b).value)
    else held
  }

  function AbsorbAll(c: Crypto, p: Params, held: SetState, cands: seq<bytes>): SetState
    decreases |cands|
  {
    if cands == [] then held else AbsorbAll(c, p, AbsorbBytes(c, p, held, cands[0]), cands[1..])
  }

  method UpdateState(c: Crypto, p: Params, state: bytes, data: seq<UpdateData>) returns (r: Option<bytes>)
    requires ParamsOk(c, p)
    ensures r.Some? <==> |state| <= MAX_STATE && ParseUnverified(c, p, state).Some?
    ensures r.Some? ==> r.value == Encode(AbsorbAll(c, p, ParseUnverified(c, p, state).value, Candidates(data)))
  {
    hide ParseUnverified, Absorb, Encode;
    if |state| > MAX_STATE { return None; }
    var parsed := ReadState(c, p, state);
    if parsed.None? { return None; }
    var held := parsed.value;
    var cands := Flatten(data);
    var i := 0;
    while i < |cands|
      invariant 0 <= i <= |cands|
      invariant AbsorbAll(c, p, held, cands[i..]) == AbsorbAll(c, p, parsed.value, cands)
    {
      var b := cands[i];
      assert cands[i..][1..] == cands[i + 1..];
      if |b| <= MAX_STATE {
        var cand := ReadState(c, p, b);
        if cand.Some? { held := AbsorbCandidate(c, p, held, cand.value); }
      }
      i := i + 1;
    }
    var out := EncodeState(held);
    return Some(out);
  }

  /** A host that holds a valid state answers every update, of any bytes at all, with a valid state. */
  lemma {:induction false} UpdateCloses(c: Crypto, p: Params, held: SetState, cands: seq<bytes>)
    requires ParamsOk(c, p) && Valid(c, p, held)
    ensures var r := AbsorbAll(c, p, held, cands);
            Valid(c, p, r) && Parse(c, p, Encode(r)) == Some(r) && |Encode(r)| <= MAX_STATE
    decreases |cands|
  {
    if cands == [] {
      ParseExact(c, p, Encode(held), held);
      EncodeFits(c, p, held);
    } else {
      hide Absorb, Encode, Valid;
      if ParseUnverified(c, p, cands[0]).Some? {
        EncodeOfParse(c, p, cands[0]);
        AbsorbCloses(c, p, held, ParseUnverified(c, p, cands[0]).value);
      }
      UpdateCloses(c, p, AbsorbBytes(c, p, held, cands[0]), cands[1..]);
    }
  }

  // -------------------------------------------------------------- hosts converge

  /** What a host has merged after these candidates: its state and the verified part of each readable one. */
  ghost function HostRun(c: Crypto, p: Params, run: Run, cands: seq<bytes>): Run
    decreases |cands|
  {
    if cands == [] then run
    else if |cands[0]| <= MAX_STATE && ParseUnverified(c, p, cands[0]).Some? then
      HostRun(c, p, Merge(run, Leaf(VerifiedPart(c, p, ParseUnverified(c, p, cands[0]).value))), cands[1..])
    else HostRun(c, p, run, cands[1..])
  }

  lemma {:induction false} HostIsRun(c: Crypto, p: Params, run: Run, cands: seq<bytes>)
    ensures AbsorbAll(c, p, Eval(c, p, run), cands) == Eval(c, p, HostRun(c, p, run, cands))
    decreases |cands|
  {
    if cands != [] {
      if |cands[0]| <= MAX_STATE && ParseUnverified(c, p, cands[0]).Some? {
        var cand := ParseUnverified(c, p, cands[0]).value;
        EncodeOfParse(c, p, cands[0]);
        AbsorbIsJoin(c, p, Eval(c, p, run), cand);
        hide Absorb, Join, VerifiedPart, ParseUnverified;
        HostIsRun(c, p, Merge(run, Leaf(VerifiedPart(c, p, cand))), cands[1..]);
      } else {
        HostIsRun(c, p, run, cands[1..]);
      }
    }
  }

  /** Two hosts that were given the same decisions and denials say the same, in whatever order, batches, states, deltas
      and repetitions they came, and whatever junk came with them. */
  lemma HostsConverge(c: Crypto, p: Params, h: SetState, k: SetState, hc: seq<bytes>, kc: seq<bytes>)
    requires var x, y := Inputs(HostRun(c, p, Leaf(h), hc)), Inputs(HostRun(c, p, Leaf(k), kc));
             SameOffers(c, x, y) && NoSlotCollision(x + y)
    requires Canonical(c, p, h) && Canonical(c, p, k)
    ensures Facts(c, AbsorbAll(c, p, h, hc)) == Facts(c, AbsorbAll(c, p, k, kc))
    ensures VisibleFacts(c, AbsorbAll(c, p, h, hc)) == VisibleFacts(c, AbsorbAll(c, p, k, kc))
  {
    HostIsRun(c, p, Leaf(h), hc);
    HostIsRun(c, p, Leaf(k), kc);
    HostInputs(c, p, Leaf(h), hc);
    HostInputs(c, p, Leaf(k), kc);
    hide HostRun, AbsorbAll, Canonical, Facts, VisibleFacts, NoSlotCollision, SameOffers;
    CollisionFreeRunsAgree(c, p, HostRun(c, p, Leaf(h), hc), HostRun(c, p, Leaf(k), kc));
  }

  lemma {:induction false} HostInputs(c: Crypto, p: Params, run: Run, cands: seq<bytes>)
    requires forall s :: s in Inputs(run) ==> Canonical(c, p, s)
    ensures forall s :: s in Inputs(HostRun(c, p, run, cands)) ==> Canonical(c, p, s)
    decreases |cands|
  {
    if cands != [] {
      if |cands[0]| <= MAX_STATE && ParseUnverified(c, p, cands[0]).Some? {
        var cand := ParseUnverified(c, p, cands[0]).value;
        EncodeOfParse(c, p, cands[0]);
        VerifiedPartValid(c, p, cand);
        hide VerifiedPart, ParseUnverified;
        HostInputs(c, p, Merge(run, Leaf(VerifiedPart(c, p, cand))), cands[1..]);
      } else {
        HostInputs(c, p, run, cands[1..]);
      }
    }
  }
}
