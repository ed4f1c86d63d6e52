/** One round of sync: a peer's summary, the delta answering it, and what merging the delta leaves
    (set/src/merge.rs). */
module SetSync {
  import opened Options
  import opened Bytes
  import opened ByteOrder
  import opened Crypto
  import opened Lists
  import opened Sample
  import opened Sorting
  import opened SetWire
  import opened SetCodec
  import opened SetMerge
  import opened SetRuns
  import opened SetHost
  import LaminarCut
  import TopK

  // ------------------------------------------------------------------- summaries

  /** A decision's hash, truncated: what a summary mentions instead of the decision. */
  function Mention(c: Crypto, p: Params, h: Held): bytes {
    DecisionHash(c, ParamsHash(c, p), DecisionOf(c, h.item))[..16]
  }

  function Mentions(c: Crypto, p: Params, hs: seq<Held>): seq<bytes> {
    if hs == [] then [] else [Mention(c, p, hs[0])] + Mentions(c, p, hs[1..])
  }

  function KeysInOrder(ds: seq<Deny>): bytes {
    if ds == [] then [] else ds[0].signer + KeysInOrder(ds[1..])
  }

  /** Two lists of denials hash alike if they name the same keys, whatever their signatures. */
  function DenyHash(c: Crypto, ds: seq<Deny>): Bytes32 {
    c.hash(KeysInOrder(ds))
  }

  method HashDenied(c: Crypto, ds: seq<Deny>) returns (r: Bytes32)
    ensures r == DenyHash(c, ds)
  {
    var fed: bytes := [];
    var i := 0;
    while i < |ds|
      invariant 0 <= i <= |ds|
      invariant fed + KeysInOrder(ds[i..]) == KeysInOrder(ds)
    {
      assert ds[i..][1..] == ds[i + 1..];
      assert fed + (ds[i].signer + KeysInOrder(ds[i + 1..])) == fed + ds[i].signer + KeysInOrder(ds[i + 1..]);
      fed := fed + ds[i].signer;
      i := i + 1;
    }
    assert fed + [] == fed;
    r := c.hash(fed);
  }

  function Summarize(c: Crypto, p: Params, s: SetState): bytes {
    DenyHash(c, s.deny) + (LE(CountTier(s.held, Owner), 2) + (LE(CountTier(s.held, CapHolder), 2)
      + PutChunks(Sort(Mentions(c, p, s.held), KeyOrder))))
  }

  /** `summarize` as it runs: the denials' hash, a count per tier, and the sorted truncations appended. */
  method SummarizeState(c: Crypto, p: Params, s: SetState) returns (out: bytes)
    ensures out == Summarize(c, p, s)
  {
    hide LE, Sort, Mentions;
    var owners, caps := LE(CountTier(s.held, Owner), 2), LE(CountTier(s.held, CapHolder), 2);
    var ts := Sort(Mentions(c, p, s.held), KeyOrder);
    out := HashDenied(c, s.deny);
    ghost var head, chunks := out, PutChunks(ts);
    out := out + owners;
    out := out + caps;
    out := AppendChunks(out, ts);
    assert head + (owners + (caps + chunks)) == head + owners + caps + chunks;
  }

  datatype Summary = Summary(denyHash: Bytes32, owners: nat, capHolders: nat, trunc: seq<bytes>)

  /** A summary as a stranger's claim: bounded before anything is copied, and its counts cross-checked. */
  function ParseSummary(p: Params, b: bytes): Option<Summary> {
    var (dh, r1) :- Take(b, 32);
    var (owners, r2) :- ReadU16(r1);
    var (caps, r3) :- ReadU16(r2);
    if |r3| % 16 != 0 then None
    else if |r3| > 2 * p.m * 16 then None
    else if owners + caps != |r3| / 16 then None
    else if owners > p.m || caps > p.m then None
    else Some(Summary(dh, owners, caps, Sort(ReadChunks(r3), KeyOrder)))
  }

  predicate Has(c: Crypto, p: Params, sum: Summary, h: Held) {
    Mention(c, p, h) in sum.trunc
  }

  function Lacks(c: Crypto, p: Params, sum: Summary): Held -> bool {
    (h: Held) => !Has(c, p, sum, h)
  }

  /** The slots whose decision the summary lacks, and all denials unless the peer's hash is this state's. */
  function DeltaFor(c: Crypto, p: Params, s: SetState, sum: Summary): SetState {
    SetState(if sum.denyHash == DenyHash(c, s.deny) then [] else s.deny, Filter(s.held, Lacks(c, p, sum)))
  }

  function Delta(c: Crypto, p: Params, s: SetState, summary: bytes): Option<SetState> {
    var sum :- ParseSummary(p, summary);
    Some(DeltaFor(c, p, s, sum))
  }

  /** A summary that is read is bounded by the set's own capacity, and its counts tile its truncations. */
  lemma SummaryBounded(p: Params, b: bytes)
    requires ParseSummary(p, b).Some?
    ensures var s := ParseSummary(p, b).value;
            && |s.trunc| == s.owners + s.capHolders && s.owners <= p.m && s.capHolders <= p.m
            && |b| == 36 + 16 * |s.trunc|
  {
    hide UnLE, Sort;
    var r3 := ReadU16(ReadU16(Take(b, 32).value.1).value.1).value.1;
    ChunkCount(r3);
    SortSize(ReadChunks(r3), KeyOrder);
  }

  // ------------------------------------------------------- a summary reads back

  lemma {:induction false} MentionsOf(c: Crypto, p: Params, hs: seq<Held>, t: bytes)
    ensures t in Mentions(c, p, hs) <==> exists h :: h in hs && Mention(c, p, h) == t
    ensures |Mentions(c, p, hs)| == |hs|
    decreases |hs|
  {
    if hs != [] {
      MentionsOf(c, p, hs[1..], t);
      assert hs == [hs[0]] + hs[1..];
      assert hs[0] in hs;
    }
  }

  /** The summary a canonical state's holder sends, as the receiver reads it. */
  function SummaryOf(c: Crypto, p: Params, t: SetState): Summary {
    var ts := Sort(Mentions(c, p, t.held), KeyOrder);
    Summary(DenyHash(c, t.deny), CountTier(t.held, Owner), CountTier(t.held, CapHolder), Sort(ts, KeyOrder))
  }

  lemma SummaryRoundTrip(c: Crypto, p: Params, t: SetState)
    requires ParamsOk(c, p) && Canonical(c, p, t)
    ensures ParseSummary(p, Summarize(c, p, t)) == Some(SummaryOf(c, p, t))
  {
    var ts := Sort(Mentions(c, p, t.held), KeyOrder);
    var body := PutChunks(ts);
    var a, b := CountTier(t.held, Owner), CountTier(t.held, CapHolder);
    TiersTile(t.held);
    SummaryChunks(c, p, t.held);
    hide LE, ReadU16, PutChunks, ReadChunks, Sort, Mentions, CountTier, Take;
    TakeFront(DenyHash(c, t.deny), LE(a, 2) + (LE(b, 2) + body));
    ReadU16Front(a, LE(b, 2) + body);
    ReadU16Front(b, body);
  }

  lemma SummaryChunks(c: Crypto, p: Params, hs: seq<Held>)
    ensures var ts := Sort(Mentions(c, p, hs), KeyOrder);
            |PutChunks(ts)| == 16 * |hs| && ReadChunks(PutChunks(ts)) == ts
  {
    var ts := Sort(Mentions(c, p, hs), KeyOrder);
    forall t | t in ts ensures |t| == 16 {
      SortElem(Mentions(c, p, hs), KeyOrder, t);
      MentionsOf(c, p, hs, t);
    }
    SortSize(Mentions(c, p, hs), KeyOrder);
    MentionsOf(c, p, hs, []);
    ChunksRoundTrip(ts);
  }

  /** What the summary of `t` is taken to know: exactly the decisions some slot of `t` mentions. */
  lemma SummaryHas(c: Crypto, p: Params, t: SetState, h: Held)
    ensures Has(c, p, SummaryOf(c, p, t), h) <==> exists g :: g in t.held && Mention(c, p, g) == Mention(c, p, h)
  {
    var ts := Sort(Mentions(c, p, t.held), KeyOrder);
    SortElem(ts, KeyOrder, Mention(c, p, h));
    SortElem(Mentions(c, p, t.held), KeyOrder, Mention(c, p, h));
    MentionsOf(c, p, t.held, Mention(c, p, h));
  }

  // ---------------------------------------------------------------- the delta is a set

  lemma DeltaCanonical(c: Crypto, p: Params, s: SetState, sum: Summary)
    requires Canonical(c, p, s)
    ensures Canonical(c, p, DeltaFor(c, p, s, sum))
    ensures Verified(c, p, s) ==> Verified(c, p, DeltaFor(c, p, s, sum))
  {
    var f := (d: Deny) => sum.denyHash != DenyHash(c, s.deny);
    PartCanonical(c, p, s, f, Lacks(c, p, sum));
    if sum.denyHash == DenyHash(c, s.deny) { FilterNone(s.deny, f); } else { FilterAll(s.deny, f); }
    forall h | h in Filter(s.held, Lacks(c, p, sum)) ensures h in s.held { FilterElem(s.held, Lacks(c, p, sum), h); }
  }

  /** What is sent reads back as a set in its own right, and fits. */
  lemma DeltaParses(c: Crypto, p: Params, s: SetState, t: SetState)
    requires ParamsOk(c, p) && Valid(c, p, s) && Canonical(c, p, t)
    ensures var d := Delta(c, p, s, Summarize(c, p, t));
            d.Some? && Parse(c, p, Encode(d.value)) == Some(d.value) && |Encode(d.value)| <= MAX_STATE
  {
    SummaryRoundTrip(c, p, t);
    DeltaCanonical(c, p, s, SummaryOf(c, p, t));
    var d := DeltaFor(c, p, s, SummaryOf(c, p, t));
    ParseExact(c, p, Encode(d), d);
    EncodeFits(c, p, d);
  }

  // ------------------------------------------------------------- one round suffices

  /** No two slots across the two states carry decisions a summary cannot tell apart, unless they are one slot
      holding one decision. */
  ghost predicate MentionsAreFaithful(c: Crypto, p: Params, s: SetState, t: SetState) {
    forall h, g :: h in s.held && g in t.held && Mention(c, p, h) == Mention(c, p, g) ==>
      h.slot == g.slot && DecisionOf(c, h.item) == DecisionOf(c, g.item)
  }

  ghost predicate DenyHashFaithful(c: Crypto, s: SetState, t: SetState) {
    DenyHash(c, s.deny) == DenyHash(c, t.deny) ==> DenySet(s.deny) == DenySet(t.deny)
  }

  /** One delta suffices: merging the answer to its own summary leaves a peer, byte for byte, what merging the whole
      state would - whatever either side holds. */
  lemma OneRoundSync(c: Crypto, p: Params, s: SetState, t: SetState)
    requires ParamsOk(c, p) && Canonical(c, p, s) && Canonical(c, p, t) && DistinctSlots(t.held)
    requires MentionsAreFaithful(c, p, s, t) && DenyHashFaithful(c, s, t)
    ensures var d := Delta(c, p, s, Summarize(c, p, t));
            d.Some? && Join(c, p, t, d.value) == Join(c, p, t, s)
  {
    var sum := SummaryOf(c, p, t);
    SummaryRoundTrip(c, p, t);
    forall h | h in s.held && Has(c, p, sum, h) ensures !Beats(c, t.held, h) {
      SummaryHas(c, p, t, h);
      var g :| g in t.held && Mention(c, p, g) == Mention(c, p, h);
      FindSelf(t.held, g);
      OutranksTotal(DecisionOf(c, g.item), DecisionOf(c, g.item));
    }
    SyncHeld(c, p, s, t, sum);
    SyncDeny(c, p, s, t, sum);
  }

  lemma SyncHeld(c: Crypto, p: Params, s: SetState, t: SetState, sum: Summary)
    requires forall h :: h in s.held && Has(c, p, sum, h) ==> !Beats(c, t.held, h)
    ensures OfferAll(c, [], t.held + DeltaFor(c, p, s, sum).held) == OfferAll(c, [], t.held + s.held)
  {
    var all := (h: Held) => true;
    AtLeastSelf(c, t.held);
    LosersDontMatter(c, t.held, OfferAll(c, [], t.held), s.held, Lacks(c, p, sum), all);
    FilterAll(s.held, all);
    OfferAllAppend(c, [], t.held, Filter(s.held, Lacks(c, p, sum)));
    OfferAllAppend(c, [], t.held, s.held);
  }

  lemma SyncDeny(c: Crypto, p: Params, s: SetState, t: SetState, sum: Summary)
    requires sum.denyHash == DenyHash(c, t.deny) && DenyHashFaithful(c, s, t)
    ensures JoinDeny(p, t.deny, DeltaFor(c, p, s, sum).deny) == JoinDeny(p, t.deny, s.deny)
  {
    if DenyHash(c, s.deny) == DenyHash(c, t.deny) {
      var x := Dedup(Sort(t.deny + [], DenyOrder), DenyOrder);
      var y := Dedup(Sort(t.deny + s.deny, DenyOrder), DenyOrder);
      UniqueSorted(t.deny + [], DenyOrder);
      UniqueSorted(t.deny + s.deny, DenyOrder);
      forall k ensures First(x, DenyOrder, k) == First(y, DenyOrder, k) {
        FirstAppend(t.deny, [], DenyOrder, k);
        FirstAppend(t.deny, s.deny, DenyOrder, k);
        FirstIn(t.deny, DenyOrder, k);
        FirstIn(s.deny, DenyOrder, k);
        if k in Keys(s.deny, DenyOrder) {
          var d :| d in s.deny && DenyOrder(d) == k;
          assert d.signer in DenySet(t.deny);
        }
      }
      StrictByFirst(x, y, DenyOrder);
    }
  }

  // ----------------------------------------- exactly when the held slots come across

  /** The slots of `s` that a merge into `t` would keep and `t` does not yet have: those the cut of both slot sets keeps,
      holding a decision that beats what `t` holds. */
  ghost predicate News(c: Crypto, p: Params, who: Bytes32 -> Bytes32, s: SetState, t: SetState, h: Held) {
    && h in s.held
    && h.slot in LaminarCut.Cut(RuleOf(p, who), SlotSet(t.held) + SlotSet(s.held))
    && Beats(c, t.held, h)
  }

  /** That is: the slots of `s` standing in the merge, with the decision of `s`. */
  lemma NewsSurvives(c: Crypto, p: Params, who: Bytes32 -> Bytes32, s: SetState, t: SetState, h: Held)
    requires Readable(c, p, who, s) && Readable(c, p, who, t)
    ensures News(c, p, who, s, t, h) <==> h in Join(c, p, t, s).held && h in s.held && Beats(c, t.held, h)
  {
    HeldDistinct(c, p, t.held, who);
    HeldDistinct(c, p, s.held, who);
    JoinHeld(c, p, who, t.held, s.held);
    var j := Join(c, p, t, s).held;
    hide LaminarCut.Cut, RuleOf, Displaces;
    if News(c, p, who, s, t, h) {
      FindSelf(s.held, h);
      assert h.slot in SlotSet(j);
    }
  }

  /** The summary hashes a decision WITHOUT its slot, so a slot whose decision the peer holds under another name is
      taken for known. A round brings every slot across exactly when no news is lost that way. */
  lemma SyncExact(c: Crypto, p: Params, who: Bytes32 -> Bytes32, s: SetState, t: SetState)
    requires ParamsOk(c, p) && Readable(c, p, who, s) && Readable(c, p, who, t)
    ensures var d := DeltaFor(c, p, s, SummaryOf(c, p, t));
            Join(c, p, t, d).held == Join(c, p, t, s).held <==>
            forall h :: News(c, p, who, s, t, h) ==> !Has(c, p, SummaryOf(c, p, t), h)
  {
    var sum := SummaryOf(c, p, t);
    var d := DeltaFor(c, p, s, sum);
    HeldDistinct(c, p, t.held, who);
    HeldDistinct(c, p, s.held, who);
    forall h ensures News(c, p, who, s, t, h) <==> h in Join(c, p, t, s).held && h in s.held && Beats(c, t.held, h) {
      NewsSurvives(c, p, who, s, t, h);
    }
    hide News, Join, Readable, Canonical;
    if h :| News(c, p, who, s, t, h) && Has(c, p, sum, h) {
      NewsLost(c, p, s, t, sum, h);
    } else {
      SyncSurvivors(c, p, who, s, t, sum);
    }
  }

  lemma NewsLost(c: Crypto, p: Params, s: SetState, t: SetState, sum: Summary, h: Held)
    requires DistinctSlots(t.held) && Beats(c, t.held, h) && Has(c, p, sum, h)
    ensures h !in Join(c, p, t, DeltaFor(c, p, s, sum)).held
  {
    JoinFrom(c, p, t, DeltaFor(c, p, s, sum));
    FilterElem(s.held, Lacks(c, p, sum), h);
    hide Join;
    if h in t.held {
      FindSelf(t.held, h);
      OutranksTotal(DecisionOf(c, h.item), DecisionOf(c, h.item));
    }
  }

  /** The denied keys a merge of `s` into `t` would keep and `t` does not yet deny. */
  ghost function NewDenials(s: SetState, t: SetState): set<Bytes32> {
    (LowestDenied(DenySet(t.deny) + DenySet(s.deny)) * DenySet(s.deny)) - DenySet(t.deny)
  }

  /** If everything the merge keeps is denied already, the merge keeps exactly what is denied already. */
  lemma NothingNewDenied(c: Crypto, p: Params, s: SetState, t: SetState)
    requires Canonical(c, p, t) && NewDenials(s, t) == {}
    ensures LowestDenied(DenySet(t.deny) + DenySet(s.deny)) == DenySet(t.deny)
  {
    var u := DenySet(t.deny) + DenySet(s.deny);
    KeysInjective(u);
    forall k | k in LowestDenied(u) ensures k in DenySet(t.deny) {
      assert k in u && k !in NewDenials(s, t);
    }
    TopK.TopBetween(u, DenySet(t.deny), KeyNum(), MAX_DENY);
    LeafDenied(t);
  }

  /** No single denial is ever sent, only the whole list. The denials come across exactly when two different denial sets
      do not hash alike, or the peer has nothing to learn. */
  lemma SyncDenyExact(c: Crypto, p: Params, s: SetState, t: SetState)
    requires ParamsOk(c, p) && Canonical(c, p, s) && Canonical(c, p, t)
    ensures var d := DeltaFor(c, p, s, SummaryOf(c, p, t));
            Join(c, p, t, d).deny == Join(c, p, t, s).deny <==>
            (DenyHash(c, s.deny) == DenyHash(c, t.deny) ==> NewDenials(s, t) == {})
  {
    if DenyHash(c, s.deny) == DenyHash(c, t.deny) {
      DenyUnmoved(p, t.deny);
      JoinDenyFinds(p, t.deny, s.deny);
      hide Canonical, LowestDenied, JoinDeny, DenyHash, Strict;
      var j := JoinDeny(p, t.deny, s.deny);
      if NewDenials(s, t) == {} {
        NothingNewDenied(c, p, s, t);
        SameDenials(c, p, s, t);
      } else {
        var k :| k in NewDenials(s, t);
        OwnerNotDenied(c, p, s, k);
        assert k in DenySet(j) && k !in DenySet(t.deny);
      }
    }
  }

  lemma OwnerNotDenied(c: Crypto, p: Params, s: SetState, k: Bytes32)
    requires Canonical(c, p, s) && k in DenySet(s.deny)
    ensures k != p.owner
  {
  }

  /** A merge that denies no new key keeps every witness held. */
  lemma SameDenials(c: Crypto, p: Params, s: SetState, t: SetState)
    requires Canonical(c, p, t) && LowestDenied(DenySet(t.deny) + DenySet(s.deny)) == DenySet(t.deny)
    ensures JoinDeny(p, t.deny, s.deny) == t.deny
  {
    var j := JoinDeny(p, t.deny, s.deny);
    JoinDenyFinds(p, t.deny, s.deny);
    assert DenySet(j) == DenySet(t.deny);
    forall d ensures d in j <==> d in t.deny {
      if d in j {
        assert d.signer in DenySet(t.deny);
        HeldWitness(p, t.deny, s.deny, d);
      }
      if d in t.deny {
        assert d.signer in DenySet(j);
        var x :| x in j && x.signer == d.signer;
        HeldWitness(p, t.deny, s.deny, x);
        StrictDistinct(t.deny, DenyOrder, d, x);
      }
    }
    hide JoinDeny, Canonical, LowestDenied;
    StrictUnique(j, t.deny, DenyOrder);
  }

  /** For a key denied on both sides, the first side's witness is the one kept. */
  lemma HeldWitness(p: Params, a: seq<Deny>, b: seq<Deny>, d: Deny)
    requires Strict(a, DenyOrder) && d in JoinDeny(p, a, b) && d.signer in DenySet(a)
    ensures d in a
  {
    var all := Dedup(Sort(a + b, DenyOrder), DenyOrder);
    var cut := all[..Min(MAX_DENY, |all|)];
    FilterElem(cut, (d: Deny) => d.signer != p.owner, d);
    UniqueSorted(a + b, DenyOrder);
    FirstOfStrict(all, DenyOrder, d);
    FirstAppend(a, b, DenyOrder, DenyOrder(d));
    FirstIn(a, DenyOrder, DenyOrder(d));
    var x :| x in a && x.signer == d.signer;
    assert DenyOrder(x) in Keys(a, DenyOrder);
  }

  /** EXACTLY when one round is the whole merge: no news is lost, and no new denial. */
  lemma OneRoundExact(c: Crypto, p: Params, who: Bytes32 -> Bytes32, s: SetState, t: SetState)
    requires ParamsOk(c, p) && Readable(c, p, who, s) && Readable(c, p, who, t)
    ensures var d := Delta(c, p, s, Summarize(c, p, t));
            && d.Some?
            && (Join(c, p, t, d.value) == Join(c, p, t, s) <==>
                  && (forall h :: News(c, p, who, s, t, h) ==> !Has(c, p, SummaryOf(c, p, t), h))
                  && (DenyHash(c, s.deny) == DenyHash(c, t.deny) ==> NewDenials(s, t) == {}))
  {
    SummaryRoundTrip(c, p, t);
    SyncExact(c, p, who, s, t);
    SyncDenyExact(c, p, s, t);
    hide News, Has, Join, DeltaFor, SummaryOf, Summarize, ParseSummary, NewDenials, Canonical;
  }

  /** What is not sent and would be cut anyway takes nothing with it. */
  lemma SyncSurvivors(c: Crypto, p: Params, who: Bytes32 -> Bytes32, s: SetState, t: SetState, sum: Summary)
    requires Readable(c, p, who, s) && Readable(c, p, who, t) && DistinctSlots(s.held) && DistinctSlots(t.held)
    requires forall h :: h in Join(c, p, t, s).held && h in s.held && Beats(c, t.held, h) ==> !Has(c, p, sum, h)
    ensures Join(c, p, t, DeltaFor(c, p, s, sum)).held == Join(c, p, t, s).held
  {
    var d := DeltaFor(c, p, s, sum);
    DeltaCanonical(c, p, s, sum);
    forall h | h in d.held ensures h in s.held { FilterElem(s.held, Lacks(c, p, sum), h); }
    HeldDistinct(c, p, d.held, who);
    var x, y := Join(c, p, t, d).held, Join(c, p, t, s).held;
    JoinHeld(c, p, who, t.held, d.held);
    JoinHeld(c, p, who, t.held, s.held);
    JoinFrom(c, p, t, d);
    JoinFrom(c, p, t, s);
    SurvivorsSent(c, p, s, t, sum);
    var r := RuleOf(p, who);
    var u, w := SlotSet(t.held) + SlotSet(s.held), SlotSet(t.held) + SlotSet(d.held);
    SlotsInjective(u, p, who);
    CutBetween(r, u, w);
    assert SlotSet(x) == SlotSet(y);
    SameBySlot(c, s, t, d, x, y);
    StrictUnique(x, y, Order);
  }

  lemma CutBetween(r: LaminarCut.Rule, u: set<Bytes32>, w: set<Bytes32>)
    requires TopK.Injective(u, r.rank) && LaminarCut.Cut(r, u) <= w <= u
    ensures LaminarCut.Cut(r, w) == LaminarCut.Cut(r, u)
  {
    LaminarCut.CutHereditary(r, w, u);
    forall x | x in LaminarCut.Cut(r, w) ensures x in LaminarCut.Cut(r, u) {
      if x !in LaminarCut.Cut(r, u) { LaminarCut.KeptBlocksAnywhere(r, u, w, x); }
    }
  }

  /** Every surviving slot is held by `t` or sent, with the decision the whole state would have given it. */
  lemma SurvivorsSent(c: Crypto, p: Params, s: SetState, t: SetState, sum: Summary)
    requires DistinctSlots(s.held) && DistinctSlots(t.held)
    requires forall h :: h in Join(c, p, t, s).held && h in s.held && Beats(c, t.held, h) ==> !Has(c, p, sum, h)
    requires forall h :: h in Join(c, p, t, s).held ==> Some(h) == Better(c, Find(t.held, h.slot), Find(s.held, h.slot))
    ensures var d := DeltaFor(c, p, s, sum);
            forall h :: h in Join(c, p, t, s).held ==> h in t.held || h in d.held
    ensures var d := DeltaFor(c, p, s, sum);
            SlotSet(Join(c, p, t, s).held) <= SlotSet(t.held) + SlotSet(d.held) <= SlotSet(t.held) + SlotSet(s.held)
  {
    var d := DeltaFor(c, p, s, sum);
    forall h | h in d.held ensures h in s.held { FilterElem(s.held, Lacks(c, p, sum), h); }
    forall h | h in Join(c, p, t, s).held ensures h in t.held || h in d.held {
      FindIn(t.held, h.slot);
      FindIn(s.held, h.slot);
      if h !in t.held { FilterElem(s.held, Lacks(c, p, sum), h); }
    }
  }

  lemma SameBySlot(c: Crypto, s: SetState, t: SetState, d: SetState, x: seq<Held>, y: seq<Held>)
    requires DistinctSlots(s.held) && DistinctSlots(t.held) && DistinctSlots(d.held)
    requires forall h :: h in d.held ==> h in s.held
    requires forall h :: h in y ==> h in t.held || h in d.held
    requires forall h :: h in x ==> Some(h) == Better(c, Find(t.held, h.slot), Find(d.held, h.slot))
    requires forall h :: h in y ==> Some(h) == Better(c, Find(t.held, h.slot), Find(s.held, h.slot))
    requires SlotSet(x) == SlotSet(y)
    ensures forall h :: h in x <==> h in y
  {
    hide Displaces;
    forall g, h | g in x && h in y && g.slot == h.slot ensures g == h {
      FindIn(d.held, h.slot);
      FindIn(s.held, h.slot);
      if Find(d.held, h.slot).Some? {
        FindSelf(s.held, Find(d.held, h.slot).value);
      } else if h in d.held {
        FindSelf(d.held, h);
      } else {
        FindSelf(t.held, h);
      }
    }
    forall h | h in x ensures h in y {
      assert h.slot in SlotSet(y);
    }
    forall h | h in y ensures h in x {
      assert h.slot in SlotSet(x);
    }
  }

  // ---------------------------------------------------------------- through the doors

  /** `get_state_delta`: the delta answering a summary; the whole state for a summary that cannot be read; no bytes when
      there is nothing to send. */
  function StateDelta(c: Crypto, p: Params, s: SetState, summary: bytes): bytes {
    var d := if Delta(c, p, s, summary).Some? then Delta(c, p, s, summary).value else s;
    if d.held == [] && d.deny == [] then [] else Encode(d)
  }

  lemma AbsorbValid(c: Crypto, p: Params, t: SetState, d: SetState)
    requires ParamsOk(c, p) && Valid(c, p, d)
    ensures AbsorbBytes(c, p, t, Encode(d)) == Join(c, p, t, d)
  {
    VerifiedWhole(c, p, d);
    assert Strict(d.held, Order);
    hide Join, Absorb, Encode, Canonical, Verified, ParamsOk, VerifiedPart;
    ParseExact(c, p, Encode(d), d);
    EncodeFits(c, p, d);
    AbsorbIsJoin(c, p, t, d);
  }

  lemma VerifiedWhole(c: Crypto, p: Params, d: SetState)
    requires Verified(c, p, d)
    ensures VerifiedPart(c, p, d) == d
  {
    hide VerifyDeny, VerifyItem;
    FilterAll(d.deny, (x: Deny) => VerifyDeny(c, p, x));
    FilterAll(d.held, (h: Held) => VerifyItem(c, p, h.item));
  }

  lemma AbsorbNothing(c: Crypto, p: Params, t: SetState)
    requires Canonical(c, p, t) && DistinctSlots(t.held)
    ensures AbsorbBytes(c, p, t, []) == t == Join(c, p, t, SetState([], []))
  {
    JoinEmpty(c, p, t);
  }

  /** What arrives is merged, whether it came as bytes or as no bytes. */
  lemma DoorDelta(c: Crypto, p: Params, t: SetState, d: SetState)
    requires ParamsOk(c, p) && Valid(c, p, d) && Canonical(c, p, t) && DistinctSlots(t.held)
    ensures AbsorbBytes(c, p, t, if d.held == [] && d.deny == [] then [] else Encode(d)) == Join(c, p, t, d)
  {
    hide Canonical, Verified, AbsorbBytes, Join, Encode;
    if d.held == [] && d.deny == [] { AbsorbNothing(c, p, t); } else { AbsorbValid(c, p, t, d); }
  }

  /** The round as the doors run it: absorbing the bytes sent in answer to one's own summary leaves what absorbing the
      sender's whole state would have left, EXACTLY when no news and no new denial is lost. */
  lemma DoorsOneRound(c: Crypto, p: Params, who: Bytes32 -> Bytes32, s: SetState, t: SetState)
    requires ParamsOk(c, p) && Valid(c, p, s) && Readable(c, p, who, s) && Readable(c, p, who, t)
    ensures AbsorbBytes(c, p, t, StateDelta(c, p, s, Summarize(c, p, t))) == AbsorbBytes(c, p, t, Encode(s)) <==>
            && (forall h :: News(c, p, who, s, t, h) ==> !Has(c, p, SummaryOf(c, p, t), h))
            && (DenyHash(c, s.deny) == DenyHash(c, t.deny) ==> NewDenials(s, t) == {})
  {
    OneRoundExact(c, p, who, s, t);
    SummaryRoundTrip(c, p, t);
    DeltaCanonical(c, p, s, SummaryOf(c, p, t));
    HeldDistinct(c, p, t.held, who);
    hide News, Has, Join, DeltaFor, SummaryOf, Summarize, ParseSummary, NewDenials, Canonical, Verified, AbsorbBytes, Encode,
         Owned, DistinctSlots;
    DoorDelta(c, p, t, Delta(c, p, s, Summarize(c, p, t)).value);
    AbsorbValid(c, p, t, s);
  }

  /** A peer that holds every decision and denies the same keys is sent no bytes at all. */
  lemma SyncedSendsNothing(c: Crypto, p: Params, s: SetState, t: SetState)
    requires ParamsOk(c, p) && Canonical(c, p, t)
    requires DenyHash(c, s.deny) == DenyHash(c, t.deny)
    requires forall h :: h in s.held ==> exists g :: g in t.held && DecisionOf(c, g.item) == DecisionOf(c, h.item)
    ensures StateDelta(c, p, s, Summarize(c, p, t)) == []
  {
    SummaryRoundTrip(c, p, t);
    var sum := SummaryOf(c, p, t);
    hide Summarize, ParseSummary, SummaryOf, Encode, Canonical, ParamsOk, DecisionOf;
    forall h | h in s.held ensures !Lacks(c, p, sum)(h) {
      var g :| g in t.held && DecisionOf(c, g.item) == DecisionOf(c, h.item);
      SummaryHas(c, p, t, h);
    }
    FilterNone(s.held, Lacks(c, p, sum));
    assert sum.denyHash == DenyHash(c, t.deny) by { SummaryDenies(c, p, t); }
  }

  lemma SummaryDenies(c: Crypto, p: Params, t: SetState)
    ensures SummaryOf(c, p, t).denyHash == DenyHash(c, t.deny)
  {
  }

  /** A summary that cannot be read costs bytes, never correctness: the whole state is sent. */
  lemma UnreadableSummary(c: Crypto, p: Params, s: SetState, t: SetState, summary: bytes)
    requires ParamsOk(c, p) && Valid(c, p, s) && Canonical(c, p, t) && DistinctSlots(t.held)
    requires ParseSummary(p, summary).None?
    ensures AbsorbBytes(c, p, t, StateDelta(c, p, s, summary)) == AbsorbBytes(c, p, t, Encode(s))
  {
    hide Canonical, Verified, AbsorbBytes, Join, Encode, ParseSummary;
    DoorDelta(c, p, t, s);
    AbsorbValid(c, p, t, s);
  }

  // --------------------------------------------------------- and that it can be lost

  /** Whatever else the two hold: a slot the peer lacks, whose decision the peer holds in ANOTHER slot, is not sent. */
  lemma EqualDecisionIsMissed(c: Crypto, p: Params, s: SetState, t: SetState, h: Held, g: Held)
    requires ParamsOk(c, p) && Canonical(c, p, s) && Canonical(c, p, t) && DistinctSlots(s.held)
    requires h in s.held && g in t.held && DecisionOf(c, h.item) == DecisionOf(c, g.item)
    requires h.slot !in SlotSet(t.held)
    ensures var d := Delta(c, p, s, Summarize(c, p, t));
            d.Some? && h.slot !in SlotSet(Join(c, p, t, d.value).held)
  {
    var sum := SummaryOf(c, p, t);
    SummaryRoundTrip(c, p, t);
    SummaryHas(c, p, t, h);
    var d := DeltaFor(c, p, s, sum);
    JoinFrom(c, p, t, d);
    forall x | x in d.held ensures x.slot != h.slot {
      FilterElem(s.held, Lacks(c, p, sum), x);
      FindSelf(s.held, x);
      FindSelf(s.held, h);
    }
  }

  function OneItem(key: byte): Item {
    Item(Zeros(32), [key], 0, false, false, [], None, Zeros(8), Zeros(64))
  }

  lemma {:induction false} CountsBelowLength(hs: seq<Held>, t: Tier, k: Bytes32)
    ensures CountTier(hs, t) <= |hs| && CountSigner(hs, k) <= |hs|
    decreases |hs|
  {
    if hs != [] { CountsBelowLength(hs[1..], t, k); }
  }

  lemma AllFit(p: Params, hs: seq<Held>)
    requires |hs| <= p.m && |hs| <= p.quota
    ensures WithinLimits(p, hs)
  {
    forall h | h in hs ensures CountSigner(hs, h.item.signer) <= p.quota { CountsBelowLength(hs, Owner, h.item.signer); }
    CountsBelowLength(hs, Owner, Zeros(32));
    CountsBelowLength(hs, CapHolder, Zeros(32));
  }

  /** A list with room for everything keeps everything. */
  lemma KeptWhole(c: Crypto, p: Params, hs: seq<Held>, h: Held)
    requires DistinctSlots(hs) && |hs| <= p.m && |hs| <= p.quota
    ensures h in Sort(CutHeld(p, OfferAll(c, [], hs)), Order) <==> h in hs
  {
    hide WithinLimits, Greedy, OfferAll, Sort, DistinctSlots;
    var sorted := Sort(hs, Order);
    assert [] + hs == hs && [] + sorted == sorted;
    OfferAllDistinct(c, [], hs);
    SortSize(hs, Order);
    SortElem(hs, Order, h);
    AllFit(p, sorted);
    GreedyKeepsAll(p, sorted, []);
    SortElem(sorted, Order, h);
  }

  /** Two slots of one set with room for both survive. */
  lemma PairKept(c: Crypto, p: Params, g: Held, h: Held)
    requires g.slot != h.slot && p.m >= 2 && p.quota >= 2
    ensures h in Join(c, p, SetState([], [g]), SetState([], [h])).held
  {
    var two := [g] + [h];
    assert two[1] == h && DistinctSlots(two);
    hide DistinctSlots, CutHeld, OfferAll, Sort;
    KeptWhole(c, p, two, h);
  }

  function SampleParams(): Params {
    Params(Zeros(32), OwnerOnly, 2, 2, 0, 1, 0, [])
  }

  function SampleHeld(key: byte): Held {
    HeldOf(SampleCrypto(), SampleParams(), OneItem(key))
  }

  lemma SampleSlot(key: byte)
    ensures SampleHeld(key).slot == Zeros(31) + [key]
  {
    var front := SLOT_DOMAIN + (ParamsHash(SampleCrypto(), SampleParams()) + (Zeros(32) + LE(1, 2)));
    assert SLOT_DOMAIN + (ParamsHash(SampleCrypto(), SampleParams()) + (Zeros(32) + (LE(1, 2) + [key]))) == front + [key];
    hide LE, Zeros;
    assert SampleHeld(key).slot == LastByte(front + [key]);
  }

  lemma SampleHeldOk(key: byte)
    ensures HeldOk(SampleCrypto(), SampleParams(), SampleHeld(key))
  {
    ZeroKeyUsable(SampleCrypto());
    hide UsableKey, Zeros, SlotHash, StampWork, ParamsHash;
  }

  lemma SampleOk(key: byte)
    ensures ParamsOk(SampleCrypto(), SampleParams())
    ensures Canonical(SampleCrypto(), SampleParams(), SetState([], [SampleHeld(key)]))
  {
    ZeroKeyUsable(SampleCrypto());
    AllFit(SampleParams(), [SampleHeld(key)]);
    SampleHeldOk(key);
    hide WithinLimits, UsableKey, Zeros, HeldOk, SampleHeld, SampleCrypto;
  }

  lemma SampleValid(key: byte)
    ensures Valid(SampleCrypto(), SampleParams(), SetState([], [SampleHeld(key)]))
  {
    SampleOk(key);
    hide Canonical, Zeros, SlotHash, StampWork, ParamsHash;
  }

  lemma LostInOneRound(c: Crypto, p: Params, h: Held, g: Held)
    requires ParamsOk(c, p) && Valid(c, p, SetState([], [h])) && Valid(c, p, SetState([], [g]))
    requires h.slot != g.slot && DecisionOf(c, h.item) == DecisionOf(c, g.item) && p.m >= 2 && p.quota >= 2
    ensures var s, t := SetState([], [h]), SetState([], [g]);
            var d := Delta(c, p, s, Summarize(c, p, t));
            d.Some? && Facts(c, Join(c, p, t, d.value)) != Facts(c, Join(c, p, t, s))
    ensures var s, t := SetState([], [h]), SetState([], [g]);
            Facts(c, AbsorbBytes(c, p, t, StateDelta(c, p, s, Summarize(c, p, t)))) != Facts(c, AbsorbBytes(c, p, t, Encode(s)))
  {
    hide Canonical, Verified, ParamsOk, DecisionOf, ParseSummary, DeltaFor, SummaryOf, Summarize, Join, AbsorbBytes, Encode;
    var s, t := SetState([], [h]), SetState([], [g]);
    EqualDecisionIsMissed(c, p, s, t, h, g);
    PairKept(c, p, g, h);
    SummaryRoundTrip(c, p, t);
    DeltaCanonical(c, p, s, SummaryOf(c, p, t));
    var d := Delta(c, p, s, Summarize(c, p, t)).value;
    var whole, part := Join(c, p, t, s), Join(c, p, t, d);
    DoorDelta(c, p, t, d);
    AbsorbValid(c, p, t, s);
    assert h.slot in Facts(c, whole).0.Keys;
    assert h.slot !in Facts(c, part).0.Keys;
  }

  /** Two valid one-slot sets for which a round through the doors loses a slot: one empty value, written in the same
      second under two item keys. */
  lemma OneRoundIsNotEnough() returns (c: Crypto, p: Params, s: SetState, t: SetState)
    ensures ParamsOk(c, p) && Valid(c, p, s) && Valid(c, p, t) && DistinctSlots(t.held)
    ensures Facts(c, AbsorbBytes(c, p, t, StateDelta(c, p, s, Summarize(c, p, t)))) != Facts(c, AbsorbBytes(c, p, t, Encode(s)))
  {
    c, p := SampleCrypto(), SampleParams();
    var h, g := SampleHeld(1), SampleHeld(2);
    assert DecisionOf(c, h.item) == DecisionOf(c, g.item) && p.m == 2 && p.quota == 2;
    SampleSlot(1);
    SampleSlot(2);
    assert (Zeros(31) + [1])[31] != (Zeros(31) + [2])[31];
    hide SampleCrypto, SampleParams, SampleHeld, Valid, ParamsOk, Zeros, DecisionOf, Delta, StateDelta, Summarize, Join, Facts,
         AbsorbBytes, Encode;
    SampleOk(1);
    SampleValid(1);
    SampleValid(2);
    LostInOneRound(c, p, h, g);
    s, t := SetState([], [h]), SetState([], [g]);
  }
}
