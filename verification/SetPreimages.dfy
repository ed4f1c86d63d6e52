/** The collisions the Set's theorems exclude, traced to the bytes that are hashed: each preimage determines what it
    names, so nothing collides unless the hash itself does (set/src/wire.rs). */
module SetPreimages {
  import opened Options
  import opened Bytes
  import opened Crypto
  import opened Sorting
  import opened SetWire
  import opened SetCodec
  import opened SetMerge
  import opened SetRuns
  import opened SetSync
  import LaminarCut

  // -------------------------------------------------------------------- parameters

  /** One encoding names one set. */
  lemma ParamsInjective(p: Params, q: Params)
    requires EncodeParams(p) == EncodeParams(q)
    ensures p == q
  {
    var x, y := EncodeParams(p), EncodeParams(q);
    hide LE;
    assert x[5..37] == p.owner && y[5..37] == q.owner;
    assert x[37] == (if p.admission.OwnerOnly? then 0 else 1) && y[37] == (if q.admission.OwnerOnly? then 0 else 1);
    assert x[38..40] == LE(p.m, 2) && y[38..40] == LE(q.m, 2);
    assert x[40..42] == LE(p.quota, 2) && y[40..42] == LE(q.quota, 2);
    assert x[42] == p.decisionBits && y[42] == q.decisionBits;
    assert x[43..45] == LE(p.payloadCap, 2) && y[43..45] == LE(q.payloadCap, 2);
    assert x[45..49] == LE(p.bucket, 4) && y[45..49] == LE(q.bucket, 4);
    assert x[49..] == p.setLabel && y[49..] == q.setLabel;
    PowValues();
    UnLEOfLE(p.m, 2);
    UnLEOfLE(q.m, 2);
    UnLEOfLE(p.quota, 2);
    UnLEOfLE(q.quota, 2);
    UnLEOfLE(p.payloadCap, 2);
    UnLEOfLE(q.payloadCap, 2);
    UnLEOfLE(p.bucket, 4);
    UnLEOfLE(q.bucket, 4);
  }

  /** A grant names one set: two sets take each other's grants EXACTLY when they differ in nothing but the bucket. */
  lemma GrantsNameOneSet(c: Crypto, p: Params, q: Params)
    requires HashInjective(c, {EncodeParams(p.(bucket := 0)), EncodeParams(q.(bucket := 0))})
    ensures HashSansBucket(c, p) == HashSansBucket(c, q) <==> p.(bucket := 0) == q.(bucket := 0)
  {
    hide EncodeParams;
    if HashSansBucket(c, p) == HashSansBucket(c, q) { ParamsInjective(p.(bucket := 0), q.(bucket := 0)); }
  }

  // ------------------------------------------------------------------------- slots

  /** What a slot's name hashes. */
  function SlotPreimage(c: Crypto, p: Params, i: Item): bytes {
    SLOT_DOMAIN + (ParamsHash(c, p) + (i.signer + (LE(|i.itemKey|, 2) + i.itemKey)))
  }

  lemma SlotPreimageInjective(c: Crypto, p: Params, i: Item, j: Item)
    requires SlotPreimage(c, p, i) == SlotPreimage(c, p, j)
    ensures i.signer == j.signer && i.itemKey == j.itemKey
  {
    var x, y := SlotPreimage(c, p, i), SlotPreimage(c, p, j);
    hide LE, ParamsHash;
    assert x[41..73] == i.signer && y[41..73] == j.signer;
    assert x[75..] == i.itemKey && y[75..] == j.itemKey;
  }

  ghost function SlotPreimages(c: Crypto, p: Params, states: set<SetState>): set<bytes> {
    set s, h | s in states && h in s.held :: SlotPreimage(c, p, h.item)
  }

  /** Unless the hash collides on them, two slots of one name are one signer's slot for one key. */
  lemma SlotsNameOneKey(c: Crypto, p: Params, states: set<SetState>)
    requires forall s :: s in states ==> Canonical(c, p, s)
    requires HashInjective(c, SlotPreimages(c, p, states))
    ensures NoSlotCollision(states)
    ensures forall s, t, h, g :: s in states && t in states && h in s.held && g in t.held && h.slot == g.slot ==>
              h.item.itemKey == g.item.itemKey
  {
    forall s, t, h, g | s in states && t in states && h in s.held && g in t.held && h.slot == g.slot
      ensures h.item.signer == g.item.signer && h.item.itemKey == g.item.itemKey
    {
      SlotFromPreimage(c, p, s, h);
      SlotFromPreimage(c, p, t, g);
      hide SlotPreimage, Canonical;
      assert SlotPreimage(c, p, h.item) in SlotPreimages(c, p, states);
      assert SlotPreimage(c, p, g.item) in SlotPreimages(c, p, states);
      SlotPreimageInjective(c, p, h.item, g.item);
    }
  }

  lemma SlotFromPreimage(c: Crypto, p: Params, s: SetState, h: Held)
    requires Canonical(c, p, s) && h in s.held
    ensures h.slot == c.hash(SlotPreimage(c, p, h.item))
  {
    hide WellFormed, LE, ParamsHash, WithinLimits;
  }

  // --------------------------------------------------------------------- decisions

  /** What a summary's mention hashes: the decision, without its slot. */
  function DecisionPreimage(c: Crypto, p: Params, d: Decision): bytes {
    ParamsHash(c, p) + DecisionBytes(d)
  }

  lemma DecisionBytesInjective(d: Decision, e: Decision)
    requires DecisionBytes(d) == DecisionBytes(e)
    ensures d == e
  {
    var x, y := DecisionBytes(d), DecisionBytes(e);
    hide LE;
    assert x[..8] == LE(d.ts, 8) && y[..8] == LE(e.ts, 8);
    assert x[8] == Flags(d) && y[8] == Flags(e);
    assert x[9..] == d.payloadHash && y[9..] == e.payloadHash;
    PowValues();
    UnLEOfLE(d.ts, 8);
    UnLEOfLE(e.ts, 8);
  }

  lemma DecisionPreimageInjective(c: Crypto, p: Params, d: Decision, e: Decision)
    requires DecisionPreimage(c, p, d) == DecisionPreimage(c, p, e)
    ensures d == e
  {
    hide DecisionBytes;
    assert DecisionPreimage(c, p, d)[32..] == DecisionBytes(d) && DecisionPreimage(c, p, e)[32..] == DecisionBytes(e);
    DecisionBytesInjective(d, e);
  }

  ghost function DecisionPreimages(c: Crypto, p: Params, hs: seq<Held>): set<bytes> {
    set h | h in hs :: DecisionPreimage(c, p, DecisionOf(c, h.item))
  }

  /** Unless the truncated hash collides on them, a mention tells two decisions apart. */
  lemma MentionsNameDecisions(c: Crypto, p: Params, h: Held, g: Held)
    requires TruncationInjective(c, DecisionPreimages(c, p, [h, g]))
    ensures Mention(c, p, h) == Mention(c, p, g) <==> DecisionOf(c, h.item) == DecisionOf(c, g.item)
  {
    hide DecisionBytes;
    assert h in [h, g] && g in [h, g];
    var x, y := DecisionPreimage(c, p, DecisionOf(c, h.item)), DecisionPreimage(c, p, DecisionOf(c, g.item));
    assert x in DecisionPreimages(c, p, [h, g]) && y in DecisionPreimages(c, p, [h, g]);
    assert Mention(c, p, h) == c.hash(x)[..16] && Mention(c, p, g) == c.hash(y)[..16];
    if Mention(c, p, h) == Mention(c, p, g) { DecisionPreimageInjective(c, p, DecisionOf(c, h.item), DecisionOf(c, g.item)); }
  }

  /** And equal decisions are equal versions, unless the hash collides on their payloads. */
  lemma DecisionsNameVersions(c: Crypto, i: Item, j: Item)
    requires HashInjective(c, {i.payload, j.payload})
    ensures DecisionOf(c, i) == DecisionOf(c, j) <==>
            i.ts == j.ts && i.tombstone == j.tombstone && i.sealed == j.sealed && i.payload == j.payload
  {
  }

  lemma {:induction false} KeysInjective(x: seq<Deny>, y: seq<Deny>)
    requires KeysInOrder(x) == KeysInOrder(y)
    ensures DenySet(x) == DenySet(y)
    decreases |x|
  {
    KeysLength(x);
    KeysLength(y);
    if x != [] && y != [] {
      assert KeysInOrder(x)[..32] == x[0].signer && KeysInOrder(y)[..32] == y[0].signer;
      assert KeysInOrder(x)[32..] == KeysInOrder(x[1..]) && KeysInOrder(y)[32..] == KeysInOrder(y[1..]);
      KeysInjective(x[1..], y[1..]);
      FrontDenied(x);
      FrontDenied(y);
    }
  }

  lemma FrontDenied(x: seq<Deny>)
    requires x != []
    ensures DenySet(x) == {x[0].signer} + DenySet(x[1..])
  {
    assert x == [x[0]] + x[1..];
  }

  lemma {:induction false} KeysLength(x: seq<Deny>)
    ensures |KeysInOrder(x)| == 32 * |x|
    decreases |x|
  {
    if x != [] { KeysLength(x[1..]); }
  }

  lemma DenialsNameKeys(c: Crypto, s: SetState, t: SetState)
    requires HashInjective(c, {KeysInOrder(s.deny), KeysInOrder(t.deny)})
    ensures DenyHashFaithful(c, s, t)
  {
    if DenyHash(c, s.deny) == DenyHash(c, t.deny) { KeysInjective(s.deny, t.deny); }
  }

  // ------------------------------------------------------------------- one round, plainly

  /** The peer's summary takes a decision for known EXACTLY when the peer holds it, in whatever slot. */
  lemma KnownMeansHeld(c: Crypto, p: Params, t: SetState, h: Held)
    requires TruncationInjective(c, DecisionPreimages(c, p, [h] + t.held))
    ensures Has(c, p, SummaryOf(c, p, t), h) <==> exists g :: g in t.held && DecisionOf(c, g.item) == DecisionOf(c, h.item)
  {
    SummaryHas(c, p, t, h);
    hide Mention, DecisionPreimage, DecisionOf, SummaryOf;
    forall g | g in t.held ensures Mention(c, p, g) == Mention(c, p, h) <==> DecisionOf(c, g.item) == DecisionOf(c, h.item) {
      assert g in [h] + t.held && h in [h] + t.held;
      assert DecisionPreimages(c, p, [h, g]) <= DecisionPreimages(c, p, [h] + t.held);
      MentionsNameDecisions(c, p, h, g);
    }
  }

  /** One round, with no collision of the hash on anything the two hold: it is the whole merge EXACTLY when the peer does
      not hold the decision of any news already, in another slot. */
  lemma RoundLosesTwins(c: Crypto, p: Params, who: Bytes32 -> Bytes32, s: SetState, t: SetState)
    requires ParamsOk(c, p) && Readable(c, p, who, s) && Readable(c, p, who, t)
    requires TruncationInjective(c, DecisionPreimages(c, p, s.held + t.held))
    requires HashInjective(c, {KeysInOrder(s.deny), KeysInOrder(t.deny)})
    ensures var d := Delta(c, p, s, Summarize(c, p, t));
            && d.Some?
            && (Join(c, p, t, d.value) == Join(c, p, t, s) <==>
                  forall h, g :: News(c, p, who, s, t, h) && g in t.held ==> DecisionOf(c, g.item) != DecisionOf(c, h.item))
  {
    OneRoundExact(c, p, who, s, t);
    DenialsNameKeys(c, s, t);
    if DenyHash(c, s.deny) == DenyHash(c, t.deny) { assert NewDenials(s, t) == {}; }
    hide DecisionOf, DecisionPreimage, Has, Join, Delta, Summarize, SummaryOf, NewDenials, DenyHash, KeysInOrder;
    forall h | News(c, p, who, s, t, h)
      ensures Has(c, p, SummaryOf(c, p, t), h) <==> exists g :: g in t.held && DecisionOf(c, g.item) == DecisionOf(c, h.item)
    {
      assert h in s.held;
      assert DecisionPreimages(c, p, [h] + t.held) <= DecisionPreimages(c, p, s.held + t.held);
      KnownMeansHeld(c, p, t, h);
    }
  }
}
