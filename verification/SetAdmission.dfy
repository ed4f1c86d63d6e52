/** What every item, denial and state a Set accepts proves, said without the contract's own vocabulary: in the bytes that
    are hashed and signed, in numbers compared and in sets counted (set/src/wire.rs). */
module SetAdmission {
  import opened Options
  import opened Bytes
  import opened ByteOrder
  import opened Crypto
  import opened Sorting
  import opened SetWire
  import opened SetCodec
  import opened SetMerge
  import opened SetHost

  // ------------------------------------------------------------------ bytes, spelled out

  /** What fixes a version: its time, its two flags and the hash of its payload. */
  function VersionBytes(c: Crypto, i: Item): bytes {
    LE(i.ts, 8) + ([(if i.tombstone then 1 else 0) + (if i.sealed then 2 else 0)] + c.hash(i.payload))
  }

  function SlotBytes(c: Crypto, p: Params, i: Item): bytes {
    Ascii("ST01-slot") + (c.hash(EncodeParams(p)) + (i.signer + (LE(|i.itemKey|, 2) + i.itemKey)))
  }

  function StampBytes(c: Crypto, p: Params, i: Item): bytes {
    Ascii("ST01-stamp") + (c.hash(EncodeParams(p)) + (VersionBytes(c, i) + i.nonce))
  }

  function SignedBytes(c: Crypto, p: Params, i: Item): bytes {
    Ascii("ST01-sig") + (c.hash(EncodeParams(p)) + (i.signer
      + (LE(|i.itemKey|, 2) + (i.itemKey + (VersionBytes(c, i) + i.nonce)))))
  }

  /** What the owner signs for a grantee: the range of buckets, and the set with its bucket struck out. */
  function GrantBytes(c: Crypto, p: Params, grantee: Bytes32, from: u32, to: u32): bytes {
    Ascii("ST01-cap") + (grantee + (c.hash(EncodeParams(p.(bucket := 0))) + (LE(from, 4) + LE(to, 4))))
  }

  function DenialBytes(c: Crypto, p: Params, signer: Bytes32): bytes {
    Ascii("ST01-deny") + (c.hash(EncodeParams(p)) + signer)
  }

  lemma Domains()
    ensures SLOT_DOMAIN == Ascii("ST01-slot") && STAMP_DOMAIN == Ascii("ST01-stamp") && SIG_DOMAIN == Ascii("ST01-sig")
    ensures CAP_DOMAIN == Ascii("ST01-cap") && DENY_DOMAIN == Ascii("ST01-deny")
  {
  }

  // ------------------------------------------------------------------------- items

  /** An item is within its limits, was paid for, and was signed over everything it says. */
  predicate Authentic(c: Crypto, p: Params, i: Item) {
    && 1 <= |i.itemKey| <= 64 && |i.payload| <= p.payloadCap
    && (i.tombstone ==> |i.payload| == 0)
    && LeadingZeros(c.hash(StampBytes(c, p, i))) >= p.decisionBits
    && c.verifies(i.signer, SignedBytes(c, p, i), i.sig)
  }

  /** The owner writes without a grant. Anyone else needs one of the owner's, for that key and this bucket of this set, in
      a set that admits grantees at all. */
  predicate Granted(c: Crypto, p: Params, i: Item) {
    if i.signer == p.owner then i.cap.None?
    else
      && p.admission == ByCap && i.cap.Some?
      && i.cap.value.grantee == i.signer
      && i.cap.value.from <= p.bucket <= i.cap.value.to
      && i.cap.value.paramsSansBucket == c.hash(EncodeParams(p.(bucket := 0)))
      && c.verifies(p.owner, GrantBytes(c, p, i.signer, i.cap.value.from, i.cap.value.to), i.cap.value.sig)
  }

  /** An item verifies EXACTLY when it is authentic and its signer may write here. */
  lemma ItemExact(c: Crypto, p: Params, i: Item)
    ensures VerifyItem(c, p, i) <==> Authentic(c, p, i) && Granted(c, p, i)
  {
    hide LE, EncodeParams, LeadingZeros, SLOT_DOMAIN;
    Domains();
    assert DecisionBytes(DecisionOf(c, i)) == VersionBytes(c, i);
    assert ItemMessage(c, ParamsHash(c, p), i) == SignedBytes(c, p, i);
  }

  // ------------------------------------------------------------------------ states

  ghost function OfTier(hs: seq<Held>, t: Tier): set<Held> {
    set h | h in hs && h.tier == t
  }

  ghost function OfSigner(hs: seq<Held>, k: Bytes32): set<Held> {
    set h | h in hs && h.item.signer == k
  }

  lemma {:induction false} CountsAreSizes(hs: seq<Held>, t: Tier, k: Bytes32)
    requires Strict(hs, Order)
    ensures CountTier(hs, t) == |OfTier(hs, t)| && CountSigner(hs, k) == |OfSigner(hs, k)|
    decreases |hs|
  {
    if hs != [] {
      hide Order, Strict, OfTier, OfSigner;
      FrontFresh(hs);
      FrontTier(hs, t);
      FrontSigner(hs, k);
      CountsAreSizes(hs[1..], t, k);
    }
  }

  lemma FrontFresh(hs: seq<Held>)
    requires hs != [] && Strict(hs, Order)
    ensures Strict(hs[1..], Order) && hs[0] !in hs[1..]
  {
    hide Order;
    var h, rest := hs[0], hs[1..];
    forall j | 0 <= j < |rest| ensures Order(rest[j]) > Order(h) { assert rest[j] == hs[j + 1]; }
  }

  lemma FrontTier(hs: seq<Held>, t: Tier)
    requires hs != [] && hs[0] !in hs[1..]
    ensures |OfTier(hs, t)| == |OfTier(hs[1..], t)| + if hs[0].tier == t then 1 else 0
  {
    var rest := OfTier(hs[1..], t);
    assert forall x :: x in hs <==> x == hs[0] || x in hs[1..] by { assert hs == [hs[0]] + hs[1..]; }
    if hs[0].tier == t {
      assert OfTier(hs, t) == rest + {hs[0]};
    } else {
      assert OfTier(hs, t) == rest;
    }
  }

  lemma FrontSigner(hs: seq<Held>, k: Bytes32)
    requires hs != [] && hs[0] !in hs[1..]
    ensures |OfSigner(hs, k)| == |OfSigner(hs[1..], k)| + if hs[0].item.signer == k then 1 else 0
  {
    var rest := OfSigner(hs[1..], k);
    assert forall x :: x in hs <==> x == hs[0] || x in hs[1..] by { assert hs == [hs[0]] + hs[1..]; }
    if hs[0].item.signer == k {
      assert OfSigner(hs, k) == rest + {hs[0]};
    } else {
      assert OfSigner(hs, k) == rest;
    }
  }

  /** A list of denials: at most 64 keys, rising, none the owner's, each signed by the owner. */
  predicate DenialsProper(c: Crypto, p: Params, ds: seq<Deny>) {
    && |ds| <= 64
    && (forall i :: 0 <= i < |ds| ==>
          ds[i].signer != p.owner && c.verifies(p.owner, DenialBytes(c, p, ds[i].signer), ds[i].sig))
    && (forall i, j :: 0 <= i < j < |ds| ==> Num(ds[i].signer) < Num(ds[j].signer))
  }

  /** A slot: its item is authentic and granted, and its name and tier are derived from it. */
  predicate SlotProper(c: Crypto, p: Params, h: Held) {
    && Authentic(c, p, h.item) && Granted(c, p, h.item) && UsableKey(c, h.item.signer)
    && h.slot == c.hash(SlotBytes(c, p, h.item))
    && (h.tier == Owner <==> h.item.signer == p.owner)
  }

  /** The owner's slots, then the others'; each tier by rising name. */
  predicate InRankOrder(hs: seq<Held>) {
    forall i, j :: 0 <= i < j < |hs| ==>
      && (hs[j].tier == Owner ==> hs[i].tier == Owner)
      && (hs[i].tier == hs[j].tier ==> Num(hs[i].slot) < Num(hs[j].slot))
  }

  lemma OrderMeans(hs: seq<Held>)
    ensures Strict(hs, Order) <==> InRankOrder(hs)
  {
    forall i | 0 <= i < |hs| ensures 0 <= Num(hs[i].slot) < Pow256(32) { BEOfNum(hs[i].slot); }
    hide Num, Pow256;
    if Strict(hs, Order) {
      forall i, j | 0 <= i < j < |hs| ensures (hs[j].tier == Owner ==> hs[i].tier == Owner)
        && (hs[i].tier == hs[j].tier ==> Num(hs[i].slot) < Num(hs[j].slot)) {
        assert Order(hs[i]) < Order(hs[j]);
      }
    }
    if InRankOrder(hs) {
      forall i, j | 0 <= i < j < |hs| ensures Order(hs[i]) < Order(hs[j]) {}
    }
  }

  ghost predicate Accepted(c: Crypto, p: Params, s: SetState) {
    && DenialsProper(c, p, s.deny)
    && (forall h :: h in s.held ==> SlotProper(c, p, h))
    && InRankOrder(s.held)
    && (forall t :: |OfTier(s.held, t)| <= p.m)
    && (forall k :: |OfSigner(s.held, k)| <= p.quota)
  }

  lemma SlotExact(c: Crypto, p: Params, h: Held)
    requires p.payloadCap <= MAX_PAYLOAD
    ensures HeldOk(c, p, h) && VerifyItem(c, p, h.item) <==> SlotProper(c, p, h)
  {
    ItemExact(c, p, h.item);
    Domains();
    assert SlotHash(c, ParamsHash(c, p), h.item) == c.hash(SlotBytes(c, p, h.item));
    hide LE, EncodeParams, LeadingZeros, UsableKey, StampWork, SlotHash, SlotBytes, StampBytes, SignedBytes, GrantBytes;
  }

  lemma NoneOf(hs: seq<Held>, k: Bytes32)
    requires forall h :: h in hs ==> h.item.signer != k
    ensures OfSigner(hs, k) == {}
  {
  }

  lemma LimitsMean(p: Params, hs: seq<Held>)
    requires Strict(hs, Order)
    ensures WithinLimits(p, hs) <==> (forall t :: |OfTier(hs, t)| <= p.m) && (forall k :: |OfSigner(hs, k)| <= p.quota)
  {
    forall k: Bytes32 ensures CountSigner(hs, k) == |OfSigner(hs, k)| { CountsAreSizes(hs, Owner, k); }
    CountsAreSizes(hs, Owner, Zeros(32));
    CountsAreSizes(hs, CapHolder, Zeros(32));
    hide Order, OfTier, OfSigner, Strict;
    if WithinLimits(p, hs) {
      forall t ensures |OfTier(hs, t)| <= p.m { if t == Owner {} else { assert t == CapHolder; } }
      forall k ensures |OfSigner(hs, k)| <= p.quota {
        if h :| h in hs && h.item.signer == k {} else { NoneOf(hs, k); }
      }
    }
    if (forall t :: |OfTier(hs, t)| <= p.m) && (forall k :: |OfSigner(hs, k)| <= p.quota) {
      forall h | h in hs ensures CountSigner(hs, h.item.signer) <= p.quota {
        assert CountSigner(hs, h.item.signer) == |OfSigner(hs, h.item.signer)|;
      }
    }
  }

  lemma DenialsMean(c: Crypto, p: Params, ds: seq<Deny>)
    ensures DenialsProper(c, p, ds) <==>
            && |ds| <= MAX_DENY && Strict(ds, DenyOrder)
            && (forall d :: d in ds ==> d.signer != p.owner && VerifyDeny(c, p, d))
  {
    Domains();
    hide Num, EncodeParams;
    assert forall d: Deny :: DENY_DOMAIN + (ParamsHash(c, p) + d.signer) == DenialBytes(c, p, d.signer);
  }

  /** EXACTLY what full validation accepts, in plain terms. */
  lemma ValidExact(c: Crypto, p: Params, s: SetState)
    requires ParamsOk(c, p)
    ensures Valid(c, p, s) <==> Accepted(c, p, s)
  {
    DenialsMean(c, p, s.deny);
    forall h ensures HeldOk(c, p, h) && VerifyItem(c, p, h.item) <==> SlotProper(c, p, h) { SlotExact(c, p, h); }
    OrderMeans(s.held);
    hide HeldOk, VerifyItem, VerifyDeny, SlotProper, DenialsProper, InRankOrder, Order, DenyOrder, Strict, WithinLimits,
         OfTier, OfSigner;
    if Strict(s.held, Order) { LimitsMean(p, s.held); }
  }

  /** `validate_state` accepts the encodings of accepted states, and nothing else. */
  lemma ValidationExact(c: Crypto, p: Params, b: bytes, s: SetState)
    requires ParamsOk(c, p)
    ensures Parse(c, p, b) == Some(s) <==> Accepted(c, p, s) && b == Encode(s)
  {
    ParseExact(c, p, b, s);
    ValidExact(c, p, s);
    hide Parse, Accepted, Valid, Encode;
  }

  /** And whatever a host is sent, everything it holds afterwards is accepted too: no unsigned version, no ungranted
      signer, no forged denial. */
  lemma HostAccepted(c: Crypto, p: Params, held: SetState, cands: seq<bytes>)
    requires ParamsOk(c, p) && Accepted(c, p, held)
    ensures Accepted(c, p, AbsorbAll(c, p, held, cands))
  {
    ValidExact(c, p, held);
    ValidExact(c, p, AbsorbAll(c, p, held, cands));
    hide Accepted, Valid, AbsorbAll;
    UpdateCloses(c, p, held, cands);
  }
}
