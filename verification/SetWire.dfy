/** The Set's encodings (set/src/wire.rs). `Put(x, rest)` is the encoding of `x` in front of `rest`. */
module SetWire {
  import opened Options
  import opened Bytes
  import opened ByteOrder
  import opened Crypto
  import opened Sorting

  const MAX_M := 64
  const MAX_DENY := 64
  const MAX_PAYLOAD := 256
  const MAX_ITEM_KEY := 64
  const MAX_LABEL := 64
  const CAP_LEN := 136

  const MAGIC: bytes := [83, 84, 48, 49]  // "ST01"
  const SIG_DOMAIN: bytes := [83, 84, 48, 49, 45, 115, 105, 103]  // "ST01-sig"
  const SLOT_DOMAIN: bytes := [83, 84, 48, 49, 45, 115, 108, 111, 116]  // "ST01-slot"
  const STAMP_DOMAIN: bytes := [83, 84, 48, 49, 45, 115, 116, 97, 109, 112]  // "ST01-stamp"
  const CAP_DOMAIN: bytes := [83, 84, 48, 49, 45, 99, 97, 112]  // "ST01-cap"
  const DENY_DOMAIN: bytes := [83, 84, 48, 49, 45, 100, 101, 110, 121]  // "ST01-deny"

  // ------------------------------------------------------------------- params

  datatype Admission = OwnerOnly | ByCap

  datatype Params = Params(
    owner: Bytes32, admission: Admission, m: u16, quota: u16, decisionBits: byte, payloadCap: u16,
    bucket: u32, setLabel: bytes)

  predicate ParamsOk(c: Crypto, p: Params) {
    && UsableKey(c, p.owner)
    && 1 <= p.m <= MAX_M
    && 1 <= p.quota <= p.m
    && 1 <= p.payloadCap <= MAX_PAYLOAD
    && p.decisionBits <= 64
    && |p.setLabel| <= MAX_LABEL
  }

  function EncodeParams(p: Params): bytes {
    MAGIC + ([0] + (p.owner + ([if p.admission.OwnerOnly? then 0 else 1]
      + (LE(p.m, 2) + (LE(p.quota, 2) + ([p.decisionBits] + (LE(p.payloadCap, 2)
      + (LE(p.bucket, 4) + p.setLabel))))))))
  }

  function ParamsHash(c: Crypto, p: Params): Bytes32 {
    c.hash(EncodeParams(p))
  }

  /** The hash a grant is made for: that of the params with 0 for the bucket, so one grant serves all buckets of a set. */
  function HashSansBucket(c: Crypto, p: Params): Bytes32 {
    c.hash(EncodeParams(p.(bucket := 0)))
  }

  // ----------------------------------------------------- capabilities, decisions

  datatype Cap = Cap(grantee: Bytes32, paramsSansBucket: Bytes32, from: u32, to: u32, sig: Bytes64)

  function CapMessage(k: Cap): bytes {
    CAP_DOMAIN + (k.grantee + (k.paramsSansBucket + (LE(k.from, 4) + LE(k.to, 4))))
  }

  /** The grant names this signer and covers this bucket, and the owner signed it. */
  predicate Admits(c: Crypto, p: Params, k: Cap, signer: Bytes32) {
    && k.grantee == signer
    && k.paramsSansBucket == HashSansBucket(c, p)
    && k.from <= p.bucket <= k.to
    && c.verifies(p.owner, CapMessage(k), k.sig)
  }

  datatype Decision = Decision(ts: u64, tombstone: bool, sealed: bool, payloadHash: Bytes32)

  function Flags(d: Decision): byte {
    (if d.tombstone then 1 else 0) + (if d.sealed then 2 else 0)
  }

  function DecisionBytes(d: Decision): bytes {
    LE(d.ts, 8) + ([Flags(d)] + d.payloadHash)
  }

  function DecisionHash(c: Crypto, ph: Bytes32, d: Decision): Bytes32 {
    c.hash(ph + DecisionBytes(d))
  }

  /** `d` outranks `e`: a sealed decision beats an open one; failing that, in turn, the later, the tombstone, and the one
      whose payload hash is smaller. */
  predicate Outranks(d: Decision, e: Decision) {
    if d.sealed != e.sealed then d.sealed
    else if d.ts != e.ts then d.ts > e.ts
    else if d.tombstone != e.tombstone then d.tombstone
    else Lex(d.payloadHash, e.payloadHash)
  }

  /** Total on decisions: only a decision itself neither outranks it nor is outranked by it. */
  lemma OutranksTotal(d: Decision, e: Decision)
    ensures Outranks(d, e) || d == e || Outranks(e, d)
    ensures !(Outranks(d, e) && Outranks(e, d))
    ensures !Outranks(d, d)
  {
    LexTotal(d.payloadHash, e.payloadHash);
    LexTotal(d.payloadHash, d.payloadHash);
  }

  lemma OutranksTransitive(d: Decision, e: Decision, f: Decision)
    requires Outranks(d, e) && Outranks(e, f)
    ensures Outranks(d, f)
  {
    if Lex(d.payloadHash, e.payloadHash) && Lex(e.payloadHash, f.payloadHash) {
      LexTransitive(d.payloadHash, e.payloadHash, f.payloadHash);
    }
  }

  // -------------------------------------------------------------------- items

  datatype Item = Item(
    signer: Bytes32, itemKey: bytes, ts: u64, tombstone: bool, sealed: bool, payload: bytes,
    cap: Option<Cap>, nonce: Bytes8, sig: Bytes64)

  function DecisionOf(c: Crypto, i: Item): Decision {
    Decision(i.ts, i.tombstone, i.sealed, c.hash(i.payload))
  }

  /** A slot's name depends on the set, the signer and the item key, and on nothing a later version changes. */
  function SlotHash(c: Crypto, ph: Bytes32, i: Item): Bytes32 {
    c.hash(SLOT_DOMAIN + (ph + (i.signer + (LE(|i.itemKey|, 2) + i.itemKey))))
  }

  function ItemMessage(c: Crypto, ph: Bytes32, i: Item): bytes {
    SIG_DOMAIN + (ph + (i.signer + (LE(|i.itemKey|, 2) + (i.itemKey + (DecisionBytes(DecisionOf(c, i)) + i.nonce)))))
  }

  function StampWork(c: Crypto, ph: Bytes32, i: Item): nat {
    LeadingZeros(c.hash(STAMP_DOMAIN + (ph + (DecisionBytes(DecisionOf(c, i)) + i.nonce))))
  }

  /** Everything decidable without a signature check. */
  predicate WellFormed(c: Crypto, p: Params, i: Item) {
    && 1 <= |i.itemKey| <= MAX_ITEM_KEY
    && |i.payload| <= p.payloadCap
    && (i.tombstone ==> i.payload == [])
    && StampWork(c, ParamsHash(c, p), i) >= p.decisionBits
    && (i.cap.Some? <==> i.signer != p.owner)
    && (i.cap.Some? ==> p.admission.ByCap?)
  }

  predicate VerifyItem(c: Crypto, p: Params, i: Item) {
    && WellFormed(c, p, i)
    && (i.cap.Some? ==> Admits(c, p, i.cap.value, i.signer))
    && c.verifies(i.signer, ItemMessage(c, ParamsHash(c, p), i), i.sig)
  }

  // ------------------------------------------------------------ denials, slots

  datatype Deny = Deny(signer: Bytes32, sig: Bytes64)

  predicate VerifyDeny(c: Crypto, p: Params, d: Deny) {
    c.verifies(p.owner, DENY_DOMAIN + (ParamsHash(c, p) + d.signer), d.sig)
  }

  datatype Tier = Owner | CapHolder

  datatype Held = Held(item: Item, slot: Bytes32, tier: Tier)

  function TierOf(p: Params, signer: Bytes32): Tier {
    if signer == p.owner then Owner else CapHolder
  }

  function HeldOf(c: Crypto, p: Params, i: Item): Held {
    Held(i, SlotHash(c, ParamsHash(c, p), i), TierOf(p, i.signer))
  }

  /** The comparison the source sorts by: the owner's tier in front, and within a tier more work, then the smaller name. */
  predicate RankLess(a: Held, b: Held) {
    if a.tier != b.tier then a.tier.Owner? else WorkThenHash(a.slot, b.slot)
  }

  /** The same order as one number. */
  function Order(h: Held): int {
    (if h.tier.Owner? then 0 else Pow256(32)) + Num(h.slot)
  }

  lemma RankIsOrder(a: Held, b: Held)
    ensures RankLess(a, b) <==> Order(a) < Order(b)
  {
    WorkOrderIsNameOrder(a.slot, b.slot);
    LexIsNum(a.slot, b.slot);
    BEOfNum(a.slot);
    BEOfNum(b.slot);
  }

  lemma OrderInjective(a: Held, b: Held)
    requires Order(a) == Order(b)
    ensures a.slot == b.slot && a.tier == b.tier
  {
    BEOfNum(a.slot);
    BEOfNum(b.slot);
    NumInjective(a.slot, b.slot);
  }

  function DenyOrder(d: Deny): int {
    Num(d.signer)
  }

  // ------------------------------------------------------------------- states

  datatype SetState = SetState(deny: seq<Deny>, held: seq<Held>)

  function CountTier(hs: seq<Held>, t: Tier): nat {
    if hs == [] then 0 else (if hs[0].tier == t then 1 else 0) + CountTier(hs[1..], t)
  }

  function CountSigner(hs: seq<Held>, k: Bytes32): nat {
    if hs == [] then 0 else (if hs[0].item.signer == k then 1 else 0) + CountSigner(hs[1..], k)
  }

  /** At most `m` slots in either tier and at most `quota` of any one signer. */
  predicate WithinLimits(p: Params, hs: seq<Held>) {
    && CountTier(hs, Owner) <= p.m
    && CountTier(hs, CapHolder) <= p.m
    && forall h :: h in hs ==> CountSigner(hs, h.item.signer) <= p.quota
  }

  /** What a reader is shown: denial hides a signer's slots and leaves them held. */
  function Visible(s: SetState): seq<Held> {
    Filter(s.held, (h: Held) => h.item.signer !in Denied(s))
  }

  function Denied(s: SetState): set<Bytes32> {
    set d | d in s.deny :: d.signer
  }

  /** An item whose fields fit their encoding. */
  predicate ItemFits(c: Crypto, i: Item) {
    && UsableKey(c, i.signer)
    && 1 <= |i.itemKey| <= MAX_ITEM_KEY
    && |i.payload| < 0x1_0000
    && (i.cap.Some? ==> UsableKey(c, i.cap.value.grantee))
  }

  predicate HeldOk(c: Crypto, p: Params, h: Held) {
    ItemFits(c, h.item) && WellFormed(c, p, h.item) && h == HeldOf(c, p, h.item)
  }

  /** The states that have an encoding: every bound and order the parser checks, signatures apart. */
  ghost predicate Canonical(c: Crypto, p: Params, s: SetState) {
    && |s.deny| <= MAX_DENY
    && Strict(s.deny, DenyOrder)
    && (forall d :: d in s.deny ==> d.signer != p.owner)
    && (forall h :: h in s.held ==> HeldOk(c, p, h))
    && Strict(s.held, Order)
    && WithinLimits(p, s.held)
  }

  predicate Verified(c: Crypto, p: Params, s: SetState) {
    && (forall d :: d in s.deny ==> VerifyDeny(c, p, d))
    && (forall h :: h in s.held ==> VerifyItem(c, p, h.item))
  }

  /** What `validate_state` accepts. */
  ghost predicate Valid(c: Crypto, p: Params, s: SetState) {
    Canonical(c, p, s) && Verified(c, p, s)
  }

  lemma {:induction false} TiersTile(hs: seq<Held>)
    ensures CountTier(hs, Owner) + CountTier(hs, CapHolder) == |hs|
  {
    if hs != [] { TiersTile(hs[1..]); }
  }
}
