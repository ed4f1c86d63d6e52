/** The Set's state encoding is a bijection between canonical states and accepted byte strings. */
module SetCodec {
  import opened Options
  import opened Bytes
  import opened ByteOrder
  import opened Crypto
  import opened Sorting
  import opened SetWire

  // ------------------------------------------------------------- capabilities

  function PutCap(k: Cap, rest: bytes): bytes {
    k.grantee + (k.paramsSansBucket + (LE(k.from, 4) + (LE(k.to, 4) + (k.sig + rest))))
  }

  function ReadCap(c: Crypto, b: bytes): Option<(Cap, bytes)> {
    var (grantee, r1) :- Take(b, 32);
    var (sans, r2) :- Take(r1, 32);
    var (from, r3) :- ReadU32(r2);
    var (to, r4) :- ReadU32(r3);
    var (sig, r5) :- Take(r4, 64);
    if UsableKey(c, grantee) then Some((Cap(grantee, sans, from, to, sig), r5)) else None
  }

  lemma ReadCapFront(c: Crypto, k: Cap, rest: bytes)
    requires UsableKey(c, k.grantee)
    ensures ReadCap(c, PutCap(k, rest)) == Some((k, rest))
  {
    var t4 := k.sig + rest;
    var t3 := LE(k.to, 4) + t4;
    var t2 := LE(k.from, 4) + t3;
    TakeFront(k.grantee, k.paramsSansBucket + t2);
    TakeFront(k.paramsSansBucket, t2);
    ReadU32Front(k.from, t3);
    ReadU32Front(k.to, t4);
    TakeFront(k.sig, rest);
  }

  lemma ReadCapGives(c: Crypto, b: bytes)
    requires ReadCap(c, b).Some?
    ensures var (k, rest) := ReadCap(c, b).value; UsableKey(c, k.grantee) && b == PutCap(k, rest)
  {
  }

  // -------------------------------------------------------------------- items

  /** An item in three stretches: what precedes the payload, the payload, and the witnesses behind it. */
  datatype Head = Head(signer: Bytes32, itemKey: bytes, ts: u64, flags: byte)
  datatype Tail = Tail(cap: Option<Cap>, nonce: Bytes8, sig: Bytes64)

  function FlagsByte(i: Item): byte {
    (if i.tombstone then 1 else 0) + (if i.sealed then 2 else 0) + (if i.cap.Some? then 4 else 0)
  }

  function HeadOf(i: Item): Head {
    Head(i.signer, i.itemKey, i.ts, FlagsByte(i))
  }

  function TailOf(i: Item): Tail {
    Tail(i.cap, i.nonce, i.sig)
  }

  function Assemble(h: Head, payload: bytes, t: Tail): Item {
    Item(h.signer, h.itemKey, h.ts, h.flags % 2 == 1, (h.flags / 2) % 2 == 1, payload, t.cap, t.nonce, t.sig)
  }

  predicate HeadFits(c: Crypto, h: Head) {
    UsableKey(c, h.signer) && 1 <= |h.itemKey| <= MAX_ITEM_KEY && h.flags < 8
  }

  predicate TailFits(c: Crypto, t: Tail) {
    t.cap.Some? ==> UsableKey(c, t.cap.value.grantee)
  }

  function PutHead(h: Head, rest: bytes): bytes {
    h.signer + ([|h.itemKey| % 256] + (h.itemKey + (LE(h.ts, 8) + ([h.flags] + rest))))
  }

  function PutTail(t: Tail, rest: bytes): bytes {
    if t.cap.Some? then PutCap(t.cap.value, t.nonce + (t.sig + rest)) else t.nonce + (t.sig + rest)
  }

  function PutItem(i: Item, rest: bytes): bytes {
    PutHead(HeadOf(i), LE(|i.payload|, 2) + (i.payload + PutTail(TailOf(i), rest)))
  }

  function ReadGrant(c: Crypto, b: bytes, granted: bool): Option<(Option<Cap>, bytes)> {
    if !granted then Some((None, b)) else
    var (k, r) :- ReadCap(c, b);
    Some((Some(k), r))
  }

  function ReadTail(c: Crypto, b: bytes, granted: bool): Option<(Tail, bytes)> {
    var (cap, r1) :- ReadGrant(c, b, granted);
    var (nonce, r2) :- Take(r1, 8);
    var (sig, r3) :- Take(r2, 64);
    Some((Tail(cap, nonce, sig), r3))
  }

  function ReadHead(c: Crypto, b: bytes): Option<(Head, bytes)> {
    var (signer, r1) :- Take(b, 32);
    if !UsableKey(c, signer) then None else
    var (klen, r2) :- ReadByte(r1);
    if klen == 0 || klen > MAX_ITEM_KEY then None else
    var (key, r3) :- Take(r2, klen);
    var (ts, r4) :- ReadU64(r3);
    var (flags, r5) :- ReadByte(r4);
    // Bits 3 to 7 mean nothing, so an item that sets one is refused.
    if flags >= 8 then None else Some((Head(signer, key, ts, flags), r5))
  }

  function ReadPayload(b: bytes): Option<(bytes, bytes)> {
    var (plen, r1) :- ReadU16(b);
    Take(r1, plen)
  }

  function ReadItem(c: Crypto, b: bytes): Option<(Item, bytes)> {
    var (h, r1) :- ReadHead(c, b);
    var (payload, r2) :- ReadPayload(r1);
    var (t, r3) :- ReadTail(c, r2, h.flags / 4 == 1);
    Some((Assemble(h, payload, t), r3))
  }

  lemma ReadTailFront(c: Crypto, t: Tail, rest: bytes)
    requires TailFits(c, t)
    ensures ReadTail(c, PutTail(t, rest), t.cap.Some?) == Some((t, rest))
  {
    TakeFront(t.nonce, t.sig + rest);
    TakeFront(t.sig, rest);
    if t.cap.Some? { ReadCapFront(c, t.cap.value, t.nonce + (t.sig + rest)); }
  }

  lemma ReadTailGives(c: Crypto, b: bytes, granted: bool)
    requires ReadTail(c, b, granted).Some?
    ensures var (t, rest) := ReadTail(c, b, granted).value;
            TailFits(c, t) && (t.cap.Some? <==> granted) && b == PutTail(t, rest)
  {
    if granted { ReadCapGives(c, b); }
  }

  lemma ReadHeadFront(c: Crypto, h: Head, rest: bytes)
    requires HeadFits(c, h)
    ensures ReadHead(c, PutHead(h, rest)) == Some((h, rest))
  {
    hide LE, UsableKey, ReadU64, Take;
    var t4 := [h.flags] + rest;
    var t3 := LE(h.ts, 8) + t4;
    var t2 := h.itemKey + t3;
    var n: byte := |h.itemKey| % 256;
    TakeFront(h.signer, [n] + t2);
    ReadByteFront(n, t2);
    TakeFront(h.itemKey, t3);
    ReadU64Front(h.ts, t4);
    ReadByteFront(h.flags, rest);
  }

  lemma ReadHeadGives(c: Crypto, b: bytes)
    requires ReadHead(c, b).Some?
    ensures var (h, rest) := ReadHead(c, b).value; HeadFits(c, h) && b == PutHead(h, rest)
  {
    hide LE, UsableKey, Take, ReadByte, ReadU64;
    var r1 := Take(b, 32).value.1;
    var (klen, r2) := ReadByte(r1).value;
    var (key, r3) := Take(r2, klen).value;
    var r4 := ReadU64(r3).value.1;
    ReadByteGives(r1);
    ReadByteGives(r4);
  }

  lemma ReadPayloadFront(payload: bytes, rest: bytes)
    requires |payload| < 0x1_0000
    ensures ReadPayload(LE(|payload|, 2) + (payload + rest)) == Some((payload, rest))
  {
    ReadU16Front(|payload|, payload + rest);
    TakeFront(payload, rest);
  }

  lemma ReadPayloadGives(b: bytes)
    requires ReadPayload(b).Some?
    ensures var (payload, rest) := ReadPayload(b).value;
            |payload| < 0x1_0000 && b == LE(|payload|, 2) + (payload + rest)
  {
  }

  /** The three defined bits and the three facts they carry determine each other. */
  lemma FlagBits(i: Item)
    ensures var f := FlagsByte(i);
            f < 8 && (f % 2 == 1 <==> i.tombstone) && ((f / 2) % 2 == 1 <==> i.sealed) && (f / 4 == 1 <==> i.cap.Some?)
  {
  }

  lemma AssembleParts(h: Head, payload: bytes, t: Tail)
    requires h.flags < 8 && (t.cap.Some? <==> h.flags / 4 == 1)
    ensures var i := Assemble(h, payload, t);
            HeadOf(i) == h && TailOf(i) == t && i.payload == payload
  {
  }

  lemma ReadItemFront(c: Crypto, i: Item, rest: bytes)
    requires ItemFits(c, i)
    ensures ReadItem(c, PutItem(i, rest)) == Some((i, rest))
  {
    var t2 := PutTail(TailOf(i), rest);
    FlagBits(i);
    ReadHeadFront(c, HeadOf(i), LE(|i.payload|, 2) + (i.payload + t2));
    ReadPayloadFront(i.payload, t2);
    ReadTailFront(c, TailOf(i), rest);
  }

  lemma ReadItemGives(c: Crypto, b: bytes)
    requires ReadItem(c, b).Some?
    ensures var (i, rest) := ReadItem(c, b).value; ItemFits(c, i) && b == PutItem(i, rest)
  {
    ReadHeadGives(c, b);
    var (h, r1) := ReadHead(c, b).value;
    ReadPayloadGives(r1);
    var (payload, r2) := ReadPayload(r1).value;
    ReadTailGives(c, r2, h.flags / 4 == 1);
    AssembleParts(h, payload, ReadTail(c, r2, h.flags / 4 == 1).value.0);
  }

  // ------------------------------------------------------------------ denials

  function PutDenies(ds: seq<Deny>, rest: bytes): bytes {
    if ds == [] then rest else ds[0].signer + (ds[0].sig + PutDenies(ds[1..], rest))
  }

  function ReadDeny(b: bytes): Option<(Deny, bytes)> {
    var (signer, r1) :- Take(b, 32);
    var (sig, r2) :- Take(r1, 64);
    Some((Deny(signer, sig), r2))
  }

  /** May `d` follow `prev` in a canonical list? */
  predicate DenyFollows(p: Params, prev: Option<Deny>, d: Deny) {
    d.signer != p.owner && (prev.Some? ==> Lex(prev.value.signer, d.signer))
  }

  function ReadDenies(p: Params, b: bytes, n: nat, prev: Option<Deny>): Option<(seq<Deny>, bytes)>
    decreases n
  {
    if n == 0 then Some(([], b)) else
    var (d, r1) :- ReadDeny(b);
    if !DenyFollows(p, prev, d) then None else
    var (ds, r2) :- ReadDenies(p, r1, n - 1, Some(d));
    Some(([d] + ds, r2))
  }

  ghost predicate DeniesOk(p: Params, ds: seq<Deny>, prev: Option<Deny>) {
    && Strict(ds, DenyOrder)
    && (forall d :: d in ds ==> d.signer != p.owner)
    && (prev.Some? && ds != [] ==> DenyOrder(prev.value) < DenyOrder(ds[0]))
  }

  lemma DeniesTail(p: Params, ds: seq<Deny>, prev: Option<Deny>)
    requires ds != []
    ensures DeniesOk(p, ds, prev) <==> DenyFollows(p, prev, ds[0]) && DeniesOk(p, ds[1..], Some(ds[0]))
  {
    if prev.Some? { LexIsNum(prev.value.signer, ds[0].signer); }
    assert ds == [ds[0]] + ds[1..];
    if DeniesOk(p, ds, prev) {
      assert ds[0] in ds;
    } else if DeniesOk(p, ds[1..], Some(ds[0])) && DenyFollows(p, prev, ds[0]) {
      StrictCons(ds[0], ds[1..], DenyOrder);
    }
  }

  lemma ReadDenyFront(d: Deny, rest: bytes)
    ensures ReadDeny(d.signer + (d.sig + rest)) == Some((d, rest))
  {
    TakeFront(d.signer, d.sig + rest);
    TakeFront(d.sig, rest);
  }

  lemma {:induction false} ReadDeniesFront(p: Params, ds: seq<Deny>, prev: Option<Deny>, rest: bytes)
    requires DeniesOk(p, ds, prev)
    ensures ReadDenies(p, PutDenies(ds, rest), |ds|, prev) == Some((ds, rest))
    decreases |ds|
  {
    hide DeniesOk, DenyFollows, ReadDeny;
    if ds != [] {
      DeniesTail(p, ds, prev);
      ReadDeniesFront(p, ds[1..], Some(ds[0]), rest);
      ReadDenyFront(ds[0], PutDenies(ds[1..], rest));
      assert ds == [ds[0]] + ds[1..];
    }
  }

  lemma {:induction false} ReadDeniesGives(p: Params, b: bytes, n: nat, prev: Option<Deny>)
    requires ReadDenies(p, b, n, prev).Some?
    ensures var (ds, rest) := ReadDenies(p, b, n, prev).value;
            |ds| == n && DeniesOk(p, ds, prev) && b == PutDenies(ds, rest)
    decreases n
  {
    if n > 0 {
      var (d, r1) := ReadDeny(b).value;
      ReadDeniesGives(p, r1, n - 1, Some(d));
      var (ds, rest) := ReadDenies(p, b, n, prev).value;
      assert ds[1..] == ReadDenies(p, r1, n - 1, Some(d)).value.0;
      DeniesTail(p, ds, prev);
    }
  }

  // -------------------------------------------------------------------- slots

  function PutItems(hs: seq<Held>, rest: bytes): bytes {
    if hs == [] then rest else PutItem(hs[0].item, PutItems(hs[1..], rest))
  }

  predicate Follows(prev: Option<Held>, h: Held) {
    prev.Some? ==> RankLess(prev.value, h)
  }

  /** One slot: an item of the right shape, with what the contract derives from it. */
  function ReadSlot(c: Crypto, p: Params, b: bytes): Option<(Held, bytes)> {
    var (i, r1) :- ReadItem(c, b);
    if WellFormed(c, p, i) then Some((HeldOf(c, p, i), r1)) else None
  }

  lemma ReadSlotFront(c: Crypto, p: Params, h: Held, rest: bytes)
    requires HeldOk(c, p, h)
    ensures ReadSlot(c, p, PutItem(h.item, rest)) == Some((h, rest))
  {
    ReadItemFront(c, h.item, rest);
  }

  lemma ReadSlotGives(c: Crypto, p: Params, b: bytes)
    requires ReadSlot(c, p, b).Some?
    ensures var (h, rest) := ReadSlot(c, p, b).value; HeldOk(c, p, h) && b == PutItem(h.item, rest)
  {
    ReadItemGives(c, b);
  }

  function ReadItems(c: Crypto, p: Params, b: bytes, n: nat, prev: Option<Held>): Option<(seq<Held>, bytes)>
    decreases n
  {
    if n == 0 then Some(([], b)) else
    var (h, r1) :- ReadSlot(c, p, b);
    if !Follows(prev, h) then None else
    var (hs, r2) :- ReadItems(c, p, r1, n - 1, Some(h));
    Some(([h] + hs, r2))
  }

  ghost predicate ItemsOk(c: Crypto, p: Params, hs: seq<Held>, prev: Option<Held>) {
    && Strict(hs, Order)
    && (forall h :: h in hs ==> HeldOk(c, p, h))
    && (prev.Some? && hs != [] ==> Order(prev.value) < Order(hs[0]))
  }

  lemma ItemsTail(c: Crypto, p: Params, hs: seq<Held>, prev: Option<Held>)
    requires hs != []
    ensures ItemsOk(c, p, hs, prev) <==>
            HeldOk(c, p, hs[0]) && Follows(prev, hs[0]) && ItemsOk(c, p, hs[1..], Some(hs[0]))
  {
    if prev.Some? { RankIsOrder(prev.value, hs[0]); }
    assert hs == [hs[0]] + hs[1..];
    if ItemsOk(c, p, hs, prev) {
      assert hs[0] in hs;
    } else if HeldOk(c, p, hs[0]) && Follows(prev, hs[0]) && ItemsOk(c, p, hs[1..], Some(hs[0])) {
      StrictCons(hs[0], hs[1..], Order);
    }
  }

  lemma {:induction false} ReadItemsFront(c: Crypto, p: Params, hs: seq<Held>, prev: Option<Held>, rest: bytes)
    requires ItemsOk(c, p, hs, prev)
    ensures ReadItems(c, p, PutItems(hs, rest), |hs|, prev) == Some((hs, rest))
    decreases |hs|
  {
    hide PutItem, ReadSlot, HeldOk, ItemsOk;
    if hs != [] {
      ItemsTail(c, p, hs, prev);
      ReadItemsFront(c, p, hs[1..], Some(hs[0]), rest);
      ReadSlotFront(c, p, hs[0], PutItems(hs[1..], rest));
      assert hs == [hs[0]] + hs[1..];
    }
  }

  lemma {:induction false} ReadItemsGives(c: Crypto, p: Params, b: bytes, n: nat, prev: Option<Held>)
    requires ReadItems(c, p, b, n, prev).Some?
    ensures var (hs, rest) := ReadItems(c, p, b, n, prev).value;
            |hs| == n && ItemsOk(c, p, hs, prev) && b == PutItems(hs, rest)
    decreases n
  {
    hide PutItem, ReadSlot, HeldOk;
    if n > 0 {
      var (h, r1) := ReadSlot(c, p, b).value;
      ReadSlotGives(c, p, b);
      ReadItemsGives(c, p, r1, n - 1, Some(h));
      var (hs, rest) := ReadItems(c, p, b, n, prev).value;
      assert hs[1..] == ReadItems(c, p, r1, n - 1, Some(h)).value.0;
      ItemsTail(c, p, hs, prev);
    }
  }

  // ------------------------------------------------------------------- states

  function Encode(s: SetState): bytes {
    MAGIC + (LE(|s.deny|, 2) + PutDenies(s.deny, LE(|s.held|, 2) + PutItems(s.held, [])))
  }

  /** Everything a state's bytes must satisfy short of its signatures. */
  function ParseUnverified(c: Crypto, p: Params, b: bytes): Option<SetState> {
    var (magic, r1) :- Take(b, 4);
    if magic != MAGIC then None else
    var (dcount, r2) :- ReadU16(r1);
    if dcount > MAX_DENY then None else
    var (deny, r3) :- ReadDenies(p, r2, dcount, None);
    var (count, r4) :- ReadU16(r3);
    // `saturating_mul` on a u16.
    if count > Min(2 * p.m, 0xFFFF) then None else
    var (held, r5) :- ReadItems(c, p, r4, count, None);
    if r5 != [] || !WithinLimits(p, held) then None else
    Some(SetState(deny, held))
  }

  /** The parse, and then each signature in turn. */
  function Parse(c: Crypto, p: Params, b: bytes): Option<SetState> {
    var s :- ParseUnverified(c, p, b);
    if Verified(c, p, s) then Some(s) else None
  }

  /** Every canonical state parses back from its encoding. */
  lemma ParseOfEncode(c: Crypto, p: Params, s: SetState)
    requires ParamsOk(c, p) && Canonical(c, p, s)
    ensures ParseUnverified(c, p, Encode(s)) == Some(s)
  {
    TiersTile(s.held);
    var t3 := PutItems(s.held, []);
    var t2 := LE(|s.held|, 2) + t3;
    var t1 := PutDenies(s.deny, t2);
    TakeFront(MAGIC, LE(|s.deny|, 2) + t1);
    ReadU16Front(|s.deny|, t1);
    ReadDeniesFront(p, s.deny, None, t2);
    ReadU16Front(|s.held|, t3);
    ReadItemsFront(c, p, s.held, None, []);
  }

  /** Every accepted byte string is the encoding of the canonical state it parses to. */
  lemma EncodeOfParse(c: Crypto, p: Params, b: bytes)
    requires ParseUnverified(c, p, b).Some?
    ensures var s := ParseUnverified(c, p, b).value; Canonical(c, p, s) && Encode(s) == b
  {
    var (magic, r1) := Take(b, 4).value;
    var (dcount, r2) := ReadU16(r1).value;
    ReadDeniesGives(p, r2, dcount, None);
    var (deny, r3) := ReadDenies(p, r2, dcount, None).value;
    var (count, r4) := ReadU16(r3).value;
    ReadItemsGives(c, p, r4, count, None);
  }

  /** `validate_state` accepts exactly the encodings of valid states, each state having one. */
  lemma ParseExact(c: Crypto, p: Params, b: bytes, s: SetState)
    requires ParamsOk(c, p)
    ensures Parse(c, p, b) == Some(s) <==> Valid(c, p, s) && b == Encode(s)
  {
    if ParseUnverified(c, p, b).Some? { EncodeOfParse(c, p, b); }
    if Valid(c, p, s) && b == Encode(s) { ParseOfEncode(c, p, s); }
  }

  // ------------------------------------------------------------------- length

  // The largest item is 32 + 1 + 64 + 8 + 1 + 2 + 256 + 136 + 8 + 64 = 572 bytes.

  /** `4 + 2 + 64 * 96 + 2 + 2 * 64 * 572`. */
  const MAX_STATE := 79368

  lemma {:induction false} DeniesLength(ds: seq<Deny>, rest: bytes)
    ensures |PutDenies(ds, rest)| == 96 * |ds| + |rest|
    decreases |ds|
  {
    if ds != [] { DeniesLength(ds[1..], rest); }
  }

  lemma ItemLength(i: Item, rest: bytes)
    ensures |PutItem(i, rest)| == 116 + |i.itemKey| + |i.payload| + (if i.cap.Some? then CAP_LEN else 0) + |rest|
  {
  }

  lemma {:induction false} ItemsLength(p: Params, hs: seq<Held>, rest: bytes)
    requires p.payloadCap <= MAX_PAYLOAD
    requires forall h :: h in hs ==> |h.item.itemKey| <= MAX_ITEM_KEY && |h.item.payload| <= p.payloadCap
    ensures |PutItems(hs, rest)| <= 572 * |hs| + |rest|
    decreases |hs|
  {
    if hs != [] {
      assert hs[0] in hs;
      ItemLength(hs[0].item, PutItems(hs[1..], rest));
      ItemsLength(p, hs[1..], rest);
    }
  }

  /** No canonical state outgrows the bound that refuses a state before it is parsed. */
  lemma EncodeFits(c: Crypto, p: Params, s: SetState)
    requires ParamsOk(c, p) && Canonical(c, p, s)
    ensures |Encode(s)| <= MAX_STATE
  {
    TiersTile(s.held);
    ItemsLength(p, s.held, []);
    DeniesLength(s.deny, LE(|s.held|, 2) + PutItems(s.held, []));
  }
}
