/** The formats, each on one line from its first byte to its last: what a second implementation has to write. Round trips
    cannot see two fields that trade places in a writer and in its reader; these can. */
module Formats {
  import opened Options
  import opened Bytes
  import opened Crypto
  import opened Lists
  import opened Sorting
  import SW = SetWire
  import SC = SetCodec
  import SS = SetSync
  import BW = BagWire
  import BM = BagMerge
  import RW = RegisterWire
  import RC = RegisterCodec
  import RH = RegisterHost
  import TB = TailBody
  import TH = TailHost
  import Site
  import SiteDoors
  import Pack

  function Bit(x: bool): byte {
    if x then 1 else 0
  }

  // ----------------------------------------------------------------------------- Set

  lemma SetParams(p: SW.Params)
    ensures SW.EncodeParams(p) ==
              Ascii("ST01") + ([0] + (p.owner + ([Bit(p.admission.ByCap?)] + (LE(p.m, 2) + (LE(p.quota, 2)
                + ([p.decisionBits] + (LE(p.payloadCap, 2) + (LE(p.bucket, 4) + p.setLabel))))))))
  {
    hide LE;
    assert SW.MAGIC == Ascii("ST01");
  }

  /** A grant, as it stands between the payload and the nonce. */
  function Grant(k: SW.Cap, back: bytes): bytes {
    k.grantee + (k.paramsSansBucket + (LE(k.from, 4) + (LE(k.to, 4) + (k.sig + back))))
  }

  lemma SetItem(i: SW.Item, rest: bytes)
    requires 1 <= |i.itemKey| <= 64
    ensures var back := i.nonce + (i.sig + rest);
            SC.PutItem(i, rest) ==
              i.signer + ([|i.itemKey|] + (i.itemKey + (LE(i.ts, 8)
                + ([Bit(i.tombstone) + 2 * Bit(i.sealed) + 4 * Bit(i.cap.Some?)]
                + (LE(|i.payload|, 2) + (i.payload + if i.cap.None? then back else Grant(i.cap.value, back)))))))
  {
    hide LE;
  }

  lemma SetState(s: SW.SetState)
    ensures SC.Encode(s) ==
              Ascii("ST01") + (LE(|s.deny|, 2) + SC.PutDenies(s.deny, LE(|s.held|, 2) + SC.PutItems(s.held, [])))
    ensures s.deny != [] ==> forall rest ::
              SC.PutDenies(s.deny, rest) == s.deny[0].signer + (s.deny[0].sig + SC.PutDenies(s.deny[1..], rest))
    ensures s.held != [] ==> SC.PutItems(s.held, []) == SC.PutItem(s.held[0].item, SC.PutItems(s.held[1..], []))
  {
    hide LE, SC.PutItem;
    assert SW.MAGIC == Ascii("ST01");
  }

  lemma SetSummary(c: Crypto, p: SW.Params, s: SW.SetState)
    ensures SS.Summarize(c, p, s) ==
              c.hash(SS.KeysInOrder(s.deny)) + (LE(SW.CountTier(s.held, SW.Owner), 2)
                + (LE(SW.CountTier(s.held, SW.CapHolder), 2) + PutChunks(Sort(SS.Mentions(c, p, s.held), KeyOrder))))
  {
  }

  // ----------------------------------------------------------------------------- Bag

  lemma BagParams(p: BW.Params)
    ensures BW.EncodeParams(p) ==
              Ascii("BG01") + (p.owner + ([p.workBits] + (LE(p.m, 2) + (LE(p.payloadCap, 2) + (LE(p.bucket, 4) + p.bagLabel)))))
  {
    hide LE;
    assert BW.MAGIC == Ascii("BG01");
  }

  lemma BagState(s: BW.BagState)
    ensures BW.Encode(s) == Ascii("BG01") + (LE(|s|, 2) + BW.PutPointers(s))
    ensures s != [] ==>
              BW.PutPointers(s) == LE(|s[0].ptr.payload|, 2) + (s[0].ptr.payload + (s[0].ptr.nonce + BW.PutPointers(s[1..])))
  {
    hide LE;
    assert BW.MAGIC == Ascii("BG01");
  }

  lemma BagSummary(s: BW.BagState)
    requires s != []
    ensures var last := s[|s| - 1];
            BM.Summarize(s) == LE(|s|, 2) + ([Min(last.work, 255)] + (last.name + PutChunks(Sort(BM.Truncations(s), KeyOrder))))
  {
    hide LE;
  }

  // ------------------------------------------------------------------------ Register

  lemma RegisterParams(p: RW.Params)
    requires p.authority.Quorum? ==> p.authority.k < 256 && |p.authority.keys| < 256
    ensures RW.EncodeParams(p) ==
              match p.authority
                case One(key) => Ascii("RG01") + ([0] + (key + p.tag))
                case Quorum(k, keys) => Ascii("RG01") + ([1] + ([k] + ([|keys|] + RW.PutKeys(keys, p.tag))))
  {
    assert RW.MAGIC == Ascii("RG01");
  }

  /** The bitmap stands in front of the signatures, for k of n only. */
  lemma RegisterSigned(a: RW.Authority, s: RW.Signed, rest: bytes)
    ensures RC.PutSigned(a, s, rest) ==
              [Bit(s.terminal)] + (LE(s.seq_, 8) + (s.valueHash
                + if a.One? then RC.PutSigs(s.sigs, rest) else LE(s.bitmap, 2) + RC.PutSigs(s.sigs, rest)))
  {
  }

  /** A record carries its value where a signed part carries the value's hash. */
  lemma RegisterRecord(a: RW.Authority, r: RC.Record, rest: bytes)
    requires |r.value| <= 4096
    ensures RC.PutRecord(a, r, rest) ==
              [Bit(r.signed.terminal)] + (LE(r.signed.seq_, 8) + (LE(|r.value|, 2) + (r.value
                + if a.One? then RC.PutSigs(r.signed.sigs, rest) else LE(r.signed.bitmap, 2) + RC.PutSigs(r.signed.sigs, rest))))
  {
    hide LE;
  }

  lemma RegisterState(a: RW.Authority, s: RC.RegState)
    ensures RC.Encode(a, s) ==
              match (s.record, s.evidence)
                case (None, None) => []
                case (Some(r), None) => Ascii("RG01") + ([1] + RC.PutRecord(a, r, []))
                case (None, Some(e)) => Ascii("RG01") + ([2] + RC.PutSigned(a, e.a, RC.PutSigned(a, e.b, [])))
                case (Some(r), Some(e)) => Ascii("RG01") + ([3] + RC.PutRecord(a, r, RC.PutSigned(a, e.a, RC.PutSigned(a, e.b, []))))
  {
    hide RC.PutRecord, RC.PutSigned;
    assert RW.MAGIC == Ascii("RG01");
  }

  /** The record's decision, then the hash of the two decisions the evidence pairs. */
  lemma RegisterSummary(c: Crypto, s: RC.RegState)
    requires s.record.Some? && s.evidence.Some?
    ensures var d, x, y := s.record.value.signed, s.evidence.value.a, s.evidence.value.b;
            RH.SummaryOf(c, s) ==
              ([Bit(d.terminal)] + (LE(d.seq_, 8) + d.valueHash))
                + c.hash(([Bit(x.terminal)] + (LE(x.seq_, 8) + x.valueHash)) + ([Bit(y.terminal)] + (LE(y.seq_, 8) + y.valueHash)))
  {
    hide LE;
  }

  // ---------------------------------------------------------------------------- Tail

  lemma TailBody(b: TB.Body)
    ensures TB.EncodeBody(b) ==
              if b.root.None? then [0] + (LE(b.through, 8) + (LE(|b.rows|, 4) + TB.PutRows(b.rows)))
                else [1] + (b.root.value + (LE(b.through, 8) + (LE(|b.rows|, 4) + TB.PutRows(b.rows))))
  {
  }

  lemma TailRows(rows: seq<TB.Row>)
    requires rows != []
    ensures var r, rest := rows[0], TB.PutRows(rows[1..]);
            TB.PutRows(rows) ==
              LE(|r.key|, 2) + (r.key + (LE(r.entry.seq_, 8)
                + if r.entry.value.None? then [0] + rest
                  else [1] + (LE(|r.entry.value.value|, 4) + (r.entry.value.value + rest))))
  {
    hide LE;
  }

  lemma TailOps(ops: seq<TB.Op>)
    requires ops != []
    ensures TB.EncodeOps(ops) == LE(|ops|, 2) + TB.PutOps(ops)
    ensures var rest := TB.PutOps(ops[1..]);
            TB.PutOps(ops) ==
              match ops[0]
                case Set(k, v) => [1] + (LE(|k|, 2) + (k + (LE(|v|, 4) + (v + rest))))
                case Delete(k) => [2] + (LE(|k|, 2) + (k + rest))
                case Flush(root, through) => [3] + (root + (LE(through, 8) + rest))
  {
    hide LE;
  }

  lemma TailStates(a: RW.Authority, t: TH.Tail, ops: seq<TB.Op>)
    ensures TH.EncodeTail(a, t) == Ascii("TL01") + (RC.PutSigned(a, t.signed, []) + TB.EncodeBody(t.body))
    ensures TH.EncodeDelta(a, t.signed, ops) == Ascii("TD01") + (RC.PutSigned(a, t.signed, []) + TB.EncodeOps(ops))
    ensures TH.SummaryOf(Some(t)) == LE(t.signed.seq_, 8) + t.signed.valueHash
  {
    hide RC.PutSigned, TB.EncodeBody, TB.EncodeOps, LE;
    assert TH.STATE_MAGIC == Ascii("TL01") && TH.DELTA_MAGIC == Ascii("TD01");
  }

  // ------------------------------------------------------------------- Site and Pack

  lemma SiteFraming(a: RW.Authority, s: Site.Site)
    ensures Site.EncodeSite(a, s) == BE(|RC.Encode(a, s.reg)|, 8) + (RC.Encode(a, s.reg) + (BE(|s.web|, 8) + s.web))
  {
    hide RC.Encode, BE;
  }

  /** What the node sends a site: a count, and per item its tag and its byte strings behind their lengths. */
  lemma SiteUpdates(data: seq<SiteDoors.UpdateData>, rest: bytes)
    requires data != []
    ensures var more := SiteDoors.PutItems(data[1..], rest);
            SiteDoors.PutItems(data, rest) ==
              match data[0]
                case State(s) => LE(0, 4) + (LE(|s|, 8) + (s + more))
                case Delta(x) => LE(1, 4) + (LE(|x|, 8) + (x + more))
                case StateAndDelta(s, x) => LE(2, 4) + (LE(|s|, 8) + (s + (LE(|x|, 8) + (x + more))))
                case RelatedState(id, s) => LE(3, 4) + (id + (LE(|s|, 8) + (s + more)))
                case RelatedDelta(id, x) => LE(4, 4) + (id + (LE(|x|, 8) + (x + more)))
                case RelatedStateAndDelta(id, s, x) => LE(5, 4) + (id + (LE(|s|, 8) + (s + (LE(|x|, 8) + (x + more)))))
  {
    hide LE;
  }

  lemma PackBody(ms: seq<Pack.Member>)
    ensures Pack.EncodePack(ms) == Ascii("PK01") + (LE(|ms|, 2) + Pack.PutMembers(ms))
    ensures ms != [] ==>
              Pack.PutMembers(ms) == [ms[0].kind] + (LE(|ms[0].body|, 4) + (ms[0].body + Pack.PutMembers(ms[1..])))
  {
    hide LE;
    assert Pack.MAGIC == Ascii("PK01");
  }
}
