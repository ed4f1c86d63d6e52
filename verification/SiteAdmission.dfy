/** What a site proves to whoever reads it, in plain terms (site/src/lib.rs, site/src/doors.rs). */
module SiteAdmission {
  import opened Options
  import opened Bytes
  import opened Crypto
  import opened RegisterWire
  import R = RegisterCodec
  import opened RegisterProofs
  import RegisterAdmission
  import opened Site
  import D = SiteDoors

  // ------------------------------------------------------------------------ params

  /** What an app id is spelled with. */
  predicate AppChar(x: char) {
    'a' <= x <= 'z' || '0' <= x <= '9' || x == '_' || x == '-'
  }

  /** EXACTLY the parameters a site accepts: those of a Register labelled `site:` and 1 to 32 such letters, with
      one key or at most four required signatures. */
  lemma ParamsExact(c: Crypto, b: bytes, p: Params)
    ensures ParseSiteParams(c, b) == Some(p) <==>
            && ParamsOk(c, p) && b == EncodeParams(p)
            && (exists id ::
                  && p.tag == Ascii("site:") + id && 1 <= |id| <= 32
                  && forall i :: 0 <= i < |id| ==> AppChar(id[i] as char))
            && (p.authority.One? || p.authority.k <= 4)
  {
    SiteParamsExact(c, b, p);
    assert LABEL_PREFIX == Ascii("site:");
    forall id: bytes ensures AppIdOk(id) <==> 1 <= |id| <= 32 && forall i :: 0 <= i < |id| ==> AppChar(id[i] as char) {
      IdMeans(id);
    }
    hide ParseSiteParams, ParamsOk, EncodeParams, AppIdOk, Ascii;
  }

  lemma IdMeans(id: bytes)
    ensures AppIdOk(id) <==> 1 <= |id| <= 32 && forall i :: 0 <= i < |id| ==> AppChar(id[i] as char)
  {
  }

  // ------------------------------------------------------------------------- sites

  /** A web part that is not empty; a live record whose value is its hash; and whatever the Register asks of a state. */
  predicate Accepted(c: Crypto, p: Params, s: Site) {
    && RegisterAdmission.Accepted(c, p, s.reg)
    && s.reg.record.Some? && !s.reg.record.value.signed.terminal
    && s.reg.record.value.value == c.hash(s.web)
    && |s.web| > 0
  }

  /** EXACTLY what a site's validation accepts. */
  lemma ValidationExact(c: Crypto, p: Params, b: bytes, s: Site)
    requires ParamsOk(c, p) && AcceptedParams(p)
    ensures Parse(c, p, b) == Some(s) <==> Accepted(c, p, s) && b == EncodeSite(p.authority, s) && |b| <= 16777216
  {
    hide Parse, EncodeSite, R.Valid, RegisterAdmission.Accepted, ParamsOk;
    ParseExact(c, p, b, s);
    RegisterAdmission.ValidExact(c, p, s.reg);
  }

  /** What a reader sees was signed: the decision names the hash of the hash of the web part. */
  lemma FaceIsSigned(c: Crypto, p: Params, b: bytes)
    requires ParamsOk(c, p) && AcceptedParams(p) && Parse(c, p, b).Some?
    ensures var s := Parse(c, p, b).value;
            && RegisterAdmission.EachSigned(c, p, s.reg.record.value.signed)
            && FaceOf(s).decision.valueHash == c.hash(c.hash(FaceOf(s).web))
  {
    hide Parse, EncodeSite, RegisterAdmission.EachSigned, ParamsOk;
    ValidationExact(c, p, b, Parse(c, p, b).value);
  }

  // ------------------------------------------------------------------------- merges

  /** A merge shows whichever of the two ranks higher in numbers, and proves any fork either side or the pair proves. */
  lemma MergeShowsHigher(c: Crypto, p: Params, x: Site, y: Site)
    requires SiteOk(c, p, x) && SiteOk(c, p, y) && NoWebCollision(c, {x.web, y.web})
    ensures var m, dx, dy := MergeSites(x, y), FaceOf(x).decision, FaceOf(y).decision;
            && FaceOf(m) == (if AtLeastAsHigh(dx, dy) then FaceOf(x) else FaceOf(y))
            && (m.reg.evidence.Some? <==> x.reg.evidence.Some? || y.reg.evidence.Some? || Fork(dx, dy))
  {
    hide MergeSites, Outranks, AtLeastAsHigh, SiteOk;
    assert x.reg.record.Some? && y.reg.record.Some? by { HaveRecords(c, p, x, y); }
    MergeFace(c, p, x, y);
    MergeParts(x, y);
    OutranksInNumbers(FaceOf(y).decision, FaceOf(x).decision);
  }

  lemma HaveRecords(c: Crypto, p: Params, x: Site, y: Site)
    requires SiteOk(c, p, x) && SiteOk(c, p, y)
    ensures x.reg.record.Some? && y.reg.record.Some?
  {
  }

  // ------------------------------------------------------------------------ the door

  /** What an update offers, item by item and in order; related contracts' states are passed over. */
  lemma {:induction false} OffersInOrder(data: seq<D.UpdateData>, more: seq<D.UpdateData>, id: Bytes32, s: bytes, d: bytes)
    ensures D.AllOffers(data + more) == D.AllOffers(data) + D.AllOffers(more)
    ensures D.AllOffers([D.State(s)]) == [s] && D.AllOffers([D.Delta(d)]) == [d]
    ensures D.AllOffers([D.StateAndDelta(s, d)]) == [s, d]
    ensures D.AllOffers([D.RelatedState(id, s)]) == []
    ensures D.AllOffers([D.RelatedDelta(id, d)]) == []
    ensures D.AllOffers([D.RelatedStateAndDelta(id, s, d)]) == []
    decreases |data|
  {
    forall x: D.UpdateData ensures D.AllOffers([x]) == D.OffersOf(x) {
      assert [x][1..] == [];
      assert D.OffersOf(x) + [] == D.OffersOf(x);
    }
    if data == [] {
      assert data + more == more;
    } else {
      assert (data + more)[1..] == data[1..] + more;
      OffersInOrder(data[1..], more, id, s, d);
      var c, x, y := D.OffersOf(data[0]), D.AllOffers(data[1..]), D.AllOffers(more);
      assert c + (x + y) == (c + x) + y;
    }
  }
}
