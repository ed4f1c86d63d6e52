/** A site: a Register record that names a web bundle, and the bundle (site/src/lib.rs). */
module Site {
  import opened Options
  import opened Bytes
  import opened Crypto
  import opened Sample
  import opened RegisterWire
  import R = RegisterCodec
  import opened RegisterMerge

  const MAX_METADATA := 1024
  const MAX_SITE := 16777216  // 16 MiB, framing included
  const LABEL_PREFIX: bytes := [115, 105, 116, 101, 58]  // "site:"
  const MAX_APP_ID := 32

  // ------------------------------------------------------------------------ params

  /** `[a-z0-9_-]` */
  predicate AppIdByte(x: byte) {
    97 <= x <= 122 || 48 <= x <= 57 || x == 95 || x == 45
  }

  predicate AppIdOk(id: bytes) {
    1 <= |id| <= MAX_APP_ID && forall i :: 0 <= i < |id| ==> AppIdByte(id[i])
  }

  /** The most bytes a Register state of this authority takes: its record, and a proof of two signed parts. */
  function WorstMetadata(a: Authority): nat {
    var sigs := BitmapLen(a) + SigsRequired(a) * 64;
    4 + 1 + (1 + 8 + 2 + 32 + sigs) + 2 * (1 + 8 + 32 + sigs)
  }

  function ParseSiteParams(c: Crypto, b: bytes): Option<Params> {
    var p :- ParseParams(c, b);
    if LABEL_PREFIX <= p.tag && AppIdOk(p.tag[5..]) && WorstMetadata(p.authority) <= MAX_METADATA then Some(p) else None
  }

  /** Exactly the parameters a site accepts: canonical Register parameters labelled with an app id, and one key or at
      most four required signatures. */
  lemma SiteParamsExact(c: Crypto, b: bytes, p: Params)
    ensures ParseSiteParams(c, b) == Some(p) <==>
            && ParamsOk(c, p) && b == EncodeParams(p)
            && (exists id :: AppIdOk(id) && p.tag == LABEL_PREFIX + id)
            && (p.authority.One? || p.authority.k <= 4)
  {
    ParamsExact(c, b, p);
    hide ParseParams, ParamsOk, EncodeParams, AppIdOk;
    if LABEL_PREFIX <= p.tag { assert p.tag == LABEL_PREFIX + p.tag[5..]; }
    forall id | p.tag == LABEL_PREFIX + id ensures p.tag[5..] == id {}
  }

  /** The bound is the exact worst case: a site's metadata reaches it precisely when it carries evidence. */
  lemma MetadataSize(c: Crypto, a: Authority, s: R.RegState)
    requires R.StateOk(c, a, s) && s.record.Some? && |s.record.value.value| == 32
    ensures |R.Encode(a, s)| == WorstMetadata(a) - (if s.evidence.Some? then 0 else 2 * R.SignedLen(a))
  {
    hide R.PutSigned, R.PutRecord;
    var proof := R.ProofBytes(a, s.evidence);
    if s.evidence.Some? {
      R.SignedLength(a, s.evidence.value.b, []);
      R.SignedLength(a, s.evidence.value.a, R.PutSigned(a, s.evidence.value.b, []));
    }
    R.RecordLength(c, a, s.record.value, proof);
  }

  // ----------------------------------------------------------------------- framing

  /** Two sections, each behind its length in eight big-endian bytes. */
  function EncodeFraming(meta: bytes, web: bytes): bytes {
    BE(|meta|, 8) + (meta + (BE(|web|, 8) + web))
  }

  function Framing(b: bytes): Option<(bytes, bytes)> {
    var (m, r1) :- Take(b, 8);
    if Num(m) > MAX_METADATA then None else
    var (meta, r2) :- Take(r1, Num(m));
    var (w, web) :- Take(r2, 8);
    if Num(w) == |web| && |web| > 0 then Some((meta, web)) else None
  }

  /** One framing for one content: no trailing byte, no second spelling of a length. */
  lemma FramingExact(b: bytes, meta: bytes, web: bytes)
    ensures Framing(b) == Some((meta, web)) <==>
            |meta| <= MAX_METADATA && 0 < |web| < 0x1_0000_0000_0000_0000 && b == EncodeFraming(meta, web)
  {
    PowValues();
    if Framing(b) == Some((meta, web)) {
      var (m, r1) := Take(b, 8).value;
      var (w, _) := Take(Take(r1, Num(m)).value.1, 8).value;
      BEOfNum(m);
      BEOfNum(w);
    }
    if |meta| <= MAX_METADATA && 0 < |web| < 0x1_0000_0000_0000_0000 && b == EncodeFraming(meta, web) {
      NumOfBE(|meta|, 8);
      NumOfBE(|web|, 8);
      hide BE, Num, Pow256;
      TakeFront(BE(|meta|, 8), meta + (BE(|web|, 8) + web));
      TakeFront(meta, BE(|web|, 8) + web);
      TakeFront(BE(|web|, 8), web);
    }
  }

  // ------------------------------------------------------------------------- sites

  datatype Site = Site(reg: R.RegState, web: bytes)

  /** A site whose metadata is a verified register state with a live record, and whose record names the web part. */
  ghost predicate SiteOk(c: Crypto, p: Params, s: Site) {
    && R.Valid(c, p, s.reg)
    && s.reg.record.Some?
    && !s.reg.record.value.signed.terminal
    && s.reg.record.value.value == c.hash(s.web)
    && s.web != []
  }

  function EncodeSite(a: Authority, s: Site): bytes {
    EncodeFraming(R.Encode(a, s.reg), s.web)
  }

  function Parse(c: Crypto, p: Params, b: bytes): (r: Option<Site>)
    ensures r.Some? ==> r.value.reg.record.Some?
  {
    if b == [] || |b| > MAX_SITE then None else
    var (meta, web) :- Framing(b);
    var reg :- R.Parse(c, p, meta);
    var rec :- reg.record;
    if !rec.signed.terminal && rec.value == c.hash(web) then Some(Site(reg, web)) else None
  }

  predicate AcceptedParams(p: Params) {
    WorstMetadata(p.authority) <= MAX_METADATA
  }

  /** Under accepted parameters the metadata limit never refuses a site: what is read is exactly the encodings of
      valid sites within the one size bound. */
  lemma ParseExact(c: Crypto, p: Params, b: bytes, s: Site)
    requires AcceptedParams(p)
    ensures Parse(c, p, b) == Some(s) <==> SiteOk(c, p, s) && b == EncodeSite(p.authority, s) && |b| <= MAX_SITE
  {
    hide R.Parse, R.Encode, R.StateOk, R.VerifyState, R.SignedLen, WorstMetadata;
    var meta := R.Encode(p.authority, s.reg);
    if Parse(c, p, b) == Some(s) {
      var m := Framing(b).value.0;
      FramingExact(b, m, s.web);
      R.ParseExact(c, p, m, s.reg);
    }
    if SiteOk(c, p, s) && b == EncodeSite(p.authority, s) && |b| <= MAX_SITE {
      MetadataSize(c, p.authority, s.reg);
      SiteSize(p.authority, s);
      FramingExact(b, meta, s.web);
      R.ParseExact(c, p, meta, s.reg);
    }
  }

  lemma SiteSize(a: Authority, s: Site)
    ensures |EncodeSite(a, s)| == 16 + |R.Encode(a, s.reg)| + |s.web|
  {
  }

  // ------------------------------------------------------------------------- merge

  /** The metadata are joined as Registers; the web comes from the site whose record won. */
  function MergeSites(held: Site, other: Site): Site
    requires held.reg.record.Some? && other.reg.record.Some?
  {
    var reg := Update(held.reg, other.reg);
    Site(reg, if reg.record.value.value == held.reg.record.value.value then held.web else other.web)
  }

  /** Merging keeps validity: the record that wins covers the web that is kept. */
  lemma MergeOk(c: Crypto, p: Params, held: Site, other: Site)
    requires SiteOk(c, p, held) && SiteOk(c, p, other)
    ensures SiteOk(c, p, MergeSites(held, other))
    ensures MergeSites(held, other).web == held.web || MergeSites(held, other).web == other.web
  {
    UpdateValid(c, p, held.reg, other.reg);
    UpdateDecision(held.reg, other.reg);
    hide R.Valid, Update, Outranks;
  }

  /** The web part a merge of these two will carry: the other's only if its decision is higher and names another web. */
  function WinningWeb(held: Site, other: Site): bytes
    requires held.reg.record.Some? && other.reg.record.Some?
  {
    var h, o := held.reg.record.value, other.reg.record.value;
    if Outranks(DecisionOf(o.signed), DecisionOf(h.signed)) && o.value != h.value then other.web else held.web
  }

  /** Will the merge carry evidence: is there any on either side, or do the two decisions conflict? */
  predicate ProofAhead(held: Site, other: Site)
    requires held.reg.record.Some? && other.reg.record.Some?
  {
    || held.reg.evidence.Some?
    || other.reg.evidence.Some?
    || Conflicts(DecisionOf(held.reg.record.value.signed), DecisionOf(other.reg.record.value.signed))
  }

  /** What a caller can work out before merging: the winner's web, and the metadata with or without evidence, fit. */
  predicate MergeFits(a: Authority, held: Site, other: Site)
    requires held.reg.record.Some? && other.reg.record.Some?
  {
    16 + WorstMetadata(a) - (if ProofAhead(held, other) then 0 else 2 * R.SignedLen(a)) + |WinningWeb(held, other)| <= MAX_SITE
  }

  lemma MergeParts(held: Site, other: Site)
    requires held.reg.record.Some? && other.reg.record.Some?
    ensures MergeSites(held, other).web == WinningWeb(held, other)
    ensures MergeSites(held, other).reg.evidence.Some? <==> ProofAhead(held, other)
  {
    PairKeySymmetric(DecisionOf(held.reg.record.value.signed), DecisionOf(other.reg.record.value.signed));
    hide Outranks, KeyLess, KeyOf, PairKey;
  }

  /** EXACTLY when the merge of two sites reads back: when the winner's web leaves room for the metadata, which evidence
      of a fork on either side or between the two lengthens by two signed decisions. */
  lemma MergeReadsBack(c: Crypto, p: Params, held: Site, other: Site)
    requires AcceptedParams(p) && SiteOk(c, p, held) && SiteOk(c, p, other)
    ensures var m := MergeSites(held, other);
            Parse(c, p, EncodeSite(p.authority, m)) == (if MergeFits(p.authority, held, other) then Some(m) else None)
  {
    var m := MergeSites(held, other);
    var b := EncodeSite(p.authority, m);
    MergeOk(c, p, held, other);
    MergeParts(held, other);
    MetadataSize(c, p.authority, m.reg);
    SiteSize(p.authority, m);
    assert |b| > MAX_SITE ==> Parse(c, p, b).None?;
    hide MergeSites, SiteOk, EncodeSite, Parse, R.SignedLen, WorstMetadata, WinningWeb, ProofAhead;
    ParseExact(c, p, b, m);
  }

  /** Web parts that leave the full metadata limit free. */
  predicate RoomForProof(s: Site) {
    |s.web| <= 16776176  // MAX_SITE - 16 - MAX_METADATA
  }

  /** Such sites can be merged for ever. */
  lemma SmallMergeReadsBack(c: Crypto, p: Params, held: Site, other: Site)
    requires AcceptedParams(p) && SiteOk(c, p, held) && SiteOk(c, p, other) && RoomForProof(held) && RoomForProof(other)
    ensures var m := MergeSites(held, other);
            Parse(c, p, EncodeSite(p.authority, m)) == Some(m) && RoomForProof(m)
  {
    MergeOk(c, p, held, other);
    MergeReadsBack(c, p, held, other);
    hide MergeSites, SiteOk, EncodeSite, Parse, R.SignedLen;
  }

  // -------------------------------------------------------------------------- laws

  /** What a reader of a site sees: the signed decision and the web part. */
  datatype Face = Face(decision: Decision, web: bytes)

  function FaceOf(s: Site): Face
    requires s.reg.record.Some?
  {
    Face(DecisionOf(s.reg.record.value.signed), s.web)
  }

  /** No two web parts in play hash alike, once or twice over: a decision signs the hash of a web part's hash. */
  ghost predicate NoWebCollision(c: Crypto, webs: set<bytes>) {
    forall x, y :: x in webs && y in webs && c.hash(c.hash(x)) == c.hash(c.hash(y)) ==> x == y
  }

  function MaxFace(x: Face, y: Face): Face {
    if Outranks(y.decision, x.decision) then y else x
  }

  /** A merge shows the face of the higher decision. */
  lemma MergeFace(c: Crypto, p: Params, held: Site, other: Site)
    requires SiteOk(c, p, held) && SiteOk(c, p, other) && NoWebCollision(c, {held.web, other.web})
    ensures FaceOf(MergeSites(held, other)) == MaxFace(FaceOf(held), FaceOf(other))
  {
    UpdateDecision(held.reg, other.reg);
    hide Update, Outranks;
  }

  /** Equal decisions show equal faces. */
  lemma FaceByDecision(c: Crypto, p: Params, x: Site, y: Site)
    requires SiteOk(c, p, x) && SiteOk(c, p, y) && NoWebCollision(c, {x.web, y.web})
    requires FaceOf(x).decision == FaceOf(y).decision
    ensures FaceOf(x) == FaceOf(y)
  {
  }

  lemma MaxFaceLaws(x: Face, y: Face, z: Face)
    requires x.decision == y.decision ==> x == y
    ensures MaxFace(x, y) == MaxFace(y, x)
    ensures MaxFace(MaxFace(x, y), z) == MaxFace(x, MaxFace(y, z))
  {
    hide Outranks;
    OutranksTotal(x.decision, y.decision);
    OutranksTotal(y.decision, z.decision);
    OutranksTotal(x.decision, z.decision);
    if Outranks(z.decision, y.decision) && Outranks(y.decision, x.decision) {
      OutranksTransitive(z.decision, y.decision, x.decision);
    }
    if Outranks(x.decision, y.decision) && Outranks(y.decision, z.decision) {
      OutranksTransitive(x.decision, y.decision, z.decision);
    }
  }

  /** On what a reader sees, the merge is a semilattice. */
  lemma MergeLaws(c: Crypto, p: Params, x: Site, y: Site, z: Site)
    requires SiteOk(c, p, x) && SiteOk(c, p, y) && SiteOk(c, p, z) && NoWebCollision(c, {x.web, y.web, z.web})
    ensures FaceOf(MergeSites(x, y)) == FaceOf(MergeSites(y, x))
    ensures SiteOk(c, p, MergeSites(x, y)) && SiteOk(c, p, MergeSites(y, z))
    ensures FaceOf(MergeSites(MergeSites(x, y), z)) == FaceOf(MergeSites(x, MergeSites(y, z)))
    ensures MergeSites(x, x) == x
  {
    hide R.Valid, MergeSites, Outranks;
    MergeOk(c, p, x, y);
    MergeOk(c, p, y, z);
    MergeFace(c, p, x, y);
    MergeFace(c, p, y, x);
    MergeFace(c, p, y, z);
    MergeFace(c, p, MergeSites(x, y), z);
    MergeFace(c, p, x, MergeSites(y, z));
    if FaceOf(x).decision == FaceOf(y).decision { FaceByDecision(c, p, x, y); }
    MaxFaceLaws(FaceOf(x), FaceOf(y), FaceOf(z));
    MergeSelf(x);
  }

  lemma MergeSelf(x: Site)
    requires x.reg.record.Some?
    ensures MergeSites(x, x) == x
  {
    JoinLaws(x.reg, x.reg, x.reg);
  }

  // ----------------------------------------------------------------------- the trap

  /** A fork of a site near the size bound is not storable: the higher version reads back, and the merge of the two does
      not, exactly when its web leaves room for a record but not for its proof. */
  lemma ForkOfFullSite(c: Crypto, p: Params, x: Site, y: Site)
    requires AcceptedParams(p) && SiteOk(c, p, x) && SiteOk(c, p, y)
    requires x.reg.evidence.None? && y.reg.evidence.None?
    requires Conflicts(FaceOf(x).decision, FaceOf(y).decision) && Outranks(FaceOf(x).decision, FaceOf(y).decision)
    ensures Parse(c, p, EncodeSite(p.authority, x)) == Some(x)
            && Parse(c, p, EncodeSite(p.authority, MergeSites(x, y))).None? <==>
            MAX_SITE - 16 - WorstMetadata(p.authority) < |x.web|
              <= MAX_SITE - 16 - WorstMetadata(p.authority) + 2 * R.SignedLen(p.authority)
  {
    OutranksTotal(FaceOf(x).decision, FaceOf(y).decision);
    MergeReadsBack(c, p, x, y);
    MetadataSize(c, p.authority, x.reg);
    SiteSize(p.authority, x);
    hide MergeSites, SiteOk, EncodeSite, R.SignedLen, WorstMetadata, R.Encode;
    assert |EncodeSite(p.authority, x)| > MAX_SITE ==> Parse(c, p, EncodeSite(p.authority, x)).None?;
    ParseExact(c, p, EncodeSite(p.authority, x), x);
  }

  // A concrete fork of a site that fills the bound to the byte.

  const APP_LABEL: bytes := LABEL_PREFIX + [97]  // "site:a"

  /** `MAX_SITE - 16 - 112` bytes, ending in `n`: with one key a record without evidence is 112 bytes of metadata. */
  function FullWeb(n: byte): bytes {
    Zeros(16777087) + [n]
  }

  function SmallWeb(n: byte): bytes {
    [n]
  }

  /** A valid version `sq` of the site whose web is `web`, a byte string that ends in `n`. */
  function SampleSite(sq: u64, n: byte, web: bytes): Site {
    Site(R.RegState(Some(R.Record(SampleSigned(false, sq, n), HashOf(n))), None), web)
  }

  lemma SampleSiteOk(sq: u64, n: byte, web: bytes)
    requires web != [] && web[|web| - 1] == n
    ensures SiteOk(SampleCrypto(), SampleParams(APP_LABEL), SampleSite(sq, n, web))
  {
    assert SampleCrypto().hash(web) == HashOf(n);
    assert HashOf(n)[31] == n && |HashOf(n)| == 32;
    assert SampleCrypto().hash(HashOf(n)) == HashOf(n);
    hide Message, Zeros, EncodeParams, SampleCrypto;
    assert R.RecordOk(SampleCrypto(), One(Zeros(32)), R.Record(SampleSigned(false, sq, n), HashOf(n)));
    assert forall k: Bytes32, m: bytes, x: Bytes64 :: SampleCrypto().verifies(k, m, x) by { AlwaysVerifies(); }
  }

  lemma AlwaysVerifies()
    ensures forall k: Bytes32, m: bytes, x: Bytes64 :: SampleCrypto().verifies(k, m, x)
  {
  }

  lemma SampleParamsAccepted()
    ensures var p := SampleParams(APP_LABEL);
            && ParseSiteParams(SampleCrypto(), EncodeParams(p)) == Some(p) && AcceptedParams(p)
            && WorstMetadata(p.authority) == 322 && R.SignedLen(p.authority) == 105
  {
    var p := SampleParams(APP_LABEL);
    SampleParamsOk(APP_LABEL);
    var id: bytes := [97];
    assert AppIdOk(id) && p.tag == LABEL_PREFIX + id;
    SiteParamsExact(SampleCrypto(), EncodeParams(p), p);
  }

  /** Two devices publish version 1 of one site at the size bound. Each version reads back; their merge does not. */
  lemma FullSitesFork()
    ensures var c, p := SampleCrypto(), SampleParams(APP_LABEL);
            var x, y := SampleSite(1, 1, FullWeb(1)), SampleSite(1, 2, FullWeb(2));
            && ParseSiteParams(c, EncodeParams(p)) == Some(p)
            && Parse(c, p, EncodeSite(p.authority, x)) == Some(x)
            && Parse(c, p, EncodeSite(p.authority, y)) == Some(y)
            && Parse(c, p, EncodeSite(p.authority, MergeSites(x, y))) == None
  {
    var c, p := SampleCrypto(), SampleParams(APP_LABEL);
    var x, y := SampleSite(1, 1, FullWeb(1)), SampleSite(1, 2, FullWeb(2));
    SampleParamsAccepted();
    SampleSiteOk(1, 1, FullWeb(1));
    SampleSiteOk(1, 2, FullWeb(2));
    HashesDiffer();
    LexTotal(HashOf(1), HashOf(2));
    MetadataSize(c, p.authority, x.reg);
    MetadataSize(c, p.authority, y.reg);
    assert |x.web| == 16777088 && |y.web| == 16777088;
    assert x.reg.evidence.None? && y.reg.evidence.None?;
    assert Conflicts(FaceOf(x).decision, FaceOf(y).decision) && Outranks(FaceOf(x).decision, FaceOf(y).decision);
    hide SampleCrypto, SampleParams, SampleSite, FullWeb, SiteOk, Parse, MergeSites, WorstMetadata, R.Encode, HashOf;
    SiteSize(p.authority, x);
    SiteSize(p.authority, y);
    ForkOfFullSite(c, p, x, y);
    ParseExact(c, p, EncodeSite(p.authority, y), y);
  }
}
