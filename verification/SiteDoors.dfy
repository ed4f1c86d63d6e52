/** The site's update door: the node's bytes decoded, and the fold of merges over what they carry
    (site/src/doors.rs). */
module SiteDoors {
  import opened Options
  import opened Bytes
  import opened Crypto
  import opened Lists
  import opened Sample
  import opened RegisterWire
  import R = RegisterCodec
  import opened RegisterMerge
  import opened Site

  // -------------------------------------------------------------- the update data

  function ReadBytes(b: bytes): Option<(bytes, bytes)> {
    var (n, r1) :- ReadU64(b);
    Take(r1, n)
  }

  /** One item: the candidate states it offers, in order. Another contract's state is skipped. */
  function ReadItem(b: bytes): Option<(seq<bytes>, bytes)> {
    var (tag, r1) :- ReadU32(b);
    if tag <= 1 then
      var (x, r2) :- ReadBytes(r1);
      Some(([x], r2))
    else if tag == 2 then
      var (x, r2) :- ReadBytes(r1);
      var (y, r3) :- ReadBytes(r2);
      Some(([x, y], r3))
    else if tag <= 4 then
      var (_, r2) :- Take(r1, 32);
      var (_, r3) :- ReadBytes(r2);
      Some(([], r3))
    else if tag == 5 then
      var (_, r2) :- Take(r1, 32);
      var (_, r3) :- ReadBytes(r2);
      var (_, r4) :- ReadBytes(r3);
      Some(([], r4))
    else None
  }

  function ReadItems(b: bytes, n: nat): Option<(seq<bytes>, bytes)>
    decreases n
  {
    if n == 0 then Some(([], b)) else
    var (xs, r1) :- ReadItem(b);
    var (ys, r2) :- ReadItems(r1, n - 1);
    Some((xs + ys, r2))
  }

  /** Whatever follows the last item is ignored. */
  function Decode(b: bytes): Option<seq<bytes>> {
    var (n, r1) :- ReadU64(b);
    var (xs, _) :- ReadItems(r1, n);
    Some(xs)
  }

  /** What the node sends. */
  datatype UpdateData =
    | State(state: bytes)
    | Delta(delta: bytes)
    | StateAndDelta(state: bytes, delta: bytes)
    | RelatedState(related: Bytes32, state: bytes)
    | RelatedDelta(related: Bytes32, delta: bytes)
    | RelatedStateAndDelta(related: Bytes32, state: bytes, delta: bytes)

  function PutBytes(x: bytes, rest: bytes): bytes {
    LE(|x|, 8) + (x + rest)
  }

  function PutItem(d: UpdateData, rest: bytes): bytes {
    match d
    case State(s) => LE(0, 4) + PutBytes(s, rest)
    case Delta(x) => LE(1, 4) + PutBytes(x, rest)
    case StateAndDelta(s, x) => LE(2, 4) + PutBytes(s, PutBytes(x, rest))
    case RelatedState(id, s) => LE(3, 4) + (id + PutBytes(s, rest))
    case RelatedDelta(id, x) => LE(4, 4) + (id + PutBytes(x, rest))
    case RelatedStateAndDelta(id, s, x) => LE(5, 4) + (id + PutBytes(s, PutBytes(x, rest)))
  }

  function PutItems(data: seq<UpdateData>, rest: bytes): bytes
    decreases |data|
  {
    if data == [] then rest else PutItem(data[0], PutItems(data[1..], rest))
  }

  function OffersOf(d: UpdateData): seq<bytes> {
    match d
    case State(s) => [s]
    case Delta(x) => [x]
    case StateAndDelta(s, x) => [s, x]
    case RelatedState(_, _) | RelatedDelta(_, _) | RelatedStateAndDelta(_, _, _) => []
  }

  function AllOffers(data: seq<UpdateData>): seq<bytes>
    decreases |data|
  {
    if data == [] then [] else OffersOf(data[0]) + AllOffers(data[1..])
  }

  predicate Short(x: bytes) {
    |x| < 0x1_0000_0000_0000_0000
  }

  predicate ItemFits(d: UpdateData) {
    match d
    case State(s) => Short(s)
    case Delta(x) => Short(x)
    case StateAndDelta(s, x) => Short(s) && Short(x)
    case RelatedState(_, s) => Short(s)
    case RelatedDelta(_, x) => Short(x)
    case RelatedStateAndDelta(_, s, x) => Short(s) && Short(x)
  }

  lemma ReadBytesFront(x: bytes, rest: bytes)
    requires Short(x)
    ensures ReadBytes(PutBytes(x, rest)) == Some((x, rest))
  {
    ReadU64Front(|x|, x + rest);
    TakeFront(x, rest);
  }

  lemma ReadItemFront(d: UpdateData, rest: bytes)
    requires ItemFits(d)
    ensures ReadItem(PutItem(d, rest)) == Some((OffersOf(d), rest))
  {
    hide LE, ReadU32, ReadBytes, PutBytes, Short;
    match d
    case State(s) =>
      ReadU32Front(0, PutBytes(s, rest));
      ReadBytesFront(s, rest);
    case Delta(x) =>
      ReadU32Front(1, PutBytes(x, rest));
      ReadBytesFront(x, rest);
    case StateAndDelta(s, x) =>
      ReadU32Front(2, PutBytes(s, PutBytes(x, rest)));
      ReadBytesFront(s, PutBytes(x, rest));
      ReadBytesFront(x, rest);
    case RelatedState(id, s) =>
      ReadU32Front(3, id + PutBytes(s, rest));
      TakeFront(id, PutBytes(s, rest));
      ReadBytesFront(s, rest);
    case RelatedDelta(id, x) =>
      ReadU32Front(4, id + PutBytes(x, rest));
      TakeFront(id, PutBytes(x, rest));
      ReadBytesFront(x, rest);
    case RelatedStateAndDelta(id, s, x) =>
      ReadU32Front(5, id + PutBytes(s, PutBytes(x, rest)));
      TakeFront(id, PutBytes(s, PutBytes(x, rest)));
      ReadBytesFront(s, PutBytes(x, rest));
      ReadBytesFront(x, rest);
  }

  lemma {:induction false} ReadItemsFront(data: seq<UpdateData>, rest: bytes)
    requires forall d :: d in data ==> ItemFits(d)
    ensures ReadItems(PutItems(data, rest), |data|) == Some((AllOffers(data), rest))
    decreases |data|
  {
    hide ReadItem, PutItem, OffersOf, ItemFits;
    if data != [] {
      assert data[0] in data;
      ReadItemsFront(data[1..], rest);
      ReadItemFront(data[0], PutItems(data[1..], rest));
    }
  }

  /** Whatever the node encodes, with anything after it, is decoded as the candidates it offers, in order. */
  lemma DecodeReadsBack(data: seq<UpdateData>, trailing: bytes)
    requires |data| < 0x1_0000_0000_0000_0000 && forall d :: d in data ==> ItemFits(d)
    ensures Decode(LE(|data|, 8) + PutItems(data, trailing)) == Some(AllOffers(data))
  {
    ReadU64Front(|data|, PutItems(data, trailing));
    ReadItemsFront(data, trailing);
  }

  lemma ItemCost(b: bytes)
    requires ReadItem(b).Some?
    ensures |ReadItem(b).value.1| + 4 <= |b|
    ensures |ReadItem(b).value.0| <= 2
  {
    hide LE;
  }

  /** An item takes four bytes or more, so a count larger than the data can hold never decodes. */
  lemma {:induction false} ItemsCost(b: bytes, n: nat)
    requires ReadItems(b, n).Some?
    ensures 4 * n <= |b| && |ReadItems(b, n).value.0| <= 2 * n
    decreases n
  {
    hide ReadItem;
    if n > 0 {
      ItemCost(b);
      ItemsCost(ReadItem(b).value.1, n - 1);
    }
  }

  // --------------------------------------------------------------------- the reader

  /** What is left to decode; a read that needs more than that fails. */
  class Reader {
    var rest: bytes

    constructor (b: bytes)
      ensures rest == b
    {
      rest := b;
    }

    method Advance(n: nat) returns (r: Option<bytes>)
      modifies this
      ensures Take(old(rest), n) == if r.Some? then Some((r.value, rest)) else None
      ensures r.None? ==> rest == old(rest)
    {
      if n > |rest| { return None; }
      r := Some(rest[..n]);
      rest := rest[n..];
    }

    method U32() returns (r: Option<u32>)
      modifies this
      ensures ReadU32(old(rest)) == if r.Some? then Some((r.value, rest)) else None
    {
      var whole := ReadU32(rest);
      var h := Advance(4);
      r := if h.Some? then Some(whole.value.0) else None;
    }

    method U64() returns (r: Option<u64>)
      modifies this
      ensures ReadU64(old(rest)) == if r.Some? then Some((r.value, rest)) else None
    {
      var whole := ReadU64(rest);
      var h := Advance(8);
      r := if h.Some? then Some(whole.value.0) else None;
    }

    /** A length, then that many bytes. */
    method LengthPrefixed() returns (r: Option<bytes>)
      modifies this
      ensures ReadBytes(old(rest)) == if r.Some? then Some((r.value, rest)) else None
    {
      var n := U64();
      if n.None? { return None; }
      r := Advance(n.value);
    }

    method Item() returns (r: Option<seq<bytes>>)
      modifies this
      ensures ReadItem(old(rest)) == if r.Some? then Some((r.value, rest)) else None
    {
      hide ReadU32, ReadBytes, Take;
      var tag := U32();
      if tag.None? || tag.value > 5 { return None; }
      if tag.value >= 3 {
        var id := Advance(32);
        if id.None? { return None; }
      }
      var x := LengthPrefixed();
      if x.None? { return None; }
      if tag.value <= 1 { return Some([x.value]); }
      if tag.value == 3 || tag.value == 4 { return Some([]); }
      var y := LengthPrefixed();
      if y.None? { return None; }
      return Some(if tag.value == 2 then [x.value, y.value] else []);
    }
  }

  method Candidates(updates: bytes) returns (r: Option<seq<bytes>>)
    ensures r == Decode(updates)
  {
    hide ReadItem, ReadU64;
    var reader := new Reader(updates);
    var n := reader.U64();
    if n.None? { return None; }
    ghost var whole := ReadItems(reader.rest, n.value);
    AfterNothing(whole);
    var out: seq<bytes> := [];
    var i := 0;
    while i < n.value
      invariant 0 <= i <= n.value
      invariant whole == After(out, ReadItems(reader.rest, n.value - i))
    {
      ghost var before := reader.rest;
      var item := reader.Item();
      if item.None? { return None; }
      AfterMore(out, item.value, ReadItems(reader.rest, n.value - i - 1));
      assert ReadItems(before, n.value - i) == After(item.value, ReadItems(reader.rest, n.value - i - 1));
      out := out + item.value;
      i := i + 1;
    }
    assert out + [] == out;
    return Some(out);
  }

  // ----------------------------------------------------------------------- the fold

  /** One candidate: ignored unless valid; merged into a valid held state; adopted when there is none. */
  function Step(c: Crypto, p: Params, cur: bytes, cand: bytes): bytes {
    var x := Parse(c, p, cand);
    if x.None? then cur
    else
      var h := Parse(c, p, cur);
      if h.Some? then EncodeSite(p.authority, MergeSites(h.value, x.value)) else cand
  }

  function Fold(c: Crypto, p: Params, cur: bytes, cands: seq<bytes>): bytes
    decreases |cands|
  {
    if cands == [] then cur else Fold(c, p, Step(c, p, cur, cands[0]), cands[1..])
  }

  datatype Answer = NewState(state: bytes) | DecodeError

  /** Undecodable data is answered with an error before anything is looked at; refused parameters leave what is held. */
  method Update(c: Crypto, params: bytes, held: bytes, updates: bytes) returns (r: Answer)
    ensures r == if Decode(updates).None? then DecodeError
                 else if ParseSiteParams(c, params).None? then NewState(held)
                 else NewState(Fold(c, ParseSiteParams(c, params).value, held, Decode(updates).value))
  {
    hide Parse, ParseSiteParams, Decode, EncodeSite, MergeSites;
    var cands := Candidates(updates);
    if cands.None? { return DecodeError; }
    var p := ParseSiteParams(c, params);
    if p.None? { return NewState(held); }
    var cur := held;
    var i := 0;
    while i < |cands.value|
      invariant 0 <= i <= |cands.value|
      invariant Fold(c, p.value, cur, cands.value[i..]) == Fold(c, p.value, held, cands.value)
    {
      assert cands.value[i..][1..] == cands.value[i + 1..];
      var cand := Parse(c, p.value, cands.value[i]);
      if cand.Some? {
        var h := Parse(c, p.value, cur);
        cur := if h.Some? then EncodeSite(p.value.authority, MergeSites(h.value, cand.value)) else cands.value[i];
      }
      i := i + 1;
    }
    return NewState(cur);
  }

  // --------------------------------------------------------------------- whole folds

  /** These bytes are a valid site, showing this face. */
  ghost predicate Shows(c: Crypto, p: Params, b: bytes, f: Face) {
    Parse(c, p, b).Some? && FaceOf(Parse(c, p, b).value) == f
  }

  /** If these bytes are a site at all, its web part is in play and leaves room for evidence. */
  ghost predicate InPlay(c: Crypto, p: Params, webs: set<bytes>, b: bytes) {
    Parse(c, p, b).Some? ==> Parse(c, p, b).value.web in webs && RoomForProof(Parse(c, p, b).value)
  }

  /** No higher than the face `b` shows, if it shows one. */
  ghost predicate AtMost(c: Crypto, p: Params, f: Face, b: bytes) {
    Parse(c, p, b).Some? && !Outranks(f.decision, FaceOf(Parse(c, p, b).value).decision)
  }

  lemma StepShows(c: Crypto, p: Params, webs: set<bytes>, cur: bytes, b: bytes)
    requires AcceptedParams(p) && NoWebCollision(c, webs) && InPlay(c, p, webs, cur) && InPlay(c, p, webs, b)
    ensures var next := Step(c, p, cur, b);
            && InPlay(c, p, webs, next)
            && (next == cur || Parse(c, p, next).Some?)
            && (forall f :: Shows(c, p, next, f) ==> Shows(c, p, cur, f) || Shows(c, p, b, f))
            && (forall f :: Shows(c, p, cur, f) || Shows(c, p, b, f) ==> AtMost(c, p, f, next))
  {
    hide Parse, EncodeSite, MergeSites, SiteOk, RoomForProof, FaceOf, Outranks, WorstMetadata;
    var h, x := Parse(c, p, cur), Parse(c, p, b);
    if h.Some? { OutranksTotal(FaceOf(h.value).decision, FaceOf(h.value).decision); }
    if x.Some? {
      OutranksTotal(FaceOf(x.value).decision, FaceOf(x.value).decision);
      if h.Some? {
        OutranksTotal(FaceOf(h.value).decision, FaceOf(x.value).decision);
        ParseExact(c, p, cur, h.value);
        ParseExact(c, p, b, x.value);
        SmallMergeReadsBack(c, p, h.value, x.value);
        MergeOk(c, p, h.value, x.value);
        MergeFace(c, p, h.value, x.value);
      }
    }
  }

  /** A fold of merges over web parts that leave room for evidence: the held site stays readable, and it shows the
      highest decision of all the valid states that went in, with the web part that came with it. */
  lemma {:induction false} FoldShowsBest(c: Crypto, p: Params, webs: set<bytes>, cur: bytes, cands: seq<bytes>)
    requires AcceptedParams(p) && NoWebCollision(c, webs) && InPlay(c, p, webs, cur)
    requires forall b :: b in cands ==> InPlay(c, p, webs, b)
    ensures var r := Fold(c, p, cur, cands);
            && InPlay(c, p, webs, r)
            && (r == cur || Parse(c, p, r).Some?)
            && (forall f :: Shows(c, p, r, f) ==> Shows(c, p, cur, f) || exists b :: b in cands && Shows(c, p, b, f))
            && (forall f :: Shows(c, p, cur, f) ==> AtMost(c, p, f, r))
            && (forall b, f :: b in cands && Shows(c, p, b, f) ==> AtMost(c, p, f, r))
    decreases |cands|
  {
    hide Parse, Step, InPlay, NoWebCollision, WorstMetadata, Outranks, FaceOf;
    if cands == [] {
      forall f | Shows(c, p, cur, f) ensures AtMost(c, p, f, cur) { OutranksTotal(f.decision, f.decision); }
    } else {
      var b := cands[0];
      var next := Step(c, p, cur, b);
      assert b in cands && cands == [b] + cands[1..];
      StepShows(c, p, webs, cur, b);
      FoldShowsBest(c, p, webs, next, cands[1..]);
      var r := Fold(c, p, next, cands[1..]);
      forall f | Shows(c, p, cur, f) || Shows(c, p, b, f) ensures AtMost(c, p, f, r) { AtMostTransitive(c, p, f, next, r); }
    }
  }

  lemma AtMostTransitive(c: Crypto, p: Params, f: Face, next: bytes, r: bytes)
    requires AtMost(c, p, f, next) && forall g :: Shows(c, p, next, g) ==> AtMost(c, p, g, r)
    ensures AtMost(c, p, f, r)
  {
    hide Parse, Outranks;
    var g := FaceOf(Parse(c, p, next).value);
    assert Shows(c, p, next, g);
    var e := FaceOf(Parse(c, p, r).value);
    OutranksTotal(f.decision, g.decision);
    OutranksTotal(g.decision, e.decision);
    OutranksTotal(f.decision, e.decision);
    if Outranks(e.decision, g.decision) && Outranks(g.decision, f.decision) {
      OutranksTransitive(e.decision, g.decision, f.decision);
    }
  }

  /** Whatever one order of the states shows, another order shows at least that. */
  lemma FoldReaches(c: Crypto, p: Params, webs: set<bytes>, xs: seq<bytes>, ys: seq<bytes>)
    requires AcceptedParams(p) && NoWebCollision(c, webs)
    requires (forall b :: b in xs ==> b in ys) && (forall b :: b in ys ==> InPlay(c, p, webs, b))
    ensures InPlay(c, p, webs, Fold(c, p, [], xs))
    ensures forall f :: Shows(c, p, Fold(c, p, [], xs), f) ==> AtMost(c, p, f, Fold(c, p, [], ys))
  {
    assert InPlay(c, p, webs, []);
    assert forall f :: !Shows(c, p, [], f);
    hide Fold, Shows, AtMost, InPlay, NoWebCollision, Parse;
    FoldShowsBest(c, p, webs, [], xs);
    FoldShowsBest(c, p, webs, [], ys);
  }

  /** Two states that each show at least what the other shows, show the same. */
  lemma SameFace(c: Crypto, p: Params, webs: set<bytes>, x: bytes, y: bytes)
    requires AcceptedParams(p) && NoWebCollision(c, webs) && InPlay(c, p, webs, x) && InPlay(c, p, webs, y)
    requires forall f :: Shows(c, p, x, f) ==> AtMost(c, p, f, y)
    requires forall f :: Shows(c, p, y, f) ==> AtMost(c, p, f, x)
    ensures forall f :: Shows(c, p, x, f) <==> Shows(c, p, y, f)
  {
    hide Parse, Outranks, SiteOk, FaceOf;
    var r, s := Parse(c, p, x), Parse(c, p, y);
    if r.Some? {
      assert Shows(c, p, x, FaceOf(r.value));
      ParseExact(c, p, x, r.value);
    }
    if s.Some? {
      assert Shows(c, p, y, FaceOf(s.value));
      ParseExact(c, p, y, s.value);
    }
    if r.Some? && s.Some? {
      OutranksTotal(FaceOf(r.value).decision, FaceOf(s.value).decision);
      FaceByDecision(c, p, r.value, s.value);
    }
  }

  /** Two hosts that start empty and are offered the same states, in any order, batches and repetitions, show one
      face. */
  lemma FoldsAgree(c: Crypto, p: Params, webs: set<bytes>, xs: seq<bytes>, ys: seq<bytes>)
    requires AcceptedParams(p) && NoWebCollision(c, webs)
    requires forall b :: b in xs <==> b in ys
    requires forall b :: b in xs ==> InPlay(c, p, webs, b)
    ensures forall f :: Shows(c, p, Fold(c, p, [], xs), f) <==> Shows(c, p, Fold(c, p, [], ys), f)
  {
    hide Fold, Shows, AtMost, InPlay, NoWebCollision, AcceptedParams;
    FoldReaches(c, p, webs, xs, ys);
    FoldReaches(c, p, webs, ys, xs);
    SameFace(c, p, webs, Fold(c, p, [], xs), Fold(c, p, [], ys));
  }

  /** EXACTLY when a host forgets: where the winner's web leaves no room for the metadata of the merge, what the host
      then holds does not read, and the next valid candidate, however low its version, takes its place. */
  lemma OverfullForgets(c: Crypto, p: Params, cur: bytes, b: bytes, next: bytes)
    requires AcceptedParams(p) && Parse(c, p, cur).Some? && Parse(c, p, b).Some? && Parse(c, p, next).Some?
    ensures var h, x := Parse(c, p, cur).value, Parse(c, p, b).value;
            && (Parse(c, p, Step(c, p, cur, b)).Some? <==> MergeFits(p.authority, h, x))
            && (!MergeFits(p.authority, h, x) ==> Step(c, p, Step(c, p, cur, b), next) == next)
  {
    hide MergeSites, EncodeSite, SiteOk, WorstMetadata, MergeFits;
    var h, x := Parse(c, p, cur).value, Parse(c, p, b).value;
    ParseExact(c, p, cur, h);
    ParseExact(c, p, b, x);
    MergeReadsBack(c, p, h, x);
    hide Parse;
  }

  lemma OldVersionReads()
    ensures var c, p := SampleCrypto(), SampleParams(APP_LABEL);
            var z := SampleSite(0, 3, SmallWeb(3));
            Parse(c, p, EncodeSite(p.authority, z)) == Some(z)
  {
    var c, p := SampleCrypto(), SampleParams(APP_LABEL);
    var z := SampleSite(0, 3, SmallWeb(3));
    SampleParamsAccepted();
    SampleSiteOk(0, 3, SmallWeb(3));
    MetadataSize(c, p.authority, z.reg);
    assert |z.web| == 1;
    hide SampleCrypto, SampleParams, SampleSite, SiteOk, Parse, WorstMetadata, R.Encode, R.SignedLen;
    SiteSize(p.authority, z);
    ParseExact(c, p, EncodeSite(p.authority, z), z);
  }

  lemma OlderVersion()
    ensures Outranks(FaceOf(SampleSite(1, 1, FullWeb(1))).decision, FaceOf(SampleSite(0, 3, SmallWeb(3))).decision)
  {
  }

  lemma Forgets(c: Crypto, p: Params, x: Site, y: Site, z: Site)
    requires Parse(c, p, EncodeSite(p.authority, x)) == Some(x)
    requires Parse(c, p, EncodeSite(p.authority, y)) == Some(y)
    requires Parse(c, p, EncodeSite(p.authority, z)) == Some(z)
    requires Parse(c, p, EncodeSite(p.authority, MergeSites(x, y))) == None
    ensures Fold(c, p, EncodeSite(p.authority, x), [EncodeSite(p.authority, y), EncodeSite(p.authority, z)])
         == EncodeSite(p.authority, z)
  {
    hide Parse, EncodeSite, MergeSites;
    var x1, y1, z1 := EncodeSite(p.authority, x), EncodeSite(p.authority, y), EncodeSite(p.authority, z);
    var steps: seq<bytes> := [y1, z1];
    var last: seq<bytes> := [z1];
    assert steps[1..] == last && |last[1..]| == 0;
    assert Step(c, p, x1, y1) == EncodeSite(p.authority, MergeSites(x, y));
    assert Fold(c, p, Step(c, p, x1, y1), last) == Step(c, p, Step(c, p, x1, y1), z1);
  }

  /** Concretely: a host holds version 1, is offered the other half of its fork and then version 0 - and ends with
      version 0. */
  lemma ForkIsForgotten()
    ensures var c, p := SampleCrypto(), SampleParams(APP_LABEL);
            var x := EncodeSite(p.authority, SampleSite(1, 1, FullWeb(1)));
            var y := EncodeSite(p.authority, SampleSite(1, 2, FullWeb(2)));
            var z := EncodeSite(p.authority, SampleSite(0, 3, SmallWeb(3)));
            && Parse(c, p, x).Some? && Parse(c, p, y).Some? && Parse(c, p, z).Some?
            && Fold(c, p, x, [y, z]) == z
            && Outranks(FaceOf(Parse(c, p, x).value).decision, FaceOf(Parse(c, p, z).value).decision)
  {
    var c, p := SampleCrypto(), SampleParams(APP_LABEL);
    var x := EncodeSite(p.authority, SampleSite(1, 1, FullWeb(1)));
    var y := EncodeSite(p.authority, SampleSite(1, 2, FullWeb(2)));
    var z := EncodeSite(p.authority, SampleSite(0, 3, SmallWeb(3)));
    FullSitesFork();
    OldVersionReads();
    OlderVersion();
    hide SampleCrypto, SampleParams, SampleSite, Parse, EncodeSite, MergeSites, FaceOf, Fold, Outranks;
    Forgets(c, p, SampleSite(1, 1, FullWeb(1)), SampleSite(1, 2, FullWeb(2)), SampleSite(0, 3, SmallWeb(3)));
  }
}
