/** What a Bag's pointers prove, and the collisions its theorems exclude, traced to the bytes that are hashed
    (bag/src/wire.rs). */
module BagPreimages {
  import opened Options
  import opened Bytes
  import opened ByteOrder
  import opened Crypto
  import opened BagWire
  import opened BagMerge
  import TopK

  /** What a pointer's name hashes. */
  function NamePreimage(c: Crypto, p: Params, q: Pointer): bytes {
    NAME_DOMAIN + (ParamsHash(c, p) + (LE(|q.payload|, 2) + (q.payload + q.nonce)))
  }

  lemma NamePreimageInjective(c: Crypto, p: Params, q: Pointer, r: Pointer)
    requires NamePreimage(c, p, q) == NamePreimage(c, p, r)
    ensures q == r
  {
    var x, y := NamePreimage(c, p, q), NamePreimage(c, p, r);
    hide LE, ParamsHash;
    assert |x| == 50 + |q.payload| && |y| == 50 + |r.payload|;
    assert x[42..][..|q.payload|] == q.payload && y[42..][..|r.payload|] == r.payload;
    assert x[42 + |q.payload|..] == q.nonce && y[42 + |r.payload|..] == r.nonce;
  }

  ghost function NamePreimages(c: Crypto, p: Params, hs: set<Held>): set<bytes> {
    set h | h in hs :: NamePreimage(c, p, h.ptr)
  }

  /** Unless the hash collides on them, two pointers of one name are one pointer. */
  lemma NamesNameOnePointer(c: Crypto, p: Params, hs: set<Held>)
    requires forall h :: h in hs ==> HeldOk(c, p, h)
    requires HashInjective(c, NamePreimages(c, p, hs))
    ensures NoCollision(hs)
  {
    forall h, g | h in hs && g in hs && h.name == g.name ensures h == g {
      NameFromPreimage(c, p, h);
      NameFromPreimage(c, p, g);
      hide NamePreimage, HeldOf;
      assert NamePreimage(c, p, h.ptr) in NamePreimages(c, p, hs) && NamePreimage(c, p, g.ptr) in NamePreimages(c, p, hs);
      NamePreimageInjective(c, p, h.ptr, g.ptr);
    }
  }

  lemma NameFromPreimage(c: Crypto, p: Params, h: Held)
    requires HeldOk(c, p, h)
    ensures h.name == c.hash(NamePreimage(c, p, h.ptr)) && h == HeldOf(c, p, h.ptr)
  {
    hide LE, ParamsHash;
  }

  /** The pointers whose names are lower: those with more work, and of equal work the lower name. */
  ghost function Lower(hs: set<Held>, h: Held): set<Held> {
    set g | g in hs && Num(g.name) < Num(h.name)
  }

  /** A run holds a pointer EXACTLY when it was offered and fewer than M offered ones are lower, unless the hash collides
      on what was offered. */
  lemma RunKeepsBest(c: Crypto, p: Params, run: Run, h: Held)
    requires LeavesValid(c, p, run) && HashInjective(c, NamePreimages(c, p, Offered(run)))
    ensures h in Eval(run, p.m) <==> h in Offered(run) && |Lower(Offered(run), h)| < p.m
  {
    hide LeavesValid, NamePreimages, NoCollision, HeldOk, Valid, Num;
    OfferedOk(c, p, run);
    NamesNameOnePointer(c, p, Offered(run));
    RunKeepsTop(c, p, run);
    assert Lower(Offered(run), h) == TopK.Below(Offered(run), ByName(), h);
    assert h in Eval(run, p.m) <==> h in Pointers(Eval(run, p.m));
  }

  lemma {:induction false} OfferedOk(c: Crypto, p: Params, run: Run)
    requires LeavesValid(c, p, run)
    ensures forall h :: h in Offered(run) ==> HeldOk(c, p, h)
    decreases run
  {
    hide HeldOk;
    match run
    case Leaf(s) =>
    case Merge(l, r) =>
      OfferedOk(c, p, l);
      OfferedOk(c, p, r);
  }

  // -------------------------------------------------------------- what a pointer proves

  /** A pointer within the cap, whose name is the hash of what it says and worth its price. */
  predicate PointerProper(c: Crypto, p: Params, h: Held) {
    && |h.ptr.payload| <= p.payloadCap
    && h.name == c.hash(Ascii("BG01-ptr") + (c.hash(EncodeParams(p))
                          + (LE(|h.ptr.payload|, 2) + (h.ptr.payload + h.ptr.nonce))))
    && h.work == LeadingZeros(h.name) >= p.workBits
  }

  lemma PointerExact(c: Crypto, p: Params, h: Held)
    ensures HeldOk(c, p, h) <==> PointerProper(c, p, h)
  {
    hide LE, LeadingZeros, EncodeParams;
    assert NAME_DOMAIN == Ascii("BG01-ptr");
  }

  /** At most `m` proper pointers, by rising name. */
  predicate Accepted(c: Crypto, p: Params, s: BagState) {
    && |s| <= p.m
    && (forall i, j :: 0 <= i < j < |s| ==> Num(s[i].name) < Num(s[j].name))
    && (forall h :: h in s ==> PointerProper(c, p, h))
  }

  /** EXACTLY what full validation accepts, in plain terms. */
  lemma ValidationExact(c: Crypto, p: Params, b: bytes, s: BagState)
    requires ParamsOk(p)
    ensures Parse(c, p, b) == Some(s) <==> Accepted(c, p, s) && b == Encode(s)
  {
    hide Parse, Encode, Num, HeldOk, PointerProper;
    ParseExact(c, p, b, s);
    forall h: Held ensures HeldOk(c, p, h) <==> PointerProper(c, p, h) { PointerExact(c, p, h); }
  }

  /** And whatever a host is sent, what it holds afterwards is accepted too. */
  lemma HostAccepted(c: Crypto, p: Params, held: BagState, cands: seq<bytes>)
    requires ParamsOk(p) && Accepted(c, p, held)
    ensures Accepted(c, p, AbsorbAll(c, p, held, cands))
  {
    ParseExact(c, p, Encode(held), held);
    ValidationExact(c, p, Encode(held), held);
    hide Accepted, Valid, Parse, AbsorbAll;
    UpdateCloses(c, p, held, cands);
    var r := AbsorbAll(c, p, held, cands);
    ValidationExact(c, p, Encode(r), r);
  }
}
