/** The Bag's join and its one-round sync (bag/src/merge.rs). */
module BagMerge {
  import opened Options
  import opened Bytes
  import opened ByteOrder
  import opened Crypto
  import opened Doors
  import opened Lists
  import opened Sorting
  import opened SortedTop
  import opened TopK
  import opened BagWire

  // --------------------------------------------------------------------- the join

  /** Union, sort, one per name, keep the best `M`. */
  function Join(a: BagState, b: BagState, m: nat): BagState {
    var all := Dedup(Sort(a + b, Order), Order);
    all[..Min(m, |all|)]
  }

  /** `join` as it runs: extend, sort, dedup and truncate one list. What that achieves is the best `M` of the union, in
      order, whenever no two different pointers share a name. */
  method JoinBags(a: BagState, b: BagState, m: nat) returns (held: BagState)
    ensures held == Join(a, b, m)
    ensures |held| <= m
    ensures NoCollision(Pointers(a) + Pointers(b)) ==>
              Strict(held, Order) && Pointers(held) == Top(Pointers(a) + Pointers(b), ByName(), m)
  {
    if NoCollision(Pointers(a) + Pointers(b)) { JoinKeepsTop(a, b, m); }
    held := a;
    held := held + b;
    held := Sort(held, Order);
    held := Dedup(held, Order);
    if m < |held| { held := held[..m]; }
  }

  ghost function Pointers(s: seq<Held>): set<Held> {
    set h | h in s
  }

  ghost function ByName(): Held -> int {
    (h: Held) => Num(h.name)
  }

  /** No two different pointers in play share a name. */
  ghost predicate NoCollision(s: set<Held>) {
    forall h, g :: h in s && g in s && h.name == g.name ==> h == g
  }

  lemma NamesInjective(s: set<Held>)
    requires NoCollision(s)
    ensures Injective(s, ByName())
  {
    forall x, y | x in s && y in s && Num(x.name) == Num(y.name) ensures x == y { NumInjective(x.name, y.name); }
  }

  /** Before the cut: the union, one per name. */
  lemma UnionKeepsAll(a: BagState, b: BagState, h: Held)
    requires NoCollision(Pointers(a) + Pointers(b))
    ensures h in Dedup(Sort(a + b, Order), Order) <==> h in a + b
  {
    var all := Dedup(Sort(a + b, Order), Order);
    UniqueSorted(a + b, Order);
    FirstOfStrict(all, Order, h);
    FirstIn(a + b, Order, Order(h));
    if h in a + b {
      var f := First(a + b, Order, Order(h)).value;
      assert f in Pointers(a) + Pointers(b) && h in Pointers(a) + Pointers(b);
      NumInjective(f.name, h.name);
    }
  }

  /** The join keeps exactly the best `M` pointers of the union. */
  lemma JoinKeepsTop(a: BagState, b: BagState, m: nat)
    requires NoCollision(Pointers(a) + Pointers(b))
    ensures Pointers(Join(a, b, m)) == Top(Pointers(a) + Pointers(b), ByName(), m)
    ensures Strict(Join(a, b, m), Order) && |Join(a, b, m)| <= m
  {
    var all := Dedup(Sort(a + b, Order), Order);
    UniqueSorted(a + b, Order);
    forall h ensures h in all <==> h in a + b { UnionKeepsAll(a, b, h); }
    hide NoCollision, Top, Dedup, Sort;
    var same := (h: Held) => h;
    PrefixIsTop(all, same, ByName(), Order, m);
    assert Labels(all, same) == Pointers(all) == Pointers(a) + Pointers(b);
    assert Labels(all[..Min(m, |all|)], same) == Pointers(Join(a, b, m));
  }

  lemma JoinValid(c: Crypto, p: Params, a: BagState, b: BagState)
    requires Valid(c, p, a) && Valid(c, p, b)
    ensures Valid(c, p, Join(a, b, p.m))
  {
    var all := Dedup(Sort(a + b, Order), Order);
    UniqueSorted(a + b, Order);
    forall h | h in all ensures h in a + b {
      FirstOfStrict(all, Order, h);
      FirstIn(a + b, Order, Order(h));
    }
    forall h | h in Join(a, b, p.m) ensures HeldOk(c, p, h) { assert h in all; }
  }

  // -------------------------------------------------------------------- whole runs

  datatype Run = Leaf(bag: BagState) | Merge(left: Run, right: Run)

  function Eval(run: Run, m: nat): BagState {
    match run
    case Leaf(s) => s
    case Merge(l, r) => Join(Eval(l, m), Eval(r, m), m)
  }

  ghost function Offered(run: Run): set<Held> {
    match run
    case Leaf(s) => Pointers(s)
    case Merge(l, r) => Offered(l) + Offered(r)
  }

  ghost predicate LeavesValid(c: Crypto, p: Params, run: Run) {
    match run
    case Leaf(s) => Valid(c, p, s)
    case Merge(l, r) => LeavesValid(c, p, l) && LeavesValid(c, p, r)
  }

  lemma TopOfTops(x: set<Held>, y: set<Held>, m: nat)
    requires NoCollision(x + y)
    ensures Top(Top(x, ByName(), m) + Top(y, ByName(), m), ByName(), m) == Top(x + y, ByName(), m)
  {
    var r := ByName();
    NamesInjective(x + y);
    TopAbsorbs(x, Top(y, r, m), r, m);
    assert x + Top(y, r, m) == Top(y, r, m) + x && y + x == x + y;
    TopAbsorbs(y, x, r, m);
  }

  /** However bags are joined, the result is the best `M` pointers of everything offered. */
  lemma {:induction false} RunKeepsTop(c: Crypto, p: Params, run: Run)
    requires LeavesValid(c, p, run) && NoCollision(Offered(run))
    ensures Pointers(Eval(run, p.m)) == Top(Offered(run), ByName(), p.m)
    ensures Valid(c, p, Eval(run, p.m))
    decreases run
  {
    match run
    case Leaf(s) =>
      var same := (h: Held) => h;
      LabelsSize(s, same, ByName(), Order);
      assert Labels(s, same) == Pointers(s);
      TopAll(Pointers(s), ByName(), p.m);
    case Merge(l, r) =>
      RunKeepsTop(c, p, l);
      RunKeepsTop(c, p, r);
      hide Join, Valid, Order;
      JoinKeepsTop(Eval(l, p.m), Eval(r, p.m), p.m);
      JoinValid(c, p, Eval(l, p.m), Eval(r, p.m));
      TopOfTops(Offered(l), Offered(r), p.m);
  }

  /** Runs that were offered the same pointers end in the same bag, byte for byte. */
  lemma RunsAgree(c: Crypto, p: Params, run: Run, other: Run)
    requires LeavesValid(c, p, run) && LeavesValid(c, p, other)
    requires Offered(run) == Offered(other) && NoCollision(Offered(run))
    ensures Eval(run, p.m) == Eval(other, p.m)
  {
    RunKeepsTop(c, p, run);
    RunKeepsTop(c, p, other);
    var s, t := Eval(run, p.m), Eval(other, p.m);
    forall h ensures h in s <==> h in t {
      assert h in s <==> h in Pointers(s);
      assert h in t <==> h in Pointers(t);
    }
    StrictUnique(s, t, Order);
  }

  /** The join is a semilattice on whole states. */
  lemma JoinLaws(c: Crypto, p: Params, x: BagState, y: BagState, z: BagState)
    requires Valid(c, p, x) && Valid(c, p, y) && Valid(c, p, z)
    requires NoCollision(Pointers(x) + Pointers(y) + Pointers(z))
    ensures Join(x, y, p.m) == Join(y, x, p.m)
    ensures Join(Join(x, y, p.m), z, p.m) == Join(x, Join(y, z, p.m), p.m)
    ensures Join(x, x, p.m) == x
  {
    var lx, ly, lz := Leaf(x), Leaf(y), Leaf(z);
    RunsAgree(c, p, Merge(lx, ly), Merge(ly, lx));
    RunsAgree(c, p, Merge(Merge(lx, ly), lz), Merge(lx, Merge(ly, lz)));
    RunsAgree(c, p, Merge(lx, lx), lx);
  }

  // --------------------------------------------------------------------- summaries

  function Truncations(hs: seq<Held>): seq<bytes> {
    if hs == [] then [] else [hs[0].name[..16]] + Truncations(hs[1..])
  }

  /** What a summary says of the last pointer kept: its work, at most 255, and its name. An empty bag has no last
      pointer and says what every name beats. */
  function LowestWork(s: BagState): byte {
    if s == [] then 0 else Min(s[|s| - 1].work, 255)
  }

  function LowestName(s: BagState): Bytes32 {
    if s == [] then Repeat(0xff, 32) else s[|s| - 1].name
  }

  function Summarize(s: BagState): bytes {
    LE(|s|, 2) + ([LowestWork(s)] + (LowestName(s) + PutChunks(Sort(Truncations(s), KeyOrder))))
  }

  /** `summarize` as it runs. */
  method SummarizeBag(s: BagState) returns (out: bytes)
    ensures out == Summarize(s)
  {
    hide LE, Sort, Truncations;
    var n := LE(|s|, 2);
    var ts := Sort(Truncations(s), KeyOrder);
    out := n;
    if |s| > 0 {
      var low := s[|s| - 1];
      out := out + [Min(low.work, 255)];
      out := out + low.name;
    } else {
      out := out + [0];
      out := out + Repeat(0xff, 32);
    }
    assert out == n + [LowestWork(s)] + LowestName(s);
    ghost var chunks := PutChunks(ts);
    out := AppendChunks(out, ts);
    assert n + ([LowestWork(s)] + (LowestName(s) + chunks)) == n + [LowestWork(s)] + LowestName(s) + chunks;
  }

  datatype Summary = Summary(count: nat, full: bool, lowWork: nat, lowName: Bytes32, trunc: seq<bytes>)

  function ParseSummary(b: bytes, m: nat): Option<Summary> {
    var (count, r1) :- ReadU16(b);
    var (work, r2) :- ReadByte(r1);
    var (name, r3) :- Take(r2, 32);
    if |r3| % 16 != 0 then None
    else if |r3| > m * 16 then None
    else if count != |r3| / 16 then None
    // No bit says "full": a peer that lists `m` truncations is.
    else Some(Summary(count, count >= m, work, name, Sort(ReadChunks(r3), KeyOrder)))
  }

  predicate Has(sum: Summary, h: Held) {
    h.name[..16] in sum.trunc
  }

  /** A full peer can use only what ranks above its last pointer; any other can use whatever it lacks. */
  predicate Wants(sum: Summary, h: Held) {
    !sum.full || h.work > sum.lowWork || (h.work == sum.lowWork && Lex(h.name, sum.lowName))
  }

  function Sends(sum: Summary): Held -> bool {
    (h: Held) => !Has(sum, h) && Wants(sum, h)
  }

  function Delta(s: BagState, summary: bytes, m: nat): Option<BagState> {
    var sum :- ParseSummary(summary, m);
    Some(Filter(s, Sends(sum)))
  }

  /** A summary that is read is bounded by the bag's own capacity, and its count is the number of truncations. */
  lemma SummaryBounded(b: bytes, m: nat)
    requires ParseSummary(b, m).Some?
    ensures var s := ParseSummary(b, m).value;
            |s.trunc| == s.count <= m && |b| == 35 + 16 * s.count && (s.full <==> s.count == m)
  {
    hide UnLE, Sort;
    var r3 := Take(ReadByte(ReadU16(b).value.1).value.1, 32).value.1;
    ChunkCount(r3);
    SortSize(ReadChunks(r3), KeyOrder);
  }

  lemma {:induction false} TruncationsOf(hs: seq<Held>, t: bytes)
    ensures t in Truncations(hs) <==> exists h :: h in hs && h.name[..16] == t
    ensures |Truncations(hs)| == |hs|
    decreases |hs|
  {
    if hs != [] {
      TruncationsOf(hs[1..], t);
      assert hs == [hs[0]] + hs[1..];
      assert hs[0] in hs;
    }
  }

  function SummaryOf(t: BagState, m: nat): Summary {
    var ts := Sort(Truncations(t), KeyOrder);
    Summary(|t|, |t| >= m, LowestWork(t), LowestName(t), Sort(ts, KeyOrder))
  }

  lemma SummaryRoundTrip(c: Crypto, p: Params, t: BagState)
    requires ParamsOk(p) && Valid(c, p, t)
    ensures ParseSummary(Summarize(t), p.m) == Some(SummaryOf(t, p.m))
  {
    var ts := Sort(Truncations(t), KeyOrder);
    var body := PutChunks(ts);
    SummaryChunks(t);
    assert |t| <= p.m;
    hide LE, UnLE, Valid, LowestName, LowestWork;
    ReadU16Front(|t|, [LowestWork(t)] + (LowestName(t) + body));
    ReadByteFront(LowestWork(t), LowestName(t) + body);
    TakeFront(LowestName(t), body);
  }

  lemma SummaryChunks(t: BagState)
    ensures var ts := Sort(Truncations(t), KeyOrder);
            |PutChunks(ts)| == 16 * |t| && ReadChunks(PutChunks(ts)) == ts
  {
    var ts := Sort(Truncations(t), KeyOrder);
    forall x | x in ts ensures |x| == 16 {
      SortElem(Truncations(t), KeyOrder, x);
      TruncationsOf(t, x);
    }
    SortSize(Truncations(t), KeyOrder);
    TruncationsOf(t, []);
    ChunksRoundTrip(ts);
  }

  lemma SummaryHas(t: BagState, m: nat, h: Held)
    ensures Has(SummaryOf(t, m), h) <==> exists g :: g in t && g.name[..16] == h.name[..16]
  {
    var ts := Sort(Truncations(t), KeyOrder);
    SortElem(ts, KeyOrder, h.name[..16]);
    SortElem(Truncations(t), KeyOrder, h.name[..16]);
    TruncationsOf(t, h.name[..16]);
  }

  /** A pointer the peer does not want ranks behind everything the peer keeps, although the work it names is clamped
      to a byte. */
  lemma UnwantedRanksLast(c: Crypto, p: Params, t: BagState, h: Held, g: Held)
    requires Valid(c, p, t) && WorkDerived(h) && g in t && !Wants(SummaryOf(t, p.m), h)
    ensures Order(g) <= Order(h)
  {
    var low := t[|t| - 1];
    assert low in t;
    LexTotal(h.name, low.name);
    if low.work <= 255 {
      RankIsOrder(h, low);
      RankIsOrder(low, h);
    } else {
      LeadingZerosMeaning(low.name);
    }
  }

  /** A pointer the merge would keep, the peer lacks, and the peer's summary names by its truncation. */
  ghost predicate Missed(s: BagState, t: BagState, m: nat, h: Held) {
    && h in s && h !in t && h in Top(Pointers(t) + Pointers(s), ByName(), m)
    && exists g :: g in t && g.name[..16] == h.name[..16]
  }

  /** One round: a peer that merges the answer to its summary holds, byte for byte, what merging the whole bag would have
      left - full, partial or empty - EXACTLY when no pointer is missed for a truncation. */
  lemma OneRoundExact(c: Crypto, p: Params, s: BagState, t: BagState)
    requires ParamsOk(p) && Valid(c, p, s) && Valid(c, p, t) && NoCollision(Pointers(s) + Pointers(t))
    ensures var d := Delta(s, Summarize(t), p.m);
            && d.Some? && Valid(c, p, d.value)
            && (Join(t, d.value, p.m) == Join(t, s, p.m) <==> !exists h :: Missed(s, t, p.m, h))
  {
    var sum := SummaryOf(t, p.m);
    var d := Filter(s, Sends(sum));
    SummaryRoundTrip(c, p, t);
    PartValid(c, p, s, Sends(sum));
    var u := Pointers(t) + Pointers(s);
    assert u == Pointers(s) + Pointers(t);
    forall h ensures h in d <==> h in s && Sends(sum)(h) { FilterElem(s, Sends(sum), h); }
    assert Pointers(d) <= Pointers(s);
    hide Join, Missed, Top, Valid, Sends, Delta;
    JoinKeepsTop(t, d, p.m);
    JoinKeepsTop(t, s, p.m);
    if h :| Missed(s, t, p.m, h) {
      MissedIsLost(s, t, p.m, h, d);
    } else {
      NoneMissed(c, p, s, t, d);
      SameBag(Join(t, d, p.m), Join(t, s, p.m));
    }
  }

  lemma NoneMissed(c: Crypto, p: Params, s: BagState, t: BagState, d: seq<Held>)
    requires ParamsOk(p) && Valid(c, p, s) && Valid(c, p, t) && NoCollision(Pointers(s) + Pointers(t))
    requires forall h :: h in d <==> h in s && Sends(SummaryOf(t, p.m))(h)
    requires !exists h :: Missed(s, t, p.m, h)
    ensures Top(Pointers(t) + Pointers(d), ByName(), p.m) == Top(Pointers(t) + Pointers(s), ByName(), p.m)
  {
    var u := Pointers(t) + Pointers(s);
    assert u == Pointers(s) + Pointers(t);
    NamesInjective(u);
    hide Missed, Top, Valid, Sends, NoCollision;
    forall h | h in Top(u, ByName(), p.m) ensures h in Pointers(t) + Pointers(d) {
      if h !in t { UnmissedIsSent(c, p, s, t, h); }
    }
    TopBetween(u, Pointers(t) + Pointers(d), ByName(), p.m);
  }

  lemma UnmissedIsSent(c: Crypto, p: Params, s: BagState, t: BagState, h: Held)
    requires ParamsOk(p) && Valid(c, p, s) && Valid(c, p, t) && NoCollision(Pointers(s) + Pointers(t))
    requires h in Top(Pointers(t) + Pointers(s), ByName(), p.m) && h !in t && !Missed(s, t, p.m, h)
    ensures h in s && Sends(SummaryOf(t, p.m))(h)
  {
    assert h in Pointers(t) + Pointers(s);
    SummaryHas(t, p.m, h);
    hide Top, Valid;
    if !Wants(SummaryOf(t, p.m), h) { UnwantedLoses(c, p, s, t, h); }
  }

  lemma MissedIsLost(s: BagState, t: BagState, m: nat, h: Held, d: seq<Held>)
    requires Missed(s, t, m, h)
    requires forall x :: x in d <==> x in s && Sends(SummaryOf(t, m))(x)
    ensures h in Top(Pointers(t) + Pointers(s), ByName(), m) && h !in Top(Pointers(t) + Pointers(d), ByName(), m)
  {
    SummaryHas(t, m, h);
  }

  /** In particular no pointer is missed when no two of the two bags share a truncation. */
  lemma OneRoundSync(c: Crypto, p: Params, s: BagState, t: BagState)
    requires ParamsOk(p) && Valid(c, p, s) && Valid(c, p, t) && NoCollision(Pointers(s) + Pointers(t))
    requires forall h, g :: h in s && g in t && h.name[..16] == g.name[..16] ==> h.name == g.name
    ensures var d := Delta(s, Summarize(t), p.m);
            d.Some? && Valid(c, p, d.value) && Join(t, d.value, p.m) == Join(t, s, p.m)
  {
    OneRoundExact(c, p, s, t);
    hide Join, Top, Valid, Delta;
    forall h ensures !Missed(s, t, p.m, h) {
      if h in s && h !in t {
        assert forall g :: g in t ==> g in Pointers(s) + Pointers(t);
        assert h in Pointers(s) + Pointers(t);
      }
    }
  }

  lemma SameBag(x: BagState, y: BagState)
    requires Strict(x, Order) && Strict(y, Order) && Pointers(x) == Pointers(y)
    ensures x == y
  {
    forall h ensures h in x <==> h in y { assert h in x <==> h in Pointers(x); assert h in y <==> h in Pointers(y); }
    StrictUnique(x, y, Order);
  }

  /** A peer that holds everything is sent no pointer. */
  lemma SyncedSendsNothing(c: Crypto, p: Params, s: BagState, t: BagState)
    requires ParamsOk(p) && Valid(c, p, t) && forall h :: h in s ==> h in t
    ensures Delta(s, Summarize(t), p.m) == Some([])
  {
    SummaryRoundTrip(c, p, t);
    var sum := SummaryOf(t, p.m);
    hide Valid, Summarize, ParseSummary, SummaryOf;
    forall h | h in s ensures !Sends(sum)(h) { SummaryHas(t, p.m, h); }
    FilterNone(s, Sends(sum));
  }

  // ---------------------------------------------------------------- through the doors

  /** One candidate, as bytes: an unreadable one is ignored, never fatal. */
  function AbsorbBytes(c: Crypto, p: Params, held: BagState, b: bytes): BagState {
    var cand := Parse(c, p, b);
    if cand.Some? then Join(held, cand.value, p.m) else held
  }

  /** `get_state_delta`: the delta a summary asks for, or the whole bag when the summary cannot be read. */
  function StateDelta(s: BagState, summary: bytes, m: nat): bytes {
    var d := Delta(s, summary, m);
    Encode(if d.Some? then d.value else s)
  }

  lemma AbsorbValid(c: Crypto, p: Params, t: BagState, d: BagState)
    requires ParamsOk(p) && Valid(c, p, d)
    ensures AbsorbBytes(c, p, t, Encode(d)) == Join(t, d, p.m)
  {
    hide Parse, Valid, Join, Encode;
    ParseExact(c, p, Encode(d), d);
  }

  /** The round as the doors run it: absorbing the bytes sent in answer to one's own summary leaves what absorbing the
      sender's whole bag would have left, EXACTLY when no pointer is missed for a truncation. */
  lemma DoorsOneRound(c: Crypto, p: Params, s: BagState, t: BagState)
    requires ParamsOk(p) && Valid(c, p, s) && Valid(c, p, t) && NoCollision(Pointers(s) + Pointers(t))
    ensures AbsorbBytes(c, p, t, StateDelta(s, Summarize(t), p.m)) == AbsorbBytes(c, p, t, Encode(s)) <==>
            !exists h :: Missed(s, t, p.m, h)
  {
    OneRoundExact(c, p, s, t);
    hide Join, Missed, Valid, Delta, Summarize, Encode, AbsorbBytes, NoCollision;
    AbsorbValid(c, p, t, Delta(s, Summarize(t), p.m).value);
    AbsorbValid(c, p, t, s);
  }

  /** A summary that cannot be read is answered with the whole bag, and a peer loses nothing. */
  lemma UnreadableSummary(c: Crypto, p: Params, s: BagState, t: BagState, summary: bytes)
    requires ParamsOk(p) && Valid(c, p, s) && ParseSummary(summary, p.m).None?
    ensures AbsorbBytes(c, p, t, StateDelta(s, summary, p.m)) == AbsorbBytes(c, p, t, Encode(s)) == Join(t, s, p.m)
  {
    hide Join, Valid, Encode, AbsorbBytes, ParseSummary;
    AbsorbValid(c, p, t, s);
  }

  /** What the summary says is not wanted would not survive the join. */
  lemma UnwantedLoses(c: Crypto, p: Params, s: BagState, t: BagState, h: Held)
    requires ParamsOk(p) && Valid(c, p, s) && Valid(c, p, t) && h in s && h !in t
    requires NoCollision(Pointers(s) + Pointers(t))
    requires !Wants(SummaryOf(t, p.m), h)
    ensures h !in Top(Pointers(t) + Pointers(s), ByName(), p.m)
  {
    forall g | g in t ensures Num(g.name) < Num(h.name) {
      UnwantedRanksLast(c, p, t, h, g);
      assert g in Pointers(s) + Pointers(t) && h in Pointers(s) + Pointers(t);
      if Num(g.name) == Num(h.name) { NumInjective(g.name, h.name); }
    }
    PointersSize(t);
    SubsetSize(Pointers(t), Below(Pointers(t) + Pointers(s), ByName(), h));
  }

  /** And what is sent is of use: merged alone into what the peer holds, it would stay. */
  lemma SentIsWanted(c: Crypto, p: Params, t: BagState, h: Held)
    requires ParamsOk(p) && Valid(c, p, t) && WorkDerived(h) && Sends(SummaryOf(t, p.m))(h)
    ensures h !in t && h in Top(Pointers(t) + {h}, ByName(), p.m)
  {
    SummaryHas(t, p.m, h);
    PointersSize(t);
    if |t| < p.m {
      TopAll(Pointers(t) + {h}, ByName(), p.m);
    } else {
      var low := t[|t| - 1];
      assert low in t;
      WantedBeatsLast(c, p, t, h);
      var ahead := Below(Pointers(t) + {h}, ByName(), h);
      assert ahead <= Pointers(t) - {low};
      SubsetSize(ahead, Pointers(t) - {low});
    }
  }

  lemma WantedBeatsLast(c: Crypto, p: Params, t: BagState, h: Held)
    requires Valid(c, p, t) && |t| == p.m > 0 && WorkDerived(h) && Sends(SummaryOf(t, p.m))(h)
    ensures Num(h.name) < Num(t[|t| - 1].name)
  {
    var low := t[|t| - 1];
    assert low in t;
    SummaryHas(t, p.m, h);
    RankIsOrder(h, low);
    if low.work > 255 {
      LeadingZerosMeaning(low.name);
      LeadingZerosMeaning(h.name);
      LexIsNum(h.name, low.name);
      if h.name != low.name && Num(h.name) == Num(low.name) { NumInjective(h.name, low.name); }
    }
  }

  lemma PointersSize(t: BagState)
    requires Strict(t, Order)
    ensures |Pointers(t)| == |t|
  {
    var same := (h: Held) => h;
    LabelsSize(t, same, ByName(), Order);
    assert Labels(t, same) == Pointers(t);
  }

  lemma PartValid(c: Crypto, p: Params, s: BagState, f: Held -> bool)
    requires Valid(c, p, s)
    ensures Valid(c, p, Filter(s, f))
  {
    FilterStrict(s, f, Order);
    forall h | h in Filter(s, f) ensures h in s { FilterElem(s, f, h); }
    FilterElem(s, f, Held(Pointer([], Zeros(8)), Zeros(32), 0));
  }

  // ------------------------------------------------------------------ the update door

  function AbsorbAll(c: Crypto, p: Params, held: BagState, cands: seq<bytes>): BagState
    decreases |cands|
  {
    if cands == [] then held else AbsorbAll(c, p, AbsorbBytes(c, p, held, cands[0]), cands[1..])
  }

  method Update(c: Crypto, p: Params, state: bytes, data: seq<UpdateData>) returns (r: Option<bytes>)
    ensures r.Some? <==> |state| <= MAX_STATE && Parse(c, p, state).Some?
    ensures r.Some? ==> r.value == Encode(AbsorbAll(c, p, Parse(c, p, state).value, Candidates(data)))
  {
    hide Parse, Join, Encode;
    if |state| > MAX_STATE { return None; }
    var parsed := ReadBag(c, p, state);
    if parsed.None? { return None; }
    var held := parsed.value;
    var cands := Flatten(data);
    var i := 0;
    while i < |cands|
      invariant 0 <= i <= |cands|
      invariant AbsorbAll(c, p, held, cands[i..]) == AbsorbAll(c, p, parsed.value, cands)
    {
      assert cands[i..][1..] == cands[i + 1..];
      var cand := ReadBag(c, p, cands[i]);
      if cand.Some? { held := JoinBags(held, cand.value, p.m); }
      i := i + 1;
    }
    var out := EncodeBag(held);
    return Some(out);
  }

  /** A host that holds a valid bag answers every update, of any bytes at all, with a valid bag. */
  lemma {:induction false} UpdateCloses(c: Crypto, p: Params, held: BagState, cands: seq<bytes>)
    requires ParamsOk(p) && Valid(c, p, held)
    ensures var r := AbsorbAll(c, p, held, cands);
            Valid(c, p, r) && Parse(c, p, Encode(r)) == Some(r) && |Encode(r)| <= MAX_STATE
    decreases |cands|
  {
    if cands == [] {
      ParseExact(c, p, Encode(held), held);
      EncodeFits(c, p, held);
    } else {
      var cand := Parse(c, p, cands[0]);
      hide Parse, Valid, Join, Encode;
      if cand.Some? {
        ParseExact(c, p, cands[0], cand.value);
        JoinValid(c, p, held, cand.value);
      }
      UpdateCloses(c, p, if cand.Some? then Join(held, cand.value, p.m) else held, cands[1..]);
    }
  }

  // ------------------------------------------------------------------ hosts converge

  /** What a host has merged after these candidates: its bag and every readable one. */
  ghost function HostRun(c: Crypto, p: Params, run: Run, cands: seq<bytes>): Run
    decreases |cands|
  {
    if cands == [] then run
    else if Parse(c, p, cands[0]).Some? then HostRun(c, p, Merge(run, Leaf(Parse(c, p, cands[0]).value)), cands[1..])
    else HostRun(c, p, run, cands[1..])
  }

  lemma {:induction false} HostIsRun(c: Crypto, p: Params, run: Run, cands: seq<bytes>)
    requires ParamsOk(p) && LeavesValid(c, p, run)
    ensures AbsorbAll(c, p, Eval(run, p.m), cands) == Eval(HostRun(c, p, run, cands), p.m)
    ensures LeavesValid(c, p, HostRun(c, p, run, cands))
    decreases |cands|
  {
    if cands != [] {
      var cand := Parse(c, p, cands[0]);
      hide Parse, Join, Valid;
      if cand.Some? {
        ParseExact(c, p, cands[0], cand.value);
        HostIsRun(c, p, Merge(run, Leaf(cand.value)), cands[1..]);
      } else {
        HostIsRun(c, p, run, cands[1..]);
      }
    }
  }

  /** A host holds exactly the best `M` pointers of everything readable it was ever given. */
  lemma HostKeepsTop(c: Crypto, p: Params, held: BagState, cands: seq<bytes>)
    requires ParamsOk(p) && Valid(c, p, held) && NoCollision(Offered(HostRun(c, p, Leaf(held), cands)))
    ensures Pointers(AbsorbAll(c, p, held, cands)) == Top(Offered(HostRun(c, p, Leaf(held), cands)), ByName(), p.m)
  {
    HostIsRun(c, p, Leaf(held), cands);
    hide HostRun, AbsorbAll, NoCollision, Top, Valid;
    RunKeepsTop(c, p, HostRun(c, p, Leaf(held), cands));
  }

  /** Hosts that were given the same pointers hold the same bag, byte for byte, whatever the order, the batches, the
      repetitions and the junk in between. */
  lemma HostsConverge(c: Crypto, p: Params, h: BagState, k: BagState, hc: seq<bytes>, kc: seq<bytes>)
    requires ParamsOk(p) && Valid(c, p, h) && Valid(c, p, k)
    requires Offered(HostRun(c, p, Leaf(h), hc)) == Offered(HostRun(c, p, Leaf(k), kc))
    requires NoCollision(Offered(HostRun(c, p, Leaf(h), hc)))
    ensures AbsorbAll(c, p, h, hc) == AbsorbAll(c, p, k, kc)
  {
    HostIsRun(c, p, Leaf(h), hc);
    HostIsRun(c, p, Leaf(k), kc);
    hide HostRun, AbsorbAll, NoCollision, Valid;
    RunsAgree(c, p, HostRun(c, p, Leaf(h), hc), HostRun(c, p, Leaf(k), kc));
  }
}
