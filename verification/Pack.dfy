/** A pack: several blocks in one body, as a canonical encoding of a SET of blocks (block/src/pack.rs). */
module Pack {
  import opened Options
  import opened Bytes
  import opened Lists
  import opened Sorting

  const MAGIC: bytes := [80, 75, 48, 49]  // "PK01"
  const MAX_PACK := 1048576
  const MAX_BODY := 262208
  const MIN_MEMBER := 5
  const RAW: byte := 0
  const TREE_NODE: byte := 1

  /** A block's id and the tree library's check of one node: this model does not look inside either. */
  datatype Rules = Rules(id: (byte, bytes) -> Bytes32, node: bytes -> bool)

  datatype Member = Member(kind: byte, body: bytes)

  function IdOf(r: Rules, m: Member): Bytes32 {
    r.id(m.kind, m.body)
  }

  function IdOrder(r: Rules): Member -> int {
    (m: Member) => Num(IdOf(r, m))
  }

  /** The kinds a member may have; a pack is not one of them. */
  predicate Packable(kind: byte) {
    kind == RAW || kind == TREE_NODE
  }

  /** What the Block contract accepts as a standalone block of a packable kind. */
  predicate Acceptable(r: Rules, m: Member) {
    Packable(m.kind) && |m.body| <= MAX_BODY && (m.kind == TREE_NODE ==> r.node(m.body))
  }

  // --------------------------------------------------------------------- encoding

  function PutMember(m: Member, rest: bytes): bytes {
    [m.kind] + (LE(|m.body|, 4) + (m.body + rest))
  }

  function PutMembers(ms: seq<Member>): bytes {
    if ms == [] then [] else PutMember(ms[0], PutMembers(ms[1..]))
  }

  function EncodePack(ms: seq<Member>): bytes {
    MAGIC + (LE(|ms|, 2) + PutMembers(ms))
  }

  /** One member, refused from its kind byte and its length field before anything else is read. */
  function ReadMember(b: bytes): Option<(Member, bytes)> {
    var (head, tail) :- Take(b, 5);
    if !Packable(head[0]) || UnLE(head[1..]) > MAX_BODY then None else
    var (body, rest) :- Take(tail, UnLE(head[1..]));
    Some((Member(head[0], body), rest))
  }

  /** Strictly above the member before it, by id, and valid exactly as its own block would be. */
  predicate Follows(r: Rules, prev: Option<Bytes32>, m: Member) {
    (prev.Some? ==> Lex(prev.value, IdOf(r, m))) && (m.kind == TREE_NODE ==> r.node(m.body))
  }

  function ReadMembers(r: Rules, b: bytes, n: nat, prev: Option<Bytes32>): Option<(seq<Member>, bytes)>
    decreases n
  {
    if n == 0 then Some(([], b)) else
    var (m, r1) :- ReadMember(b);
    if !Follows(r, prev, m) then None else
    var (ms, r2) :- ReadMembers(r, r1, n - 1, Some(IdOf(r, m)));
    Some(([m] + ms, r2))
  }

  /** The members of a well-formed pack. */
  function ParsePack(r: Rules, b: bytes): Option<seq<Member>> {
    var (magic, r1) :- Take(b, 4);
    var (count, r2) :- ReadU16(r1);
    if magic != MAGIC || count == 0 || count * 5 > |r2| then None else
    var (ms, r3) :- ReadMembers(r, r2, count, None);
    if r3 == [] then Some(ms) else None
  }

  method WellFormed(r: Rules, b: bytes) returns (ok: bool)
    ensures ok <==> ParsePack(r, b).Some?
  {
    hide ReadMember, ReadU16, LE;
    if |b| < 6 {
      ShortHeader(b);
      return false;
    }
    var (magic, r1) := Take(b, 4).value;
    if magic != MAGIC { return false; }
    FullHeader(r1);
    var (count, rest) := ReadU16(r1).value;
    if count == 0 { return false; }
    if count * MIN_MEMBER > |rest| { return false; }
    ghost var whole := ReadMembers(r, rest, count, None);
    ghost var done: seq<Member> := [];
    AfterNothing(whole);
    var prev: Option<Bytes32> := None;
    var i := 0;
    while i < count
      invariant 0 <= i <= count
      invariant whole == After(done, ReadMembers(r, rest, count - i, prev))
    {
      var m := ReadMember(rest);
      if m.None? { return false; }
      var id := IdOf(r, m.value.0);
      if prev.Some? && !Lex(prev.value, id) { return false; }
      if m.value.0.kind == TREE_NODE && !r.node(m.value.0.body) { return false; }
      ghost var more := [m.value.0];
      AfterMore(done, more, ReadMembers(r, m.value.1, count - i - 1, Some(id)));
      prev := Some(id);
      rest := m.value.1;
      done := done + more;
      i := i + 1;
    }
    return |rest| == 0;
  }

  lemma ShortHeader(b: bytes)
    requires |b| < 6
    ensures Take(b, 4).None? || ReadU16(Take(b, 4).value.1).None?
  {
  }

  lemma FullHeader(b: bytes)
    requires |b| >= 2
    ensures ReadU16(b).Some?
  {
  }

  // --------------------------------------------------------------------- exactness

  ghost predicate ChainOk(r: Rules, ms: seq<Member>, prev: Option<Bytes32>) {
    && Strict(ms, IdOrder(r))
    && (forall m :: m in ms ==> Acceptable(r, m))
    && (prev.Some? && ms != [] ==> Lex(prev.value, IdOf(r, ms[0])))
  }

  /** A set of acceptable blocks, in the one order a pack may list them. */
  ghost predicate PackOk(r: Rules, ms: seq<Member>) {
    1 <= |ms| < 0x1_0000 && Strict(ms, IdOrder(r)) && forall m :: m in ms ==> Acceptable(r, m)
  }

  lemma ChainTail(r: Rules, ms: seq<Member>, prev: Option<Bytes32>)
    requires ms != []
    ensures ChainOk(r, ms, prev) <==>
            Acceptable(r, ms[0]) && Follows(r, prev, ms[0]) && ChainOk(r, ms[1..], Some(IdOf(r, ms[0])))
  {
    var key := IdOrder(r);
    assert ms == [ms[0]] + ms[1..] && ms[0] in ms;
    if |ms| > 1 {
      assert ms[1..][0] == ms[1];
      LexIsNum(IdOf(r, ms[0]), IdOf(r, ms[1]));
      assert key(ms[0]) == Num(IdOf(r, ms[0])) && key(ms[1]) == Num(IdOf(r, ms[1]));
    }
    if Strict(ms[1..], key) && (|ms| > 1 ==> key(ms[0]) < key(ms[1])) { StrictCons(ms[0], ms[1..], key); }
  }

  lemma ReadMemberFront(m: Member, rest: bytes)
    requires Packable(m.kind) && |m.body| <= MAX_BODY
    ensures ReadMember(PutMember(m, rest)) == Some((m, rest))
  {
    var head := [m.kind] + LE(|m.body|, 4);
    assert head + (m.body + rest) == PutMember(m, rest);
    TakeFront(head, m.body + rest);
    assert head[1..] == LE(|m.body|, 4);
    PowValues();
    UnLEOfLE(|m.body|, 4);
    TakeFront(m.body, rest);
  }

  lemma ReadMemberGives(b: bytes)
    requires ReadMember(b).Some?
    ensures var (m, rest) := ReadMember(b).value;
            Packable(m.kind) && |m.body| <= MAX_BODY && b == PutMember(m, rest) && |rest| + 5 <= |b|
  {
    var (head, tail) := Take(b, 5).value;
    LEOfUnLE(head[1..]);
    assert head == [head[0]] + head[1..];
  }

  lemma {:induction false} ReadMembersFront(r: Rules, ms: seq<Member>, prev: Option<Bytes32>)
    requires ChainOk(r, ms, prev)
    ensures ReadMembers(r, PutMembers(ms), |ms|, prev) == Some((ms, []))
    ensures |ms| * 5 <= |PutMembers(ms)|
    decreases |ms|
  {
    hide ReadMember, ChainOk, Follows;
    if ms != [] {
      ChainTail(r, ms, prev);
      ReadMembersFront(r, ms[1..], Some(IdOf(r, ms[0])));
      ReadMemberFront(ms[0], PutMembers(ms[1..]));
      assert ms == [ms[0]] + ms[1..];
    }
  }

  lemma {:induction false} ReadMembersGives(r: Rules, b: bytes, n: nat, prev: Option<Bytes32>)
    requires ReadMembers(r, b, n, prev).Some? && ReadMembers(r, b, n, prev).value.1 == []
    ensures var ms := ReadMembers(r, b, n, prev).value.0; |ms| == n && ChainOk(r, ms, prev) && b == PutMembers(ms)
    decreases n
  {
    hide ReadMember, PutMember;
    if n > 0 {
      ReadMemberGives(b);
      var (m, r1) := ReadMember(b).value;
      assert Acceptable(r, m);
      hide Follows, ChainOk, Acceptable;
      ReadMembersGives(r, r1, n - 1, Some(IdOf(r, m)));
      var ms := ReadMembers(r, b, n, prev).value.0;
      assert ms[1..] == ReadMembers(r, r1, n - 1, Some(IdOf(r, m))).value.0;
      ChainTail(r, ms, prev);
    }
  }

  /** One encoding per set: a well-formed body is exactly the encoding of acceptable blocks in id order. */
  lemma ParseExact(r: Rules, b: bytes, ms: seq<Member>)
    ensures ParsePack(r, b) == Some(ms) <==> PackOk(r, ms) && b == EncodePack(ms)
  {
    hide ReadMembers, PutMembers, LE, ReadU16;
    if ParsePack(r, b) == Some(ms) {
      var (count, r2) := ReadU16(Take(b, 4).value.1).value;
      ReadMembersGives(r, r2, count, None);
    }
    if PackOk(r, ms) && b == EncodePack(ms) {
      TakeFront(MAGIC, LE(|ms|, 2) + PutMembers(ms));
      ReadU16Front(|ms|, PutMembers(ms));
      ReadMembersFront(r, ms, None);
    }
  }

  /** 1 to 65,535 raw blocks or tree nodes of at most 262,208 bytes, every node sound, by rising id. */
  predicate MembersProper(r: Rules, ms: seq<Member>) {
    && 1 <= |ms| <= 65535
    && (forall m :: m in ms ==> m.kind <= 1 && |m.body| <= 262208 && (m.kind == 1 ==> r.node(m.body)))
    && (forall i, j :: 0 <= i < j < |ms| ==> Num(r.id(ms[i].kind, ms[i].body)) < Num(r.id(ms[j].kind, ms[j].body)))
  }

  /** EXACTLY what is well-formed, in plain terms. */
  lemma WellFormedExact(r: Rules, b: bytes, ms: seq<Member>)
    ensures ParsePack(r, b) == Some(ms) <==> MembersProper(r, ms) && b == EncodePack(ms)
  {
    ParseExact(r, b, ms);
    hide ParsePack, EncodePack, Num;
  }

  // ------------------------------------------------------------------------- build

  datatype BuildError = Empty | TooManyMembers(count: nat) | TooLarge(size: nat)

  datatype BuildResult = Built(body: bytes) | Refused(error: BuildError)

  /** The blocks in id order, of several with one id the one offered first. */
  function Ordered(r: Rules, members: seq<Member>): seq<Member> {
    Dedup(Sort(members, IdOrder(r)), IdOrder(r))
  }

  function BuildOf(r: Rules, members: seq<Member>): BuildResult {
    var ms := Ordered(r, members);
    if ms == [] then Refused(Empty)
    else if |ms| > 0xFFFF then Refused(TooManyMembers(|ms|))
    else if |EncodePack(ms)| > MAX_PACK then Refused(TooLarge(|EncodePack(ms)|))
    else Built(EncodePack(ms))
  }

  lemma PutMembersStep(out: bytes, m: Member, rest: seq<Member>)
    ensures out + PutMembers([m] + rest) == (out + [m.kind] + LE(|m.body|, 4) + m.body) + PutMembers(rest)
  {
    var ms := [m] + rest;
    assert ms[0] == m && ms[1..] == rest;
    var x, y, z := LE(|m.body|, 4), m.body, PutMembers(rest);
    assert out + ([m.kind] + (x + (y + z))) == (out + [m.kind] + x + y) + z;
  }

  method Build(r: Rules, members: seq<Member>) returns (result: BuildResult)
    ensures result == BuildOf(r, members)
  {
    var ordered := Ordered(r, members);
    if |ordered| == 0 { return Refused(Empty); }
    if |ordered| > 0xFFFF { return Refused(TooManyMembers(|ordered|)); }
    var out := MAGIC;
    out := out + LE(|ordered|, 2);
    var i := 0;
    while i < |ordered|
      invariant 0 <= i <= |ordered|
      invariant out + PutMembers(ordered[i..]) == EncodePack(ordered)
    {
      var m := ordered[i];
      assert ordered[i..] == [m] + ordered[i + 1..];
      PutMembersStep(out, m, ordered[i + 1..]);
      out := out + [m.kind];
      out := out + LE(|m.body|, 4);
      out := out + m.body;
      i := i + 1;
    }
    assert ordered[i..] == [] && out + [] == out;
    return if |out| > MAX_PACK then Refused(TooLarge(|out|)) else Built(out);
  }

  /** No two different blocks offered share an id. */
  ghost predicate NoIdCollision(r: Rules, ms: seq<Member>) {
    forall m, n :: m in ms && n in ms && IdOf(r, m) == IdOf(r, n) ==> m == n
  }

  lemma OrderedSet(r: Rules, members: seq<Member>, m: Member)
    ensures Strict(Ordered(r, members), IdOrder(r))
    ensures m in Ordered(r, members) ==> m in members
    ensures NoIdCollision(r, members) ==> (m in Ordered(r, members) <==> m in members)
  {
    var key := IdOrder(r);
    UniqueSorted(members, key);
    FirstOfStrict(Ordered(r, members), key, m);
    FirstIn(members, key, key(m));
    if NoIdCollision(r, members) && m in members {
      var f := First(members, key, key(m)).value;
      assert f in members && key(f) == Num(IdOf(r, f)) && key(m) == Num(IdOf(r, m));
      NumInjective(IdOf(r, f), IdOf(r, m));
    }
  }

  ghost predicate LengthsFit(ms: seq<Member>) {
    forall m :: m in ms ==> |m.body| < 0x1_0000_0000
  }

  lemma {:induction false} MembersLength(ms: seq<Member>)
    ensures forall m :: m in ms ==> |m.body| <= |PutMembers(ms)|
    decreases |ms|
  {
    hide LE;
    if ms != [] {
      MembersLength(ms[1..]);
      assert ms == [ms[0]] + ms[1..];
    }
  }

  lemma PutMemberInjective(m: Member, n: Member, x: bytes, y: bytes)
    requires PutMember(m, x) == PutMember(n, y) && |m.body| < 0x1_0000_0000 && |n.body| < 0x1_0000_0000
    ensures m == n && x == y
  {
    var p, q := PutMember(m, x), PutMember(n, y);
    hide LE;
    assert p[0] == m.kind && q[0] == n.kind;
    assert p[1..5] == LE(|m.body|, 4) && q[1..5] == LE(|n.body|, 4);
    PowValues();
    UnLEOfLE(|m.body|, 4);
    UnLEOfLE(|n.body|, 4);
    assert p[5..] == m.body + x && q[5..] == n.body + y;
    assert p[5..][..|m.body|] == m.body && q[5..][..|n.body|] == n.body;
    assert p[5..][|m.body|..] == x && q[5..][|n.body|..] == y;
  }

  /** As many members, in the same bytes, are the same members. */
  lemma {:induction false} PutMembersInjective(xs: seq<Member>, ys: seq<Member>)
    requires PutMembers(xs) == PutMembers(ys) && |xs| == |ys| && LengthsFit(xs) && LengthsFit(ys)
    ensures xs == ys
    decreases |xs|
  {
    hide PutMember;
    if xs != [] {
      assert xs[0] in xs && ys[0] in ys;
      PutMemberInjective(xs[0], ys[0], PutMembers(xs[1..]), PutMembers(ys[1..]));
      PutMembersInjective(xs[1..], ys[1..]);
      assert xs == [xs[0]] + xs[1..] && ys == [ys[0]] + ys[1..];
    }
  }

  lemma EncodePackInjective(xs: seq<Member>, ys: seq<Member>)
    requires EncodePack(xs) == EncodePack(ys) && |xs| < 0x1_0000 && |ys| < 0x1_0000 && |EncodePack(xs)| < 0x1_0000_0000
    ensures xs == ys
  {
    MembersLength(xs);
    MembersLength(ys);
    hide LE, PutMembers;
    var p, q := EncodePack(xs), EncodePack(ys);
    assert p[4..6] == LE(|xs|, 2) && q[4..6] == LE(|ys|, 2) && p[6..] == PutMembers(xs) && q[6..] == PutMembers(ys);
    PowValues();
    UnLEOfLE(|xs|, 2);
    UnLEOfLE(|ys|, 2);
    PutMembersInjective(xs, ys);
  }

  /** What `build` returns is well-formed EXACTLY when the blocks it kept are acceptable - it checks none of them - and
      then it holds exactly the blocks offered. */
  lemma BuildIsWellFormed(r: Rules, members: seq<Member>)
    requires BuildOf(r, members).Built?
    ensures var body := BuildOf(r, members).body;
            && (ParsePack(r, body).Some? <==> forall m :: m in Ordered(r, members) ==> Acceptable(r, m))
            && (ParsePack(r, body).Some? ==> ParsePack(r, body).value == Ordered(r, members))
    ensures forall m :: m in Ordered(r, members) ==> m in members
    ensures NoIdCollision(r, members) ==> forall m :: m in members ==> m in Ordered(r, members)
  {
    hide Acceptable, EncodePack, Ordered, Strict, NoIdCollision;
    var ms := Ordered(r, members);
    OrderedSet(r, members, Member(0, []));
    forall m ensures m in ms ==> m in members
             ensures NoIdCollision(r, members) && m in members ==> m in ms { OrderedSet(r, members, m); }
    ParseExact(r, EncodePack(ms), ms);
    hide ParsePack;
    if ParsePack(r, EncodePack(ms)).Some? {
      var read := ParsePack(r, EncodePack(ms)).value;
      ParseExact(r, EncodePack(ms), read);
      EncodePackInjective(ms, read);
    }
  }

  /** Order and repetition leave no trace in a pack: two writers that offer the same blocks build the same body or are
      refused alike. And what was offered can be read off a body: two that build the same one offered the same blocks,
      acceptable or not. */
  lemma BuildIsSetEncoding(r: Rules, xs: seq<Member>, ys: seq<Member>)
    requires NoIdCollision(r, xs) && NoIdCollision(r, ys)
    ensures (forall m :: m in xs <==> m in ys) ==> BuildOf(r, xs) == BuildOf(r, ys)
    ensures BuildOf(r, xs) == BuildOf(r, ys) && BuildOf(r, xs).Built? ==> forall m :: m in xs <==> m in ys
  {
    var x, y := Ordered(r, xs), Ordered(r, ys);
    forall m ensures (m in x <==> m in xs) && (m in y <==> m in ys) {
      OrderedSet(r, xs, m);
      OrderedSet(r, ys, m);
    }
    OrderedSet(r, xs, Member(0, []));
    OrderedSet(r, ys, Member(0, []));
    hide EncodePack, Ordered, NoIdCollision;
    if forall m :: m in xs <==> m in ys { StrictUnique(x, y, IdOrder(r)); }
    if BuildOf(r, xs) == BuildOf(r, ys) && BuildOf(r, xs).Built? { EncodePackInjective(x, y); }
  }

  /** Exactly: a well-formed body is `build` of its own members if it is within the size limit, and is refused for its
      size otherwise. */
  lemma PackIsBuild(r: Rules, b: bytes)
    requires ParsePack(r, b).Some?
    ensures BuildOf(r, ParsePack(r, b).value) == if |b| <= MAX_PACK then Built(b) else Refused(TooLarge(|b|))
  {
    var ms := ParsePack(r, b).value;
    ParseExact(r, b, ms);
    SortFixed(ms, IdOrder(r));
    DedupFixed(ms, IdOrder(r));
    hide EncodePack, ParsePack, Sort, Dedup;
  }

  /** Why a build is refused, in the caller's terms: nothing offered, too many different ids, or too many bytes. */
  lemma BuildRefusals(r: Rules, members: seq<Member>)
    ensures BuildOf(r, members) == Refused(Empty) <==> members == []
    ensures BuildOf(r, members).Refused? && BuildOf(r, members).error.TooManyMembers? <==> |Keys(members, IdOrder(r))| > 65535
  {
    var key := IdOrder(r);
    UniqueSorted(members, key);
    UniqueSortedKeys(members, key);
    StrictSize(Ordered(r, members), key);
    if members != [] {
      assert key(members[0]) in Keys(members, key);
    }
  }
}
