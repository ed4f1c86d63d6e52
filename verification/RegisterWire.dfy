/** The Register's encodings and its signature rule (register/src/wire.rs). */
module RegisterWire {
  import opened Options
  import opened Bytes
  import opened ByteOrder
  import opened Bits
  import opened Crypto
  import opened Lists

  const MAX_LABEL := 64
  const TERMINAL_VALUE_LEN := 32
  const MAX_VALUE := 4096
  const MAX_N := 16
  const MAGIC: bytes := [82, 71, 48, 49]  // "RG01"
  const SIG_DOMAIN: bytes := [82, 71, 48, 49, 45, 115, 105, 103]  // "RG01-sig"

  // ------------------------------------------------------------------ authority

  datatype Authority = One(key: Bytes32) | Quorum(k: nat, keys: seq<Bytes32>)

  function SigsRequired(a: Authority): nat {
    if a.One? then 1 else a.k
  }

  function BitmapLen(a: Authority): nat {
    if a.One? then 0 else 2
  }

  predicate KeysOk(c: Crypto, keys: seq<Bytes32>) {
    && (forall i :: 0 <= i < |keys| ==> UsableKey(c, keys[i]))
    && (forall i :: 0 < i < |keys| ==> Lex(keys[i - 1], keys[i]))
  }

  predicate AuthorityOk(c: Crypto, a: Authority) {
    match a
    case One(key) => UsableKey(c, key)
    case Quorum(k, keys) => 1 <= k <= |keys| <= MAX_N && KeysOk(c, keys)
  }

  /** No key stands at two indices, so no member counts twice toward the threshold. */
  lemma {:induction false} SortedKeysDistinct(c: Crypto, keys: seq<Bytes32>, i: nat, j: nat)
    requires KeysOk(c, keys) && i < j < |keys|
    ensures Lex(keys[i], keys[j]) && keys[i] != keys[j]
    decreases j
  {
    if i < j - 1 {
      SortedKeysDistinct(c, keys, i, j - 1);
      LexTransitive(keys[i], keys[j - 1], keys[j]);
    }
    LexTotal(keys[i], keys[j]);
  }

  // --------------------------------------------------------------------- params

  datatype Params = Params(authority: Authority, tag: bytes, hash: Bytes32)

  function PutKeys(keys: seq<Bytes32>, rest: bytes): bytes {
    if keys == [] then rest else keys[0] + PutKeys(keys[1..], rest)
  }

  function EncodeParams(p: Params): bytes {
    match p.authority
    case One(key) => MAGIC + ([0] + (key + p.tag))
    case Quorum(k, keys) => MAGIC + ([1] + ([k % 256] + ([|keys| % 256] + PutKeys(keys, p.tag))))
  }

  predicate ParamsOk(c: Crypto, p: Params) {
    AuthorityOk(c, p.authority) && |p.tag| <= MAX_LABEL && p.hash == c.hash(EncodeParams(p))
  }

  /** Each key must be usable and above the one before it; bit `i` of a bitmap then means key `i`. */
  function ReadKeys(c: Crypto, b: bytes, n: nat, prev: Option<Bytes32>): Option<(seq<Bytes32>, bytes)>
    decreases n
  {
    if n == 0 then Some(([], b)) else
    var (key, r1) :- Take(b, 32);
    if (prev.Some? && !Lex(prev.value, key)) || !UsableKey(c, key) then None else
    var (keys, r2) :- ReadKeys(c, r1, n - 1, Some(key));
    Some(([key] + keys, r2))
  }

  function ReadAuthority(c: Crypto, b: bytes): Option<(Authority, bytes)> {
    var (mode, r1) :- ReadByte(b);
    if mode == 0 then
      var (key, r2) :- Take(r1, 32);
      if UsableKey(c, key) then Some((One(key), r2)) else None
    else if mode == 1 then
      var (k, r2) :- ReadByte(r1);
      var (n, r3) :- ReadByte(r2);
      if k == 0 || n == 0 || k > n || n > MAX_N then None else
      var (keys, r4) :- ReadKeys(c, r3, n, None);
      Some((Quorum(k, keys), r4))
    else None
  }

  function ParseParams(c: Crypto, b: bytes): Option<Params> {
    var (magic, r1) :- Take(b, 4);
    if magic != MAGIC then None else
    var (a, r2) :- ReadAuthority(c, r1);
    if |r2| > MAX_LABEL then None else Some(Params(a, r2, c.hash(b)))
  }

  ghost predicate KeyChain(c: Crypto, keys: seq<Bytes32>, prev: Option<Bytes32>) {
    KeysOk(c, keys) && (prev.Some? && keys != [] ==> Lex(prev.value, keys[0]))
  }

  lemma KeyChainTail(c: Crypto, keys: seq<Bytes32>, prev: Option<Bytes32>)
    requires keys != []
    ensures KeyChain(c, keys, prev) <==>
            UsableKey(c, keys[0]) && (prev.Some? ==> Lex(prev.value, keys[0])) && KeyChain(c, keys[1..], Some(keys[0]))
  {
    var t := keys[1..];
    if UsableKey(c, keys[0]) && KeyChain(c, t, Some(keys[0])) {
      forall i | 0 < i < |keys| ensures Lex(keys[i - 1], keys[i]) {
        assert keys[i] == t[i - 1];
        if i > 1 { assert keys[i - 1] == t[i - 2]; }
      }
      forall i | 0 <= i < |keys| ensures UsableKey(c, keys[i]) {
        if i > 0 { assert keys[i] == t[i - 1]; }
      }
    }
  }

  lemma {:induction false} ReadKeysFront(c: Crypto, keys: seq<Bytes32>, prev: Option<Bytes32>, rest: bytes)
    requires KeyChain(c, keys, prev)
    ensures ReadKeys(c, PutKeys(keys, rest), |keys|, prev) == Some((keys, rest))
    decreases |keys|
  {
    if keys != [] {
      KeyChainTail(c, keys, prev);
      ReadKeysFront(c, keys[1..], Some(keys[0]), rest);
      TakeFront(keys[0], PutKeys(keys[1..], rest));
      assert keys == [keys[0]] + keys[1..];
    }
  }

  lemma {:induction false} ReadKeysGives(c: Crypto, b: bytes, n: nat, prev: Option<Bytes32>)
    requires ReadKeys(c, b, n, prev).Some?
    ensures var (keys, rest) := ReadKeys(c, b, n, prev).value;
            |keys| == n && KeyChain(c, keys, prev) && b == PutKeys(keys, rest)
    decreases n
  {
    if n > 0 {
      var (key, r1) := Take(b, 32).value;
      ReadKeysGives(c, r1, n - 1, Some(key));
      var (keys, rest) := ReadKeys(c, b, n, prev).value;
      assert keys[1..] == ReadKeys(c, r1, n - 1, Some(key)).value.0;
      KeyChainTail(c, keys, prev);
    }
  }

  /** One encoding per parameter set. */
  lemma ParamsExact(c: Crypto, b: bytes, p: Params)
    ensures ParseParams(c, b) == Some(p) <==> ParamsOk(c, p) && b == EncodeParams(p)
  {
    if ParseParams(c, b).Some? { ParamsOfParse(c, b); }
    if ParamsOk(c, p) && b == EncodeParams(p) { ParseOfParams(c, p); }
  }

  lemma ReadAuthorityGives(c: Crypto, b: bytes)
    requires ReadAuthority(c, b).Some?
    ensures var (a, rest) := ReadAuthority(c, b).value;
            AuthorityOk(c, a) && MAGIC + b == EncodeParams(Params(a, rest, Zeros(32)))
  {
    hide UsableKey, ReadByte, ReadKeys, PutKeys;
    var (mode, r1) := ReadByte(b).value;
    ReadByteGives(b);
    if mode == 1 {
      var (k, r2) := ReadByte(r1).value;
      ReadByteGives(r1);
      var (n, r3) := ReadByte(r2).value;
      ReadByteGives(r2);
      ReadKeysGives(c, r3, n, None);
    }
  }

  lemma ParamsOfParse(c: Crypto, b: bytes)
    requires ParseParams(c, b).Some?
    ensures var p := ParseParams(c, b).value; ParamsOk(c, p) && b == EncodeParams(p)
  {
    ReadAuthorityGives(c, Take(b, 4).value.1);
    hide ReadAuthority, AuthorityOk;
  }

  lemma ParseOfParams(c: Crypto, p: Params)
    requires ParamsOk(c, p)
    ensures ParseParams(c, EncodeParams(p)) == Some(p)
  {
    hide UsableKey;
    match p.authority
    case One(key) =>
      TakeFront(MAGIC, [0] + (key + p.tag));
      ReadByteFront(0, key + p.tag);
      TakeFront(key, p.tag);
    case Quorum(k, keys) =>
      var t := PutKeys(keys, p.tag);
      TakeFront(MAGIC, [1] + ([k % 256] + ([|keys| % 256] + t)));
      ReadByteFront(1, [k % 256] + ([|keys| % 256] + t));
      ReadByteFront(k % 256, [|keys| % 256] + t);
      ReadByteFront(|keys| % 256, t);
      ReadKeysFront(c, keys, None, p.tag);
  }

  lemma {:induction false} ReadKeysNeeds(c: Crypto, b: bytes, n: nat, prev: Option<Bytes32>)
    requires ReadKeys(c, b, n, prev).Some?
    ensures n * 32 <= |b|
    decreases n
  {
    if n > 0 {
      var (key, r1) := Take(b, 32).value;
      ReadKeysNeeds(c, r1, n - 1, Some(key));
    }
  }

  /** The keyset as its loop runs: all the bytes first, then each key against the one before it. */
  method ReadKeyList(c: Crypto, b: bytes, n: nat) returns (r: Option<(seq<Bytes32>, bytes)>)
    ensures r == ReadKeys(c, b, n, None)
  {
    hide UsableKey;
    ghost var whole := ReadKeys(c, b, n, None);
    if n * 32 > |b| {
      if whole.Some? { ReadKeysNeeds(c, b, n, None); }
      return None;
    }
    AfterNothing(whole);
    var rest := b;
    var keys: seq<Bytes32> := [];
    var prev: Option<Bytes32> := None;
    var i := 0;
    while i < n
      invariant 0 <= i <= n && |rest| >= (n - i) * 32
      invariant whole == After(keys, ReadKeys(c, rest, n - i, prev))
    {
      var key: Bytes32 := rest[..32];
      if prev.Some? && !Lex(prev.value, key) { return None; }
      if !UsableKey(c, key) { return None; }
      AfterMore(keys, [key], ReadKeys(c, rest[32..], n - i - 1, Some(key)));
      keys := keys + [key];
      prev := Some(key);
      rest := rest[32..];
      i := i + 1;
    }
    assert keys + [] == keys;
    return Some((keys, rest));
  }

  /** `Params::parse` as it runs. */
  method ReadParams(c: Crypto, b: bytes) returns (r: Option<Params>)
    ensures r == ParseParams(c, b)
  {
    hide UsableKey, ReadKeys;
    var head := Take(b, 4);
    if head.None? || head.value.0 != MAGIC { return None; }
    var rest := head.value.1;
    if |rest| == 0 { return None; }
    var mode := rest[0];
    rest := rest[1..];
    var authority: Authority;
    if mode == 0 {
      var key := Take(rest, 32);
      if key.None? || !UsableKey(c, key.value.0) { return None; }
      authority := One(key.value.0);
      rest := key.value.1;
    } else if mode == 1 {
      if |rest| < 2 { return None; }
      var k, n := rest[0], rest[1];
      assert rest[1..][1..] == rest[2..];
      if k == 0 || n == 0 || k > n || n > MAX_N { return None; }
      var keys := ReadKeyList(c, rest[2..], n);
      if keys.None? { return None; }
      authority := Quorum(k, keys.value.0);
      rest := keys.value.1;
    } else {
      return None;
    }
    return if |rest| > MAX_LABEL then None else Some(Params(authority, rest, c.hash(b)));
  }

  // ------------------------------------------------------------------ decisions

  datatype Decision = Decision(terminal: bool, seq_: u64, valueHash: Bytes32)

  /** Terminal beats live; among equals in that the larger seq wins, and at one seq the SMALLER value hash. */
  predicate Outranks(d: Decision, e: Decision) {
    if d.terminal != e.terminal then d.terminal
    else if d.seq_ != e.seq_ then d.seq_ > e.seq_
    else Lex(d.valueHash, e.valueHash)
  }

  lemma OutranksTotal(d: Decision, e: Decision)
    ensures Outranks(d, e) || d == e || Outranks(e, d)
    ensures !(Outranks(d, e) && Outranks(e, d))
    ensures !Outranks(d, d)
  {
    LexTotal(d.valueHash, e.valueHash);
    LexTotal(d.valueHash, d.valueHash);
  }

  lemma OutranksTransitive(d: Decision, e: Decision, f: Decision)
    requires Outranks(d, e) && Outranks(e, f)
    ensures Outranks(d, f)
  {
    if Lex(d.valueHash, e.valueHash) && Lex(e.valueHash, f.valueHash) {
      LexTransitive(d.valueHash, e.valueHash, f.valueHash);
    }
  }

  datatype Signed = Signed(terminal: bool, seq_: u64, valueHash: Bytes32, bitmap: u16, sigs: seq<Bytes64>)

  function DecisionOf(s: Signed): Decision {
    Decision(s.terminal, s.seq_, s.valueHash)
  }

  function Message(p: Params, d: Decision): bytes {
    SIG_DOMAIN + (p.hash + ([if d.terminal then 1 else 0] + (LE(d.seq_, 8) + d.valueHash)))
  }

  /** A message names one register and one decision. */
  lemma MessageNamesDecision(p: Params, q: Params, d: Decision, e: Decision)
    ensures Message(p, d) == Message(q, e) <==> p.hash == q.hash && d == e
  {
    if Message(p, d) == Message(q, e) {
      var x, y := Message(p, d), Message(q, e);
      hide LE;
      assert x[8..40] == p.hash && y[8..40] == q.hash;
      assert x[40] == (if d.terminal then 1 else 0) && y[40] == (if e.terminal then 1 else 0);
      assert x[41..49] == LE(d.seq_, 8) && y[41..49] == LE(e.seq_, 8);
      assert x[49..] == d.valueHash && y[49..] == e.valueHash;
      PowValues();
      UnLEOfLE(d.seq_, 8);
      UnLEOfLE(e.seq_, 8);
    }
  }

  /** A fork: one seq given two values, or the register ended on two values. */
  predicate Conflicts(d: Decision, e: Decision) {
    d.valueHash != e.valueHash && (d.seq_ == e.seq_ || (d.terminal && e.terminal))
  }

  // ------------------------------------------------------------ the signature rule

  /** The shapes a signature block may have: the right count, and a bitmap that names exactly that many keys. */
  predicate SigsOk(a: Authority, bitmap: u16, sigs: seq<Bytes64>) {
    match a
    case One(_) => bitmap == 0 && |sigs| == 1
    case Quorum(k, keys) =>
      && |keys| <= MAX_N
      && CountOnes(bitmap) == k
      && (MaskFindsStrayBits(bitmap, |keys|); And(bitmap, 0xFFFF - Allowed(|keys|)) == 0)
      && |sigs| == k
  }

  /** The keys a bitmap flags, in index order. */
  function Flagged(keys: seq<Bytes32>, bitmap: nat, i: nat): seq<Bytes32>
    requires i <= |keys|
    decreases |keys| - i
  {
    if i == |keys| then [] else (if And(bitmap, Pow2(i)) != 0 then [keys[i]] else []) + Flagged(keys, bitmap, i + 1)
  }

  function SignersOf(a: Authority, bitmap: nat): seq<Bytes32> {
    if a.One? then [a.key] else Flagged(a.keys, bitmap, 0)
  }

  /** As many signatures as flagged keys, and signature `j` under the `j`-th of them. */
  predicate VerifySigned(c: Crypto, p: Params, s: Signed) {
    var keys := SignersOf(p.authority, s.bitmap);
    && |keys| == |s.sigs|
    && forall j :: 0 <= j < |s.sigs| ==> c.verifies(keys[j], Message(p, DecisionOf(s)), s.sigs[j])
  }

  /** The keys at a list of indices. */
  ghost function KeysAt(keys: seq<Bytes32>, at: seq<nat>): seq<Bytes32>
    decreases |at|
  {
    if at == [] then [] else [if at[0] < |keys| then keys[at[0]] else Zeros(32)] + KeysAt(keys, at[1..])
  }

  lemma {:induction false} KeyAt(keys: seq<Bytes32>, at: seq<nat>, j: nat)
    requires j < |at|
    ensures |KeysAt(keys, at)| == |at|
    ensures at[j] < |keys| ==> KeysAt(keys, at)[j] == keys[at[j]]
    decreases |at|
  {
    if |at| > 1 { KeyAt(keys, at[1..], if j > 0 then j - 1 else 0); }
  }

  lemma {:induction false} FlaggedAreIndices(keys: seq<Bytes32>, bitmap: nat, i: nat)
    requires i <= |keys|
    ensures Flagged(keys, bitmap, i) == KeysAt(keys, Indices(Shr(bitmap, i), |keys| - i, i))
    decreases |keys| - i
  {
    if i < |keys| {
      hide Indices, Shr, And, Pow2, Bit, KeysAt, Flagged;
      var n: nat := |keys| - i - 1;
      var t := Indices(Shr(bitmap, i + 1), n, i + 1);
      FlaggedAreIndices(keys, bitmap, i + 1);
      NextFlag(bitmap, n, i);
      FlaggedStep(keys, bitmap, i);
      if And(bitmap, Pow2(i)) != 0 {
        KeysAtCons(keys, i, t);
      } else {
        assert [] + t == t;
      }
    }
  }

  lemma FlaggedStep(keys: seq<Bytes32>, bitmap: nat, i: nat)
    requires i < |keys|
    ensures Flagged(keys, bitmap, i)
         == if And(bitmap, Pow2(i)) != 0 then [keys[i]] + Flagged(keys, bitmap, i + 1) else Flagged(keys, bitmap, i + 1)
  {
    hide And, Pow2;
    var rest := Flagged(keys, bitmap, i + 1);
    assert [] + rest == rest;
  }

  lemma KeysAtCons(keys: seq<Bytes32>, i: nat, t: seq<nat>)
    requires i < |keys|
    ensures KeysAt(keys, [i] + t) == [keys[i]] + KeysAt(keys, t)
  {
    assert ([i] + t)[1..] == t;
  }

  /** One step of the walk over a bitmap. */
  lemma NextFlag(bitmap: nat, n: nat, i: nat)
    ensures Indices(Shr(bitmap, i), n + 1, i)
         == (if And(bitmap, Pow2(i)) != 0 then [i] else []) + Indices(Shr(bitmap, i + 1), n, i + 1)
  {
    TestBit(bitmap, i);
    ShrStep(bitmap, i);
  }

  /** k of n: if a well-shaped block verifies, then `k` different members of the keyset, at strictly increasing
      indices named by the bitmap, each signed the message with the signature in its own place. `n = 16` included. */
  lemma ThresholdMeaning(c: Crypto, p: Params, s: Signed)
    requires AuthorityOk(c, p.authority) && p.authority.Quorum?
    requires SigsOk(p.authority, s.bitmap, s.sigs) && VerifySigned(c, p, s)
    ensures var keys := p.authority.keys;
            var at := Indices(s.bitmap, |keys|, 0);
            && |at| == |s.sigs| == p.authority.k
            && (forall j :: 0 <= j < |at| ==>
                  at[j] < |keys| && c.verifies(keys[at[j]], Message(p, DecisionOf(s)), s.sigs[j]))
            && (forall i: nat :: i in at <==> i < |keys| && Bit(s.bitmap, i))
            && Increasing(at)
            && (forall i, j :: 0 <= i < j < |at| ==> keys[at[i]] != keys[at[j]])
  {
    var keys := p.authority.keys;
    var at := Indices(s.bitmap, |keys|, 0);
    SelectedIndices(p.authority, s.bitmap, s.sigs);
    IndicesAreSetBits(s.bitmap, |keys|);
    SignedAtIndices(c, p, s, at);
    hide Bit, Indices, SigsOk, Message, Increasing, AuthorityOk, VerifySigned;
    AtDistinctKeys(c, p.authority, at);
  }

  lemma IndicesAreSetBits(bitmap: nat, n: nat)
    ensures forall i: nat :: i in Indices(bitmap, n, 0) <==> i < n && Bit(bitmap, i)
  {
    hide Bit, Indices;
    forall i: nat ensures i in Indices(bitmap, n, 0) <==> i < n && Bit(bitmap, i) { IndexMeaning(bitmap, n, 0, i); }
  }

  /** Walking the keys at a list of indices, each signature was checked under the key at its own index. */
  lemma SignedAtIndices(c: Crypto, p: Params, s: Signed, at: seq<nat>)
    requires p.authority.Quorum? && VerifySigned(c, p, s)
    requires SignersOf(p.authority, s.bitmap) == KeysAt(p.authority.keys, at) && |at| == |s.sigs|
    requires at == Indices(s.bitmap, |p.authority.keys|, 0)
    ensures forall j :: 0 <= j < |at| ==>
              at[j] < |p.authority.keys| && c.verifies(p.authority.keys[at[j]], Message(p, DecisionOf(s)), s.sigs[j])
  {
    hide Bit, Indices, Message, Flagged, KeysAt;
    forall j | 0 <= j < |at|
      ensures at[j] < |p.authority.keys| && c.verifies(p.authority.keys[at[j]], Message(p, DecisionOf(s)), s.sigs[j])
    {
      assert at[j] in at;
      IndexMeaning(s.bitmap, |p.authority.keys|, 0, at[j]);
      KeyAt(p.authority.keys, at, j);
    }
  }

  /** A bitmap the parser accepts selects exactly `k` indices, and the verifier walks exactly their keys. */
  lemma SelectedIndices(a: Authority, bitmap: u16, sigs: seq<Bytes64>)
    requires a.Quorum? && SigsOk(a, bitmap, sigs)
    ensures var at := Indices(bitmap, |a.keys|, 0);
            |at| == |sigs| == a.k && Increasing(at) && SignersOf(a, bitmap) == KeysAt(a.keys, at)
  {
    MaskFindsStrayBits(bitmap, |a.keys|);
    IndicesCount(bitmap, |a.keys|, 0);
    IndicesIncrease(bitmap, |a.keys|, 0);
    FlaggedAreIndices(a.keys, bitmap, 0);
  }

  lemma AtDistinctKeys(c: Crypto, a: Authority, at: seq<nat>)
    requires AuthorityOk(c, a) && a.Quorum?
    requires Increasing(at) && forall j :: 0 <= j < |at| ==> at[j] < |a.keys|
    ensures forall i, j :: 0 <= i < j < |at| ==> a.keys[at[i]] != a.keys[at[j]]
  {
    forall i, j | 0 <= i < j < |at| ensures a.keys[at[i]] != a.keys[at[j]] {
      SortedKeysDistinct(c, a.keys, at[i], at[j]);
    }
  }
}
