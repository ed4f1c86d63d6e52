/** The failure-compatible result of every reader in the project: what Rust's `Option` and `?` do. */
module Options {
  datatype Option<+T> = None | Some(value: T) {
    predicate IsFailure() { None? }

    function PropagateFailure<U>(): Option<U>
      requires None?
    {
      None
    }

    function Extract(): T
      requires Some?
    {
      value
    }
  }

  function Min(a: int, b: int): int {
    if a <= b then a else b
  }
}

/** Byte strings, the two integer encodings, and the order Rust gives byte arrays. */
module Bytes {
  import opened Options

  type byte = b: int | 0 <= b < 256
  type bytes = seq<byte>

  type u16 = n: int | 0 <= n < 0x1_0000
  type u32 = n: int | 0 <= n < 0x1_0000_0000
  type u64 = n: int | 0 <= n < 0x1_0000_0000_0000_0000

  type Bytes8 = b: bytes | |b| == 8 witness Zeros(8)
  type Bytes32 = b: bytes | |b| == 32 witness Zeros(32)
  type Bytes64 = b: bytes | |b| == 64 witness Zeros(64)

  function Zeros(n: nat): (b: bytes)
    ensures |b| == n
  {
    seq(n, _ => 0)
  }

  /** A literal, as bytes. */
  function Ascii(s: string): (b: bytes)
    ensures |b| == |s|
  {
    seq(|s|, i requires 0 <= i < |s| => s[i] as int % 256)
  }

  function Pow256(k: nat): (r: nat)
    ensures r >= 1
  {
    if k == 0 then 1 else 256 * Pow256(k - 1)
  }

  lemma PowValues()
    ensures Pow256(1) == 0x100 && Pow256(2) == 0x1_0000
    ensures Pow256(4) == 0x1_0000_0000 && Pow256(8) == 0x1_0000_0000_0000_0000
  {
    assert Pow256(3) == 256 * Pow256(2);
    assert Pow256(5) == 256 * Pow256(4);
    assert Pow256(6) == 256 * Pow256(5);
    assert Pow256(7) == 256 * Pow256(6);
  }

  // ------------------------------------------------------------ little-endian

  function LE(n: nat, k: nat): (b: bytes)
    ensures |b| == k
  {
    if k == 0 then [] else [n % 256] + LE(n / 256, k - 1)
  }

  function UnLE(b: bytes): nat {
    if b == [] then 0 else b[0] + 256 * UnLE(b[1..])
  }

  lemma {:induction false} UnLEOfLE(n: nat, k: nat)
    requires n < Pow256(k)
    ensures UnLE(LE(n, k)) == n
  {
    if k > 0 {
      UnLEOfLE(n / 256, k - 1);
      assert LE(n, k)[1..] == LE(n / 256, k - 1);
    }
  }

  lemma {:induction false} LEOfUnLE(b: bytes)
    ensures UnLE(b) < Pow256(|b|)
    ensures LE(UnLE(b), |b|) == b
  {
    if b != [] {
      LEOfUnLE(b[1..]);
      assert UnLE(b) / 256 == UnLE(b[1..]) && UnLE(b) % 256 == b[0];
      assert b == [b[0]] + b[1..];
    }
  }

  // --------------------------------------------------------------- big-endian

  /** A byte string read as a big-endian number. On strings of one length this is an order embedding. */
  function Num(b: bytes): nat {
    if b == [] then 0 else 256 * Num(b[..|b| - 1]) + b[|b| - 1]
  }

  function BE(n: nat, k: nat): (b: bytes)
    ensures |b| == k
  {
    if k == 0 then [] else BE(n / 256, k - 1) + [n % 256]
  }

  lemma {:induction false} NumOfBE(n: nat, k: nat)
    requires n < Pow256(k)
    ensures Num(BE(n, k)) == n
  {
    if k > 0 {
      NumOfBE(n / 256, k - 1);
      assert BE(n, k)[..k - 1] == BE(n / 256, k - 1);
    }
  }

  lemma {:induction false} BEOfNum(b: bytes)
    ensures Num(b) < Pow256(|b|)
    ensures BE(Num(b), |b|) == b
  {
    if b != [] {
      BEOfNum(b[..|b| - 1]);
      assert Num(b) / 256 == Num(b[..|b| - 1]) && Num(b) % 256 == b[|b| - 1];
      assert b == b[..|b| - 1] + [b[|b| - 1]];
    }
  }

  lemma NumInjective(a: bytes, b: bytes)
    requires |a| == |b| && Num(a) == Num(b)
    ensures a == b
  {
    BEOfNum(a);
    BEOfNum(b);
  }

  // ------------------------------------------------------------ lexicographic

  /** Rust's order on byte slices and arrays. */
  predicate Lex(a: bytes, b: bytes) {
    b != [] && (a == [] || a[0] < b[0] || (a[0] == b[0] && Lex(a[1..], b[1..])))
  }

  lemma {:induction false} LexTotal(a: bytes, b: bytes)
    ensures Lex(a, b) || a == b || Lex(b, a)
    ensures !(Lex(a, b) && Lex(b, a))
    ensures a == b ==> !Lex(a, b)
  {
    if a != [] && b != [] {
      LexTotal(a[1..], b[1..]);
      if a[0] == b[0] && a[1..] == b[1..] {
        assert a == [a[0]] + a[1..] == b;
      }
    }
  }

  lemma {:induction false} LexTransitive(a: bytes, b: bytes, c: bytes)
    requires Lex(a, b) && Lex(b, c)
    ensures Lex(a, c)
  {
    if a != [] && a[0] == b[0] == c[0] {
      LexTransitive(a[1..], b[1..], c[1..]);
    }
  }

  lemma {:induction false} LexIsNum(a: bytes, b: bytes)
    requires |a| == |b|
    ensures Lex(a, b) <==> Num(a) < Num(b)
  {
    if a != [] {
      var n := |a| - 1;
      LexIsNum(a[..n], b[..n]);
      LexLast(a, b);
      if a[..n] != b[..n] && Num(a[..n]) == Num(b[..n]) {
        NumInjective(a[..n], b[..n]);
      }
    }
  }

  /** On strings of one length the order can be read from the back. */
  lemma {:induction false} LexLast(a: bytes, b: bytes)
    requires |a| == |b| > 0
    ensures var n := |a| - 1;
            Lex(a, b) <==> Lex(a[..n], b[..n]) || (a[..n] == b[..n] && a[n] < b[n])
  {
    var n := |a| - 1;
    if n == 0 {
      assert !Lex(a[1..], b[1..]);
    } else {
      LexLast(a[1..], b[1..]);
      assert a[1..][..n - 1] == a[..n][1..] && b[1..][..n - 1] == b[..n][1..];
      assert a[..n] == [a[0]] + a[..n][1..] && b[..n] == [b[0]] + b[..n][1..];
      assert a[1..][n - 1] == a[n] && b[1..][n - 1] == b[n];
    }
  }

  // ------------------------------------------------------------------ readers

  /** Rust's `split_at_checked`. */
  function Take(b: bytes, n: nat): (r: Option<(bytes, bytes)>)
    ensures r.Some? <==> n <= |b|
    ensures r.Some? ==> |r.value.0| == n && r.value.0 + r.value.1 == b
  {
    if n <= |b| then Some((b[..n], b[n..])) else None
  }

  lemma TakeFront(a: bytes, t: bytes)
    ensures Take(a + t, |a|) == Some((a, t))
  {
    assert (a + t)[..|a|] == a && (a + t)[|a|..] == t;
  }

  /** A `k`-byte little-endian number at the front of `b`. */
  function ReadLE(b: bytes, k: nat): Option<(nat, bytes)> {
    var (h, t) :- Take(b, k);
    Some((UnLE(h), t))
  }

  lemma ReadLEFront(n: nat, k: nat, t: bytes)
    requires n < Pow256(k)
    ensures ReadLE(LE(n, k) + t, k) == Some((n, t))
  {
    TakeFront(LE(n, k), t);
    UnLEOfLE(n, k);
  }

  lemma ReadLEGives(b: bytes, k: nat)
    requires ReadLE(b, k).Some?
    ensures var (n, t) := ReadLE(b, k).value; n < Pow256(k) && b == LE(n, k) + t
  {
    LEOfUnLE(Take(b, k).value.0);
  }

  function ReadByte(b: bytes): Option<(byte, bytes)> {
    if b == [] then None else Some((b[0], b[1..]))
  }

  lemma ReadByteFront(x: byte, t: bytes)
    ensures ReadByte([x] + t) == Some((x, t))
  {
  }

  lemma ReadByteGives(b: bytes)
    requires ReadByte(b).Some?
    ensures b == [ReadByte(b).value.0] + ReadByte(b).value.1
  {
  }

  function ReadU16(b: bytes): (r: Option<(u16, bytes)>)
    ensures r.Some? ==> b == LE(r.value.0, 2) + r.value.1
  {
    if ReadLE(b, 2).Some? then
      ReadLEGives(b, 2);
      PowValues();
      Some((ReadLE(b, 2).value.0, ReadLE(b, 2).value.1))
    else None
  }

  function ReadU32(b: bytes): (r: Option<(u32, bytes)>)
    ensures r.Some? ==> b == LE(r.value.0, 4) + r.value.1
  {
    if ReadLE(b, 4).Some? then
      ReadLEGives(b, 4);
      PowValues();
      Some((ReadLE(b, 4).value.0, ReadLE(b, 4).value.1))
    else None
  }

  function ReadU64(b: bytes): (r: Option<(u64, bytes)>)
    ensures r.Some? ==> b == LE(r.value.0, 8) + r.value.1
  {
    if ReadLE(b, 8).Some? then
      ReadLEGives(b, 8);
      PowValues();
      Some((ReadLE(b, 8).value.0, ReadLE(b, 8).value.1))
    else None
  }

  lemma ReadU16Front(n: u16, t: bytes)
    ensures ReadU16(LE(n, 2) + t) == Some((n, t))
  {
    PowValues();
    ReadLEFront(n, 2, t);
  }

  lemma ReadU32Front(n: u32, t: bytes)
    ensures ReadU32(LE(n, 4) + t) == Some((n, t))
  {
    PowValues();
    ReadLEFront(n, 4, t);
  }

  lemma ReadU64Front(n: u64, t: bytes)
    ensures ReadU64(LE(n, 8) + t) == Some((n, t))
  {
    PowValues();
    ReadLEFront(n, 8, t);
  }
}
