/** Two loops over bytes that several contracts run: how many zero bits a hash starts with, and whether a key's
    y-coordinate is spelled below the field's modulus. */
module ByteOrder {
  import opened Options
  import opened Bytes

  // ------------------------------------------------------------ leading zeros

  /** Rust's `u8::leading_zeros`. */
  function Clz8(b: byte): nat {
    if b >= 128 then 0 else if b >= 64 then 1 else if b >= 32 then 2 else if b >= 16 then 3
    else if b >= 8 then 4 else if b >= 4 then 5 else if b >= 2 then 6 else if b >= 1 then 7 else 8
  }

  function Pow2(n: nat): (r: nat)
    ensures r >= 1
  {
    if n == 0 then 1 else 2 * Pow2(n - 1)
  }

  function LeadingZeros(h: bytes): nat {
    if h == [] then 0
    else Clz8(h[0]) + if h[0] != 0 then 0 else LeadingZeros(h[1..])
  }

  method CountLeadingZeros(h: bytes) returns (n: nat)
    ensures n == LeadingZeros(h)
  {
    n := 0;
    var i := 0;
    while i < |h|
      invariant 0 <= i <= |h|
      invariant LeadingZeros(h) == n + LeadingZeros(h[i..])
    {
      n := n + Clz8(h[i]);
      assert h[i..][1..] == h[i + 1..];
      if h[i] != 0 { return; }
      i := i + 1;
    }
  }

  /** What the count means: the top `n` of the `8 * |h|` bits are clear, and the next one is set. */
  lemma {:induction false} LeadingZerosMeaning(h: bytes)
    ensures var n := LeadingZeros(h);
            n <= 8 * |h| && Num(h) < Pow2(8 * |h| - n) && (n < 8 * |h| ==> Pow2(8 * |h| - n - 1) <= Num(h))
  {
    if h != [] {
      var k := |h| - 1;
      NumFront(h);
      BEOfNum(h[1..]);
      if h[0] == 0 {
        LeadingZerosMeaning(h[1..]);
        assert 0 * Pow256(k) == 0;
        assert h[0] * Pow256(k) == 0;
      } else {
        ByteBits(h[0]);
        TopByte(h[0], Num(h[1..]), k, Clz8(h[0]));
      }
    }
  }

  lemma TopByte(top: nat, rest: nat, k: nat, z: nat)
    requires z <= 7 && Pow2(7 - z) <= top < Pow2(8 - z) && rest < Pow256(k)
    ensures Pow2(8 * (k + 1) - z - 1) <= top * Pow256(k) + rest < Pow2(8 * (k + 1) - z)
  {
    var p := Pow256(k);
    Pow2Of256(k);
    Pow2Add(8 - z, 8 * k);
    Pow2Add(7 - z, 8 * k);
    Scale(top + 1, Pow2(8 - z), p);
    Scale(Pow2(7 - z), top, p);
    assert (top + 1) * p == top * p + p;
  }

  lemma Scale(a: nat, b: nat, p: nat)
    requires a <= b
    ensures a * p <= b * p
  {
  }

  lemma ByteBits(b: byte)
    requires b > 0
    ensures Clz8(b) <= 7 && Pow2(7 - Clz8(b)) <= b < Pow2(8 - Clz8(b))
  {
    assert Pow2(2) == 4 && Pow2(3) == 8;
    assert Pow2(4) == 16 && Pow2(5) == 32;
    assert Pow2(6) == 64 && Pow2(7) == 128 && Pow2(8) == 256;
  }

  lemma {:induction false} Pow2Add(a: nat, b: nat)
    ensures Pow2(a + b) == Pow2(a) * Pow2(b)
  {
    if a > 0 {
      Pow2Add(a - 1, b);
      assert Pow2(a + b) == 2 * (Pow2(a - 1) * Pow2(b)) == (2 * Pow2(a - 1)) * Pow2(b);
    }
  }

  lemma {:induction false} Pow2Of256(k: nat)
    ensures Pow2(8 * k) == Pow256(k)
  {
    if k > 0 {
      Pow2Of256(k - 1);
      Pow2Add(8, 8 * (k - 1));
      assert Pow2(4) == 16 && Pow2(8) == 256;
    }
  }

  lemma {:induction false} NumFront(h: bytes)
    requires h != []
    ensures Num(h) == h[0] * Pow256(|h| - 1) + Num(h[1..])
  {
    var n := |h| - 1;
    if n == 0 {
      assert h[..0] == [];
      TimesOne(h[0]);
    } else {
      NumFront(h[..n]);
      assert h[..n][1..] == h[1..][..n - 1] && h[1..][n - 1] == h[n];
      Regroup(h[0], Pow256(n - 1));
    }
  }

  lemma TimesOne(a: nat)
    ensures a * Pow256(0) == a
  {
  }

  lemma Regroup(a: nat, p: nat)
    ensures 256 * (a * p) == a * (256 * p)
  {
  }

  /** `(work descending, hash ascending)` as the contracts write it. */
  predicate WorkThenHash(a: bytes, b: bytes) {
    LeadingZeros(a) > LeadingZeros(b) || (LeadingZeros(a) == LeadingZeros(b) && Lex(a, b))
  }

  /** Sorting by work adds nothing to sorting by name: the two orders are one. */
  lemma WorkOrderIsNameOrder(a: bytes, b: bytes)
    requires |a| == |b|
    ensures WorkThenHash(a, b) <==> Lex(a, b)
    ensures LeadingZeros(a) > LeadingZeros(b) ==> Lex(a, b)
  {
    LexTotal(a, b);
    if LeadingZeros(a) > LeadingZeros(b) { MoreZerosFirst(a, b); }
    if LeadingZeros(b) > LeadingZeros(a) { MoreZerosFirst(b, a); }
  }

  lemma {:induction false} MoreZerosFirst(a: bytes, b: bytes)
    requires |a| == |b| && LeadingZeros(a) > LeadingZeros(b)
    ensures Lex(a, b)
  {
    if a != [] && a[0] == b[0] { MoreZerosFirst(a[1..], b[1..]); }
  }

  // --------------------------------------------------------- canonical points

  function Repeat(x: byte, n: nat): (b: bytes)
    ensures |b| == n
    ensures forall i :: 0 <= i < n ==> b[i] == x
  {
    if n == 0 then [] else [x] + Repeat(x, n - 1)
  }

  /** 2^255 - 19, little-endian. */
  const P_LE: Bytes32 := [0xed] + Repeat(0xff, 30) + [0x7f]

  /** The `y` coordinate of an encoded point: the sign bit of the last byte is not part of it. */
  function ClearSign(b: Bytes32): Bytes32 {
    b[31 := b[31] % 128]
  }

  method KeyIsCanonical(b: Bytes32) returns (r: bool)
    ensures r == CanonicalKey(b)
  {
    var y := ClearSign(b);
    var i := 32;
    PValue();
    ModulusValue();
    while i > 0
      invariant 0 <= i <= 32
      invariant y[i..] == P_LE[i..]
    {
      i := i - 1;
      if y[i] != P_LE[i] {
        LEFirstDifference(y, P_LE, i);
        return y[i] < P_LE[i];
      }
      assert y[i..] == [y[i]] + y[i + 1..] && P_LE[i..] == [P_LE[i]] + P_LE[i + 1..];
    }
    assert y == y[0..] && P_LE == P_LE[0..];
    return false;
  }

  /** 2^255 - 19 as a number. */
  const P: nat := 57896044618658097711785492504343953926634992332820282019728792003956564819949

  /** The decoded y, read little-endian without the sign bit, is below the field modulus. */
  predicate CanonicalKey(b: Bytes32) {
    UnLE(ClearSign(b)) < P
  }

  /** Section 5.1.3 of RFC 8032: y is below 2^255 - 19. */
  lemma CanonicalKeyMeaning(b: Bytes32)
    ensures CanonicalKey(b) <==> UnLE(ClearSign(b)) < Pow2(255) - 19
  {
    ModulusValue();
  }

  lemma ModulusValue()
    ensures Pow2(255) - 19 == P
  {
    assert Pow2(4) == 16 && Pow2(7) == 128;
    Doubled(8, 256);
    Doubled(16, 65536);
    Doubled(32, 4294967296);
    Doubled(64, 18446744073709551616);
    assert Pow2(128) == 2 * Pow2(127);
    Doubled(127, 170141183460469231731687303715884105728);
  }

  lemma Doubled(n: nat, v: nat)
    requires Pow2(n) == v
    ensures Pow2(2 * n) == v * v && Pow2(2 * n + 1) == 2 * v * v
  {
    Pow2Add(n, n);
  }

  /** Two strings that agree above index `i` compare, little-endian, as their bytes at `i` do. */
  lemma {:induction false} LEFirstDifference(a: bytes, b: bytes, i: nat)
    requires |a| == |b| && i < |a| && a[i] != b[i] && a[i + 1..] == b[i + 1..]
    ensures UnLE(a) < UnLE(b) <==> a[i] < b[i]
  {
    if i > 0 {
      assert a[1..][i..] == a[i + 1..] && b[1..][i..] == b[i + 1..];
      LEFirstDifference(a[1..], b[1..], i - 1);
      LEEqual(a[1..], b[1..]);
    }
  }

  lemma LEEqual(a: bytes, b: bytes)
    requires |a| == |b|
    ensures UnLE(a) == UnLE(b) <==> a == b
  {
    LEOfUnLE(a);
    LEOfUnLE(b);
  }

  /** The limbs of the constant spell 2^255 - 19. */
  lemma PValue()
    ensures UnLE(P_LE) == Pow2(255) - 19
  {
    var ones := Repeat(0xff, 30);
    assert P_LE[1..] == ones + [0x7f];
    OnesThenTop(ones);
    Pow2Of256(31);
    Pow2Add(7, 248);
    PowSeven();
  }

  lemma PowSeven()
    ensures Pow2(7) == 128
  {
    assert Pow2(4) == 16;
  }

  lemma {:induction false} OnesThenTop(ones: bytes)
    requires forall i :: 0 <= i < |ones| ==> ones[i] == 0xff
    ensures UnLE(ones + [0x7f]) == 128 * Pow256(|ones|) - 1
  {
    if ones == [] {
      assert ones + [0x7f] == [0x7f];
    } else {
      OnesThenTop(ones[1..]);
      assert (ones + [0x7f])[1..] == ones[1..] + [0x7f];
    }
  }
}
