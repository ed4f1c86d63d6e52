/** The signer bitmap's arithmetic: masks, population counts and the indices a bitmap selects. */
module Bits {
  import opened Options
  import opened Bytes
  import opened ByteOrder

  /** Bitwise and. */
  function And(a: nat, b: nat): nat
    decreases a
  {
    if a == 0 then 0 else (if a % 2 == 1 && b % 2 == 1 then 1 else 0) + 2 * And(a / 2, b / 2)
  }

  function CountOnes(a: nat): nat
    decreases a
  {
    if a == 0 then 0 else a % 2 + CountOnes(a / 2)
  }

  /** Right shift. */
  function Shr(a: nat, i: nat): nat
    decreases i
  {
    if i == 0 then a else Shr(a / 2, i - 1)
  }

  predicate Bit(a: nat, i: nat) {
    Shr(a, i) % 2 == 1
  }

  lemma {:induction false} ShrStep(a: nat, i: nat)
    ensures Shr(a, i + 1) == Shr(a, i) / 2
    decreases i
  {
    if i > 0 { ShrStep(a / 2, i - 1); }
  }

  // --------------------------------------------------------------------- the mask

  /** `u16::MAX >> (16 - n)`: built by shifting DOWN, so that a full keyset of 16 has a mask at all. */
  function Allowed(n: nat): nat
    requires n <= 16
  {
    Shr(0xFFFF, 16 - n)
  }

  lemma {:induction false} ShrOnes(m: nat, j: nat)
    requires j <= m
    ensures Shr(Pow2(m) - 1, j) == Pow2(m - j) - 1
    decreases j
  {
    if j > 0 {
      assert (Pow2(m) - 1) / 2 == Pow2(m - 1) - 1;
      ShrOnes(m - 1, j - 1);
    }
  }

  lemma Pow2Of16()
    ensures Pow2(16) == 0x1_0000
  {
    assert Pow2(4) == 16 && Pow2(8) == 256 && Pow2(12) == 4096;
  }

  lemma AllowedValue(n: nat)
    requires n <= 16
    ensures Allowed(n) == Pow2(n) - 1
  {
    Pow2Of16();
    ShrOnes(16, 16 - n);
  }

  /** `j` ones above `n` zeros. */
  function HighOnes(n: nat, j: nat): nat
    decreases n
  {
    if n == 0 then Pow2(j) - 1 else 2 * HighOnes(n - 1, j)
  }

  lemma {:induction false} HighOnesValue(n: nat, j: nat)
    ensures HighOnes(n, j) == Pow2(n + j) - Pow2(n)
    decreases n
  {
    if n > 0 { HighOnesValue(n - 1, j); }
  }

  lemma {:induction false} AndOnes(a: nat, j: nat)
    requires a < Pow2(j)
    ensures And(a, Pow2(j) - 1) == a
    decreases j
  {
    if j > 0 {
      AndOnes(a / 2, j - 1);
      assert (Pow2(j) - 1) / 2 == Pow2(j - 1) - 1 && (Pow2(j) - 1) % 2 == 1;
    }
  }

  lemma {:induction false} AndHigh(a: nat, n: nat, j: nat)
    requires a < Pow2(n + j)
    ensures And(a, HighOnes(n, j)) == 0 <==> a < Pow2(n)
    decreases n
  {
    if n == 0 {
      AndOnes(a, j);
    } else {
      AndHigh(a / 2, n - 1, j);
    }
  }

  /** The mask test `bitmap & !allowed != 0` finds exactly the bitmaps with a bit outside the keyset. */
  lemma MaskFindsStrayBits(a: u16, n: nat)
    requires n <= 16
    ensures 0xFFFF - Allowed(n) >= 0
    ensures And(a, 0xFFFF - Allowed(n)) == 0 <==> a < Pow2(n)
  {
    AllowedValue(n);
    Pow2Of16();
    HighOnesValue(n, 16 - n);
    AndHigh(a, n, 16 - n);
  }

  // ------------------------------------------------------------------- the indices

  /** The indices below `n` whose bit is set, in order, offset by `from`. */
  function Indices(a: nat, n: nat, from: nat): seq<nat>
    decreases n
  {
    if n == 0 then [] else (if a % 2 == 1 then [from] else []) + Indices(a / 2, n - 1, from + 1)
  }

  lemma {:induction false} IndicesCount(a: nat, n: nat, from: nat)
    requires a < Pow2(n)
    ensures |Indices(a, n, from)| == CountOnes(a)
    decreases n
  {
    if n > 0 { IndicesCount(a / 2, n - 1, from + 1); }
  }

  lemma {:induction false} IndexMeaning(a: nat, n: nat, from: nat, i: nat)
    ensures i in Indices(a, n, from) <==> from <= i < from + n && Bit(a, i - from)
    decreases n
  {
    if n > 0 {
      IndexMeaning(a / 2, n - 1, from + 1, i);
      var t := Indices(a / 2, n - 1, from + 1);
      assert i in Indices(a, n, from) <==> (a % 2 == 1 && i == from) || i in t;
    }
  }

  ghost predicate Increasing(s: seq<nat>) {
    forall i, j :: 0 <= i < j < |s| ==> s[i] < s[j]
  }

  lemma {:induction false} IndicesIncrease(a: nat, n: nat, from: nat)
    ensures Increasing(Indices(a, n, from))
    decreases n
  {
    if n > 0 {
      IndicesIncrease(a / 2, n - 1, from + 1);
      var t := Indices(a / 2, n - 1, from + 1);
      var h := if a % 2 == 1 then [from] else [];
      forall j | 0 <= j < |t| ensures from < t[j] {
        assert t[j] in t;
        IndexMeaning(a / 2, n - 1, from + 1, t[j]);
      }
      ConcatIncreases(h, t);
    }
  }

  lemma ConcatIncreases(h: seq<nat>, t: seq<nat>)
    requires |h| <= 1 && Increasing(t)
    requires |h| == 1 ==> forall j :: 0 <= j < |t| ==> h[0] < t[j]
    ensures Increasing(h + t)
  {
    var s := h + t;
    forall i, j | 0 <= i < j < |s| ensures s[i] < s[j] {
      assert s[j] == t[j - |h|];
      if i >= |h| { assert s[i] == t[i - |h|]; }
    }
  }

  /** `bitmap & (1 << i) != 0`. */
  lemma {:induction false} TestBit(a: nat, i: nat)
    ensures And(a, Pow2(i)) != 0 <==> Bit(a, i)
    decreases i
  {
    if i == 0 {
      AndZero(a / 2);
    } else {
      TestBit(a / 2, i - 1);
      assert Pow2(i) / 2 == Pow2(i - 1) && Pow2(i) % 2 == 0;
    }
  }

  lemma {:induction false} AndZero(a: nat)
    ensures And(a, 0) == 0
    decreases a
  {
    if a != 0 { AndZero(a / 2); }
  }
}
