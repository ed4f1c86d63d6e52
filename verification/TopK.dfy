/** Keeping the best `m` of a finite set under a total order, given as an injective rank. */
module TopK {
  import opened Options

  ghost predicate Injective<T>(s: set<T>, rank: T -> int) {
    forall x, y :: x in s && y in s && rank(x) == rank(y) ==> x == y
  }

  ghost function Below<T>(s: set<T>, rank: T -> int, x: T): set<T> {
    set y | y in s && rank(y) < rank(x)
  }

  /** The members with fewer than `m` better ones. */
  ghost function Top<T>(s: set<T>, rank: T -> int, m: nat): set<T> {
    set x | x in s && |Below(s, rank, x)| < m
  }

  lemma SubsetSize<T>(a: set<T>, b: set<T>)
    requires a <= b
    ensures |a| <= |b|
  {
    assert b == a + (b - a);
  }

  lemma BelowMonotone<T>(s: set<T>, u: set<T>, rank: T -> int, x: T)
    requires s <= u
    ensures Below(s, rank, x) <= Below(u, rank, x)
    ensures |Below(s, rank, x)| <= |Below(u, rank, x)|
  {
    SubsetSize(Below(s, rank, x), Below(u, rank, x));
  }

  lemma {:induction false} HasWorst<T>(s: set<T>, rank: T -> int) returns (w: T)
    requires s != {}
    ensures w in s && forall y :: y in s ==> rank(y) <= rank(w)
  {
    w :| w in s;
    if s != {w} {
      var v := HasWorst(s - {w}, rank);
      if rank(w) < rank(v) { w := v; }
    }
  }

  lemma {:induction false} TopSize<T>(s: set<T>, rank: T -> int, m: nat)
    requires Injective(s, rank)
    ensures |Top(s, rank, m)| == Min(|s|, m)
  {
    if s == {} {
      assert Top(s, rank, m) == {};
    } else {
      var w := HasWorst(s, rank);
      var rest := s - {w};
      TopSize(rest, rank, m);
      assert Below(s, rank, w) == rest;
      forall y | y in rest ensures Below(s, rank, y) == Below(rest, rank, y) {}
      if |rest| < m {
        assert Top(s, rank, m) == Top(rest, rank, m) + {w};
      } else {
        assert Top(s, rank, m) == Top(rest, rank, m);
      }
    }
  }

  /** A member kept from a union is kept from every part of the union that contains it. */
  lemma TopHereditary<T>(s: set<T>, u: set<T>, rank: T -> int, m: nat)
    requires s <= u
    ensures Top(u, rank, m) * s <= Top(s, rank, m)
  {
    forall x | x in Top(u, rank, m) * s ensures x in Top(s, rank, m) {
      BelowMonotone(s, u, rank, x);
    }
  }

  lemma BelowTop<T>(s: set<T>, rank: T -> int, m: nat, x: T)
    ensures Below(Top(s, rank, m), rank, x) == Top(Below(s, rank, x), rank, m)
  {
    forall y | y in Below(s, rank, x) ensures Below(Below(s, rank, x), rank, y) == Below(s, rank, y) {}
  }

  /** Something dropped is outranked by `m` things kept. */
  lemma TopBlocks<T>(s: set<T>, rank: T -> int, m: nat, x: T)
    requires Injective(s, rank)
    requires |Below(s, rank, x)| >= m
    ensures |Below(Top(s, rank, m), rank, x)| == m
  {
    BelowTop(s, rank, m, x);
    TopSize(Below(s, rank, x), rank, m);
  }

  /** Cutting a part first never changes the cut of the whole. */
  lemma TopAbsorbs<T>(a: set<T>, b: set<T>, rank: T -> int, m: nat)
    requires Injective(a + b, rank)
    ensures Top(Top(a, rank, m) + b, rank, m) == Top(a + b, rank, m)
  {
    var u := a + b;
    var w := Top(a, rank, m) + b;
    TopHereditary(a, u, rank, m);
    TopHereditary(w, u, rank, m);
    forall x | x in Top(w, rank, m) ensures x in Top(u, rank, m) {
      if |Below(u, rank, x)| >= m {
        TopBlocks(u, rank, m, x);
        BelowMonotone(Top(u, rank, m), w, rank, x);
      }
    }
  }

  /** Any set between the kept and the whole keeps the same. */
  lemma TopBetween<T>(u: set<T>, w: set<T>, rank: T -> int, m: nat)
    requires Injective(u, rank) && Top(u, rank, m) <= w <= u
    ensures Top(w, rank, m) == Top(u, rank, m)
  {
    TopHereditary(w, u, rank, m);
    forall x | x in Top(w, rank, m) ensures x in Top(u, rank, m) {
      if |Below(u, rank, x)| >= m {
        TopBlocks(u, rank, m, x);
        BelowMonotone(Top(u, rank, m), w, rank, x);
      }
    }
  }

  /** A set no larger than the bound is kept whole. */
  lemma TopAll<T>(s: set<T>, rank: T -> int, m: nat)
    requires |s| <= m
    ensures Top(s, rank, m) == s
  {
    forall x | x in s ensures |Below(s, rank, x)| < m {
      SubsetSize(Below(s, rank, x), s - {x});
    }
  }
}
