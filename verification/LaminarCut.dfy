/** The Set's cut, on slots alone: a first pass bounds every signer, a second bounds every tier of what is left. A
    signer has one tier, so the groups of the first pass lie inside those of the second; that nesting is why the cut
    absorbs. */
module LaminarCut {
  import opened Options
  import opened Bytes
  import opened TopK

  /** A slot and a signer are 32 bytes. `who` names a slot's signer, `tier` a signer's tier; `rank` orders slots. */
  datatype Rule = Rule(rank: Bytes32 -> int, who: Bytes32 -> Bytes32, tier: Bytes32 -> int, quota: nat, m: nat)

  ghost function Of(r: Rule, s: set<Bytes32>, g: Bytes32): set<Bytes32> {
    set y | y in s && r.who(y) == g
  }

  ghost function InTier(r: Rule, s: set<Bytes32>, t: int): set<Bytes32> {
    set y | y in s && r.tier(r.who(y)) == t
  }

  /** First pass: the best `quota` of each signer. */
  ghost function QuotaPass(r: Rule, s: set<Bytes32>): set<Bytes32> {
    set x | x in s && |Below(Of(r, s, r.who(x)), r.rank, x)| < r.quota
  }

  /** Second pass: of what the first left, a slot stays while fewer than `m` of its tier rank before it. */
  ghost function Cut(r: Rule, s: set<Bytes32>): set<Bytes32> {
    set x | x in QuotaPass(r, s) && |Below(InTier(r, QuotaPass(r, s), r.tier(r.who(x))), r.rank, x)| < r.m
  }

  lemma AddMember(r: Rule, s: set<Bytes32>, x: Bytes32, t: int, g: Bytes32)
    requires x !in s
    ensures |InTier(r, s + {x}, t)| == |InTier(r, s, t)| + if r.tier(r.who(x)) == t then 1 else 0
    ensures |Of(r, s + {x}, g)| == |Of(r, s, g)| + if r.who(x) == g then 1 else 0
  {
    if r.tier(r.who(x)) == t {
      assert InTier(r, s + {x}, t) == InTier(r, s, t) + {x};
    } else {
      assert InTier(r, s + {x}, t) == InTier(r, s, t);
    }
    if r.who(x) == g {
      assert Of(r, s + {x}, g) == Of(r, s, g) + {x};
    } else {
      assert Of(r, s + {x}, g) == Of(r, s, g);
    }
  }

  lemma QuotaOf(r: Rule, s: set<Bytes32>, g: Bytes32)
    ensures Of(r, QuotaPass(r, s), g) == Top(Of(r, s, g), r.rank, r.quota)
  {
  }

  lemma CutInTier(r: Rule, s: set<Bytes32>, t: int)
    ensures InTier(r, Cut(r, s), t) == Top(InTier(r, QuotaPass(r, s), t), r.rank, r.m)
  {
  }

  lemma InjectiveOf(r: Rule, s: set<Bytes32>, g: Bytes32)
    requires Injective(s, r.rank)
    ensures Injective(Of(r, s, g), r.rank)
  {
  }

  lemma QuotaBelow(r: Rule, s: set<Bytes32>, x: Bytes32)
    ensures Below(QuotaPass(r, s), r.rank, x) == QuotaPass(r, Below(s, r.rank, x))
  {
    var b := Below(s, r.rank, x);
    forall y | y in b ensures Below(Of(r, b, r.who(y)), r.rank, y) == Below(Of(r, s, r.who(y)), r.rank, y) {}
  }

  lemma TierBelow(r: Rule, s: set<Bytes32>, t: int, x: Bytes32)
    ensures Below(InTier(r, QuotaPass(r, s), t), r.rank, x) == InTier(r, QuotaPass(r, Below(s, r.rank, x)), t)
  {
    QuotaBelow(r, s, x);
    assert Below(InTier(r, QuotaPass(r, s), t), r.rank, x) == InTier(r, Below(QuotaPass(r, s), r.rank, x), t);
  }

  /** One more slot never lightens a tier: at worst it displaces another of the same signer. */
  lemma LoadGrows(r: Rule, s: set<Bytes32>, z: Bytes32, t: int)
    requires z !in s && Injective(s + {z}, r.rank)
    ensures |InTier(r, QuotaPass(r, s), t)| <= |InTier(r, QuotaPass(r, s + {z}), t)|
  {
    var u := s + {z};
    var g := r.who(z);
    OthersUnmoved(r, s, z);
    assert OthersIn(r, s, g, t) == OthersIn(r, u, g, t);
    SplitTier(r, s, g, t);
    SplitTier(r, u, g, t);
    GroupLoad(r, s, g);
    GroupLoad(r, u, g);
    SubsetSize(Of(r, s, g), Of(r, u, g));
  }

  ghost function OthersIn(r: Rule, s: set<Bytes32>, g: Bytes32, t: int): set<Bytes32> {
    set y | y in QuotaPass(r, s) && r.tier(r.who(y)) == t && r.who(y) != g
  }

  lemma SplitTier(r: Rule, s: set<Bytes32>, g: Bytes32, t: int)
    ensures |InTier(r, QuotaPass(r, s), t)|
         == |OthersIn(r, s, g, t)| + if r.tier(g) == t then |Of(r, QuotaPass(r, s), g)| else 0
  {
    var all := InTier(r, QuotaPass(r, s), t);
    if r.tier(g) == t {
      assert all == OthersIn(r, s, g, t) + Of(r, QuotaPass(r, s), g);
    } else {
      assert all == OthersIn(r, s, g, t);
    }
  }

  lemma OthersUnmoved(r: Rule, s: set<Bytes32>, z: Bytes32)
    ensures forall y :: y in s && r.who(y) != r.who(z) ==>
                          (y in QuotaPass(r, s) <==> y in QuotaPass(r, s + {z}))
  {
    forall y | y in s && r.who(y) != r.who(z)
      ensures Of(r, s, r.who(y)) == Of(r, s + {z}, r.who(y))
    {
    }
  }

  lemma GroupLoad(r: Rule, s: set<Bytes32>, g: Bytes32)
    requires Injective(s, r.rank)
    ensures |Of(r, QuotaPass(r, s), g)| == Min(|Of(r, s, g)|, r.quota)
  {
    QuotaOf(r, s, g);
    InjectiveOf(r, s, g);
    TopSize(Of(r, s, g), r.rank, r.quota);
  }

  lemma {:induction false} LoadMonotone(r: Rule, s: set<Bytes32>, u: set<Bytes32>, t: int)
    requires s <= u && Injective(u, r.rank)
    ensures |InTier(r, QuotaPass(r, s), t)| <= |InTier(r, QuotaPass(r, u), t)|
    decreases u - s
  {
    if s != u {
      assert !(u <= s);
      var z :| z in u && z !in s;
      LoadGrows(r, s, z, t);
      LoadMonotone(r, s + {z}, u, t);
    }
  }

  /** A slot kept from a union is kept from every subset of the union containing it. */
  lemma CutHereditary(r: Rule, s: set<Bytes32>, u: set<Bytes32>)
    requires s <= u && Injective(u, r.rank)
    ensures Cut(r, u) * s <= Cut(r, s)
  {
    forall x | x in Cut(r, u) * s ensures x in Cut(r, s) {
      var t := r.tier(r.who(x));
      BelowMonotone(Of(r, s, r.who(x)), Of(r, u, r.who(x)), r.rank, x);
      TierBelow(r, s, t, x);
      TierBelow(r, u, t, x);
      LoadMonotone(r, Below(s, r.rank, x), Below(u, r.rank, x), t);
    }
  }

  /** What is cut is outranked by a full quota of its signer's kept slots or by a full tier of kept ones:
      no eviction depends on a slot that was itself evicted. */
  lemma CutBlocks(r: Rule, u: set<Bytes32>, x: Bytes32)
    requires Injective(u, r.rank) && x in u && x !in Cut(r, u)
    ensures |Below(Of(r, Cut(r, u), r.who(x)), r.rank, x)| >= r.quota
            || |Below(InTier(r, Cut(r, u), r.tier(r.who(x))), r.rank, x)| >= r.m
  {
    var g := r.who(x);
    var t := r.tier(g);
    var w := InTier(r, QuotaPass(r, u), t);
    if |Below(w, r.rank, x)| >= r.m {
      CutInTier(r, u, t);
      TopBlocks(w, r.rank, r.m, x);
    } else {
      QuotaOf(r, u, g);
      TopBlocks(Of(r, u, g), r.rank, r.quota, x);
      var mine := Below(Of(r, QuotaPass(r, u), g), r.rank, x);
      forall y | y in mine ensures y in Cut(r, u) {
        SubsetSize(Below(w, r.rank, y), Below(w, r.rank, x));
      }
      SubsetSize(mine, Below(Of(r, Cut(r, u), g), r.rank, x));
    }
  }

  lemma CutBounds(r: Rule, u: set<Bytes32>)
    requires Injective(u, r.rank)
    ensures forall g :: |Of(r, Cut(r, u), g)| <= r.quota
    ensures forall t :: |InTier(r, Cut(r, u), t)| <= r.m
  {
    forall g ensures |Of(r, Cut(r, u), g)| <= r.quota {
      GroupLoad(r, u, g);
      SubsetSize(Of(r, Cut(r, u), g), Of(r, QuotaPass(r, u), g));
    }
    forall t ensures |InTier(r, Cut(r, u), t)| <= r.m {
      CutInTier(r, u, t);
      TopSize(InTier(r, QuotaPass(r, u), t), r.rank, r.m);
    }
  }

  lemma QuotaFixed(r: Rule, s: set<Bytes32>)
    requires forall g :: |Of(r, s, g)| <= r.quota
    ensures QuotaPass(r, s) == s
  {
    forall x | x in s ensures x in QuotaPass(r, s) {
      TopAll(Of(r, s, r.who(x)), r.rank, r.quota);
      assert x in Top(Of(r, s, r.who(x)), r.rank, r.quota);
    }
  }

  /** The one-pass greedy rule: a slot is kept exactly when neither its signer nor its tier is already full of
      better KEPT slots. */
  lemma CutIsGreedy(r: Rule, u: set<Bytes32>, x: Bytes32)
    requires Injective(u, r.rank) && x in u
    ensures x in Cut(r, u) <==>
            |Below(Of(r, Cut(r, u), r.who(x)), r.rank, x)| < r.quota
            && |Below(InTier(r, Cut(r, u), r.tier(r.who(x))), r.rank, x)| < r.m
  {
    var g := r.who(x);
    var t := r.tier(g);
    if x in Cut(r, u) {
      BelowMonotone(Of(r, Cut(r, u), g), Of(r, u, g), r.rank, x);
      BelowMonotone(InTier(r, Cut(r, u), t), InTier(r, QuotaPass(r, u), t), r.rank, x);
    } else {
      CutBlocks(r, u, x);
    }
  }

  /** Cutting a part first never changes the cut of the whole, although the cut discards for good. */
  lemma CutAbsorbs(r: Rule, a: set<Bytes32>, b: set<Bytes32>)
    requires Injective(a + b, r.rank)
    ensures Cut(r, Cut(r, a) + b) == Cut(r, a + b)
  {
    var u := a + b;
    var w := Cut(r, a) + b;
    CutHereditary(r, a, u);
    CutHereditary(r, w, u);
    forall x | x in Cut(r, w) ensures x in Cut(r, u) {
      if x !in Cut(r, u) { KeptBlocksAnywhere(r, u, w, x); }
    }
  }

  /** Whatever the cut of `u` drops, every set between that cut and `u` drops too. */
  lemma KeptBlocksAnywhere(r: Rule, u: set<Bytes32>, w: set<Bytes32>, x: Bytes32)
    requires Injective(u, r.rank) && Cut(r, u) <= w <= u && x in w && x !in Cut(r, u)
    ensures x !in Cut(r, w)
  {
    var g := r.who(x);
    var t := r.tier(g);
    var k := Cut(r, u);
    CutBlocks(r, u, x);
    if |Below(Of(r, k, g), r.rank, x)| >= r.quota {
      BelowMonotone(Of(r, k, g), Of(r, w, g), r.rank, x);
    } else {
      CutBounds(r, u);
      QuotaFixed(r, k);
      TierBelow(r, k, t, x);
      TierBelow(r, w, t, x);
      LoadMonotone(r, Below(k, r.rank, x), Below(w, r.rank, x), t);
    }
  }

  /** Tiers do not compete: what the cut keeps of one depends on nothing offered in another. */
  lemma TiersApart(r: Rule, s: set<Bytes32>, u: set<Bytes32>, t: int)
    requires InTier(r, s, t) == InTier(r, u, t)
    ensures InTier(r, Cut(r, s), t) == InTier(r, Cut(r, u), t)
  {
    forall x | r.tier(r.who(x)) == t ensures Of(r, s, r.who(x)) == Of(r, u, r.who(x)) && (x in s <==> x in u) {
      assert x in s <==> x in InTier(r, s, t);
      assert x in u <==> x in InTier(r, u, t);
      forall y | r.who(y) == r.who(x) ensures y in s <==> y in u {
        assert y in s <==> y in InTier(r, s, t);
        assert y in u <==> y in InTier(r, u, t);
      }
    }
    assert InTier(r, QuotaPass(r, s), t) == InTier(r, QuotaPass(r, u), t);
    CutInTier(r, s, t);
    CutInTier(r, u, t);
  }
}
