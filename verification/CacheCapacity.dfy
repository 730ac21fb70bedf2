/** How much a cache holds, in terms of its size alone. */
module CacheCapacity {
  import opened Bits
  import opened Lru
  import opened Caching

  /** The blocks of a run of consecutive ones that fall in one set. */
  ghost function SetBlocks(first: nat, ways: nat, sets: nat, index: nat): set<nat>
    requires sets >= 1
  {
    set x: nat | first <= x < first + ways * sets && x % sets == index
  }

  /** Two blocks of a set are at least the number of sets apart. */
  lemma SetBlocksApart(x: nat, y: nat, sets: nat)
    requires sets >= 1 && x < y && x % sets == y % sets
    ensures y - x >= sets
  {
    var q, p := y / sets, x / sets;
    assert y - x == (q - p) * sets;
    if q - p >= 1 {
      MulMonotone(1, q - p, sets);
    } else {
      MulMonotone(q - p, 0, sets);
    }
  }

  /** Of as many consecutive blocks as the cache has lines, each set gets one per way. */
  lemma {:induction false} SetGetsItsShare(first: nat, ways: nat, sets: nat, index: nat)
    requires sets >= 1
    ensures |SetBlocks(first, ways, sets, index)| <= ways
  {
    var all := SetBlocks(first, ways, sets, index);
    if ways == 0 {
      assert all == {};
    } else {
      var older := SetBlocks(first, ways - 1, sets, index);
      assert ways * sets == (ways - 1) * sets + sets;
      SetGetsItsShare(first, ways - 1, sets, index);
      if x: nat :| x in all && x !in older {
        forall y | y in all && y !in older ensures y == x {
          if x < y {
            SetBlocksApart(x, y, sets);
          } else if y < x {
            SetBlocksApart(y, x, sets);
          }
        }
        assert all <= older + {x};
        SubsetSize(all, older + {x});
      } else {
        SubsetSize(all, older);
      }
    }
  }

  lemma {:induction false} SubsetSize(a: set<nat>, b: set<nat>)
    requires a <= b
    ensures |a| <= |b|
  {
    if x :| x in a {
      SubsetSize(a - {x}, b - {x});
    }
  }

  /** The number of lines of a cache: as many blocks per way as its size allows. */
  function Lines(c: CacheConfig): nat
    requires WellFormed(c)
  {
    c.cacheSize / (c.blockSize * c.ways) * c.ways
  }

  /** The lines fill the cache, up to less than one block per way. */
  lemma LinesFillTheCache(c: CacheConfig)
    requires WellFormed(c)
    ensures Lines(c) * c.blockSize <= c.cacheSize < Lines(c) * c.blockSize + c.blockSize * c.ways
    ensures c.cacheSize % (c.blockSize * c.ways) == 0 ==> Lines(c) == c.cacheSize / c.blockSize
    ensures Lines(c) == c.ways * NumSets(c)
  {
    hide IsPow2;
    var block: nat, ways: nat := c.blockSize, c.ways;
    MulMonotone(1, ways, block);
    var sets: nat := c.cacheSize / (block * ways);
    Regrouped(sets, ways, block);
    if c.cacheSize % (block * ways) == 0 {
      DivModUnique(c.cacheSize, block, sets * ways, 0);
    }
  }

  lemma Regrouped(sets: nat, ways: nat, block: nat)
    ensures (sets * ways) * block == sets * (block * ways)
    ensures sets * ways == ways * sets
  {
  }

  /** While a program stays within as many consecutive blocks as the cache has lines, an
      access hits exactly when its block was accessed before. */
  lemma HoldsItsSize(c: CacheConfig, h: seq<Word>, a: Word, first: nat)
    requires WellFormed(c)
    requires forall j :: 0 <= j < |h| ==> first <= h[j] / c.blockSize < first + Lines(c)
    ensures WouldHit(c, h, a) <==> exists j :: 0 <= j < |h| && h[j] / c.blockSize == a / c.blockSize
  {
    hide NumSets, IsPow2, Lines;
    var g := GeometryOf(c);
    LinesFillTheCache(c);
    if i :| 0 <= i < |h| && h[i] / c.blockSize == a / c.blockSize {
      var j := LastOf(g, h, a, i);
      var since, all := BlocksSince(g, h, a, j + 1), SetBlocks(first, c.ways, g.numSets, g.SetIndex(a));
      SetGetsItsShare(first, c.ways, g.numSets, g.SetIndex(a));
      assert g.Block(a) in all && g.Block(a) == g.Block(h[j]);
      assert since <= all - {g.Block(a)};
      SubsetSize(since, all - {g.Block(a)});
      assert LastAccess(g, h, a, j);
    }
  }

  /** The last access to a block that was accessed at all. */
  lemma {:induction false} LastOf(g: Geometry, h: seq<Word>, a: Word, i: nat) returns (j: nat)
    requires g.Ok() && i < |h| && g.Block(h[i]) == g.Block(a)
    ensures LastAccess(g, h, a, j)
    decreases |h| - i
  {
    if k: nat :| i < k < |h| && g.Block(h[k]) == g.Block(a) {
      j := LastOf(g, h, a, k);
    } else {
      j := i;
    }
  }

  /** The blocks one, two and so on numbers of sets after a block. */
  ghost function Strides(b: nat, sets: nat, n: nat): set<nat> {
    if n == 0 then {} else Strides(b, sets, n - 1) + {b + n * sets}
  }

  lemma {:induction false} StridesDiffer(b: nat, sets: nat, n: nat)
    requires sets >= 1
    ensures |Strides(b, sets, n)| == n
    ensures forall x :: x in Strides(b, sets, n) ==> b < x <= b + n * sets && x % sets == b % sets
  {
    if n > 0 {
      StridesDiffer(b, sets, n - 1);
      assert n * sets == (n - 1) * sets + sets;
      MulMonotone(1, n, sets);
      SameResidue(b, n, sets);
    }
  }

  lemma SameResidue(b: nat, n: nat, sets: nat)
    requires sets >= 1
    ensures (b + n * sets) % sets == b % sets
  {
    DivModUnique(b + n * sets, sets, b / sets + n, b % sets);
  }

  /** Accessing as many consecutive blocks after a block as the cache has lines evicts it. */
  lemma HoldsNoMore(c: CacheConfig, u: seq<Word>, v: seq<Word>, a: Word)
    requires WellFormed(c) && |v| == Lines(c)
    requires forall i :: 0 <= i < |v| ==> v[i] / c.blockSize == a / c.blockSize + 1 + i
    ensures !WouldHit(c, u + v, a)
  {
    hide NumSets, IsPow2, Lines;
    var g, h, b := GeometryOf(c), u + v, a / c.blockSize;
    LinesFillTheCache(c);
    StridesDiffer(b, g.numSets, c.ways);
    forall j: nat | LastAccess(g, h, a, j) ensures |BlocksSince(g, h, a, j + 1)| >= c.ways {
      assert j < |u|;
      var since := BlocksSince(g, h, a, j + 1);
      forall x | x in Strides(b, g.numSets, c.ways) ensures x in since {
        var i := |u| + (x - b - 1);
        assert h[i] == v[x - b - 1];
      }
      SubsetSize(Strides(b, g.numSets, c.ways), since);
    }
  }

  // ----- which configurations are well formed

  lemma {:induction false} Pow2IsPow2(k: nat)
    ensures IsPow2(Pow2(k))
  {
    if k > 0 {
      Pow2IsPow2(k - 1);
    }
  }

  lemma IsPow2IsPower(n: nat)
    ensures IsPow2(n) <==> exists k :: n == Pow2(k)
  {
    if IsPow2(n) {
      Log2Exact(n);
    }
    if k :| n == Pow2(k) {
      Pow2IsPow2(k);
    }
  }

  /** A power of two of sets fits into the size of the cache, and one set more does not. */
  ghost predicate PowerOfSets(c: CacheConfig, k: nat) {
    Pow2(k) * (c.blockSize * c.ways) <= c.cacheSize < (Pow2(k) + 1) * (c.blockSize * c.ways)
  }

  /** The configurations modelled: at least one way, a power of two of bytes per block that
      is at least four, and a power of two of sets. */
  lemma WellFormedIsPowers(c: CacheConfig)
    ensures WellFormed(c) <==>
      c.ways >= 1 && c.blockSize >= 4 && (exists b :: c.blockSize == Pow2(b)) && exists k :: PowerOfSets(c, k)
  {
    hide IsPow2, Pow2, NumSets, PowerOfSets;
    IsPow2IsPower(c.blockSize);
    IsPow2IsPower(NumSets(c));
    if c.ways >= 1 && c.blockSize >= 4 {
      if k: nat :| NumSets(c) == Pow2(k) {
        SetsArePower(c, k);
      }
      if k: nat :| PowerOfSets(c, k) {
        SetsArePower(c, k);
      }
    }
  }

  lemma SetsArePower(c: CacheConfig, k: nat)
    requires c.ways >= 1 && c.blockSize >= 1
    ensures NumSets(c) == Pow2(k) <==> PowerOfSets(c, k)
  {
    hide Pow2;
    MulMonotone(1, c.ways, c.blockSize);
    var q, n := c.blockSize * c.ways, Pow2(k);
    assert (n + 1) * q == n * q + q;
    if PowerOfSets(c, k) {
      DivModUnique(c.cacheSize, q, n, c.cacheSize - n * q);
    }
  }
}
