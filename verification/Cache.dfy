/** The cache object: address splitting by shift and mask, and ranks, valid bits and
    tags updated in place. */
module Caching {
  import opened Bits
  import opened Lru

  datatype CacheConfig = CacheConfig(cacheSize: Word, blockSize: Word, ways: Word, missLatency: Word)

  predicate IsPow2(n: nat) {
    n == 1 || (n > 1 && n % 2 == 0 && IsPow2(n / 2))
  }

  /** The integer part of the binary logarithm. */
  function Log2(n: nat): nat
    requires n >= 1
  {
    if n == 1 then 0 else 1 + Log2(n / 2)
  }

  lemma {:induction false} Log2Exact(n: nat)
    requires IsPow2(n)
    ensures n >= 1 && Pow2(Log2(n)) == n
  {
    if n > 1 {
      Log2Exact(n / 2);
    }
  }

  function NumSets(c: CacheConfig): nat {
    if c.blockSize * c.ways == 0 then 0 else c.cacheSize / (c.blockSize * c.ways)
  }

  /** The configurations the constructor can lay out: whole words per block, and numbers
      of words and sets whose logarithms are exact. */
  predicate WellFormed(c: CacheConfig) {
    c.ways >= 1 && c.blockSize >= 4 && IsPow2(c.blockSize) && IsPow2(NumSets(c))
  }

  function GeometryOf(c: CacheConfig): (g: Geometry)
    requires WellFormed(c)
    ensures g.Ok()
  {
    Geometry(c.blockSize, NumSets(c))
  }

  /** The three bit counts of an address. */
  datatype Layout = Layout(offsetBits: nat, indexBits: nat, tagBits: int) {
    /** The bits shifted away below the index and below the tag. */
    function IndexLow(): nat { offsetBits + 2 }

    function TagLow(): nat { offsetBits + 2 + indexBits }

    predicate Fits() { tagBits == 32 - TagLow() && tagBits >= 1 }
  }

  function LayoutOf(c: CacheConfig): Layout
    requires WellFormed(c)
  {
    Log2Exact(NumSets(c));
    var offsetBits, indexBits := Log2(c.blockSize / 4), Log2(NumSets(c));
    Layout(offsetBits, indexBits, 32 - offsetBits - indexBits - 2)
  }

  /** Splitting an address needs no shift by 32 or more, and the low bits are the
      offset in a block and the set. */
  lemma LayoutFits(c: CacheConfig)
    requires WellFormed(c)
    ensures LayoutOf(c).Fits()
    ensures Pow2(LayoutOf(c).IndexLow()) == c.blockSize
    ensures Pow2(LayoutOf(c).indexBits) == NumSets(c)
    ensures Pow2(LayoutOf(c).TagLow()) == c.blockSize * NumSets(c)
  {
    var l := LayoutOf(c);
    Quarter(c.blockSize);
    Log2Exact(NumSets(c));
    Pow2Add(l.IndexLow(), l.indexBits);
    SetsFit(c.cacheSize, c.blockSize, c.ways, NumSets(c));
    WordPow2();
    if l.TagLow() >= 32 {
      Pow2Monotone(32, l.TagLow());
    }
  }

  lemma Quarter(n: nat)
    requires IsPow2(n) && n >= 4
    ensures IsPow2(n / 4) && Pow2(Log2(n / 4) + 2) == n
  {
    assert IsPow2(n / 2) && (n / 2) / 2 == n / 4;
    HalfIsPow2(n / 2);
    Log2Exact(n / 4);
    NextPow2(Log2(n / 4) + 1);
    NextPow2(Log2(n / 4) + 2);
  }

  lemma HalfIsPow2(n: nat)
    requires IsPow2(n) && n > 1
    ensures IsPow2(n / 2) && n == 2 * (n / 2)
  {
  }

  lemma SetsFit(size: Word, block: nat, ways: nat, sets: nat)
    requires block >= 1 && ways >= 1 && block * ways > 0 && sets == size / (block * ways)
    ensures block * sets <= size
  {
    var q := block * ways;
    assert sets * q <= size;
    MulMonotone(1, ways, block * sets);
    assert ways * (block * sets) == sets * q;
  }

  /** Shift and mask give the set and the tag of the block of an address. */
  lemma SplitIsDivision(c: CacheConfig, address: Word)
    requires WellFormed(c)
    ensures var l, g := LayoutOf(c), GeometryOf(c);
      && l.Fits()
      && ExtractBits(address, 31, 31 - l.tagBits + 1) == g.Tag(address)
         == address / (c.blockSize * NumSets(c))
      && ExtractBits(address, 31 - l.tagBits, 31 - l.tagBits - l.indexBits + 1) == g.SetIndex(address)
         == (address / c.blockSize) % NumSets(c)
  {
    hide ExtractBits;
    var l := LayoutOf(c);
    LayoutFits(c);
    ExtractBitsIsDivMod(address, 31, l.TagLow());
    ExtractBitsIsDivMod(address, 31 - l.tagBits, l.IndexLow());
    DivDiv(address, c.blockSize, NumSets(c));
    TopBits(address, l.TagLow());
  }

  lemma TopBits(x: Word, low: nat)
    requires low <= 32
    ensures (x / Pow2(low)) % Pow2(32 - low) == x / Pow2(low)
  {
    Pow2Add(low, 32 - low);
    WordPow2();
    DivLess(x, Pow2(low), Pow2(32 - low));
    RemainderOfLess(x / Pow2(low), Pow2(32 - low));
  }

  lemma RemainderOfLess(h: nat, q: nat)
    requires h < q
    ensures h % q == h
  {
  }

  lemma DivLess(x: nat, p: nat, q: nat)
    requires p >= 1 && x < p * q
    ensures 0 <= x / p < q
  {
    var h := x / p;
    if h >= q {
      MulMonotone(q, h, p);
    }
  }

  /** Two addresses agree in tag and set exactly when they are in one block. */
  lemma SameSplitSameBlock(c: CacheConfig, a: Word, b: Word)
    requires WellFormed(c)
    ensures var g := GeometryOf(c);
      g.Tag(a) == g.Tag(b) && g.SetIndex(a) == g.SetIndex(b) <==> a / c.blockSize == b / c.blockSize
  {
    var g := GeometryOf(c);
    if g.Tag(a) == g.Tag(b) && g.SetIndex(a) == g.SetIndex(b) {
      TagIdentifies(g, g.Block(a), g.Block(b));
    }
  }

  /** The accesses that hit after a history, in a cache of a configuration. */
  ghost predicate WouldHit(c: CacheConfig, h: seq<Word>, a: Word)
    requires WellFormed(c)
  {
    NearEnough(GeometryOf(c), c.ways, h, a)
  }

  class Cache {
    const config: CacheConfig
    const numSets: nat
    const blockSize: nat
    const numWays: nat
    const numTagBits: nat
    const numIdxBits: nat
    const numBlkOffsetBits: nat
    const lru: array2<nat>
    const valid: array2<bool>
    const tag: array2<nat>
    var hits: nat
    var misses: nat
    /** The addresses accessed so far. */
    ghost var history: seq<Word>

    ghost predicate Laid() {
      && WellFormed(config)
      && numSets == NumSets(config) && blockSize == config.blockSize && numWays == config.ways
      && numBlkOffsetBits == LayoutOf(config).offsetBits
      && numIdxBits == LayoutOf(config).indexBits
      && numTagBits == LayoutOf(config).tagBits
      && lru.Length0 == valid.Length0 == tag.Length0 == numSets
      && lru.Length1 == valid.Length1 == tag.Length1 == numWays
      && lru as object != valid as object && lru as object != tag as object && valid as object != tag as object
    }

    /** One set, as a value. */
    ghost function RowAt(index: nat): (row: Row)
      requires Laid() && index < numSets
      reads lru, valid, tag
      ensures |row| == numWays
    {
      seq(numWays, w requires 0 <= w < numWays reads lru, valid, tag =>
        Line(lru[index, w], valid[index, w], tag[index, w]))
    }

    ghost predicate Valid()
      reads this, lru, valid, tag
    {
      && Laid()
      && (forall i :: 0 <= i < numSets ==> RowAt(i) == RowAfter(GeometryOf(config), numWays, history, i))
      && misses == Misses(GeometryOf(config), numWays, history)
      && hits + misses == |history|
    }

    constructor (config: CacheConfig)
      requires WellFormed(config)
      ensures Valid() && this.config == config && history == []
      ensures fresh(lru) && fresh(valid) && fresh(tag)
    {
      LayoutFits(config);
      var sets := config.cacheSize / (config.blockSize * config.ways);
      this.config := config;
      hits, misses, history := 0, 0, [];
      numSets := sets;
      blockSize := config.blockSize;
      numWays := config.ways;
      numBlkOffsetBits := Log2(config.blockSize / 4);
      numIdxBits := Log2(sets);
      numTagBits := 32 - Log2(config.blockSize / 4) - Log2(sets) - 2;
      lru := new nat[sets, config.ways]((i, j) => 0);
      valid := new bool[sets, config.ways]((i, j) => false);
      tag := new nat[sets, config.ways]((i, j) => 0);
      new;
      RankWays();
    }

    /** Gives the ways of every set the ranks 0, 1, and so on. */
    method RankWays()
      requires Laid() && history == [] && hits == misses == 0
      requires forall k, w :: 0 <= k < numSets && 0 <= w < numWays ==> !valid[k, w] && tag[k, w] == 0
      modifies lru
      ensures Valid()
    {
      hide Log2, IsPow2, LayoutOf, NumSets;
      for i := 0 to numSets
        invariant forall k, w :: 0 <= k < i && 0 <= w < numWays ==> lru[k, w] == w
      {
        for j := 0 to numWays
          invariant forall k, w :: 0 <= k < i && 0 <= w < numWays ==> lru[k, w] == w
          invariant forall w :: 0 <= w < j ==> lru[i, w] == w
        {
          lru[i, j] := j;
        }
      }
      forall i | 0 <= i < numSets ensures RowAt(i) == RowAfter(GeometryOf(config), numWays, history, i) {
        assert RowAt(i) == FreshRow(numWays);
      }
    }

    /** Looks an address up and brings its block in; the result says whether it was there. */
    method Access(address: Word) returns (hit: bool)
      requires Valid()
      modifies this, lru, valid, tag
      ensures Valid()
      ensures history == old(history) + [address]
      ensures hit <==> WouldHit(config, old(history), address)
      ensures hits == old(hits) + Bit(hit) && misses == old(misses) + Bit(!hit)
    {
      hide Pow2, Log2, IsPow2, And, Shr, Agrees, NearEnough, AccessRow;
      ghost var g := GeometryOf(config);
      SplitIsDivision(config, address);
      var tagVal := ExtractBits(address, 31, 31 - numTagBits + 1);
      var idx := ExtractBits(address, 31 - numTagBits, 31 - numTagBits - numIdxBits + 1);
      VictimExists(g, history, idx);
      hit := AccessSet(idx, tagVal);
      hits := hits + (if hit then 1 else 0);
      misses := misses + (if hit then 0 else 1);
      HitIffNearEnough(g, numWays, history, address);
      history := history + [address];
      assert history[..|history| - 1] == old(history);
    }

    lemma VictimExists(g: Geometry, h: seq<Word>, idx: nat)
      requires g.Ok() && numWays > 0
      ensures FindLeast(RowAfter(g, numWays, h, idx), 0) < numWays
    {
      hide AccessRow;
      RowAgrees(g, numWays, h, idx);
      LeastExists(RowAfter(g, numWays, h, idx));
    }

    /** The part of access that works on one set. */
    method AccessSet(idx: nat, tagVal: nat) returns (hit: bool)
      requires Laid() && idx < numSets && FindLeast(RowAt(idx), 0) < numWays
      modifies lru, valid, tag
      ensures (hit, RowAt(idx)) == AccessRow(old(RowAt(idx)), tagVal)
      ensures forall i :: 0 <= i < numSets && i != idx ==> RowAt(i) == old(RowAt(i))
    {
      hide Promote, FindTag, FindLeast, LayoutOf, NumSets, WellFormed;
      ghost var row := RowAt(idx);
      var way := FindWay(idx, tagVal);
      hit := way < numWays;
      if hit {
        UpdateLRU(idx, way);
      } else {
        var victim := FindLRU(idx);
        valid[idx, victim] := true;
        tag[idx, victim] := tagVal;
        assert RowAt(idx) == Fill(row, victim, tagVal);
        UpdateLRU(idx, victim);
      }
    }

    /** The loop of access that looks for a valid way with the tag. */
    method FindWay(idx: nat, tagVal: nat) returns (way: nat)
      requires Laid() && idx < numSets
      ensures way == FindTag(RowAt(idx), tagVal, 0) <= numWays
    {
      ghost var row := RowAt(idx);
      way := 0;
      while way < numWays
        invariant 0 <= way <= numWays
        invariant FindTag(row, tagVal, 0) == FindTag(row, tagVal, way)
      {
        if valid[idx, way] && tag[idx, way] == tagVal {
          break;
        }
        way := way + 1;
      }
    }

    /** Makes a valid way of a set the most recently used. */
    method UpdateLRU(idx: nat, way: nat)
      requires Laid() && idx < numSets && way < numWays && valid[idx, way]
      modifies lru
      ensures RowAt(idx) == Promote(old(RowAt(idx)), way)
      ensures forall i :: 0 <= i < numSets && i != idx ==> RowAt(i) == old(RowAt(i))
    {
      var oldLRU := lru[idx, way];
      for i := 0 to numWays
        invariant forall k, w :: 0 <= k < numSets && 0 <= w < numWays ==>
          lru[k, w] == old(lru[k, w]) - Bit(k == idx && w < i && old(lru[k, w]) > oldLRU)
      {
        if lru[idx, i] > oldLRU {
          lru[idx, i] := lru[idx, i] - 1;
        }
      }
      lru[idx, way] := numWays - 1;
    }

    /** The first way of rank 0; there always is one. */
    method FindLRU(idx: nat) returns (way: nat)
      requires Laid() && idx < numSets && FindLeast(RowAt(idx), 0) < numWays
      ensures way == FindLeast(RowAt(idx), 0)
    {
      ghost var row := RowAt(idx);
      for i := 0 to numWays
        invariant FindLeast(row, 0) == FindLeast(row, i)
      {
        if lru[idx, i] == 0 {
          return i;
        }
      }
      assert false;
    }
  }
}
