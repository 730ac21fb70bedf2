/** A set-associative cache as values: what one access does to the ranks, and what the
    ranks mean in terms of the addresses accessed so far. */
module Lru {
  import opened Bits

  /** How addresses spread over blocks and sets. */
  datatype Geometry = Geometry(blockSize: nat, numSets: nat) {
    predicate Ok() {
      blockSize >= 1 && numSets >= 1
    }

    function Block(a: Word): nat
      requires Ok()
    {
      a / blockSize
    }

    function SetIndex(a: Word): (i: nat)
      requires Ok()
      ensures i < numSets
    {
      Block(a) % numSets
    }

    function Tag(a: Word): nat
      requires Ok()
    {
      BlockTag(Block(a))
    }

    function BlockTag(block: nat): nat
      requires Ok()
    {
      block / numSets
    }
  }

  // ----- one set

  /** One way of a set; the rank is 0 for the least and W-1 for the most recently used. */
  datatype Line = Line(rank: nat, valid: bool, tag: nat)

  type Row = seq<Line>

  function FreshRow(ways: nat): (row: Row)
    ensures |row| == ways
  {
    seq(ways, w requires 0 <= w => Line(w, false, 0))
  }

  /** The first way from `i` on that holds the tag, or the number of ways. */
  function FindTag(row: Row, tag: nat, i: nat): (w: nat)
    requires i <= |row|
    ensures i <= w <= |row|
    ensures w < |row| ==> row[w].valid && row[w].tag == tag
    ensures forall j :: i <= j < w ==> !(row[j].valid && row[j].tag == tag)
    decreases |row| - i
  {
    if i == |row| || (row[i].valid && row[i].tag == tag) then i else FindTag(row, tag, i + 1)
  }

  /** The first way from `i` on of rank 0, or the number of ways. */
  function FindLeast(row: Row, i: nat): (w: nat)
    requires i <= |row|
    ensures i <= w <= |row|
    ensures w < |row| ==> row[w].rank == 0
    ensures forall j :: i <= j < w ==> row[j].rank != 0
    decreases |row| - i
  {
    if i == |row| || row[i].rank == 0 then i else FindLeast(row, i + 1)
  }

  /** Makes one way the most recently used. */
  function Promote(row: Row, way: nat): (r: Row)
    requires way < |row|
    ensures |r| == |row|
  {
    seq(|row|, i requires 0 <= i < |row| =>
      if i == way then row[i].(rank := |row| - 1)
      else if row[i].rank > row[way].rank then row[i].(rank := row[i].rank - 1)
      else row[i])
  }

  function Fill(row: Row, way: nat, tag: nat): (r: Row)
    requires way < |row|
    ensures |r| == |row|
  {
    row[way := row[way].(valid := true, tag := tag)]
  }

  /** One access to a set: whether it hits, and the set afterwards. */
  function AccessRow(row: Row, tag: nat): (r: (bool, Row))
    ensures |r.1| == |row|
  {
    var way := FindTag(row, tag, 0);
    if way < |row| then (true, Promote(row, way))
    else
      var victim := FindLeast(row, 0);
      if victim < |row| then (false, Promote(Fill(row, victim, tag), victim)) else (false, row)
  }

  // ----- the most-recently-used list

  /** Position of a block in a list, or the length of the list. */
  function Find(r: seq<nat>, b: nat): (k: nat)
    ensures k <= |r|
    ensures k < |r| ==> r[k] == b
    ensures forall i :: 0 <= i < k ==> r[i] != b
  {
    if |r| == 0 || r[0] == b then 0 else 1 + Find(r[1..], b)
  }

  /** Moves the k-th element to the front. */
  function ToFront<T>(r: seq<T>, k: nat): (s: seq<T>)
    requires k < |r|
    ensures |s| == |r| && s[0] == r[k]
    ensures forall i :: 1 <= i <= k ==> s[i] == r[i - 1]
    ensures forall i :: k < i < |r| ==> s[i] == r[i]
  {
    [r[k]] + r[..k] + r[k + 1..]
  }

  function Touch(r: seq<nat>, b: nat): seq<nat> {
    var k := Find(r, b);
    if k < |r| then ToFront(r, k) else [b] + r
  }

  /** The blocks of one set in the order of their last access, the latest first. */
  function Recent(g: Geometry, h: seq<Word>, index: nat): seq<nat>
    requires g.Ok()
  {
    if |h| == 0 then []
    else
      var a := h[|h| - 1];
      var r := Recent(g, h[..|h| - 1], index);
      if g.SetIndex(a) == index then Touch(r, g.Block(a)) else r
  }

  lemma TouchLength(r: seq<nat>, b: nat)
    ensures |Touch(r, b)| == if Find(r, b) < |r| then |r| else |r| + 1
  {
  }

  lemma TouchShape(r: seq<nat>, b: nat)
    ensures var k := Find(r, b);
      Touch(r, b) == if k < |r| then [b] + r[..k] + r[k + 1..] else [b] + r
  {
  }

  lemma TouchedAt(r: seq<nat>, b: nat, i: nat)
    requires i < |Touch(r, b)|
    ensures Touch(r, b)[i] == if i == 0 then b else if i <= Find(r, b) then r[i - 1] else r[i]
  {
  }

  predicate Distinct<T(==)>(r: seq<T>) {
    forall i, j :: 0 <= i < j < |r| ==> r[i] != r[j]
  }

  /** Place of a way in the order of use: 0 for the most recently used. */
  function Place(row: Row, w: nat): int
    requires w < |row|
  {
    |row| - 1 - row[w].rank
  }

  /** `order` lists the ways of a set from most to least recently used. */
  ghost predicate Ordered(row: Row, order: seq<nat>) {
    && |order| == |row|
    && (forall k {:trigger order[k]} :: 0 <= k < |order| ==> order[k] < |row| && Place(row, order[k]) == k)
    && (forall w {:trigger Place(row, w)} :: 0 <= w < |row| ==> 0 <= Place(row, w) && order[Place(row, w)] == w)
  }

  /** The ranks are a permutation of 0..W-1. */
  ghost predicate Ranked(row: Row) {
    exists order :: Ordered(row, order)
  }

  /** The k-th most recently used way holds the k-th most recently used block, and
      the ways beyond the blocks seen so far are invalid. */
  ghost predicate Holds(g: Geometry, row: Row, r: seq<nat>)
    requires g.Ok()
  {
    forall w {:trigger Place(row, w)} :: 0 <= w < |row| ==>
      && (row[w].valid <==> Place(row, w) < |r|)
      && (row[w].valid ==> 0 <= Place(row, w) && row[w].tag == g.BlockTag(r[Place(row, w)]))
  }

  ghost predicate InSet(g: Geometry, r: seq<nat>, index: nat)
    requires g.Ok()
  {
    forall i :: 0 <= i < |r| ==> r[i] % g.numSets == index
  }

  /** A set agrees with the list of the blocks accessed in it. */
  ghost predicate Agrees(g: Geometry, row: Row, r: seq<nat>, index: nat)
    requires g.Ok()
  {
    Ranked(row) && Holds(g, row, r) && Distinct(r) && InSet(g, r, index)
  }

  lemma FreshAgrees(g: Geometry, ways: nat, index: nat)
    requires g.Ok()
    ensures Agrees(g, FreshRow(ways), [], index)
  {
    var row := FreshRow(ways);
    assert Ordered(row, seq(ways, k requires 0 <= k < ways => ways - 1 - k));
  }

  /** In one set, a block is known by its tag. */
  lemma TagIdentifies(g: Geometry, x: nat, y: nat)
    requires g.Ok() && x % g.numSets == y % g.numSets && g.BlockTag(x) == g.BlockTag(y)
    ensures x == y
  {
    assert x == (x / g.numSets) * g.numSets + x % g.numSets;
    assert y == (y / g.numSets) * g.numSets + y % g.numSets;
  }

  lemma FindInDistinct(r: seq<nat>, k: nat)
    requires Distinct(r) && k < |r|
    ensures Find(r, r[k]) == k
  {
  }

  /** The way found for a tag is the one at the block's place in the list. */
  lemma FoundWay(g: Geometry, row: Row, r: seq<nat>, index: nat, b: nat)
    requires g.Ok() && Agrees(g, row, r, index) && b % g.numSets == index
    ensures var w, k := FindTag(row, g.BlockTag(b), 0), Find(r, b);
      (w < |row| <==> k < |r| && k < |row|) && (w < |row| ==> Place(row, w) == k)
  {
    hide FindTag, Find, Geometry.BlockTag;
    var w, k := FindTag(row, g.BlockTag(b), 0), Find(r, b);
    if w < |row| {
      HeldBlock(g, row, r, index, w);
      TagIdentifies(g, r[Place(row, w)], b);
      FindInDistinct(r, Place(row, w));
    } else if k < |r| && k < |row| {
      var order: seq<nat> :| Ordered(row, order);
      HeldBlock(g, row, r, index, order[k]);
    }
  }

  lemma HeldBlock(g: Geometry, row: Row, r: seq<nat>, index: nat, w: nat)
    requires g.Ok() && Agrees(g, row, r, index) && w < |row|
    ensures var k := Place(row, w);
      && 0 <= k
      && (row[w].valid <==> k < |r|)
      && (row[w].valid ==> row[w].tag == g.BlockTag(r[k]) && r[k] % g.numSets == index)
  {
    var order: seq<nat> :| Ordered(row, order);
  }

  /** findLRU always finds a way. */
  lemma LeastExists(row: Row)
    requires |row| > 0 && Ranked(row)
    ensures FindLeast(row, 0) < |row|
  {
    var order: seq<nat> :| Ordered(row, order);
    assert Place(row, order[|row| - 1]) == |row| - 1;
  }

  /** Where a promotion leaves each way in the order of use. */
  lemma PromotedPlace(row: Row, way: nat, w: nat)
    requires way < |row| && w < |row| && Ranked(row)
    ensures var k, p := Place(row, way), Place(row, w);
      Place(Promote(row, way), w) == if w == way then 0 else if p < k then p + 1 else p
    ensures w != way ==> Place(row, w) != Place(row, way)
  {
    var order: seq<nat> :| Ordered(row, order);
    assert order[Place(row, w)] == w && order[Place(row, way)] == way;
  }

  lemma PromoteKeepsRanks(row: Row, way: nat)
    requires way < |row| && Ranked(row)
    ensures Ranked(Promote(row, way))
  {
    hide Promote, Place;
    var row' := Promote(row, way);
    var order: seq<nat> :| Ordered(row, order);
    var k := Place(row, way);
    PlaceBound(row, way);
    var order' := ToFront(order, k);
    forall i | 0 <= i < |row|
      ensures order'[i] < |row| && Place(row', order'[i]) == i
    {
      PromotedPlace(row, way, order'[i]);
    }
    forall w | 0 <= w < |row|
      ensures 0 <= Place(row', w) < |row| && order'[Place(row', w)] == w
    {
      PlaceBound(row, w);
      PromotedPlace(row, way, w);
    }
    assert Ordered(row', order');
  }

  lemma PlaceBound(row: Row, w: nat)
    requires w < |row| && Ranked(row)
    ensures 0 <= Place(row, w) < |row|
  {
    var order: seq<nat> :| Ordered(row, order);
    assert order[Place(row, w)] == w;
  }

  lemma TouchIsDistinct(g: Geometry, r: seq<nat>, b: nat, index: nat)
    requires g.Ok() && Distinct(r) && InSet(g, r, index) && b % g.numSets == index
    ensures Distinct(Touch(r, b)) && InSet(g, Touch(r, b), index)
  {
    hide Find;
    var s := Touch(r, b);
    forall i | 0 <= i < |s|
      ensures s[i] == if i == 0 then b else if i <= Find(r, b) then r[i - 1] else r[i]
    {
      TouchedAt(r, b, i);
    }
  }

  lemma AgreesIsAll(g: Geometry, row: Row, r: seq<nat>, index: nat)
    requires g.Ok() && Agrees(g, row, r, index)
    ensures Ranked(row) && Holds(g, row, r) && Distinct(r) && InSet(g, r, index)
  {
  }

  lemma AllAgree(g: Geometry, row: Row, r: seq<nat>, index: nat)
    requires g.Ok() && Ranked(row) && Holds(g, row, r) && Distinct(r) && InSet(g, r, index)
    ensures Agrees(g, row, r, index)
  {
  }

  lemma PromoteKeepsLines(row: Row, way: nat)
    requires way < |row|
    ensures forall w :: 0 <= w < |row| ==>
      Promote(row, way)[w].valid == row[w].valid && Promote(row, way)[w].tag == row[w].tag
  {
  }

  /** What one way holds after its set was promoted, given what the set holds now. */
  lemma PromotedHolds(g: Geometry, row: Row, way: nat, r: seq<nat>, b: nat)
    requires g.Ok() && way < |row| && Ranked(row)
    requires Find(r, b) < |r| && Place(row, way) == Find(r, b) && Holds(g, row, r)
    ensures Holds(g, Promote(row, way), Touch(r, b))
  {
    hide Find, Promote, Geometry.BlockTag, Touch, Ranked, Place;
    var row', s := Promote(row, way), Touch(r, b);
    PromoteKeepsLines(row, way);
    forall w | 0 <= w < |row'|
      ensures (row'[w].valid <==> Place(row', w) < |s|)
      ensures row'[w].valid ==> 0 <= Place(row', w) && row'[w].tag == g.BlockTag(s[Place(row', w)])
    {
      PlaceBound(row, w);
      PromotedPlace(row, way, w);
      TouchLength(r, b);
      if Place(row', w) < |s| {
        TouchedAt(r, b, Place(row', w));
      }
    }
  }

  lemma HitAgrees(g: Geometry, row: Row, r: seq<nat>, index: nat, b: nat)
    requires g.Ok() && Agrees(g, row, r, index) && b % g.numSets == index
    requires Find(r, b) < |r| && Find(r, b) < |row|
    ensures var way := FindTag(row, g.BlockTag(b), 0);
      way < |row| && Agrees(g, Promote(row, way), Touch(r, b), index)
  {
    hide FindTag, Find, Promote, Geometry.BlockTag, Agrees, Ranked, Touch, Place;
    FoundWay(g, row, r, index, b);
    AgreesIsAll(g, row, r, index);
    TouchIsDistinct(g, r, b, index);
    var way := FindTag(row, g.BlockTag(b), 0);
    PromoteKeepsRanks(row, way);
    PromotedHolds(g, row, way, r, b);
    AllAgree(g, Promote(row, way), Touch(r, b), index);
  }

  lemma FillKeepsPlaces(row: Row, way: nat, tag: nat)
    requires way < |row| && Ranked(row)
    ensures Ranked(Fill(row, way, tag))
    ensures forall w {:trigger Place(Fill(row, way, tag), w)} :: 0 <= w < |row| ==>
      Place(Fill(row, way, tag), w) == Place(row, w)
  {
    var order: seq<nat> :| Ordered(row, order);
    var filled := Fill(row, way, tag);
    forall w | 0 <= w < |row| ensures Place(filled, w) == Place(row, w) {
    }
    assert Ordered(filled, order);
  }

  /** The way of rank 0 is last in the order of use, and the only one there. */
  lemma LeastIsLast(row: Row, way: nat)
    requires way < |row| && row[way].rank == 0 && Ranked(row)
    ensures Place(row, way) == |row| - 1
    ensures forall w {:trigger Place(row, w)} :: 0 <= w < |row| && w != way ==> Place(row, w) < |row| - 1
  {
    var order: seq<nat> :| Ordered(row, order);
    assert order[Place(row, way)] == way;
  }

  lemma MissAgrees(g: Geometry, row: Row, r: seq<nat>, index: nat, b: nat)
    requires g.Ok() && |row| > 0 && Agrees(g, row, r, index) && b % g.numSets == index
    requires !(Find(r, b) < |r| && Find(r, b) < |row|)
    ensures var way := FindLeast(row, 0);
      way < |row| && Agrees(g, Promote(Fill(row, way, g.BlockTag(b)), way), Touch(r, b), index)
  {
    hide FindLeast, Find, Promote, Geometry.BlockTag, Agrees, Ranked, Touch, Place;
    AgreesIsAll(g, row, r, index);
    LeastExists(row);
    TouchIsDistinct(g, r, b, index);
    var way := FindLeast(row, 0);
    LeastIsLast(row, way);
    var filled := Fill(row, way, g.BlockTag(b));
    FillKeepsPlaces(row, way, g.BlockTag(b));
    PromoteKeepsRanks(filled, way);
    MissHolds(g, row, way, r, b);
    AllAgree(g, Promote(filled, way), Touch(r, b), index);
  }

  /** On a miss the least way may hold any older block; nothing else is that old. */
  lemma MissHolds(g: Geometry, row: Row, way: nat, r: seq<nat>, b: nat)
    requires g.Ok() && way < |row| && row[way].rank == 0 && Ranked(row) && Holds(g, row, r)
    requires !(Find(r, b) < |r| && Find(r, b) < |row|)
    ensures Holds(g, Promote(Fill(row, way, g.BlockTag(b)), way), Touch(r, b))
  {
    hide Find, Promote, Geometry.BlockTag, Touch, Ranked, Place;
    var filled := Fill(row, way, g.BlockTag(b));
    LeastIsLast(row, way);
    FillKeepsPlaces(row, way, g.BlockTag(b));
    PromoteKeepsLines(filled, way);
    var row', s := Promote(filled, way), Touch(r, b);
    forall w | 0 <= w < |row'|
      ensures (row'[w].valid <==> Place(row', w) < |s|)
      ensures row'[w].valid ==> 0 <= Place(row', w) && row'[w].tag == g.BlockTag(s[Place(row', w)])
    {
      PlaceBound(row, w);
      PromotedPlace(filled, way, w);
      assert Place(filled, w) == Place(row, w) && Place(filled, way) == Place(row, way);
      TouchLength(r, b);
      if Place(row', w) < |s| {
        TouchedAt(r, b, Place(row', w));
      }
    }
  }

  /** An access to a set hits exactly when the block is among the W most recent, and
      moves the block to the front of what the set holds. */
  lemma AccessRowAgrees(g: Geometry, row: Row, r: seq<nat>, index: nat, b: nat)
    requires g.Ok() && |row| > 0 && Agrees(g, row, r, index) && b % g.numSets == index
    ensures var (hit, row') := AccessRow(row, g.BlockTag(b));
      && (hit <==> Find(r, b) < |r| && Find(r, b) < |row|)
      && Agrees(g, row', Touch(r, b), index)
  {
    hide FindTag, Find, FindLeast, Promote, Fill, Agrees, Geometry.BlockTag, Touch;
    FoundWay(g, row, r, index, b);
    if Find(r, b) < |r| && Find(r, b) < |row| {
      HitAgrees(g, row, r, index, b);
    } else {
      MissAgrees(g, row, r, index, b);
    }
  }

  /** A valid block is replaced only when no way of the set is free; valid tags of a set
      differ; every invalid way ranks below every valid one. */
  lemma FreeWaysFirst(g: Geometry, row: Row, r: seq<nat>, index: nat)
    requires g.Ok() && |row| > 0 && Agrees(g, row, r, index)
    ensures FindLeast(row, 0) < |row|
    ensures row[FindLeast(row, 0)].valid <==> forall w :: 0 <= w < |row| ==> row[w].valid
    ensures forall v, w :: 0 <= v < |row| && 0 <= w < |row| && row[v].valid && !row[w].valid ==>
      row[w].rank < row[v].rank
    ensures forall v, w :: 0 <= v < w < |row| && row[v].valid && row[w].valid ==> row[v].tag != row[w].tag
  {
    hide FindLeast, Geometry.BlockTag;
    LeastExists(row);
    forall w | 0 <= w < |row| ensures row[w].valid <==> Place(row, w) < |r| {
      HeldBlock(g, row, r, index, w);
    }
    LeastIsLast(row, FindLeast(row, 0));
    forall v, w | 0 <= v < w < |row| && row[v].valid && row[w].valid
      ensures row[v].tag != row[w].tag
    {
      TagsDiffer(g, row, r, index, v, w);
    }
  }

  lemma TagsDiffer(g: Geometry, row: Row, r: seq<nat>, index: nat, v: nat, w: nat)
    requires g.Ok() && Agrees(g, row, r, index)
    requires v < w < |row| && row[v].valid && row[w].valid
    ensures row[v].tag != row[w].tag
  {
    hide Geometry.BlockTag;
    HeldBlock(g, row, r, index, v);
    HeldBlock(g, row, r, index, w);
    PromotedPlace(row, v, w);
    if row[v].tag == row[w].tag {
      TagIdentifies(g, r[Place(row, v)], r[Place(row, w)]);
    }
  }

  // ----- whole histories

  /** The sets of a cache after a sequence of accesses. */
  function RowAfter(g: Geometry, ways: nat, h: seq<Word>, index: nat): (row: Row)
    requires g.Ok()
    ensures |row| == ways
  {
    if |h| == 0 then FreshRow(ways)
    else
      var a := h[|h| - 1];
      var row := RowAfter(g, ways, h[..|h| - 1], index);
      if g.SetIndex(a) == index then AccessRow(row, g.Tag(a)).1 else row
  }

  /** Whether an access hits in the simulated ranks. */
  predicate HitsIn(g: Geometry, ways: nat, h: seq<Word>, a: Word)
    requires g.Ok()
  {
    AccessRow(RowAfter(g, ways, h, g.SetIndex(a)), g.Tag(a)).0
  }

  /** Each set holds the first W blocks of its most-recently-used list, always. */
  lemma {:induction false} RowAgrees(g: Geometry, ways: nat, h: seq<Word>, index: nat)
    requires g.Ok() && ways > 0
    ensures Agrees(g, RowAfter(g, ways, h, index), Recent(g, h, index), index)
  {
    hide Agrees, AccessRow, Touch;
    if |h| == 0 {
      FreshAgrees(g, ways, index);
    } else {
      var a, h' := h[|h| - 1], h[..|h| - 1];
      RowAgrees(g, ways, h', index);
      if g.SetIndex(a) == index {
        AccessRowAgrees(g, RowAfter(g, ways, h', index), Recent(g, h', index), index, g.Block(a));
      }
    }
  }

  /** The last access in a history to the block of an address. */
  ghost predicate LastAccess(g: Geometry, h: seq<Word>, a: Word, j: nat)
    requires g.Ok()
  {
    && j < |h| && g.Block(h[j]) == g.Block(a)
    && forall i :: j < i < |h| ==> g.Block(h[i]) != g.Block(a)
  }

  /** The distinct blocks of an address's set accessed from the j-th access on. */
  ghost function BlocksSince(g: Geometry, h: seq<Word>, a: Word, j: nat): set<nat>
    requires g.Ok()
  {
    set i | j <= i < |h| && g.SetIndex(h[i]) == g.SetIndex(a) :: g.Block(h[i])
  }

  /** The stack-distance rule: the block was accessed before, and since then fewer than W
      other blocks of its set were. */
  ghost predicate NearEnough(g: Geometry, ways: nat, h: seq<Word>, a: Word)
    requires g.Ok()
  {
    exists j: nat :: LastAccess(g, h, a, j) && |BlocksSince(g, h, a, j + 1)| < ways
  }

  ghost function Elements(r: seq<nat>): set<nat> {
    set i | 0 <= i < |r| :: r[i]
  }

  lemma {:induction false} DistinctCount(r: seq<nat>)
    requires Distinct(r)
    ensures |Elements(r)| == |r|
  {
    if |r| == 0 {
      assert Elements(r) == {};
    } else {
      var n := |r| - 1;
      DistinctCount(r[..n]);
      assert Elements(r) == Elements(r[..n]) + {r[n]};
      assert r[n] !in Elements(r[..n]);
    }
  }

  /** Where a block is after another one is touched. */
  lemma FindAfterTouch(r: seq<nat>, b: nat, c: nat)
    requires b != c && Find(r, b) < |r|
    ensures var p, k := Find(r, b), Find(r, c);
      Find(Touch(r, c), b) == (if k < p then p else p + 1) < |Touch(r, c)|
  {
    hide Find, Touch;
    var s, p, k := Touch(r, c), Find(r, b), Find(r, c);
    TouchLength(r, c);
    var q := if k < p then p else p + 1;
    TouchedAt(r, c, q);
    forall i | 0 <= i < q ensures s[i] != b {
      TouchedAt(r, c, i);
    }
    FindIs(s, b, q);
  }

  /** Touching another block adds it to those in front of a block, once. */
  lemma TouchMovesBack(r: seq<nat>, b: nat, c: nat)
    requires b != c && Find(r, b) < |r|
    ensures Find(Touch(r, c), b) < |Touch(r, c)|
    ensures Elements(Touch(r, c)[..Find(Touch(r, c), b)]) == Elements(r[..Find(r, b)]) + {c}
  {
    hide Find, Touch, Elements;
    var p, k := Find(r, b), Find(r, c);
    FindAfterTouch(r, b, c);
    TouchShape(r, c);
    var front := r[..p];
    if k < p {
      assert Touch(r, c)[..p] == [c] + front[..k] + front[k + 1..];
      assert front == front[..k] + [c] + front[k + 1..];
      SameElements(front[..k], c, front[k + 1..]);
    } else {
      assert Touch(r, c)[..p + 1] == [] + [c] + front;
      SameElements([], c, front);
    }
  }

  lemma SameElements(u: seq<nat>, c: nat, v: seq<nat>)
    ensures Elements([c] + u + v) == Elements(u + [c] + v) == Elements(u + v) + {c}
    ensures u == [] ==> Elements([] + [c] + v) == Elements(v) + {c}
  {
    hide Elements;
    forall x
      ensures x in Elements([c] + u + v) <==> x == c || x in u || x in v
      ensures x in Elements(u + [c] + v) <==> x == c || x in u || x in v
      ensures x in Elements(u + v) <==> x in u || x in v
    {
      ElementsHave([c] + u + v, x);
      ElementsHave(u + [c] + v, x);
      ElementsHave(u + v, x);
    }
    if u == [] {
      assert u + v == v;
    }
  }

  lemma FindIs(r: seq<nat>, b: nat, k: nat)
    requires k < |r| && r[k] == b && forall i :: 0 <= i < k ==> r[i] != b
    ensures Find(r, b) == k
  {
  }

  lemma ElementsHave(r: seq<nat>, x: nat)
    ensures x in Elements(r) <==> x in r
  {
  }

  /** The blocks in front of one in the list are those accessed since; a block not in the
      list was never accessed. */
  lemma {:induction false} PlaceIsDistance(g: Geometry, h: seq<Word>, a: Word)
    requires g.Ok()
    ensures var r, b := Recent(g, h, g.SetIndex(a)), g.Block(a);
      && Distinct(r) && InSet(g, r, g.SetIndex(a))
      && (Find(r, b) == |r| ==> forall j: nat :: !LastAccess(g, h, a, j))
      && (Find(r, b) < |r| ==> exists j: nat ::
            LastAccess(g, h, a, j) && Elements(r[..Find(r, b)]) == BlocksSince(g, h, a, j + 1))
  {
    hide Find, Touch;
    var index, b := g.SetIndex(a), g.Block(a);
    var r := Recent(g, h, index);
    if |h| > 0 {
      var n := |h| - 1;
      var h', x := h[..n], h[n];
      var r', c := Recent(g, h', index), g.Block(x);
      PlaceIsDistance(g, h', a);
      if c == b {
        TouchIsDistinct(g, r', b, index);
        TouchedAtFront(r', b);
        assert LastAccess(g, h, a, n);
        assert Elements(r[..0]) == BlocksSince(g, h, a, n + 1);
      } else {
        LastAccessExtends(g, h, a);
        if g.SetIndex(x) == index {
          TouchIsDistinct(g, r', c, index);
          if Find(r', b) < |r'| {
            TouchMovesBack(r', b, c);
            var j: nat :| LastAccess(g, h', a, j) && Elements(r'[..Find(r', b)]) == BlocksSince(g, h', a, j + 1);
            SinceExtends(g, h, a, j + 1);
            assert LastAccess(g, h, a, j);
          } else {
            TouchAddsOne(r', b, c);
          }
        } else if Find(r', b) < |r'| {
          var j: nat :| LastAccess(g, h', a, j) && Elements(r'[..Find(r', b)]) == BlocksSince(g, h', a, j + 1);
          SinceExtends(g, h, a, j + 1);
          assert LastAccess(g, h, a, j);
        }
      }
    }
  }

  lemma TouchedAtFront(r: seq<nat>, b: nat)
    ensures |Touch(r, b)| > 0 && Find(Touch(r, b), b) == 0
  {
  }

  lemma TouchAddsOne(r: seq<nat>, b: nat, c: nat)
    requires b != c && Find(r, b) == |r|
    ensures Find(Touch(r, c), b) == |Touch(r, c)|
  {
    hide Find, Touch;
    var s := Touch(r, c);
    TouchLength(r, c);
    if Find(s, b) < |s| {
      TouchedAt(r, c, Find(s, b));
    }
  }

  lemma LastAccessExtends(g: Geometry, h: seq<Word>, a: Word)
    requires g.Ok() && |h| > 0 && g.Block(h[|h| - 1]) != g.Block(a)
    ensures forall j: nat :: LastAccess(g, h, a, j) <==> LastAccess(g, h[..|h| - 1], a, j)
  {
    var h' := h[..|h| - 1];
    forall j: nat ensures LastAccess(g, h, a, j) <==> LastAccess(g, h', a, j) {
      if LastAccess(g, h', a, j) {
        forall i | j < i < |h| ensures g.Block(h[i]) != g.Block(a) {
          if i < |h'| {
            assert h'[i] == h[i];
          }
        }
      }
      if LastAccess(g, h, a, j) {
        forall i | j < i < |h'| ensures g.Block(h'[i]) != g.Block(a) {
          assert h'[i] == h[i];
        }
      }
    }
  }

  lemma SinceExtends(g: Geometry, h: seq<Word>, a: Word, j: nat)
    requires g.Ok() && |h| > 0 && j < |h|
    ensures BlocksSince(g, h, a, j) == BlocksSince(g, h[..|h| - 1], a, j)
      + if g.SetIndex(h[|h| - 1]) == g.SetIndex(a) then {g.Block(h[|h| - 1])} else {}
  {
    var h' := h[..|h| - 1];
    forall x | x in BlocksSince(g, h, a, j)
      ensures x in BlocksSince(g, h', a, j)
        || (g.SetIndex(h[|h| - 1]) == g.SetIndex(a) && x == g.Block(h[|h| - 1]))
    {
      var i :| j <= i < |h| && g.SetIndex(h[i]) == g.SetIndex(a) && g.Block(h[i]) == x;
      if i < |h'| {
        assert h'[i] == h[i];
      }
    }
    forall x | x in BlocksSince(g, h', a, j) ensures x in BlocksSince(g, h, a, j) {
      var i :| j <= i < |h'| && g.SetIndex(h'[i]) == g.SetIndex(a) && g.Block(h'[i]) == x;
      assert h'[i] == h[i];
    }
  }

  /** The ranks implement the stack-distance rule over every history. */
  lemma HitIffNearEnough(g: Geometry, ways: nat, h: seq<Word>, a: Word)
    requires g.Ok() && ways > 0
    ensures HitsIn(g, ways, h, a) <==> NearEnough(g, ways, h, a)
  {
    hide Find, Agrees, AccessRow, Touch, LastAccess, BlocksSince;
    var index, b := g.SetIndex(a), g.Block(a);
    var r := Recent(g, h, index);
    RowAgrees(g, ways, h, index);
    AccessRowAgrees(g, RowAfter(g, ways, h, index), r, index, b);
    PlaceIsDistance(g, h, a);
    if Find(r, b) < |r| {
      var k := Find(r, b);
      var j: nat :| LastAccess(g, h, a, j) && Elements(r[..k]) == BlocksSince(g, h, a, j + 1);
      DistinctCount(r[..k]);
      forall j': nat | LastAccess(g, h, a, j') ensures j' == j {
        LastAccessUnique(g, h, a, j, j');
      }
    }
  }

  lemma LastAccessUnique(g: Geometry, h: seq<Word>, a: Word, i: nat, j: nat)
    requires g.Ok() && LastAccess(g, h, a, i) && LastAccess(g, h, a, j)
    ensures i == j
  {
  }

  // ----- inclusion

  /** The blocks a set of a cache holds. */
  ghost predicate Resident(g: Geometry, ways: nat, h: seq<Word>, block: nat)
    requires g.Ok()
  {
    var row := RowAfter(g, ways, h, block % g.numSets);
    FindTag(row, g.BlockTag(block), 0) < |row|
  }

  /** What a cache holds, a cache with more ways holds. */
  lemma Inclusion(g: Geometry, ways: nat, more: nat, h: seq<Word>, block: nat)
    requires g.Ok() && 0 < ways <= more && Resident(g, ways, h, block)
    ensures Resident(g, more, h, block)
  {
    hide Find, FindTag, Agrees;
    var index := block % g.numSets;
    RowAgrees(g, ways, h, index);
    RowAgrees(g, more, h, index);
    FoundWay(g, RowAfter(g, ways, h, index), Recent(g, h, index), index, block);
    FoundWay(g, RowAfter(g, more, h, index), Recent(g, h, index), index, block);
  }

  /** Misses over a history. */
  function Misses(g: Geometry, ways: nat, h: seq<Word>): (n: nat)
    requires g.Ok()
    ensures n <= |h|
  {
    if |h| == 0 then 0
    else Misses(g, ways, h[..|h| - 1]) + Bit(!HitsIn(g, ways, h[..|h| - 1], h[|h| - 1]))
  }

  /** More ways never cost a miss. */
  lemma {:induction false} MoreWaysFewerMisses(g: Geometry, ways: nat, more: nat, h: seq<Word>)
    requires g.Ok() && 0 < ways <= more
    ensures Misses(g, more, h) <= Misses(g, ways, h)
  {
    hide HitsIn, NearEnough;
    if |h| > 0 {
      var h', a := h[..|h| - 1], h[|h| - 1];
      MoreWaysFewerMisses(g, ways, more, h');
      HitIffNearEnough(g, ways, h', a);
      HitIffNearEnough(g, more, h', a);
      if NearEnough(g, ways, h', a) {
        NearerStill(g, ways, more, h', a);
      }
    }
  }

  lemma NearerStill(g: Geometry, ways: nat, more: nat, h: seq<Word>, a: Word)
    requires g.Ok() && ways <= more && NearEnough(g, ways, h, a)
    ensures NearEnough(g, more, h, a)
  {
  }
}
