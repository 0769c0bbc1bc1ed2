/**
 The heap of lwip/core/mem.c seen as the list of its blocks.

 A block is the stretch from one `struct mem` header to the next.  The functions
 here say what mem_malloc, mem_free and mem_trim do to that list; the class in
 Heap.dfy, which works on the headers in place, is proved against them.
 */
module HeapSpec {
  import opened Basics

  /** MEM_ALIGNMENT, MEM_SIZE_ALIGNED, SIZEOF_STRUCT_MEM, MIN_SIZE_ALIGNED, and the
      number of values of mem_size_t. */
  datatype Config = Config(align: nat, memSize: nat, header: nat, minSize: nat, limit: nat) {
    ghost predicate Valid() {
      && 0 < align
      && 0 < header
      && Aligned(align, header) && Aligned(align, memSize) && Aligned(align, minSize) && Aligned(align, limit)
      && header + minSize <= memSize
      && memSize + header + minSize < limit
    }
  }

  /** x is a multiple of a; AlignedMeansMultiple ties this to the remainder. */
  predicate Aligned(a: nat, x: nat) {
    if a == 0 || x < a then x == 0 else Aligned(a, x - a)
  }

  datatype Block = Block(off: nat, used: bool)

  /** Offset of block i; the end of the heap when i is one past the last block. */
  function Off(c: Config, b: seq<Block>, i: nat): nat
    requires i <= |b|
  {
    if i < |b| then b[i].off else c.memSize
  }

  /** Bytes available to the user in block i. */
  function DataSize(c: Config, b: seq<Block>, i: nat): int
    requires i < |b|
  {
    Off(c, b, i + 1) - (b[i].off + c.header)
  }

  /** The blocks cover the heap without gaps, aligned, each with room for minSize bytes. */
  ghost predicate Tiled(c: Config, b: seq<Block>) {
    && 0 < |b|
    && b[0].off == 0
    && (forall i :: 0 <= i < |b| ==> Aligned(c.align, b[i].off) && b[i].off + c.header + c.minSize <= c.memSize)
    && (forall i, j :: 0 <= i < j < |b| ==> b[i].off + c.header + c.minSize <= b[j].off)
  }

  ghost predicate NoAdjacentFree(b: seq<Block>) {
    forall i, j :: 0 <= i && j == i + 1 && j < |b| ==> b[i].used || b[j].used
  }

  /** What mem_sanity checks, and more. */
  ghost predicate WellFormed(c: Config, b: seq<Block>) {
    Tiled(c, b) && NoAdjacentFree(b)
  }

  /** Index of the lowest free block, |b| if there is none. */
  function FirstFree(b: seq<Block>, i: nat := 0): (r: nat)
    requires i <= |b|
    ensures i <= r <= |b|
    ensures forall j :: i <= j < r ==> b[j].used
    ensures r < |b| ==> !b[r].used
    decreases |b| - i
  {
    if i == |b| || !b[i].used then i else FirstFree(b, i + 1)
  }

  predicate Fits(c: Config, b: seq<Block>, i: nat, size: nat)
    requires i < |b|
  {
    !b[i].used && DataSize(c, b, i) >= size
  }

  /** Index of the lowest free block that can hold size bytes, |b| if there is none. */
  function FirstFit(c: Config, b: seq<Block>, size: nat, i: nat := 0): (r: nat)
    requires i <= |b|
    ensures i <= r <= |b|
    ensures forall j :: i <= j < r ==> !Fits(c, b, j, size)
    ensures r < |b| ==> Fits(c, b, r, size)
    decreases |b| - i
  {
    if i == |b| || Fits(c, b, i, size) then i else FirstFit(c, b, size, i + 1)
  }

  predicate Splits(c: Config, b: seq<Block>, i: nat, size: nat)
    requires i < |b|
  {
    DataSize(c, b, i) >= size + c.header + c.minSize
  }

  /** Take block i for a request of size bytes, splitting off the rest when it is big enough. */
  function AllocAt(c: Config, b: seq<Block>, i: nat, size: nat): seq<Block>
    requires i < |b|
  {
    var taken := b[i := Block(b[i].off, true)];
    if Splits(c, b, i, size) then Insert(taken, i + 1, Block(b[i].off + c.header + size, false)) else taken
  }

  function Insert(b: seq<Block>, i: nat, x: Block): seq<Block>
    requires i <= |b|
  {
    b[..i] + [x] + b[i..]
  }

  function Remove(b: seq<Block>, i: nat): seq<Block>
    requires i < |b|
  {
    b[..i] + b[i + 1..]
  }

  function MergeForward(b: seq<Block>, i: nat): seq<Block>
    requires i < |b|
  {
    if i + 1 < |b| && !b[i + 1].used then Remove(b, i + 1) else b
  }

  function MergeBackward(b: seq<Block>, i: nat): seq<Block>
    requires i < |b|
  {
    if 0 < i && !b[i - 1].used then Remove(b, i) else b
  }

  /** Free block i and join it with free neighbours. */
  function FreeAt(b: seq<Block>, i: nat): seq<Block>
    requires i < |b|
  {
    MergeBackward(MergeForward(b[i := Block(b[i].off, false)], i), i)
  }

  /** Shrink block i to newSize data bytes. */
  function TrimAt(c: Config, b: seq<Block>, i: nat, newSize: nat): seq<Block>
    requires i < |b|
  {
    var rest := Block(b[i].off + c.header + newSize, false);
    if DataSize(c, b, i) <= newSize then b
    else if i + 1 < |b| && !b[i + 1].used then b[i + 1 := rest]
    else if Splits(c, b, i, newSize) then Insert(b, i + 1, rest)
    else b
  }

  /** Bytes in the used blocks of b, headers included, when the last one ends at end. */
  function UsedBytes(b: seq<Block>, end: nat): int {
    if b == [] then 0
    else (if b[0].used then (if |b| == 1 then end else b[1].off) - b[0].off else 0) + UsedBytes(b[1..], end)
  }

  /** The live allocations: (start, end) of every used block. */
  ghost function Live(c: Config, b: seq<Block>): set<(nat, nat)> {
    set i | 0 <= i < |b| && b[i].used :: (b[i].off, Off(c, b, i + 1))
  }

  // ---------- alignment ----------

  lemma {:induction false} AlignedMeansMultiple(a: nat, x: nat)
    requires 0 < a
    ensures Aligned(a, x) <==> x % a == 0
  {
    if a <= x {
      AlignedMeansMultiple(a, x - a);
      var q, r := (x - a) / a, (x - a) % a;
      DivModUnique(a, x, q + 1, r);
    }
  }

  lemma DivModUnique(a: int, x: int, q: int, r: int)
    requires 0 < a && 0 <= r < a && x == a * q + r
    ensures x / a == q && x % a == r
  {
    var d := x / a - q;
    assert a * d == r - x % a;
    assert d >= 1 ==> a * d >= a;
    assert d <= -1 ==> a * d <= -a;
  }

  lemma {:induction false} AlignedSum(a: nat, x: nat, y: nat)
    requires 0 < a && Aligned(a, x) && Aligned(a, y)
    ensures Aligned(a, x + y)
    decreases x
  {
    if a <= x { AlignedSum(a, x - a, y); }
  }

  lemma RestAligned(c: Config, off: nat, size: nat)
    requires c.Valid() && Aligned(c.align, off) && Aligned(c.align, size)
    ensures Aligned(c.align, off + c.header + size)
  {
    AlignedSum(c.align, off, c.header);
    AlignedSum(c.align, off + c.header, size);
  }

  // ---------- inserting and removing blocks ----------

  lemma InsertIndex(b: seq<Block>, i: nat, x: Block)
    requires i <= |b|
    ensures |Insert(b, i, x)| == |b| + 1
    ensures forall k :: 0 <= k <= |b| ==> Insert(b, i, x)[k] == if k < i then b[k] else if k == i then x else b[k - 1]
  {
  }

  lemma InsertKeepsTiled(c: Config, b: seq<Block>, i: nat, x: Block)
    requires Tiled(c, b) && 0 < i <= |b| && Aligned(c.align, x.off)
    requires b[i - 1].off + c.header + c.minSize <= x.off && x.off + c.header + c.minSize <= Off(c, b, i)
    ensures Tiled(c, Insert(b, i, x))
  {
    InsertIndex(b, i, x);
    hide Insert, Aligned;
    forall k, l | 0 <= k < l <= |b|
      ensures Insert(b, i, x)[k].off + c.header + c.minSize <= Insert(b, i, x)[l].off
    {
      InsertPair(c, b, i, x, k, l);
    }
  }

  lemma InsertPair(c: Config, b: seq<Block>, i: nat, x: Block, k: nat, l: nat)
    requires Tiled(c, b) && 0 < i <= |b| && k < l <= |b|
    requires b[i - 1].off + c.header + c.minSize <= x.off && x.off + c.header + c.minSize <= Off(c, b, i)
    ensures var r := Insert(b, i, x);
            |r| == |b| + 1 && r[k].off + c.header + c.minSize <= r[l].off
  {
    InsertIndex(b, i, x);
    hide Insert, Aligned;
    var k', l' := if k < i then k else k - 1, if l < i then l else l - 1;
    if l == i {
      assert k < i - 1 ==> b[k].off + c.header + c.minSize <= b[i - 1].off;
    } else if k == i {
      assert i < l - 1 ==> b[i].off + c.header + c.minSize <= b[l - 1].off;
    } else {
      assert b[k'].off + c.header + c.minSize <= b[l'].off;
    }
  }

  lemma SetKeepsTiled(c: Config, b: seq<Block>, i: nat, u: bool)
    requires Tiled(c, b) && i < |b|
    ensures Tiled(c, b[i := Block(b[i].off, u)])
  {
  }

  lemma RemoveKeepsTiled(c: Config, b: seq<Block>, i: nat)
    requires Tiled(c, b) && 0 < i < |b|
    ensures Tiled(c, Remove(b, i))
  {
    var r := Remove(b, i);
    assert forall k :: 0 <= k < |r| ==> r[k] == b[if k < i then k else k + 1];
  }

  // ---------- the used statistic ----------

  lemma {:induction false} UsedBytesSet(b: seq<Block>, i: nat, u: bool, end: nat)
    requires i < |b|
    ensures var size := (if i + 1 < |b| then b[i + 1].off else end) - b[i].off;
            UsedBytes(b[i := Block(b[i].off, u)], end) ==
            UsedBytes(b, end) + (if u then size else 0) - (if b[i].used then size else 0)
  {
    var b' := b[i := Block(b[i].off, u)];
    if i == 0 {
      assert b'[1..] == b[1..];
    } else {
      assert b'[1..] == b[1..][i - 1 := Block(b[i].off, u)];
      UsedBytesSet(b[1..], i - 1, u, end);
    }
  }

  lemma {:induction false} UsedBytesInsert(b: seq<Block>, i: nat, x: Block, end: nat)
    requires 0 < i <= |b| && !x.used
    ensures UsedBytes(Insert(b, i, x), end) ==
            UsedBytes(b, end) - if b[i - 1].used then (if i < |b| then b[i].off else end) - x.off else 0
  {
    var r := Insert(b, i, x);
    if i == 1 {
      assert r[1..] == [x] + b[1..];
      assert r[1..][1..] == b[1..];
    } else {
      assert r[1..] == Insert(b[1..], i - 1, x);
      UsedBytesInsert(b[1..], i - 1, x, end);
    }
  }

  // ---------- live allocations ----------

  lemma LiveInsert(c: Config, b: seq<Block>, i: nat, x: Block)
    requires 0 < i <= |b| && !x.used
    ensures var rest := Live(c, b[i - 1 := Block(b[i - 1].off, false)]);
            Live(c, Insert(b, i, x)) == if b[i - 1].used then rest + {(b[i - 1].off, x.off)} else rest
  {
    var r, f := Insert(b, i, x), b[i - 1 := Block(b[i - 1].off, false)];
    assert r[i - 1] == b[i - 1] && r[i] == x;
    forall k | 0 <= k < |f| && f[k].used
      ensures (f[k].off, Off(c, f, k + 1)) in Live(c, r)
    {
      var k' := if k < i then k else k + 1;
      assert r[k'] == f[k] && Off(c, r, k' + 1) == Off(c, f, k + 1);
    }
    forall k | 0 <= k < |r| && r[k].used && k != i - 1
      ensures (r[k].off, Off(c, r, k + 1)) in Live(c, f)
    {
      var k' := if k < i then k else k - 1;
      assert r[k] == f[k'] && Off(c, r, k + 1) == Off(c, f, k' + 1);
    }
  }

  lemma LiveSet(c: Config, b: seq<Block>, i: nat)
    requires i < |b|
    ensures Live(c, b[i := Block(b[i].off, true)]) ==
            Live(c, b[i := Block(b[i].off, false)]) + {(b[i].off, Off(c, b, i + 1))}
  {
    var t, f := b[i := Block(b[i].off, true)], b[i := Block(b[i].off, false)];
    assert forall k :: 0 <= k <= |b| ==> Off(c, t, k) == Off(c, f, k) == Off(c, b, k);
    forall k | 0 <= k < |b| && t[k].used && k != i
      ensures (t[k].off, Off(c, t, k + 1)) in Live(c, f)
    { assert t[k] == f[k]; }
    forall k | 0 <= k < |b| && f[k].used
      ensures (f[k].off, Off(c, f, k + 1)) in Live(c, t)
    { assert t[k] == f[k]; }
    assert t[i].used;
  }

  lemma NotLive(c: Config, b: seq<Block>, i: nat)
    requires i < |b| && !b[i].used
    requires forall k, l :: 0 <= k < l < |b| ==> b[k].off < b[l].off
    ensures forall e :: (b[i].off, e) !in Live(c, b)
  {
  }

  lemma LiveRemove(c: Config, b: seq<Block>, i: nat)
    requires 0 < i < |b| && !b[i - 1].used && !b[i].used
    ensures Live(c, Remove(b, i)) == Live(c, b)
  {
    var r := Remove(b, i);
    LiveInsert(c, r, i, b[i]);
    assert Insert(r, i, b[i]) == b;
    assert r[i - 1 := Block(r[i - 1].off, false)] == r;
  }

  // ---------- mem_malloc ----------

  lemma AllocTiled(c: Config, b: seq<Block>, i: nat, size: nat)
    requires c.Valid() && Tiled(c, b) && i < |b| && Fits(c, b, i, size)
    requires Aligned(c.align, size) && c.minSize <= size
    ensures Tiled(c, AllocAt(c, b, i, size))
  {
    hide Tiled, Aligned, Config.Valid;
    SetKeepsTiled(c, b, i, true);
    if Splits(c, b, i, size) { SplitTiled(c, b[i := Block(b[i].off, true)], i, size); }
  }

  lemma SplitTiled(c: Config, b: seq<Block>, i: nat, size: nat)
    requires c.Valid() && Tiled(c, b) && i < |b| && Splits(c, b, i, size)
    requires Aligned(c.align, size) && c.minSize <= size
    ensures Tiled(c, Insert(b, i + 1, Block(b[i].off + c.header + size, false)))
  {
    assert Aligned(c.align, b[i].off);
    hide Tiled, Aligned, Config.Valid;
    RestAligned(c, b[i].off, size);
    InsertKeepsTiled(c, b, i + 1, Block(b[i].off + c.header + size, false));
  }

  lemma AllocNoAdjacent(c: Config, b: seq<Block>, i: nat, size: nat)
    requires NoAdjacentFree(b) && i < |b| && Fits(c, b, i, size)
    ensures NoAdjacentFree(AllocAt(c, b, i, size))
  {
    if Splits(c, b, i, size) { InsertNoAdjacent(b, i, Block(b[i].off + c.header + size, false)); }
  }

  /** An allocation keeps the list well formed. */
  lemma AllocShape(c: Config, b: seq<Block>, i: nat, size: nat)
    requires c.Valid() && WellFormed(c, b) && i < |b| && Fits(c, b, i, size)
    requires Aligned(c.align, size) && c.minSize <= size
    ensures WellFormed(c, AllocAt(c, b, i, size))
  {
    AllocTiled(c, b, i, size);
    AllocNoAdjacent(c, b, i, size);
  }

  /** Block i becomes used and has room for the request. */
  lemma AllocRoom(c: Config, b: seq<Block>, i: nat, size: nat)
    requires i < |b| && Fits(c, b, i, size)
    ensures AllocAt(c, b, i, size)[i] == Block(b[i].off, true)
    ensures DataSize(c, AllocAt(c, b, i, size), i) >= size
  {
  }

  lemma InsertNoAdjacent(b: seq<Block>, i: nat, x: Block)
    requires i < |b| && NoAdjacentFree(b) && !b[i].used
    ensures NoAdjacentFree(Insert(b[i := Block(b[i].off, true)], i + 1, x))
  {
    var r := Insert(b[i := Block(b[i].off, true)], i + 1, x);
    forall k, l | 0 <= k && l == k + 1 && l < |r|
      ensures r[k].used || r[l].used
    {
      if k > i + 1 { assert r[k] == b[k - 1] && r[l] == b[l - 1]; }
      if k == i + 1 { assert r[l] == b[i + 1]; }
    }
  }

  /** An allocation adds one live range and touches no other. */
  lemma AllocLive(c: Config, b: seq<Block>, i: nat, size: nat)
    requires i < |b| && Fits(c, b, i, size)
    ensures var b' := AllocAt(c, b, i, size);
            Live(c, b') == Live(c, b) + {(b[i].off, Off(c, b', i + 1))}
  {
    var taken, rest := b[i := Block(b[i].off, true)], Block(b[i].off + c.header + size, false);
    LiveSet(c, b, i);
    assert b[i := Block(b[i].off, false)] == b == taken[i := Block(taken[i].off, false)];
    if Splits(c, b, i, size) { LiveInsert(c, taken, i + 1, rest); }
  }

  lemma AllocUsed(c: Config, b: seq<Block>, i: nat, size: nat)
    requires i < |b| && Fits(c, b, i, size)
    ensures var b' := AllocAt(c, b, i, size);
            UsedBytes(b', c.memSize) == UsedBytes(b, c.memSize) + Off(c, b', i + 1) - b[i].off
  {
    var taken, rest := b[i := Block(b[i].off, true)], Block(b[i].off + c.header + size, false);
    UsedBytesSet(b, i, true, c.memSize);
    if Splits(c, b, i, size) { UsedBytesInsert(taken, i + 1, rest, c.memSize); }
  }

  /** The two shortcuts of the search loop (start at the lowest free block, stop at
      memSize - size) skip no block that could hold the request. */
  lemma FirstFitShortcuts(c: Config, b: seq<Block>, size: nat, i: nat)
    requires c.Valid() && WellFormed(c, b) && i < |b| && Fits(c, b, i, size)
    ensures FirstFree(b) <= i
    ensures b[i].off < c.memSize - size
  {
  }

  // ---------- mem_free ----------

  lemma FreeShape(c: Config, b: seq<Block>, i: nat)
    requires WellFormed(c, b) && i < |b| && b[i].used
    ensures WellFormed(c, FreeAt(b, i))
  {
    var f := b[i := Block(b[i].off, false)];
    assert Tiled(c, f);
    var g := MergeForward(f, i);
    if i + 1 < |f| && !f[i + 1].used { RemoveKeepsTiled(c, f, i + 1); }
    if 0 < i && !g[i - 1].used { RemoveKeepsTiled(c, g, i); }
    FreeNoAdjacent(b, i);
  }

  /** Adjacent blocks are not both free, except possibly the pairs starting at x and y. */
  ghost predicate NoAdjacentFreeBut(b: seq<Block>, x: int, y: int) {
    forall i, j :: 0 <= i && j == i + 1 && j < |b| && i != x && i != y ==> b[i].used || b[j].used
  }

  lemma FreeNoAdjacent(b: seq<Block>, i: nat)
    requires NoAdjacentFree(b) && i < |b|
    ensures NoAdjacentFree(FreeAt(b, i))
  {
    var f := b[i := Block(b[i].off, false)];
    assert NoAdjacentFreeBut(f, i - 1, i);
    assert i + 2 < |b| && !b[i + 1].used ==> b[i + 2].used;
    MergeForwardSeparates(f, i);
    MergeBackwardSeparates(MergeForward(f, i), i);
  }

  lemma MergeForwardSeparates(f: seq<Block>, i: nat)
    requires i < |f| && !f[i].used && NoAdjacentFreeBut(f, i - 1, i)
    ensures NoAdjacentFreeBut(MergeForward(f, i), i - 1, i - 1)
  {
    var g := MergeForward(f, i);
    forall k, l | 0 <= k && l == k + 1 && l < |g| && k != i - 1
      ensures g[k].used || g[l].used
    {
      var d := |f| - |g|;
      assert k > i ==> g[k] == f[k + d];
      assert l > i ==> g[l] == f[l + d];
    }
  }

  lemma MergeBackwardSeparates(g: seq<Block>, i: nat)
    requires i < |g| && !g[i].used && NoAdjacentFreeBut(g, i - 1, i - 1)
    ensures NoAdjacentFree(MergeBackward(g, i))
  {
    var h := MergeBackward(g, i);
    forall k, l | 0 <= k && l == k + 1 && l < |h|
      ensures h[k].used || h[l].used
    {
      var e := |g| - |h|;
      assert k >= i ==> h[k] == g[k + e];
      assert l >= i ==> h[l] == g[l + e];
    }
  }

  /** Freeing removes exactly the freed range. */
  lemma FreeLive(c: Config, b: seq<Block>, i: nat)
    requires 0 < c.header && Tiled(c, b) && i < |b| && b[i].used
    ensures Live(c, FreeAt(b, i)) == Live(c, b) - {(b[i].off, Off(c, b, i + 1))}
  {
    var f := b[i := Block(b[i].off, false)];
    NotLive(c, f, i);
    hide Tiled, Live;
    LiveSet(c, b, i);
    assert b[i := Block(b[i].off, true)] == b;
    var g := MergeForward(f, i);
    if i + 1 < |f| && !f[i + 1].used { LiveRemove(c, f, i + 1); }
    if 0 < i && !g[i - 1].used { LiveRemove(c, g, i); }
  }

  lemma FreeUsed(c: Config, b: seq<Block>, i: nat)
    requires i < |b| && b[i].used
    ensures UsedBytes(FreeAt(b, i), c.memSize) == UsedBytes(b, c.memSize) - (Off(c, b, i + 1) - b[i].off)
  {
    var f := b[i := Block(b[i].off, false)];
    UsedBytesSet(b, i, false, c.memSize);
    var g := MergeForward(f, i);
    if i + 1 < |f| && !f[i + 1].used { UsedBytesRemove(f, i + 1, c.memSize); }
    if 0 < i && !g[i - 1].used { UsedBytesRemove(g, i, c.memSize); }
  }

  lemma UsedBytesRemove(b: seq<Block>, i: nat, end: nat)
    requires 0 < i < |b| && !b[i - 1].used && !b[i].used
    ensures UsedBytes(Remove(b, i), end) == UsedBytes(b, end)
  {
    UsedBytesInsert(Remove(b, i), i, b[i], end);
    assert Insert(Remove(b, i), i, b[i]) == b;
  }

  /** Freeing the block just allocated gives back the very same list, hence the same lowest free block. */
  lemma FreeUndoesAlloc(c: Config, b: seq<Block>, i: nat, size: nat)
    requires NoAdjacentFree(b) && i < |b| && Fits(c, b, i, size)
    ensures FreeAt(AllocAt(c, b, i, size), i) == b
  {
    var a := AllocAt(c, b, i, size);
    var f := a[i := Block(a[i].off, false)];
    if Splits(c, b, i, size) {
      assert Remove(f, i + 1) == b;
    } else {
      assert f == b;
    }
  }

  // ---------- mem_trim ----------

  ghost predicate Trimmable(c: Config, b: seq<Block>, i: nat, newSize: nat) {
    i < |b| && b[i].used && newSize <= DataSize(c, b, i)
  }

  /** Moving the free block behind i down is removing it and inserting it again. */
  lemma MoveIsReinsert(c: Config, b: seq<Block>, i: nat, x: Block)
    requires i < |b|
    ensures Insert(Remove(b, i), i, b[i]) == b
    ensures Insert(Remove(b, i), i, x) == b[i := x]
  {
  }

  /** Shrinking keeps the list well formed and keeps newSize bytes in block i. */
  lemma TrimShape(c: Config, b: seq<Block>, i: nat, newSize: nat)
    requires c.Valid() && WellFormed(c, b) && Trimmable(c, b, i, newSize)
    requires Aligned(c.align, newSize) && c.minSize <= newSize
    ensures var b' := TrimAt(c, b, i, newSize);
            WellFormed(c, b') && b'[i] == b[i] && newSize <= DataSize(c, b', i) <= DataSize(c, b, i)
  {
    var rest := Block(b[i].off + c.header + newSize, false);
    if newSize < DataSize(c, b, i) {
      assert b[i].off + c.header + newSize < Off(c, b, i + 1);
      hide Tiled, Aligned, Config.Valid;
      TrimTiled(c, b, i, newSize);
      if i + 1 < |b| && !b[i + 1].used {
      } else if Splits(c, b, i, newSize) {
        TrimNoAdjacent(b, i, rest);
      }
    }
  }

  lemma MoveTiled(c: Config, b: seq<Block>, i: nat, x: Block)
    requires Tiled(c, b) && 0 < i < |b| && Aligned(c.align, x.off)
    requires b[i - 1].off + c.header + c.minSize <= x.off <= b[i].off
    ensures Tiled(c, b[i := x])
  {
  }

  lemma TrimTiled(c: Config, b: seq<Block>, i: nat, newSize: nat)
    requires c.Valid() && Tiled(c, b) && Trimmable(c, b, i, newSize)
    requires Aligned(c.align, newSize) && c.minSize <= newSize
    ensures Tiled(c, TrimAt(c, b, i, newSize))
  {
    var rest := Block(b[i].off + c.header + newSize, false);
    if DataSize(c, b, i) <= newSize {
    } else if i + 1 < |b| && !b[i + 1].used {
      RestAligned(c, b[i].off, newSize);
      hide Tiled, Aligned, Config.Valid;
      MoveTiled(c, b, i + 1, rest);
      assert TrimAt(c, b, i, newSize) == b[i + 1 := rest];
    } else if Splits(c, b, i, newSize) {
      hide Tiled, Aligned, Config.Valid;
      SplitTiled(c, b, i, newSize);
      assert TrimAt(c, b, i, newSize) == Insert(b, i + 1, rest);
    }
  }

  lemma TrimNoAdjacent(b: seq<Block>, i: nat, x: Block)
    requires NoAdjacentFree(b) && i < |b| && b[i].used && (i + 1 < |b| ==> b[i + 1].used)
    ensures NoAdjacentFree(Insert(b, i + 1, x))
  {
    var r := Insert(b, i + 1, x);
    forall k, l | 0 <= k && l == k + 1 && l < |r|
      ensures r[k].used || r[l].used
    {
      if k > i + 1 { assert r[k] == b[k - 1] && r[l] == b[l - 1]; }
    }
  }

  /** Shrinking changes the trimmed range and no other. */
  lemma TrimLive(c: Config, b: seq<Block>, i: nat, newSize: nat)
    requires 0 < c.header && Tiled(c, b) && Trimmable(c, b, i, newSize)
    ensures var b' := TrimAt(c, b, i, newSize);
            Live(c, b') == Live(c, b) - {(b[i].off, Off(c, b, i + 1))} + {(b[i].off, Off(c, b', i + 1))}
  {
    var f := b[i := Block(b[i].off, false)];
    var rest := Block(b[i].off + c.header + newSize, false);
    NotLive(c, f, i);
    hide Tiled, Live;
    LiveSet(c, b, i);
    assert b[i := Block(b[i].off, true)] == b;
    if newSize < DataSize(c, b, i) {
      if i + 1 < |b| && !b[i + 1].used {
        LiveMove(c, b, i, rest);
      } else if Splits(c, b, i, newSize) {
        LiveInsert(c, b, i + 1, rest);
      }
    }
  }

  lemma LiveMove(c: Config, b: seq<Block>, i: nat, x: Block)
    requires i + 1 < |b| && b[i].used && !b[i + 1].used && !x.used
    ensures Live(c, b[i + 1 := x]) == Live(c, b[i := Block(b[i].off, false)]) + {(b[i].off, x.off)}
  {
    var r, f := Remove(b, i + 1), b[i := Block(b[i].off, false)];
    MoveIsReinsert(c, b, i + 1, x);
    LiveInsert(c, r, i + 1, x);
    LiveRemove(c, f, i + 1);
    assert Remove(f, i + 1) == r[i := Block(r[i].off, false)];
  }

  lemma TrimUsed(c: Config, b: seq<Block>, i: nat, newSize: nat)
    requires Trimmable(c, b, i, newSize)
    ensures var b' := TrimAt(c, b, i, newSize);
            UsedBytes(b', c.memSize) == UsedBytes(b, c.memSize) - (Off(c, b, i + 1) - Off(c, b', i + 1))
  {
    var rest := Block(b[i].off + c.header + newSize, false);
    if newSize < DataSize(c, b, i) {
      if i + 1 < |b| && !b[i + 1].used {
        MoveIsReinsert(c, b, i + 1, rest);
        UsedBytesInsert(Remove(b, i + 1), i + 1, b[i + 1], c.memSize);
        UsedBytesInsert(Remove(b, i + 1), i + 1, rest, c.memSize);
      } else if Splits(c, b, i, newSize) {
        UsedBytesInsert(b, i + 1, rest, c.memSize);
      }
    }
  }

  // ---------- consequences ----------

  /** Live ranges never overlap, lie in the heap and are aligned. */
  lemma LiveDisjoint(c: Config, b: seq<Block>, x: (nat, nat), y: (nat, nat))
    requires Tiled(c, b) && x in Live(c, b) && y in Live(c, b)
    ensures x.0 + c.header + c.minSize <= x.1 <= c.memSize && Aligned(c.align, x.0)
    ensures x == y || x.1 <= y.0 || y.1 <= x.0
  {
  }

  /** When nothing is live the heap is one free block again. */
  lemma NothingLive(c: Config, b: seq<Block>)
    requires WellFormed(c, b)
    ensures Live(c, b) == {} ==> b == [Block(0, false)]
  {
    if b[0].used {
      assert (b[0].off, Off(c, b, 1)) in Live(c, b);
    } else if 1 < |b| {
      assert b[1].used && (b[1].off, Off(c, b, 2)) in Live(c, b);
    } else {
      assert b == [b[0]];
    }
  }

  // ---------- request sizes ----------

  /** LWIP_MEM_ALIGN_SIZE */
  function AlignUp(a: nat, x: nat): nat
    requires 0 < a
  {
    (x + a - 1) / a * a
  }

  /** The size mem_malloc and mem_trim work with, computed in mem_size_t; None when refused. */
  function RequestSize(c: Config, n: nat): Option<nat>
    requires 0 < c.align && 0 < c.limit
  {
    var wrapped := AlignUp(c.align, n) % c.limit;
    var size := if wrapped < c.minSize then c.minSize else wrapped;
    if size > c.memSize || size < n then None else Some(size)
  }

  lemma AlignUpIsLeast(a: nat, x: nat)
    requires 0 < a
    ensures x <= AlignUp(a, x) < x + a && Aligned(a, AlignUp(a, x))
  {
    var q, r := (x + a - 1) / a, (x + a - 1) % a;
    assert q * a == x + a - 1 - r;
    DivModUnique(a, q * a, q, 0);
    AlignedMeansMultiple(a, q * a);
  }

  lemma {:induction false} AlignedBelow(a: nat, x: nat, y: nat)
    requires 0 < a && Aligned(a, x) && Aligned(a, y) && x < y + a
    ensures x <= y
  {
    if a <= x && a <= y { AlignedBelow(a, x - a, y - a); }
  }

  /** The refusal test is exact: a request is refused just when its aligned size (at least minSize)
      exceeds the heap, although the size is computed modulo the width of mem_size_t. */
  lemma RequestSizeExact(c: Config, n: nat)
    requires c.Valid() && n < c.limit
    ensures var size := if AlignUp(c.align, n) < c.minSize then c.minSize else AlignUp(c.align, n);
            && RequestSize(c, n) == (if size <= c.memSize then Some(size) else None)
            && n <= size && c.minSize <= size && Aligned(c.align, size)
  {
    AlignUpIsLeast(c.align, n);
    WrapExact(c, n, AlignUp(c.align, n));
  }

  lemma WrapExact(c: Config, n: nat, up: nat)
    requires c.Valid() && n < c.limit && n <= up < n + c.align && Aligned(c.align, up)
    ensures up % c.limit == if up < c.limit then up else 0
    ensures up >= c.limit ==> c.minSize < n && c.memSize < up
  {
    AlignedBelow(c.align, up, c.limit);
    assert c.align <= c.header;
    if up < c.limit { DivModUnique(c.limit, up, 0, up); } else { DivModUnique(c.limit, up, 1, 0); }
  }

  // ---------- whole runs ----------

  datatype Op = Malloc(n: nat) | Free(start: nat) | Trim(start: nat, n: nat)

  /** Index of the used block that starts at off, |b| if there is none. */
  function FindUsed(b: seq<Block>, off: nat, i: nat := 0): (r: nat)
    requires i <= |b|
    ensures i <= r <= |b|
    ensures forall j :: i <= j < r ==> b[j] != Block(off, true)
    ensures r < |b| ==> b[r] == Block(off, true)
    decreases |b| - i
  {
    if i == |b| || b[i] == Block(off, true) then i else FindUsed(b, off, i + 1)
  }

  function Step(c: Config, b: seq<Block>, op: Op): seq<Block>
    requires 0 < c.align && 0 < c.limit
  {
    match op
    case Malloc(n) =>
      var size := RequestSize(c, n);
      if n == 0 || size.None? then b
      else var i := FirstFit(c, b, size.value); if i == |b| then b else AllocAt(c, b, i, size.value)
    case Free(start) =>
      var i := FindUsed(b, start); if i == |b| then b else FreeAt(b, i)
    case Trim(start, n) =>
      var size, i := RequestSize(c, n), FindUsed(b, start);
      if size.None? || i == |b| then b else TrimAt(c, b, i, size.value)
  }

  function Run(c: Config, ops: seq<Op>): seq<Block>
    requires 0 < c.align && 0 < c.limit
  {
    if ops == [] then [Block(0, false)] else Step(c, Run(c, ops[..|ops| - 1]), ops[|ops| - 1])
  }

  lemma StepKeepsWellFormed(c: Config, b: seq<Block>, op: Op)
    requires c.Valid() && WellFormed(c, b) && (op.Free? || op.n < c.limit)
    ensures WellFormed(c, Step(c, b, op))
  {
    match op
    case Malloc(n) =>
      RequestSizeExact(c, n);
      var size := RequestSize(c, n);
      if n != 0 && size.Some? {
        var i := FirstFit(c, b, size.value);
        if i < |b| { AllocShape(c, b, i, size.value); }
      }
    case Free(start) =>
      var i := FindUsed(b, start);
      if i < |b| { FreeShape(c, b, i); }
    case Trim(start, n) =>
      RequestSizeExact(c, n);
      var size, i := RequestSize(c, n), FindUsed(b, start);
      if size.Some? && i < |b| && size.value < DataSize(c, b, i) { TrimShape(c, b, i, size.value); }
  }

  /** After mem_init and any sequence of calls the heap is well formed. */
  lemma {:induction false} RunWellFormed(c: Config, ops: seq<Op>)
    requires c.Valid() && forall op :: op in ops ==> op.Free? || op.n < c.limit
    ensures WellFormed(c, Run(c, ops))
  {
    if ops == [] {
      assert Aligned(c.align, 0);
    } else {
      RunWellFormed(c, ops[..|ops| - 1]);
      StepKeepsWellFormed(c, Run(c, ops[..|ops| - 1]), ops[|ops| - 1]);
    }
  }

  /** mem_free of the pointer mem_malloc just returned restores the block list, and with it
      lfree and the used statistic, which are functions of the list. */
  lemma FreeAfterMalloc(c: Config, b: seq<Block>, n: nat)
    requires c.Valid() && WellFormed(c, b) && 0 < n < c.limit
    requires RequestSize(c, n).Some? && FirstFit(c, b, RequestSize(c, n).value) < |b|
    ensures Step(c, Step(c, b, Malloc(n)), Free(b[FirstFit(c, b, RequestSize(c, n).value)].off)) == b
  {
    RequestSizeExact(c, n);
    var size := RequestSize(c, n).value;
    var i := FirstFit(c, b, size);
    var a := AllocAt(c, b, i, size);
    AllocShape(c, b, i, size);
    FreeUndoesAlloc(c, b, i, size);
    AllocRoom(c, b, i, size);
    FindUsedIs(c, a, i);
  }

  lemma FindUsedIs(c: Config, b: seq<Block>, i: nat)
    requires 0 < c.header && Tiled(c, b) && i < |b| && b[i].used
    ensures FindUsed(b, b[i].off) == i
  {
  }

  /** mem_trim of block i to newSize bytes comes to the branch that cuts off a new free block. */
  predicate CutsOff(c: Config, b: seq<Block>, i: nat, newSize: nat)
    requires i < |b|
  {
    && newSize < DataSize(c, b, i) && !(i + 1 < |b| && !b[i + 1].used)
    && newSize + c.header + c.minSize <= DataSize(c, b, i)
  }

  /** There it asserts that the next block is not the end of the heap.  The assert fails if and only if the block
      is the last one and big enough to be cut ... */
  lemma TrimAssertFails(c: Config, b: seq<Block>, i: nat, newSize: nat)
    requires c.Valid() && WellFormed(c, b) && i < |b|
    ensures CutsOff(c, b, i, newSize) && Off(c, b, i + 1) == c.memSize <==>
              i + 1 == |b| && newSize + c.header + c.minSize <= c.memSize - (b[i].off + c.header)
    ensures CutsOff(c, b, i, newSize) ==>
              TrimAt(c, b, i, newSize) == Insert(b, i + 1, Block(b[i].off + c.header + newSize, false))
  {
  }

  /** ... as happens when, for example, an allocation of the whole heap shrinks. */
  lemma LastBlockIsTrimmed(c: Config)
    requires c.Valid() && 2 * (c.header + c.minSize) <= c.memSize
    ensures var all, least := Malloc(c.memSize - c.header), Trim(0, c.minSize);
            && Run(c, [all]) == [Block(0, true)]
            && Run(c, [all, least]) == [Block(0, true), Block(c.header + c.minSize, false)]
  {
    var n := c.memSize - c.header;
    AlignedDifference(c.align, c.memSize, c.header);
    AlignUpOfAligned(c.align, n);
    AlignUpOfAligned(c.align, c.minSize);
    RequestSizeExact(c, n);
    RequestSizeExact(c, c.minSize);
    var all, least := Malloc(n), Trim(0, c.minSize);
    var b0 := [Block(0, false)];
    assert [all][..0] == [] && [all, least][..1] == [all];
    assert Fits(c, b0, 0, n) && FirstFit(c, b0, n) == 0;
    assert Run(c, [all]) == Step(c, b0, all) == [Block(0, true)];
  }

  lemma {:induction false} AlignedDifference(a: nat, x: nat, y: nat)
    requires 0 < a && y <= x && Aligned(a, x) && Aligned(a, y)
    ensures Aligned(a, x - y)
  {
    if y >= a { AlignedDifference(a, x - a, y - a); }
  }

  lemma AlignUpOfAligned(a: nat, x: nat)
    requires 0 < a && Aligned(a, x)
    ensures AlignUp(a, x) == x
  {
    AlignUpIsLeast(a, x);
    AlignedDifference(a, AlignUp(a, x), x);
  }
}
