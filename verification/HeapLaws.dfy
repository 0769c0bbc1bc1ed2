/**
 What the calls of lwip/core/mem.c come to for the allocations: which ranges are live after each call, and that
 the live ranges determine the whole block list.
 */
module HeapLaws {
  import opened Basics
  import opened HeapSpec

  // ---------- the block list is determined by what is live ----------

  lemma LiveHas(c: Config, b: seq<Block>, i: nat)
    requires i < |b| && b[i].used
    ensures (b[i].off, Off(c, b, i + 1)) in Live(c, b)
  {
  }

  lemma LiveFrom(c: Config, b: seq<Block>, x: (nat, nat)) returns (i: nat)
    requires x in Live(c, b)
    ensures i < |b| && b[i].used && x == (b[i].off, Off(c, b, i + 1))
  {
    i :| 0 <= i < |b| && b[i].used && x == (b[i].off, Off(c, b, i + 1));
  }

  lemma Ordered(c: Config, b: seq<Block>, i: nat, j: nat)
    requires 0 < c.header && Tiled(c, b) && i < |b| && j < |b|
    ensures b[i].off < b[j].off <==> i < j
    ensures b[i].off < c.memSize
  {
  }

  /** Where block i ends in one list, no block starts earlier in the other. */
  lemma SameEnd(c: Config, b: seq<Block>, b': seq<Block>, i: nat)
    requires 0 < c.header && WellFormed(c, b) && WellFormed(c, b') && Live(c, b) == Live(c, b')
    requires i < |b| && i < |b'| && b[i] == b'[i]
    ensures Off(c, b, i + 1) <= Off(c, b', i + 1)
  {
    hide Live;
    if b[i].used {
      LiveHas(c, b, i);
      var j := LiveFrom(c, b', (b[i].off, Off(c, b, i + 1)));
      Ordered(c, b', i, j);
      Ordered(c, b', j, i);
    } else if i + 1 < |b'| {
      LiveHas(c, b', i + 1);
      var j := LiveFrom(c, b, (b'[i + 1].off, Off(c, b', i + 2)));
      Ordered(c, b', i, i + 1);
      Ordered(c, b, i, j);
      if i + 1 < j { Ordered(c, b, i + 1, j); }
    } else if i + 1 < |b| {
      Ordered(c, b, i + 1, i);
    }
  }

  lemma SameUse(c: Config, b: seq<Block>, b': seq<Block>, i: nat)
    requires 0 < c.header && Tiled(c, b') && Live(c, b) == Live(c, b')
    requires i < |b| && i < |b'| && b[i].off == b'[i].off
    ensures b[i].used ==> b'[i].used
  {
    hide Live;
    if b[i].used {
      LiveHas(c, b, i);
      var j := LiveFrom(c, b', (b[i].off, Off(c, b, i + 1)));
      Ordered(c, b', i, j);
      Ordered(c, b', j, i);
    }
  }

  lemma {:induction false} SameBlocks(c: Config, b: seq<Block>, b': seq<Block>, n: nat)
    requires 0 < c.header && WellFormed(c, b) && WellFormed(c, b') && Live(c, b) == Live(c, b') && 0 < n <= |b|
    ensures n <= |b'| && b[..n] == b'[..n]
  {
    if n > 1 {
      SameBlocks(c, b, b', n - 1);
      assert b[n - 2] == b[..n - 1][n - 2] == b'[..n - 1][n - 2] == b'[n - 2];
      SameEnd(c, b, b', n - 2);
      SameEnd(c, b', b, n - 2);
      Ordered(c, b, n - 1, n - 1);
    }
    assert n <= |b'| && b[n - 1].off == b'[n - 1].off;
    SameUse(c, b, b', n - 1);
    SameUse(c, b', b, n - 1);
    assert b[..n] == b[..n - 1] + [b[n - 1]] && b'[..n] == b'[..n - 1] + [b'[n - 1]];
  }

  /** Two well-formed heaps with the same live allocations are the same, free blocks included. */
  lemma LiveDeterminesBlocks(c: Config, b: seq<Block>, b': seq<Block>)
    requires 0 < c.header && WellFormed(c, b) && WellFormed(c, b') && Live(c, b) == Live(c, b')
    ensures b == b'
  {
    SameBlocks(c, b, b', |b|);
    SameBlocks(c, b', b, |b'|);
    assert b[..|b|] == b && b'[..|b'|] == b';
  }

  // ---------- how much a block gets ----------

  /** A request gets exactly what it needs, unless what would be left over could not be a block. */
  lemma AllocExact(c: Config, b: seq<Block>, i: nat, size: nat)
    requires i < |b| && Fits(c, b, i, size) && 0 < c.header
    ensures DataSize(c, AllocAt(c, b, i, size), i) ==
              if DataSize(c, b, i) < size + c.header + c.minSize then DataSize(c, b, i) else size
    ensures DataSize(c, AllocAt(c, b, i, size), i) < size + c.header + c.minSize
  {
  }

  /** A trimmed block keeps exactly what it needs, unless what it gives up could be neither a block nor joined to
      one. */
  lemma TrimExact(c: Config, b: seq<Block>, i: nat, newSize: nat)
    requires c.Valid() && WellFormed(c, b) && Trimmable(c, b, i, newSize)
    ensures DataSize(c, TrimAt(c, b, i, newSize), i) ==
              if (i + 1 < |b| && !b[i + 1].used) || newSize + c.header + c.minSize <= DataSize(c, b, i)
              then newSize else DataSize(c, b, i)
  {
  }

  // ---------- whole calls ----------

  /** The bytes a request for n comes to. */
  function Needed(c: Config, n: nat): nat
    requires 0 < c.align
  {
    var up := AlignUp(c.align, n);
    if up < c.minSize then c.minSize else up
  }

  /** The range from start to end has been handed out: size bytes behind a header, without room for a block more. */
  ghost predicate Granted(c: Config, before: seq<Block>, after: seq<Block>, start: nat, end: nat, size: nat) {
    && Live(c, after) == Live(c, before) + {(start, end)} && (forall e :: (start, e) !in Live(c, before))
    && size <= end - (start + c.header) < size + c.header + c.minSize
  }

  ghost predicate GrantedAt(c: Config, before: seq<Block>, after: seq<Block>, start: nat, size: nat) {
    exists end :: Granted(c, before, after, start, end, size)
  }

  /** Some free block has room for size bytes. */
  ghost predicate Room(c: Config, b: seq<Block>, size: nat) {
    exists i :: 0 <= i < |b| && Fits(c, b, i, size)
  }

  /** The lowest free block with room for size bytes. */
  ghost predicate Lowest(c: Config, b: seq<Block>, i: nat, size: nat) {
    i < |b| && Fits(c, b, i, size) && forall j :: 0 <= j < i ==> !Fits(c, b, j, size)
  }

  /**
   mem_malloc hands out a range if and only if some free block has room for the request, and then one at the start
   of the lowest such block, with no more than the request needs unless the rest could not be a block.
   */
  lemma MallocGrants(c: Config, b: seq<Block>, n: nat) returns (i: nat, end: nat)
    requires c.Valid() && WellFormed(c, b) && n < c.limit
    ensures i == FirstFit(c, b, Needed(c, n)) && (i < |b| <==> Room(c, b, Needed(c, n)))
    ensures n == 0 || !Room(c, b, Needed(c, n)) ==> Step(c, b, Malloc(n)) == b
    ensures n > 0 && Room(c, b, Needed(c, n)) ==>
              && Lowest(c, b, i, Needed(c, n))
              && Granted(c, b, Step(c, b, Malloc(n)), b[i].off, end, Needed(c, n))
              && (end == b[i].off + c.header + Needed(c, n) || end == Off(c, b, i + 1))
  {
    var size := Needed(c, n);
    i, end := FirstFit(c, b, size), 0;
    StepMallocs(c, b, n);
    hide Live, Step, Tiled, Needed;
    if size > c.memSize { NoRoom(c, b, size); }
    if i < |b| {
      AllocLive(c, b, i, size);
      AllocExact(c, b, i, size);
      AllocRoom(c, b, i, size);
      FreeIsNotLive(c, b, i);
      end := Off(c, AllocAt(c, b, i, size), i + 1);
    }
  }

  lemma StepMallocs(c: Config, b: seq<Block>, n: nat)
    requires c.Valid() && n < c.limit
    ensures var size := Needed(c, n);
            var i := FirstFit(c, b, size);
            Step(c, b, Malloc(n)) ==
              if n == 0 || size > c.memSize || i == |b| then b else AllocAt(c, b, i, size)
  {
    RequestSizeExact(c, n);
  }

  /** The same in terms of the size mem_malloc computes. */
  lemma MallocChooses(c: Config, b: seq<Block>, n: nat)
    requires c.Valid() && WellFormed(c, b) && n < c.limit
    ensures var size := RequestSize(c, n);
            && (size.Some? && FirstFit(c, b, size.value) < |b| <==> Room(c, b, Needed(c, n)))
            && (n > 0 && size.Some? && FirstFit(c, b, size.value) < |b| ==>
                 GrantedAt(c, b, Step(c, b, Malloc(n)), b[FirstFit(c, b, size.value)].off, Needed(c, n)))
  {
    hide WellFormed, Granted, Room, Step;
    RequestSizeExact(c, n);
    assert RequestSize(c, n) == if Needed(c, n) <= c.memSize then Some(Needed(c, n)) else None;
    hide Needed, AlignUp, RequestSize, Aligned;
    var i, end := MallocGrants(c, b, n);
    if Needed(c, n) > c.memSize { NoRoom(c, b, Needed(c, n)); }
  }

  lemma NoRoom(c: Config, b: seq<Block>, size: nat)
    requires c.Valid() && WellFormed(c, b) && size > c.memSize
    ensures !Room(c, b, size)
  {
    forall i | 0 <= i < |b| ensures DataSize(c, b, i) <= c.memSize {
    }
  }

  lemma FreeIsNotLive(c: Config, b: seq<Block>, i: nat)
    requires 0 < c.header && Tiled(c, b) && i < |b| && !b[i].used
    ensures forall e :: (b[i].off, e) !in Live(c, b)
  {
    NotLive(c, b, i);
  }

  /** mem_free takes the range that starts at start out of the live ones, if there is one. */
  lemma FreeReleases(c: Config, b: seq<Block>, start: nat)
    requires c.Valid() && WellFormed(c, b)
    ensures forall x :: x in Live(c, Step(c, b, Free(start))) <==> x in Live(c, b) && x.0 != start
  {
    var i := FindUsed(b, start);
    hide Step;
    if i < |b| {
      FreeLive(c, b, i);
      StartsOnce(c, b, i);
      assert Step(c, b, Free(start)) == FreeAt(b, i) by { StepFrees(c, b, start); }
    } else {
      StepFrees(c, b, start);
    }
  }

  lemma StepFrees(c: Config, b: seq<Block>, start: nat)
    requires 0 < c.align && 0 < c.limit
    ensures var i := FindUsed(b, start);
            Step(c, b, Free(start)) == if i < |b| then FreeAt(b, i) else b
  {
  }

  lemma StartsOnce(c: Config, b: seq<Block>, i: nat)
    requires 0 < c.header && Tiled(c, b) && i < |b| && b[i].used
    ensures forall x :: x in Live(c, b) && x.0 == b[i].off ==> x == (b[i].off, Off(c, b, i + 1))
  {
    forall x | x in Live(c, b) && x.0 == b[i].off ensures x == (b[i].off, Off(c, b, i + 1)) {
      var j := LiveFrom(c, b, x);
      Ordered(c, b, i, j);
      Ordered(c, b, j, i);
    }
  }

  /** mem_trim shortens the live range that starts at start to what it needs, or leaves it; no other range changes. */
  lemma TrimShortens(c: Config, b: seq<Block>, i: nat, n: nat)
    requires c.Valid() && WellFormed(c, b) && n < c.limit && i < |b| && b[i].used
    ensures var size, start, end, b' := Needed(c, n), b[i].off, Off(c, b, i + 1), Step(c, b, Trim(b[i].off, n));
            && (DataSize(c, b, i) <= size ==> b' == b)
            && (DataSize(c, b, i) > size ==>
                 var cut := (i + 1 < |b| && !b[i + 1].used) || size + c.header + c.minSize <= DataSize(c, b, i);
                 Live(c, b') == Live(c, b) - {(start, end)} + {(start, if cut then start + c.header + size else end)})
  {
    RequestSizeExact(c, n);
    FindUsedIs(c, b, i);
    var size := Needed(c, n);
    assert size <= c.memSize ==> Step(c, b, Trim(b[i].off, n)) == TrimAt(c, b, i, size);
    assert DataSize(c, b, i) <= c.memSize;
    hide Live, Step, Needed, RequestSize;
    if size < DataSize(c, b, i) {
      TrimLive(c, b, i, size);
      TrimExact(c, b, i, size);
      TrimStays(c, b, i, size);
    }
  }

  lemma TrimStays(c: Config, b: seq<Block>, i: nat, newSize: nat)
    requires i < |b|
    ensures i < |TrimAt(c, b, i, newSize)| && TrimAt(c, b, i, newSize)[i] == b[i]
  {
  }
}
