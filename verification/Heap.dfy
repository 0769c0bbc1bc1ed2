/**
 lwip/core/mem.c: the heap with its headers rewritten in place.

 `ram` holds the header found at each offset, `lfree` is the lowest free block.
 Every operation is proved to do to the ghost block list what HeapSpec says, with
 the links, the lowest-free pointer and the statistics kept in step.
 */
module Heap {
  import opened Basics
  import opened HeapLaws
  import opened HeapSpec

  /** struct mem */
  datatype Header = Header(next: nat, prev: nat, used: bool)

  /** A pointer handed in by the application, relative to the start of the heap. */
  datatype Ptr = Null | At(addr: int)

  function HeaderOf(c: Config, b: seq<Block>, i: nat): Header
    requires i < |b|
  {
    Header(Off(c, b, i + 1), if i == 0 then 0 else b[i - 1].off, b[i].used)
  }

  /** The header of block i says what it should say. */
  ghost predicate LinkedAt(c: Config, b: seq<Block>, h: seq<Header>, i: nat)
    requires i < |b| && b[i].off < |h|
  {
    h[b[i].off] == HeaderOf(c, b, i)
  }

  ghost predicate Ordered(c: Config, b: seq<Block>) {
    && (forall i :: 0 <= i < |b| ==> b[i].off < c.memSize)
    && (forall i, j :: 0 <= i < j < |b| ==> b[i].off < b[j].off)
  }

  /** Where a header says used, a used block starts. */
  ghost predicate HonestAt(b: seq<Block>, h: seq<Header>, o: nat)
    requires o < |h|
  {
    h[o].used ==> Block(o, true) in b
  }

  ghost predicate Honest(c: Config, b: seq<Block>, h: seq<Header>)
    requires |h| == c.memSize + 1
  {
    forall o {:trigger HonestAt(b, h, o)} :: 0 <= o < c.memSize ==> HonestAt(b, h, o)
  }

  /** The headers in h are those of the blocks b, the end marker is in place, and no other header looks used. */
  ghost predicate Linked(c: Config, b: seq<Block>, h: seq<Header>) {
    && |h| == c.memSize + 1
    && h[c.memSize] == Header(c.memSize, c.memSize, true)
    && Ordered(c, b)
    && (forall i {:trigger LinkedAt(c, b, h, i)} :: 0 <= i < |b| ==> LinkedAt(c, b, h, i))
    && Honest(c, b, h)
  }

  // ---------- what the pointer updates do to the list ----------

  /** Set the back link of the block at offset `at`; the end marker has none. */
  function SetPrev(c: Config, h: seq<Header>, at: nat, prev: nat): seq<Header>
    requires at < |h|
  {
    if at != c.memSize then h[at := h[at].(prev := prev)] else h
  }

  /** Write a header at `at` and link it between the blocks at p and n. */
  function SpliceIn(c: Config, h: seq<Header>, p: nat, at: nat, n: nat, used: bool): seq<Header>
    requires p < |h| && at < |h| && n < |h|
  {
    var h1 := h[at := Header(n, p, used)];
    SetPrev(c, h1[p := h1[p].(next := at)], n, at)
  }

  /** Link the blocks at p and n to each other. */
  function SpliceOut(c: Config, h: seq<Header>, p: nat, n: nat): seq<Header>
    requires p < |h| && n < |h|
  {
    SetPrev(c, h[p := h[p].(next := n)], n, p)
  }

  lemma HonestSet(c: Config, b: seq<Block>, h: seq<Header>, i: nat, u: bool)
    requires |h| == c.memSize + 1 && Ordered(c, b) && Honest(c, b, h) && i < |b|
    ensures Honest(c, b[i := Block(b[i].off, u)], h[b[i].off := h[b[i].off].(used := u)])
  {
    var b', h' := b[i := Block(b[i].off, u)], h[b[i].off := h[b[i].off].(used := u)];
    forall o | 0 <= o < c.memSize ensures HonestAt(b', h', o) {
      assert HonestAt(b, h, o);
      if o == b[i].off {
        assert b'[i] == Block(o, u);
      } else if h[o].used {
        var k :| 0 <= k < |b| && b[k] == Block(o, true);
        assert b'[k] == Block(o, true);
      }
    }
  }

  lemma HonestInsert(c: Config, b: seq<Block>, h: seq<Header>, i: nat, x: Block)
    requires |h| == c.memSize + 1 && Ordered(c, b) && Honest(c, b, h)
    requires 0 < i <= |b| && b[i - 1].off < x.off < Off(c, b, i)
    ensures Honest(c, Insert(b, i, x), SpliceIn(c, h, b[i - 1].off, x.off, Off(c, b, i), x.used))
  {
    var r, g := Insert(b, i, x), SpliceIn(c, h, b[i - 1].off, x.off, Off(c, b, i), x.used);
    forall o | 0 <= o < c.memSize ensures HonestAt(r, g, o) {
      assert HonestAt(b, h, o);
      assert g[o].used == if o == x.off then x.used else h[o].used;
      assert r[i] == x;
      if h[o].used {
        var k :| 0 <= k < |b| && b[k] == Block(o, true);
        assert r[if k < i then k else k + 1] == b[k];
      }
    }
  }

  lemma HonestRemove(c: Config, b: seq<Block>, h: seq<Header>, i: nat)
    requires |h| == c.memSize + 1 && Ordered(c, b) && Honest(c, b, h) && 0 < i < |b| && !b[i].used
    ensures Honest(c, Remove(b, i), SpliceOut(c, h, b[i - 1].off, Off(c, b, i + 1)))
  {
    var r, g := Remove(b, i), SpliceOut(c, h, b[i - 1].off, Off(c, b, i + 1));
    forall o | 0 <= o < c.memSize ensures HonestAt(r, g, o) {
      assert HonestAt(b, h, o);
      assert g[o].used == h[o].used;
      if h[o].used {
        var k :| 0 <= k < |b| && b[k] == Block(o, true);
        assert r[if k < i then k else k - 1] == b[k];
      }
    }
  }

  lemma HonestMove(c: Config, b: seq<Block>, h: seq<Header>, i: nat, x: Block)
    requires |h| == c.memSize + 1 && Ordered(c, b) && Honest(c, b, h)
    requires 0 < i < |b| && b[i - 1].off < x.off <= b[i].off && !b[i].used && !x.used
    ensures Honest(c, b[i := x], SpliceIn(c, h, b[i - 1].off, x.off, Off(c, b, i + 1), false))
  {
    var r, g := b[i := x], SpliceIn(c, h, b[i - 1].off, x.off, Off(c, b, i + 1), false);
    forall o | 0 <= o < c.memSize ensures HonestAt(r, g, o) {
      assert HonestAt(b, h, o);
      assert g[o].used == (o != x.off && h[o].used);
      if h[o].used {
        var k :| 0 <= k < |b| && b[k] == Block(o, true);
        assert r[k] == b[k];
      }
    }
  }

  lemma LinkedSet(c: Config, b: seq<Block>, h: seq<Header>, i: nat, u: bool)
    requires Linked(c, b, h) && i < |b|
    ensures Linked(c, b[i := Block(b[i].off, u)], h[b[i].off := h[b[i].off].(used := u)])
  {
    hide Honest;
    var b', h' := b[i := Block(b[i].off, u)], h[b[i].off := h[b[i].off].(used := u)];
    HonestSet(c, b, h, i, u);
    forall k | 0 <= k < |b'|
      ensures LinkedAt(c, b', h', k)
    {
      assert LinkedAt(c, b, h, k);
      assert k != i ==> b[k].off != b[i].off;
    }
  }

  lemma InsertOrdered(c: Config, b: seq<Block>, i: nat, x: Block)
    requires Ordered(c, b) && 0 < i <= |b| && b[i - 1].off < x.off < Off(c, b, i)
    ensures Ordered(c, Insert(b, i, x))
  {
    InsertIndex(b, i, x);
    hide Insert;
  }

  lemma LinkedInsert(c: Config, b: seq<Block>, h: seq<Header>, i: nat, x: Block)
    requires Linked(c, b, h) && 0 < i <= |b| && b[i - 1].off < x.off < Off(c, b, i)
    ensures Linked(c, Insert(b, i, x), SpliceIn(c, h, b[i - 1].off, x.off, Off(c, b, i), x.used))
  {
    hide Honest;
    var r, g := Insert(b, i, x), SpliceIn(c, h, b[i - 1].off, x.off, Off(c, b, i), x.used);
    InsertOrdered(c, b, i, x);
    InsertIndex(b, i, x);
    HonestInsert(c, b, h, i, x);
    hide Insert;
    forall k | 0 <= k < |r|
      ensures LinkedAt(c, r, g, k)
    {
      if k < i {
        assert LinkedAt(c, b, h, k);
        assert k + 1 < i ==> b[k].off < b[i - 1].off;
      } else if k > i {
        assert LinkedAt(c, b, h, k - 1);
        assert b[i - 1].off < b[k - 1].off;
      }
    }
  }

  lemma LinkedRemove(c: Config, b: seq<Block>, h: seq<Header>, i: nat)
    requires Linked(c, b, h) && 0 < i < |b| && !b[i].used
    ensures Linked(c, Remove(b, i), SpliceOut(c, h, b[i - 1].off, Off(c, b, i + 1)))
  {
    hide Honest;
    var r, g := Remove(b, i), SpliceOut(c, h, b[i - 1].off, Off(c, b, i + 1));
    HonestRemove(c, b, h, i);
    assert forall k :: 0 <= k < i ==> r[k] == b[k];
    assert forall k :: i <= k < |r| ==> r[k] == b[k + 1];
    assert Ordered(c, r);
    forall k | 0 <= k < |r|
      ensures LinkedAt(c, r, g, k)
    {
      if k < i {
        assert LinkedAt(c, b, h, k);
      } else {
        assert LinkedAt(c, b, h, k + 1);
      }
    }
  }

  lemma LinkedMove(c: Config, b: seq<Block>, h: seq<Header>, i: nat, x: Block)
    requires Linked(c, b, h) && 0 < i < |b| && b[i - 1].off < x.off <= b[i].off && !b[i].used && !x.used
    ensures Linked(c, b[i := x], SpliceIn(c, h, b[i - 1].off, x.off, Off(c, b, i + 1), false))
  {
    hide Honest;
    var r, g := b[i := x], SpliceIn(c, h, b[i - 1].off, x.off, Off(c, b, i + 1), false);
    HonestMove(c, b, h, i, x);
    assert Ordered(c, r);
    forall k | 0 <= k < |r|
      ensures LinkedAt(c, r, g, k)
    {
      assert LinkedAt(c, b, h, k);
    }
  }

  // ---------- the lowest free block ----------

  ghost function LowestFree(c: Config, b: seq<Block>): nat {
    Off(c, b, FirstFree(b))
  }

  lemma FirstFreeIs(b: seq<Block>, r: nat)
    requires r <= |b| && (forall j :: 0 <= j < r ==> b[j].used) && (r < |b| ==> !b[r].used)
    ensures FirstFree(b) == r
  {
  }

  lemma FirstFitIs(c: Config, b: seq<Block>, size: nat, r: nat)
    requires r < |b| && Fits(c, b, r, size) && forall j :: 0 <= j < r ==> !Fits(c, b, j, size)
    ensures FirstFit(c, b, size) == r
  {
  }

  lemma LowestAfterFree(c: Config, b: seq<Block>, i: nat)
    requires Ordered(c, b) && i < |b| && b[i].used
    ensures LowestFree(c, b[i := Block(b[i].off, false)]) ==
            if b[i].off < LowestFree(c, b) then b[i].off else LowestFree(c, b)
  {
    var k := FirstFree(b);
    FirstFreeIs(b[i := Block(b[i].off, false)], if i < k then i else k);
  }

  lemma LowestAfterRemove(c: Config, b: seq<Block>, i: nat)
    requires 0 < i < |b| && !b[i - 1].used
    ensures LowestFree(c, Remove(b, i)) == LowestFree(c, b) == b[FirstFree(b)].off
    ensures FirstFree(b) < i
  {
    FirstFreeIs(Remove(b, i), FirstFree(b));
  }

  lemma LowestAfterInsert(c: Config, b: seq<Block>, i: nat, x: Block)
    requires Ordered(c, b) && 0 < i <= |b| && b[i - 1].off < x.off < Off(c, b, i) && !x.used
    ensures LowestFree(c, Insert(b, i, x)) == if x.off < LowestFree(c, b) then x.off else LowestFree(c, b)
  {
    var k := FirstFree(b);
    FirstFreeIs(Insert(b, i, x), if i <= k then i else k);
  }

  lemma LowestAfterMove(c: Config, b: seq<Block>, i: nat, x: Block)
    requires Ordered(c, b) && i < |b| && !b[i].used && !x.used
    ensures LowestFree(c, b[i := x]) == if LowestFree(c, b) == b[i].off then x.off else LowestFree(c, b)
  {
    FirstFreeIs(b[i := x], FirstFree(b));
  }

  function Replace(x: nat, from: nat, to: nat): nat {
    if x == from then to else x
  }

  /** What freeing the pointer addr does to the block list. */
  function Freed(c: Config, b: seq<Block>, addr: int): seq<Block>
    requires 0 < c.align && 0 < c.limit
  {
    if addr < c.header then b else Step(c, b, HeapSpec.Op.Free(addr - c.header))
  }

  /** A freed block is not found again. */
  lemma NotLiveAfterFree(c: Config, b: seq<Block>, i: nat)
    requires c.Valid() && WellFormed(c, b) && i < |b| && b[i].used
    ensures Block(b[i].off, true) !in FreeAt(b, i)
    ensures FindUsed(FreeAt(b, i), b[i].off) == |FreeAt(b, i)|
  {
    var f := FreeAt(b, i);
    FreeLive(c, b, i);
    hide FreeAt;
    forall k | 0 <= k < |f| && f[k].used ensures f[k].off != b[i].off {
      assert (f[k].off, Off(c, f, k + 1)) in Live(c, f);
    }
  }

  lemma AllocLowest(c: Config, b: seq<Block>, i: nat, size: nat)
    requires Ordered(c, b) && i < |b| && Fits(c, b, i, size)
    ensures b[i].off == LowestFree(c, b) ==> forall j :: 0 <= j < i ==> AllocAt(c, b, i, size)[j].used
    ensures b[i].off != LowestFree(c, b) ==> LowestFree(c, AllocAt(c, b, i, size)) == LowestFree(c, b)
  {
    if b[i].off != LowestFree(c, b) { FirstFreeIs(AllocAt(c, b, i, size), FirstFree(b)); }
  }

  class Mem {
    const c: Config
    const ram: array<Header>
    var lfree: nat
    var used: int
    var err: nat
    var illegal: nat
    ghost var blocks: seq<Block>

    ghost predicate Valid()
      reads this`lfree, this`used, this`blocks, ram
    {
      && c.Valid()
      && WellFormed(c, blocks)
      && Linked(c, blocks, ram[..])
      && lfree == LowestFree(c, blocks)
      && used == UsedBytes(blocks, c.memSize)
    }

    /** mem_init */
    constructor (c: Config)
      requires c.Valid()
      ensures Valid() && this.c == c && blocks == Run(c, []) && err == 0 && illegal == 0
      ensures fresh(ram)
    {
      this.c := c;
      ram := new Header[c.memSize + 1](_ => Header(0, 0, false));
      lfree, used, err, illegal := 0, 0, 0, 0;
      blocks := [Block(0, false)];
      new;
      ram[0] := Header(c.memSize, 0, false);
      ram[c.memSize] := Header(c.memSize, c.memSize, true);
      assert Aligned(c.align, 0);
      assert LinkedAt(c, blocks, ram[..], 0);
    }
  
    /** Link the blocks at p and n to each other, dropping what is between them. */
    method Unlink(p: nat, n: nat)
      requires p < ram.Length && n < ram.Length
      modifies ram
      ensures ram[..] == SpliceOut(c, old(ram[..]), p, n)
    {
      ram[p] := ram[p].(next := n);
      if n != c.memSize { ram[n] := ram[n].(prev := p); }
    }

    /** Write a header at `at` and link it between p and n. */
    method Link(p: nat, at: nat, n: nat, used: bool)
      requires p < ram.Length && at < ram.Length && n < ram.Length
      modifies ram
      ensures ram[..] == SpliceIn(c, old(ram[..]), p, at, n, used)
    {
      ram[at] := Header(n, p, used);
      ram[p] := ram[p].(next := at);
      if n != c.memSize { ram[n] := ram[n].(prev := at); }
    }

    /** First half of plug_holes: join the free block at mem with a free successor. */
    method PlugForward(mem: nat, ghost i: nat)
      requires Linked(c, blocks, ram[..]) && lfree == LowestFree(c, blocks)
      requires i < |blocks| && blocks[i] == Block(mem, false)
      modifies this`lfree, this`blocks, ram
      ensures blocks == MergeForward(old(blocks), i)
      ensures Linked(c, blocks, ram[..]) && lfree == LowestFree(c, blocks)
    {
      hide Honest;
      ghost var h := ram[..];
      assert LinkedAt(c, blocks, h, i);
      var nmem := ram[mem].next;
      assert i + 1 < |blocks| ==> LinkedAt(c, blocks, h, i + 1);
      if mem != nmem && !ram[nmem].used && nmem != c.memSize {
        LowestAfterRemove(c, blocks, i + 1);
        assert lfree != nmem;
        lfree := Replace(lfree, nmem, mem);
        Unlink(mem, ram[nmem].next);
        LinkedRemove(c, blocks, h, i + 1);
        blocks := Remove(blocks, i + 1);
      }
    }

    /** Second half of plug_holes: join it with a free predecessor. */
    method PlugBackward(mem: nat, ghost i: nat)
      requires Linked(c, blocks, ram[..]) && lfree == LowestFree(c, blocks)
      requires i < |blocks| && blocks[i] == Block(mem, false) && blocks[0].off == 0
      modifies this`lfree, this`blocks, ram
      ensures blocks == MergeBackward(old(blocks), i)
      ensures Linked(c, blocks, ram[..]) && lfree == LowestFree(c, blocks)
    {
      hide Honest;
      ghost var h := ram[..];
      assert LinkedAt(c, blocks, h, i);
      var pmem := ram[mem].prev;
      assert 0 < i ==> LinkedAt(c, blocks, h, i - 1);
      if pmem != mem && !ram[pmem].used {
        LowestAfterRemove(c, blocks, i);
        assert lfree != mem;
        lfree := Replace(lfree, mem, pmem);
        Unlink(pmem, ram[mem].next);
        LinkedRemove(c, blocks, h, i);
        blocks := Remove(blocks, i);
      }
    }

    /** mem_link_valid: the neighbours of the header at mem point back at it. */
    predicate LinkValid(mem: nat)
      requires mem < ram.Length && ram.Length == c.memSize + 1
      reads ram
    {
      && ram[mem].next <= c.memSize
      && ram[mem].prev <= c.memSize
      && (ram[mem].prev == mem || ram[ram[mem].prev].next == mem)
      && (ram[mem].next == c.memSize || ram[ram[mem].next].prev == mem)
    }

    /** Every block, live or free, passes mem_link_valid. */
    lemma BlocksAreLinkValid(i: nat)
      requires Linked(c, blocks, ram[..]) && i < |blocks| && blocks[0].off == 0
      ensures LinkValid(blocks[i].off)
    {
      assert LinkedAt(c, blocks, ram[..], i);
      assert 0 < i ==> LinkedAt(c, blocks, ram[..], i - 1);
      assert i + 1 < |blocks| ==> LinkedAt(c, blocks, ram[..], i + 1);
    }
  
    /** plug_holes */
    method PlugHoles(mem: nat, ghost i: nat)
      requires Linked(c, blocks, ram[..]) && lfree == LowestFree(c, blocks)
      requires i < |blocks| && blocks[i] == Block(mem, false) && blocks[0].off == 0
      modifies this`lfree, this`blocks, ram
      ensures blocks == MergeBackward(MergeForward(old(blocks), i), i)
      ensures Linked(c, blocks, ram[..]) && lfree == LowestFree(c, blocks)
    {
      PlugForward(mem, i);
      PlugBackward(mem, i);
    }

    /** The tests mem_free makes before it frees anything. */
    predicate FreeChecks(addr: int)
      requires ram.Length == c.memSize + 1 && 0 < c.align
      reads ram
    {
      && addr % c.align == 0
      && c.header <= addr && addr + c.minSize <= c.memSize
      && ram[addr - c.header].used
      && LinkValid(addr - c.header)
    }

    /** addr was returned by an allocation that is still live. */
    ghost predicate IsLive(addr: int)
      reads this`blocks
    {
      c.header <= addr && FindUsed(blocks, addr - c.header) < |blocks|
    }

    /** mem_free.  A pointer that is no live allocation is refused and counted, and nothing else happens. */
    method Free(rmem: Ptr)
      requires Valid()
      modifies this`lfree, this`used, this`blocks, this`illegal, ram
      ensures Valid()
      ensures blocks == if rmem.Null? then old(blocks) else Freed(c, old(blocks), rmem.addr)
      ensures illegal == old(illegal) + if rmem.Null? || old(IsLive(rmem.addr)) then 0 else 1
      ensures rmem.Null? || !old(IsLive(rmem.addr)) ==>
                blocks == old(blocks) && ram[..] == old(ram[..]) && lfree == old(lfree) && used == old(used)
    {
      if rmem.Null? { return; }
      LiveIffChecks(rmem.addr);
      if FreeChecks(rmem.addr) {
        FreeBlock(rmem.addr - c.header);
      } else {
        illegal := illegal + 1;
      }
    }

    /** A live pointer is freed by the first call; the second is refused and counted, and changes nothing else. */
    method FreeTwice(addr: int)
      requires Valid() && IsLive(addr)
      modifies this`lfree, this`used, this`blocks, this`illegal, ram
      ensures Valid() && !IsLive(addr) && blocks == Freed(c, old(blocks), addr) && illegal == old(illegal) + 1
    {
      hide WellFormed, Linked, UsedBytes, LowestFree, Freed;
      FreedIsNotLive(addr);
      Free(At(addr));
      Free(At(addr));
    }

    lemma FreedIsNotLive(addr: int)
      requires Valid() && IsLive(addr)
      ensures FindUsed(Freed(c, blocks, addr), addr - c.header) == |Freed(c, blocks, addr)|
    {
      NotLiveAfterFree(c, blocks, FindUsed(blocks, addr - c.header));
    }

    /** The checks of mem_free accept exactly the live allocations. */
    lemma LiveIffChecks(addr: int)
      requires Valid()
      ensures FreeChecks(addr) <==> IsLive(addr)
      ensures !IsLive(addr) ==> Freed(c, blocks, addr) == blocks
    {
      if IsLive(addr) { LiveBlockPassesChecks(FindUsed(blocks, addr - c.header)); }
      if FreeChecks(addr) { assert HonestAt(blocks, ram[..], addr - c.header); }
    }

    lemma LiveBlockPassesChecks(i: nat)
      requires Valid() && i < |blocks| && blocks[i].used
      ensures FreeChecks(blocks[i].off + c.header)
    {
      AlignedSum(c.align, blocks[i].off, c.header);
      AlignedMeansMultiple(c.align, blocks[i].off + c.header);
      BlocksAreLinkValid(i);
      assert LinkedAt(c, blocks, ram[..], i);
    }

    /** The part of mem_free behind the checks. */
    method FreeBlock(mem: nat)
      requires Valid() && IsLive(mem + c.header)
      modifies this`lfree, this`used, this`blocks, ram
      ensures Valid() && blocks == Freed(c, old(blocks), mem + c.header)
    {
      ghost var b, h, i := blocks, ram[..], FindUsed(blocks, mem);
      assert LinkedAt(c, b, h, i);
      FreeEffect(i);
      LowestAfterFree(c, b, i);
      LinkedSet(c, b, h, i, false);
      hide WellFormed, Linked, UsedBytes, Config.Valid, LowestFree;
      ram[mem] := ram[mem].(used := false);
      assert ram[..] == h[mem := h[mem].(used := false)];
      if mem < lfree { lfree := mem; }
      used := used - (ram[mem].next - mem);
      blocks := b[i := Block(mem, false)];
      PlugHoles(mem, i);
    }

    lemma FreeEffect(i: nat)
      requires Valid() && i < |blocks| && blocks[i].used
      ensures c.Valid() && WellFormed(c, FreeAt(blocks, i)) && blocks[0].off == 0
      ensures UsedBytes(FreeAt(blocks, i), c.memSize) == used - (Off(c, blocks, i + 1) - blocks[i].off)
    {
      FreeShape(c, blocks, i);
      FreeUsed(c, blocks, i);
    }

    /** mem_trim when the next block is free: that block moves down to ptr2. */
    method TrimMove(ptr: nat, ptr2: nat, ghost i: nat)
      requires Linked(c, blocks, ram[..]) && lfree == LowestFree(c, blocks)
      requires i + 1 < |blocks| && blocks[i].off == ptr && !blocks[i + 1].used && ptr < ptr2 <= blocks[i + 1].off
      modifies this`lfree, this`blocks, ram
      ensures blocks == old(blocks)[i + 1 := Block(ptr2, false)]
      ensures Linked(c, blocks, ram[..]) && lfree == LowestFree(c, blocks)
    {
      assert LinkedAt(c, blocks, ram[..], i) && LinkedAt(c, blocks, ram[..], i + 1);
      LinkedMove(c, blocks, ram[..], i + 1, Block(ptr2, false));
      LowestAfterMove(c, blocks, i + 1, Block(ptr2, false));
      var mem2 := ram[ptr].next;
      if lfree == mem2 { lfree := ptr2; }
      Link(ptr, ptr2, ram[mem2].next, false);
      blocks := blocks[i + 1 := Block(ptr2, false)];
    }

    /** mem_trim when the next block is used: a new free block is cut off at ptr2. */
    method TrimSplit(ptr: nat, ptr2: nat, ghost i: nat)
      requires Linked(c, blocks, ram[..]) && lfree == LowestFree(c, blocks)
      requires i < |blocks| && blocks[i].off == ptr && ptr < ptr2 < Off(c, blocks, i + 1)
      modifies this`lfree, this`blocks, ram
      ensures blocks == Insert(old(blocks), i + 1, Block(ptr2, false))
      ensures Linked(c, blocks, ram[..]) && lfree == LowestFree(c, blocks)
    {
      assert LinkedAt(c, blocks, ram[..], i);
      LinkedInsert(c, blocks, ram[..], i + 1, Block(ptr2, false));
      LowestAfterInsert(c, blocks, i + 1, Block(ptr2, false));
      if ptr2 < lfree { lfree := ptr2; }
      Link(ptr, ptr2, ram[ptr].next, false);
      blocks := Insert(blocks, i + 1, Block(ptr2, false));
    }

    /** mem_trim shortens block i by gain bytes, where a neighbour or a new block can take them. */
    ghost function TrimGain(i: nat, newSize: nat): int
      requires i < |blocks|
      reads this`blocks
    {
      if (i + 1 < |blocks| && !blocks[i + 1].used) || Splits(c, blocks, i, newSize)
      then DataSize(c, blocks, i) - newSize else 0
    }

    lemma TrimEffect(i: nat, newSize: nat)
      requires Valid() && i < |blocks| && blocks[i].used
      requires Aligned(c.align, newSize) && c.minSize <= newSize < DataSize(c, blocks, i)
      ensures c.Valid() && WellFormed(c, TrimAt(c, blocks, i, newSize))
      ensures UsedBytes(TrimAt(c, blocks, i, newSize), c.memSize) == used - TrimGain(i, newSize)
    {
      hide WellFormed, Linked, LowestFree, Aligned;
      TrimShape(c, blocks, i, newSize);
      TrimUsed(c, blocks, i, newSize);
    }

    /** The part of mem_trim behind the checks: block i shrinks to newSize data bytes. */
    method TrimBlock(ptr: nat, newSize: nat, ghost i: nat)
      requires Valid() && i < |blocks| && blocks[i] == Block(ptr, true)
      requires Aligned(c.align, newSize) && c.minSize <= newSize < DataSize(c, blocks, i)
      modifies this`lfree, this`used, this`blocks, ram
      ensures Valid() && blocks == TrimAt(c, old(blocks), i, newSize)
    {
      TrimEffect(i, newSize);
      var gain := TrimLinks(ptr, newSize, i);
      hide WellFormed, Linked, UsedBytes, Config.Valid, LowestFree, TrimAt;
      used := used - gain;
    }

    /** The list surgery of mem_trim; gain is what the block lost. */
    method TrimLinks(ptr: nat, newSize: nat, ghost i: nat) returns (gain: nat)
      requires Linked(c, blocks, ram[..]) && lfree == LowestFree(c, blocks)
      requires i < |blocks| && blocks[i] == Block(ptr, true) && newSize < DataSize(c, blocks, i)
      requires 0 < c.header
      modifies this`lfree, this`blocks, ram
      ensures gain == old(TrimGain(i, newSize))
      ensures blocks == TrimAt(c, old(blocks), i, newSize)
      ensures Linked(c, blocks, ram[..]) && lfree == LowestFree(c, blocks)
    {
      assert LinkedAt(c, blocks, ram[..], i);
      assert i + 1 < |blocks| ==> LinkedAt(c, blocks, ram[..], i + 1);
      var mem2 := ram[ptr].next;
      var size := mem2 - ptr - c.header;
      var free := !ram[mem2].used;
      assert free <==> i + 1 < |blocks| && !blocks[i + 1].used;
      hide Linked, LowestFree;
      gain := 0;
      if free {
        TrimMove(ptr, ptr + c.header + newSize, i);
        gain := size - newSize;
      } else if newSize + c.header + c.minSize <= size {
        TrimSplit(ptr, ptr + c.header + newSize, i);
        gain := size - newSize;
      }
    }

    /** What trimming the pointer addr to n bytes does to the block list. */
    ghost function Trimmed(b: seq<Block>, addr: int, n: nat): seq<Block>
      requires 0 < c.align && 0 < c.limit
    {
      if c.header <= addr < c.memSize then Step(c, b, HeapSpec.Op.Trim(addr - c.header, n)) else b
    }

    /** mem_trim: Null means the block is too small for n bytes, or no block could hold them. */
    method Trim(addr: int, n: nat) returns (r: Ptr)
      requires Valid() && n < c.limit && (0 <= addr < c.memSize ==> IsLive(addr))
      modifies this`lfree, this`used, this`blocks, this`illegal, ram
      ensures Valid() && blocks == Trimmed(old(blocks), addr, n)
      ensures r.At? ==> r.addr == addr
      ensures illegal == old(illegal) + if RequestSize(c, n).Some? && !(0 <= addr < c.memSize) then 1 else 0
      ensures r.Null? <==> RequestSize(c, n).None? ||
                           (0 <= addr < c.memSize && old(RequestSize(c, n).value > LiveSize(addr)))
    {
      hide Linked, UsedBytes, LowestFree, WellFormed;
      RequestSizeExact(c, n);
      var request := RequestSize(c, n);
      if request.None? { return Null; }
      if addr < 0 || addr >= c.memSize {
        illegal := illegal + 1;
        return At(addr);
      }
      var fits := Shrink(addr - c.header, request.value, FindUsed(blocks, addr - c.header));
      return if fits then At(addr) else Null;
    }

    /** mem_trim of the live block i, when the new size is one a block may have. */
    method Shrink(ptr: nat, newSize: nat, ghost i: nat) returns (fits: bool)
      requires Valid() && i < |blocks| && blocks[i] == Block(ptr, true)
      requires Aligned(c.align, newSize) && c.minSize <= newSize
      modifies this`lfree, this`used, this`blocks, ram
      ensures Valid() && blocks == TrimAt(c, old(blocks), i, newSize)
      ensures fits <==> newSize <= old(DataSize(c, blocks, i))
    {
      hide Honest, UsedBytes, LowestFree, WellFormed, Aligned;
      assert LinkedAt(c, blocks, ram[..], i);
      var size := ram[ptr].next - ptr - c.header;
      if newSize < size { TrimBlock(ptr, newSize, i); }
      return newSize <= size;
    }

    ghost function LiveSize(addr: int): int
      requires IsLive(addr)
      reads this`blocks
    {
      DataSize(c, blocks, FindUsed(blocks, addr - c.header))
    }
  
    // ---------- mem_malloc ----------

    /** The search loop of mem_malloc: from lfree upward, stopping where size can no longer fit. */
    method Search(size: nat) returns (ptr: nat, found: bool, ghost i: nat)
      requires Valid() && size <= c.memSize
      ensures found == (FirstFit(c, blocks, size) < |blocks|) && i == FirstFit(c, blocks, size)
      ensures found ==> ptr == blocks[FirstFit(c, blocks, size)].off
    {
      ptr, found, i := lfree, false, FirstFree(blocks);
      while ptr < c.memSize - size
        invariant i <= |blocks| && ptr == Off(c, blocks, i)
        invariant forall j :: 0 <= j < i ==> !Fits(c, blocks, j, size)
        decreases |blocks| - i
      {
        assert LinkedAt(c, blocks, ram[..], i);
        if !ram[ptr].used && ram[ptr].next - (ptr + c.header) >= size {
          FirstFitIs(c, blocks, size, i);
          found := true;
          return;
        }
        ptr, i := ram[ptr].next, i + 1;
      }
      NothingFits(size, i);
      i := |blocks|;
    }

    lemma NothingFits(size: nat, i: nat)
      requires Valid() && i <= |blocks| && Off(c, blocks, i) >= c.memSize - size
      requires forall j :: 0 <= j < i ==> !Fits(c, blocks, j, size)
      ensures FirstFit(c, blocks, size) == |blocks|
    {
      var j := FirstFit(c, blocks, size);
      if j < |blocks| { FirstFitShortcuts(c, blocks, size, j); }
    }

    /** Mark block i used, splitting off what the request does not need. */
    method Take(ptr: nat, size: nat, ghost i: nat)
      requires Linked(c, blocks, ram[..]) && i < |blocks| && blocks[i].off == ptr && Fits(c, blocks, i, size)
      requires 0 < c.header
      modifies this`used, this`blocks, ram
      ensures Linked(c, blocks, ram[..]) && blocks == AllocAt(c, old(blocks), i, size)
      ensures used == old(used) + Off(c, blocks, i + 1) - ptr
    {
      ghost var b, h := blocks, ram[..];
      assert LinkedAt(c, b, h, i);
      LinkedSet(c, b, h, i, true);
      ghost var taken := b[i := Block(ptr, true)];
      ghost var rest := Block(ptr + c.header + size, false);
      if ram[ptr].next - (ptr + c.header) >= size + c.header + c.minSize {
        var next := ram[ptr].next;
        ram[ptr] := ram[ptr].(used := true);
        LinkedInsert(c, taken, ram[..], i + 1, rest);
        hide Linked;
        Link(ptr, ptr + c.header + size, next, false);
        used := used + size + c.header;
        blocks := Insert(taken, i + 1, rest);
      } else {
        ram[ptr] := ram[ptr].(used := true);
        used := used + ram[ptr].next - ptr;
        blocks := taken;
      }
    }

    /** Move lfree up to the next free block. */
    method AdvanceLowestFree(ghost i: nat)
      requires Linked(c, blocks, ram[..]) && i < |blocks| && lfree == blocks[i].off
      requires forall j :: 0 <= j < i ==> blocks[j].used
      modifies this`lfree
      ensures lfree == LowestFree(c, blocks)
    {
      var cur := lfree;
      ghost var k := i;
      assert LinkedAt(c, blocks, ram[..], i);
      while ram[cur].used && cur != c.memSize
        invariant i <= k <= |blocks| && cur == Off(c, blocks, k)
        invariant forall j :: 0 <= j < k ==> blocks[j].used
        decreases |blocks| - k
      {
        assert LinkedAt(c, blocks, ram[..], k);
        cur, k := ram[cur].next, k + 1;
      }
      assert k < |blocks| ==> LinkedAt(c, blocks, ram[..], k);
      FirstFreeIs(blocks, k);
      lfree := cur;
    }
  
    /** mem_malloc */
    method Malloc(n: nat) returns (r: Ptr)
      requires Valid() && n < c.limit
      modifies this`lfree, this`used, this`blocks, this`err, ram
      ensures Valid() && blocks == Step(c, old(blocks), HeapSpec.Op.Malloc(n))
      ensures r == old(Chosen(n))
      ensures err == old(err) + if r.Null? && n != 0 && RequestSize(c, n).Some? then 1 else 0
      ensures r.Null? <==> n == 0 || !old(Room(c, blocks, Needed(c, n)))
      ensures r.At? ==> c.header <= r.addr && GrantedAt(c, old(blocks), blocks, r.addr - c.header, Needed(c, n))
    {
      hide GrantedAt, Room, Needed, AlignUp, WellFormed, Linked, UsedBytes, LowestFree, Aligned;
      MallocIs(n);
      RequestSizeExact(c, n);
      var request := RequestSize(c, n);
      if n == 0 || request.None? { return Null; }
      var ptr, found, i := Search(request.value);
      if !found {
        err := err + 1;
        return Null;
      }
      Allocate(ptr, request.value, i);
      return At(ptr + c.header);
    }

    lemma MallocIs(n: nat)
      requires Valid() && n < c.limit
      ensures Chosen(n).Null? <==> n == 0 || !Room(c, blocks, Needed(c, n))
      ensures var r := Chosen(n);
              r.At? ==>
                && c.header <= r.addr
                && GrantedAt(c, blocks, Step(c, blocks, HeapSpec.Op.Malloc(n)), r.addr - c.header, Needed(c, n))
    {
      hide WellFormed, Linked, UsedBytes, LowestFree, GrantedAt, Room, Step, AlignUp, RequestSize, Needed;
      MallocChooses(c, blocks, n);
    }

    /** The pointer mem_malloc returns: the data of the lowest free block that fits. */
    ghost function Chosen(n: nat): Ptr
      requires 0 < c.align && 0 < c.limit
      reads this`blocks
    {
      var size := RequestSize(c, n);
      if n == 0 || size.None? then Null
      else var i := FirstFit(c, blocks, size.value);
           if i == |blocks| then Null else At(blocks[i].off + c.header)
    }

    /** What mem_malloc does with the block it found. */
    method Allocate(ptr: nat, size: nat, ghost i: nat)
      requires Valid() && i < |blocks| && blocks[i].off == ptr && Fits(c, blocks, i, size)
      requires Aligned(c.align, size) && c.minSize <= size
      modifies this`lfree, this`used, this`blocks, ram
      ensures Valid() && blocks == AllocAt(c, old(blocks), i, size)
    {
      AllocEffect(i, size);
      ghost var b := blocks;
      Take(ptr, size, i);
      if ptr == lfree { AdvanceLowestFree(i); }
    }

    lemma AllocEffect(i: nat, size: nat)
      requires Valid() && i < |blocks| && Fits(c, blocks, i, size)
      requires Aligned(c.align, size) && c.minSize <= size
      ensures c.Valid() && WellFormed(c, AllocAt(c, blocks, i, size))
      ensures UsedBytes(AllocAt(c, blocks, i, size), c.memSize) ==
                used + Off(c, AllocAt(c, blocks, i, size), i + 1) - blocks[i].off
      ensures blocks[i].off == lfree ==> forall j :: 0 <= j < i ==> AllocAt(c, blocks, i, size)[j].used
      ensures blocks[i].off != lfree ==> LowestFree(c, AllocAt(c, blocks, i, size)) == lfree
    {
      AllocShape(c, blocks, i, size);
      AllocUsed(c, blocks, i, size);
      AllocLowest(c, blocks, i, size);
    }

    /** One call, with the offset of a block in place of a pointer. */
    method Call(op: Op)
      requires Valid() && (op.Free? || op.n < c.limit)
      modifies this, ram
      ensures Valid() && blocks == Step(c, old(blocks), op)
    {
      hide WellFormed, Linked, UsedBytes, LowestFree, FreeChecks, RequestSize, Step;
      SameCalls(op);
      match op
      case Malloc(n) => var r := Malloc(n);
      case Free(start) => Free(At(start + c.header));
      case Trim(start, n) =>
        LiveIffChecks(start + c.header);
        if FreeChecks(start + c.header) { var r := Trim(start + c.header, n); }
    }

    lemma SameCalls(op: Op)
      requires Valid() && (op.Free? || op.n < c.limit)
      ensures ram.Length == c.memSize + 1 && 0 < c.align && 0 < c.limit
      ensures op.Trim? && !IsLive(op.start + c.header) ==> Step(c, blocks, op) == blocks
      ensures op.Trim? && op.start + c.header >= c.memSize ==> Step(c, blocks, op) == blocks
    {
      if op.Trim? { RequestSizeExact(c, op.n); }
    }
  }

  /**
   Every sequence of calls, with any pointers: the headers follow the block list of HeapSpec.Run, and lfree
   and the used statistic follow with them.  mem_trim is called on live allocations only.
   */
  method Execute(c: Config, ops: seq<Op>) returns (m: Mem)
    requires c.Valid() && forall op :: op in ops ==> op.Free? || op.n < c.limit
    ensures fresh(m) && m.Valid() && m.c == c && m.blocks == Run(c, ops)
  {
    m := new Mem(c);
    for k := 0 to |ops|
      invariant fresh(m) && fresh(m.ram) && m.Valid() && m.c == c && m.blocks == Run(c, ops[..k])
    {
      assert ops[..k + 1][..k] == ops[..k] && ops[k] in ops;
      m.Call(ops[k]);
    }
    assert ops[..|ops|] == ops;
  }
}
