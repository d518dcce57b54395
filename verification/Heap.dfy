/**
 The kernel heap as code: block headers in memory, linked both ways, split, merged and relinked in
 place. The ghost list `blocks` is what the headers spell out.

 Memory that holds no block header (payload bytes, and everything outside the heap) is taken never
 to hold the magic number: this is what the check in kfree relies on.
 */
module Heap {
  import opened Multiples
  import opened HeapModel

  const BLOCK_MAGIC: nat := 0xA47C0DE5

  /** struct block. The null pointer is 0. */
  datatype Header = Header(magic: nat, size: nat, free: bool, next: nat, prev: nat)

  function NextOf(blocks: seq<Block>, i: nat): nat
    requires i < |blocks|
  {
    if i + 1 < |blocks| then blocks[i + 1].addr else 0
  }

  function PrevOf(blocks: seq<Block>, i: nat): nat
    requires i < |blocks|
  {
    if i > 0 then blocks[i - 1].addr else 0
  }

  function HeaderOf(blocks: seq<Block>, i: nat): Header
    requires i < |blocks|
  {
    Header(BLOCK_MAGIC, blocks[i].size, blocks[i].free, NextOf(blocks, i), PrevOf(blocks, i))
  }

  ghost predicate HeaderOk(mem: map<nat, Header>, blocks: seq<Block>, i: nat)
    requires i < |blocks|
  {
    blocks[i].addr in mem && mem[blocks[i].addr] == HeaderOf(blocks, i)
  }

  ghost predicate HeadersOk(mem: map<nat, Header>, blocks: seq<Block>) {
    forall i {:trigger HeaderOk(mem, blocks, i)} :: 0 <= i < |blocks| ==> HeaderOk(mem, blocks, i)
  }

  ghost function Addrs(blocks: seq<Block>): set<nat> { set b | b in blocks :: b.addr }

  /** Only headers of blocks carry the magic number. */
  ghost predicate NoForgery(mem: map<nat, Header>, blocks: seq<Block>) {
    forall a :: a in mem && mem[a].magic == BLOCK_MAGIC ==> a in Addrs(blocks)
  }

  ghost predicate Apart(blocks: seq<Block>) {
    forall i, j :: 0 <= i < |blocks| && 0 <= j < |blocks| && i != j ==> blocks[i].addr != blocks[j].addr
  }

  lemma TilesApart(h: Shape, base: nat, limit: nat, blocks: seq<Block>)
    requires Tiles(h, base, limit, blocks) && h.header > 0
    ensures Apart(blocks) && forall i :: 0 <= i < |blocks| ==> base <= blocks[i].addr && End(h, blocks[i]) <= limit
  {
    forall i, j | 0 <= i < |blocks| && 0 <= j < |blocks| && i != j
      ensures blocks[i].addr != blocks[j].addr
    {
      if blocks[i].addr == blocks[j].addr {
        AddrUnique(h, base, limit, blocks, i, j);
      }
    }
    forall i | 0 <= i < |blocks|
      ensures base <= blocks[i].addr && End(h, blocks[i]) <= limit
    {
      Within(h, base, limit, blocks, i);
    }
  }

  // ---- writing one header ----------------------------------------------------------------------

  lemma SetFree(mem: map<nat, Header>, blocks: seq<Block>, i: nat, free: bool)
    requires HeadersOk(mem, blocks) && NoForgery(mem, blocks) && Apart(blocks) && i < |blocks|
    ensures HeaderOk(mem, blocks, i)
    ensures HeadersOk(mem[blocks[i].addr := mem[blocks[i].addr].(free := free)], blocks[i := blocks[i].(free := free)])
    ensures NoForgery(mem[blocks[i].addr := mem[blocks[i].addr].(free := free)], blocks[i := blocks[i].(free := free)])
  {
    assert HeaderOk(mem, blocks, i);
    var blocks' := blocks[i := blocks[i].(free := free)];
    var mem' := mem[blocks[i].addr := mem[blocks[i].addr].(free := free)];
    forall j | 0 <= j < |blocks'|
      ensures HeaderOk(mem', blocks', j)
    {
      assert HeaderOk(mem, blocks, j);
    }
    SameAddrs(blocks, blocks');
  }

  lemma SameAddrs(a: seq<Block>, b: seq<Block>)
    requires |a| == |b| && forall i :: 0 <= i < |a| ==> a[i].addr == b[i].addr
    ensures Addrs(a) <= Addrs(b)
  {
    forall x | x in Addrs(a)
      ensures x in Addrs(b)
    {
      var i :| 0 <= i < |a| && a[i].addr == x;
      assert b[i] in b;
    }
  }

  // ---- split ---------------------------------------------------------------------------------

  /** The blocks after split: the first part keeps its state, the second is free. */
  ghost function SplitAt(h: Shape, blocks: seq<Block>, i: nat, n: nat): seq<Block>
    requires i < |blocks|
  {
    blocks[..i] + [Taken(h, blocks[i], n).(free := blocks[i].free)] + Leftover(h, blocks[i], n) + blocks[i + 1..]
  }

  ghost function SplitMem(mem: map<nat, Header>, b: nat, rest: nat, n: nat, left: nat): map<nat, Header>
    requires b in mem
  {
    var linked := mem[rest := Header(BLOCK_MAGIC, left, true, mem[b].next, b)];
    var after := mem[b].next;
    var relinked := if after != 0 && after in linked then linked[after := linked[after].(prev := rest)] else linked;
    relinked[b := relinked[b].(next := rest)][b := relinked[b].(next := rest, size := n)]
  }

  lemma SplitHeaders(h: Shape, mem: map<nat, Header>, blocks: seq<Block>, i: nat, n: nat)
    requires HeadersOk(mem, blocks) && Apart(blocks) && i < |blocks| && Splits(h, blocks[i].size, n)
    requires forall j :: 0 <= j < |blocks| ==> blocks[j].addr != 0
    requires Apart(SplitAt(h, blocks, i, n))
    ensures HeaderOk(mem, blocks, i)
    ensures HeadersOk(SplitMem(mem, blocks[i].addr, blocks[i].addr + h.header + n, n, blocks[i].size - n - h.header),
      SplitAt(h, blocks, i, n))
  {
    assert HeaderOk(mem, blocks, i);
    var rest, left := blocks[i].addr + h.header + n, blocks[i].size - n - h.header;
    var mem', blocks' := SplitMem(mem, blocks[i].addr, rest, n, left), SplitAt(h, blocks, i, n);
    SplitAtAt(h, blocks, i, n);
    assert i + 1 < |blocks| ==> HeaderOk(mem, blocks, i + 1);
    forall j | 0 <= j < |blocks'|
      ensures HeaderOk(mem', blocks', j)
    {
      SplitHeader(h, mem, blocks, i, n, mem', blocks', j);
    }
  }

  lemma SplitAtAt(h: Shape, blocks: seq<Block>, i: nat, n: nat)
    requires i < |blocks| && Splits(h, blocks[i].size, n)
    ensures |SplitAt(h, blocks, i, n)| == |blocks| + 1
    ensures forall j :: 0 <= j < i ==> SplitAt(h, blocks, i, n)[j] == blocks[j]
    ensures SplitAt(h, blocks, i, n)[i] == blocks[i].(size := n)
    ensures SplitAt(h, blocks, i, n)[i + 1] == Block(blocks[i].addr + h.header + n, blocks[i].size - n - h.header, true)
    ensures forall j :: i + 1 < j < |blocks| + 1 ==> SplitAt(h, blocks, i, n)[j] == blocks[j - 1]
  {
  }

  lemma SplitHeader(h: Shape, mem: map<nat, Header>, blocks: seq<Block>, i: nat, n: nat, mem': map<nat, Header>,
      blocks': seq<Block>, j: nat)
    requires HeadersOk(mem, blocks) && Apart(blocks) && i < |blocks| && Splits(h, blocks[i].size, n)
    requires forall j :: 0 <= j < |blocks| ==> blocks[j].addr != 0
    requires blocks' == SplitAt(h, blocks, i, n) && Apart(blocks') && j < |blocks'|
    requires HeaderOk(mem, blocks, i) && (i + 1 < |blocks| ==> HeaderOk(mem, blocks, i + 1))
    requires mem' == SplitMem(mem, blocks[i].addr, blocks[i].addr + h.header + n, n, blocks[i].size - n - h.header)
    ensures HeaderOk(mem', blocks', j)
  {
    hide SplitAt;
    SplitAtAt(h, blocks, i, n);
    assert blocks'[j].addr != blocks'[i + 1].addr || j == i + 1;
    if j < i {
      assert HeaderOk(mem, blocks, j);
    } else if j > i + 1 {
      assert HeaderOk(mem, blocks, j - 1);
    }
  }

  lemma SplitAddrs(h: Shape, mem: map<nat, Header>, blocks: seq<Block>, i: nat, n: nat)
    requires HeadersOk(mem, blocks) && NoForgery(mem, blocks) && i < |blocks| && Splits(h, blocks[i].size, n)
    requires HeaderOk(mem, blocks, i)
    ensures NoForgery(SplitMem(mem, blocks[i].addr, blocks[i].addr + h.header + n, n, blocks[i].size - n - h.header),
      SplitAt(h, blocks, i, n))
  {
    hide SplitAt;
    var blocks' := SplitAt(h, blocks, i, n);
    SplitAtAt(h, blocks, i, n);
    assert i + 1 < |blocks| ==> HeaderOk(mem, blocks, i + 1);
    forall a | a in Addrs(blocks) || a == blocks[i].addr + h.header + n
      ensures a in Addrs(blocks')
    {
      if a in Addrs(blocks) {
        var j :| 0 <= j < |blocks| && blocks[j].addr == a;
        assert blocks'[if j <= i then j else j + 1] in blocks';
      } else {
        assert blocks'[i + 1] in blocks';
      }
    }
  }

  lemma SplitTiles(h: Shape, base: nat, limit: nat, blocks: seq<Block>, i: nat, n: nat)
    requires Tiles(h, base, limit, blocks) && i < |blocks| && Splits(h, blocks[i].size, n)
    ensures Tiles(h, base, limit, SplitAt(h, blocks, i, n))
  {
    hide SplitAt;
    SplitAtAt(h, blocks, i, n);
  }

  // ---- merge ---------------------------------------------------------------------------------

  ghost function MergeMem(mem: map<nat, Header>, b: nat, n: nat, size: nat): map<nat, Header>
    requires b in mem && n in mem
  {
    var grown := mem[b := mem[b].(size := size, next := mem[n].next)];
    var after := mem[n].next;
    var relinked := if after != 0 && after in grown then grown[after := grown[after].(prev := b)] else grown;
    relinked[n := relinked[n].(magic := 0)]
  }

  lemma MergeHeaders(h: Shape, mem: map<nat, Header>, blocks: seq<Block>, i: nat)
    requires HeadersOk(mem, blocks) && NoForgery(mem, blocks) && Apart(blocks) && i + 1 < |blocks| && blocks[i].free
    requires blocks[i + 1].free
    requires forall j :: 0 <= j < |blocks| ==> blocks[j].addr != 0
    ensures HeaderOk(mem, blocks, i) && HeaderOk(mem, blocks, i + 1)
    ensures var mem' := MergeMem(mem, blocks[i].addr, blocks[i + 1].addr,
      blocks[i].size + h.header + blocks[i + 1].size);
            HeadersOk(mem', MergeAt(h, blocks, i)) && NoForgery(mem', MergeAt(h, blocks, i))
  {
    hide MergeAt;
    assert HeaderOk(mem, blocks, i) && HeaderOk(mem, blocks, i + 1);
    var mem' := MergeMem(mem, blocks[i].addr, blocks[i + 1].addr, blocks[i].size + h.header + blocks[i + 1].size);
    var blocks' := MergeAt(h, blocks, i);
    MergeAtAt(h, blocks, i);
    assert i + 2 < |blocks| ==> HeaderOk(mem, blocks, i + 2);
    forall j | 0 <= j < |blocks'|
      ensures HeaderOk(mem', blocks', j)
    {
      MergeHeader(h, mem, blocks, i, mem', blocks', j);
    }
    forall a | a in mem' && mem'[a].magic == BLOCK_MAGIC
      ensures a in Addrs(blocks')
    {
      assert a in Addrs(blocks);
      var j :| 0 <= j < |blocks| && blocks[j].addr == a;
      assert j != i + 1;
      assert blocks'[if j <= i then j else j - 1] in blocks';
    }
  }

  lemma MergeHeader(h: Shape, mem: map<nat, Header>, blocks: seq<Block>, i: nat, mem': map<nat, Header>,
      blocks': seq<Block>, j: nat)
    requires HeadersOk(mem, blocks) && Apart(blocks) && i + 1 < |blocks| && blocks[i].free && blocks[i + 1].free
    requires forall j :: 0 <= j < |blocks| ==> blocks[j].addr != 0
    requires blocks' == MergeAt(h, blocks, i) && j < |blocks'|
    requires HeaderOk(mem, blocks, i) && HeaderOk(mem, blocks, i + 1)
    requires (i + 2 < |blocks| ==> HeaderOk(mem, blocks, i + 2))
    requires mem' == MergeMem(mem, blocks[i].addr, blocks[i + 1].addr, blocks[i].size + h.header + blocks[i + 1].size)
    ensures HeaderOk(mem', blocks', j)
  {
    hide MergeAt;
    MergeAtAt(h, blocks, i);
    if j < i {
      assert HeaderOk(mem, blocks, j);
    } else if j > i {
      assert HeaderOk(mem, blocks, j + 1);
    }
  }

  // ---- statistics ------------------------------------------------------------------------------

  // ---- the heap ----------------------------------------------------------------------------------

  lemma FirstFitIs(blocks: seq<Block>, n: nat, i: nat)
    requires i <= |blocks| && (forall j :: 0 <= j < i ==> !Fits(blocks[j], n)) && (i < |blocks| ==> Fits(blocks[i], n))
    ensures FirstFit(blocks, n, 0) == i
  {
    var r := FirstFit(blocks, n, 0);
    assert r < |blocks| ==> Fits(blocks[r], n);
  }

  lemma CarvedIsSplit(h: Shape, blocks: seq<Block>, i: nat, n: nat)
    requires i < |blocks|
    ensures i < |SplitAt(h, blocks, i, n)|
    ensures SplitAt(h, blocks, i, n)[i := SplitAt(h, blocks, i, n)[i].(free := false)] == Carved(h, blocks, i, n)
    ensures SplitAt(h, blocks, i, n)[i].addr == blocks[i].addr
  {
  }

  class KHeap {
    const h: Shape
    var mem: map<nat, Header>
    var start: nat
    var bytes: nat

    ghost var base: nat
    ghost var limit: nat
    ghost var blocks: seq<Block>

    /** Headers and list agree and the list covers the region. */
    ghost predicate Linked()
      reads this
    {
      RegionOk(h, base, limit) && Tiles(h, base, limit, blocks) && HeadersOk(mem, blocks) && NoForgery(mem, blocks)
    }

    ghost predicate Ready()
      reads this
    {
      Linked() && Inv(h, base, limit, blocks) && start == base && bytes == limit - base
    }

    /** Before kheap_init, or when it found no memory, there is no heap at all. */
    ghost predicate Absent()
      reads this
    {
      start == 0 && bytes == 0 && blocks == [] && NoForgery(mem, [])
    }

    ghost predicate Valid()
      reads this
    {
      ShapeOk(h) && (Ready() || Absent())
    }

    constructor (h: Shape)
      requires ShapeOk(h)
      ensures Valid() && Absent() && this.h == h
    {
      this.h := h;
      mem, start, bytes, blocks := map[], 0, 0, [];
    }

    /** kheap_init; `region` is what pmm_alloc_frames returned for `size` bytes. */
    method Init(region: nat, size: nat)
      requires Valid() && Absent() && (region != 0 ==> RegionOk(h, region, region + size))
      modifies this
      ensures Valid() && (region == 0 ==> Absent())
      ensures region != 0 ==> Ready() && base == region && limit == region + size && blocks == Fresh(h, base, limit)
    {
      if region == 0 {
        return;
      }
      start, bytes := region, size;
      mem := mem[region := Header(BLOCK_MAGIC, size - h.header, true, 0, 0)];
      base, limit, blocks := region, region + size, Fresh(h, region, region + size);
      FreshInv(h, base, limit);
      assert blocks[0] in blocks;
    }

    /** split */
    method Split(b: nat, n: nat, ghost i: nat)
      requires Linked() && i < |blocks| && blocks[i].addr == b && n <= blocks[i].size
      modifies this`mem, this`blocks
      ensures Linked() && blocks == SplitAt(h, old(blocks), i, n)
    {
      hide Tiles, HeadersOk, NoForgery, SplitAt, Apart, Multiple;
      TilesApart(h, base, limit, blocks);
      HeaderAt(mem, blocks, i);
      SumFits(h, base, limit, blocks, i, n);
      if mem[b].size < (n + h.header + h.align) % h.word {
        NoSplit(h, blocks, i, n);
        return;
      }
      SplitTiles(h, base, limit, blocks, i, n);
      TilesApart(h, base, limit, SplitAt(h, blocks, i, n));
      SplitHeaders(h, mem, blocks, i, n);
      SplitAddrs(h, mem, blocks, i, n);
      NextIn(mem, blocks, i);
      SplitStaysIn(h, base, limit, blocks, i, n);
      var rest := b + h.header + n;
      mem := mem[rest := Header(BLOCK_MAGIC, mem[b].size - n - h.header, true, mem[b].next, b)];
      if mem[b].next != 0 {
        mem := mem[mem[b].next := mem[mem[b].next].(prev := rest)];
      }
      mem := mem[b := mem[b].(next := rest)];
      mem := mem[b := mem[b].(size := n)];
      blocks := SplitAt(h, blocks, i, n);
    }

    /** kmalloc */
    method Kmalloc(size: nat) returns (p: nat)
      requires Valid() && size < h.word
      modifies this`mem, this`blocks
      ensures Valid() && Reply(blocks, p) == Malloc(h, old(blocks), size)
    {
      hide Tiles, HeadersOk, NoForgery, SplitAt, Apart, Carved, Multiple, AlignUp, FirstFit;
      if start == 0 || size == 0 {
        if start == 0 {
          FirstFitIs(blocks, AlignUp(h, size), |blocks|);
        }
        return 0;
      }
      var n := AlignUp(h, size);
      var b := start;
      ghost var i := 0;
      StartsAt(h, base, limit, blocks);
      TilesApart(h, base, limit, blocks);
      while b != 0
        invariant 0 <= i <= |blocks| && b == if i < |blocks| then blocks[i].addr else 0
        invariant mem == old(mem) && blocks == old(blocks)
        invariant forall j :: 0 <= j < i ==> !Fits(blocks[j], n)
        decreases |blocks| - i
      {
        HeaderAt(mem, blocks, i);
        if mem[b].free && mem[b].size >= n {
          FirstFitIs(blocks, n, i);
          Take(b, n, i, size);
          return b + h.header;
        }
        b := mem[b].next;
        i := i + 1;
      }
      FirstFitIs(blocks, n, i);
      return 0;
    }

    /** The body of kmalloc's loop for the block it takes. */
    method Take(b: nat, n: nat, ghost i: nat, ghost size: nat)
      requires Ready() && i < |blocks| && blocks[i].addr == b && Fits(blocks[i], n) && size < h.word
      requires n == AlignUp(h, size)
      modifies this`mem, this`blocks
      ensures Ready() && blocks == Carved(h, old(blocks), i, n)
    {
      hide Tiles, HeadersOk, NoForgery, SplitAt, Apart, Carved, Multiple, AlignUp;
      AlignUpFacts(h, size);
      CarvedInv(h, base, limit, blocks, i, n);
      CarvedIsSplit(h, blocks, i, n);
      Split(b, n, i);
      TilesApart(h, base, limit, blocks);
      SetFree(mem, blocks, i, false);
      mem := mem[b := mem[b].(free := false)];
      blocks := blocks[i := blocks[i].(free := false)];
    }

    /** merge_with_next */
    method MergeWithNext(b: nat, ghost i: nat)
      requires Linked() && Even(h, blocks) && i < |blocks| && blocks[i].addr == b
      modifies this`mem, this`blocks
      ensures Linked() && Even(h, blocks) && blocks == MergeAt(h, old(blocks), i)
    {
      hide Tiles, HeadersOk, NoForgery, Multiple, Even, MergeAt;
      TilesApart(h, base, limit, blocks);
      MergeAtShape(h, base, limit, blocks, i);
      HeaderAt(mem, blocks, i);
      var n := mem[b].next;
      if n == 0 {
        MergeNot(h, blocks, i);
        return;
      }
      HeaderAt(mem, blocks, i + 1);
      if !mem[n].free || !mem[b].free {
        MergeNot(h, blocks, i);
        return;
      }
      MergeHeaders(h, mem, blocks, i);
      NextIn(mem, blocks, i + 1);
      MergedSizeFits(h, base, limit, blocks, i);
      ghost var merged := MergeMem(mem, b, n, blocks[i].size + h.header + blocks[i + 1].size);
      mem := mem[b := mem[b].(size := (mem[b].size + (h.header + mem[n].size)) % h.word)];
      mem := mem[b := mem[b].(next := mem[n].next)];
      if mem[n].next != 0 {
        mem := mem[mem[n].next := mem[mem[n].next].(prev := b)];
      }
      mem := mem[n := mem[n].(magic := 0)];
      assert mem == merged;
      blocks := MergeAt(h, blocks, i);
    }

    /** kfree */
    method Kfree(ptr: nat)
      requires Valid() && ptr < h.word
      modifies this`mem, this`blocks
      ensures Valid() && blocks == Free(h, old(blocks), ptr)
    {
      hide Tiles, HeadersOk, NoForgery, Apart, Multiple, MergeAt, Free, Released, Addrs;
      FreeIgnores(h, base, limit, mem, blocks, ptr);
      NoneLinked(mem);
      if ptr == 0 {
        return;
      }
      var b := (ptr + h.word - h.header) % h.word;
      if b !in mem || mem[b].magic != BLOCK_MAGIC {
        return;
      }
      ghost var i := FreeTarget(h, base, limit, mem, blocks, ptr, b);
      HeaderAt(mem, blocks, i);
      if mem[b].free {
        return;
      }
      Release(b, i);
    }

    /** The part of kfree after its checks. */
    method Release(b: nat, ghost i: nat)
      requires Ready() && i < |blocks| && blocks[i].addr == b && !blocks[i].free
      modifies this`mem, this`blocks
      ensures Ready() && blocks == Released(h, old(blocks), i)
    {
      hide Tiles, HeadersOk, NoForgery, Apart, Multiple, MergeAt;
      ReleasedInv(h, base, limit, blocks, i);
      TilesApart(h, base, limit, blocks);
      SetFree(mem, blocks, i, true);
      ReopenedShape(h, base, limit, blocks, i);
      mem := mem[b := mem[b].(free := true)];
      blocks := blocks[i := blocks[i].(free := true)];
      MergeKeeps(h, blocks, i);
      MergeWithNext(b, i);
      HeaderAt(mem, blocks, i);
      if mem[b].prev != 0 {
        HeaderAt(mem, blocks, i - 1);
        if mem[mem[b].prev].free {
          MergeWithNext(mem[b].prev, i - 1);
        } else {
          MergeNot(h, blocks, i - 1);
        }
      }
    }

    /** kmalloc as its callers use it: exactly one live block more, or nothing changed. */
    method Acquire(size: nat) returns (p: nat, ghost got: Block)
      requires Valid() && size < h.word
      modifies this`mem, this`blocks
      ensures Valid() && (p == 0 ==> blocks == old(blocks))
      ensures p != 0 ==>
        Payload(h, got) == p < h.word && got !in Live(old(blocks)) && Live(blocks) == Live(old(blocks)) + {got}
      ensures p != 0 && Representable(h, size) ==> got.size >= size
      ensures p != 0 ==> got.size < AlignUp(h, size) + h.header + h.align
      ensures p != 0 ==> Bytes(h, blocks, true) == Bytes(h, old(blocks), true) - (h.header + got.size)
    {
      hide Tiles, HeadersOk, NoForgery, Multiple, Inv, Malloc, Fits, AlignUp, Bytes;
      p := Kmalloc(size);
      got := Block(0, 0, false);
      MallocGives(h, base, limit, old(blocks), size);
      if p != 0 {
        got :| Payload(h, got) == p && Granted(h, old(blocks), blocks, size, got);
        LiveInside(h, base, limit, blocks, got);
      }
    }

    /** kfree of a live block. */
    method Dispose(p: nat, ghost got: Block)
      requires Valid() && got in Live(blocks) && Payload(h, got) == p
      modifies this`mem, this`blocks
      ensures Valid() && Live(blocks) == Live(old(blocks)) - {got}
    {
      hide Tiles, HeadersOk, NoForgery, Multiple, Inv, Free, Even, Merged;
      LiveInside(h, base, limit, blocks, got);
      FreeOne(h, base, limit, blocks, p, got);
      Kfree(p);
    }

    /** kheap_stats */
    method Stats() returns (total: nat, used: nat, count: nat)
      requires Valid()
      ensures total == bytes && count == |blocks| && used == Bytes(h, blocks, false) <= total
      ensures blocks != [] ==> total - used == Bytes(h, blocks, true)
    {
      hide Tiles, HeadersOk, NoForgery, Apart, Multiple;
      var b, u, n := start, 0, 0;
      if start != 0 {
        StartsAt(h, base, limit, blocks);
        TilesApart(h, base, limit, blocks);
        BytesAll(h, base, limit, blocks);
      }
      while b != 0
        invariant 0 <= n <= |blocks| && b == if n < |blocks| then blocks[n].addr else 0
        invariant u == Bytes(h, blocks[..n], false)
        decreases |blocks| - n
      {
        HeaderAt(mem, blocks, n);
        assert blocks[..n + 1][..n] == blocks[..n];
        if !mem[b].free {
          u := u + (h.header + mem[b].size);
        }
        b := mem[b].next;
        n := n + 1;
      }
      assert blocks[..n] == blocks;
      total, used, count := bytes, u, n;
    }
  }

  // ---- steps of the methods ----------------------------------------------------------------------

  lemma HeaderAt(mem: map<nat, Header>, blocks: seq<Block>, i: nat)
    requires HeadersOk(mem, blocks) && i < |blocks|
    ensures HeaderOk(mem, blocks, i)
  {
  }

  lemma NextIn(mem: map<nat, Header>, blocks: seq<Block>, i: nat)
    requires HeadersOk(mem, blocks) && i < |blocks|
    ensures NextOf(blocks, i) != 0 ==> NextOf(blocks, i) in mem
  {
    if i + 1 < |blocks| {
      assert HeaderOk(mem, blocks, i + 1);
    }
  }

  lemma StartsAt(h: Shape, base: nat, limit: nat, blocks: seq<Block>)
    requires Tiles(h, base, limit, blocks)
    ensures blocks != [] && blocks[0].addr == base
  {
  }

  /** Adding up the size split asks for does not wrap. */
  lemma SumFits(h: Shape, base: nat, limit: nat, blocks: seq<Block>, i: nat, n: nat)
    requires RegionOk(h, base, limit) && Tiles(h, base, limit, blocks) && i < |blocks| && n <= blocks[i].size
    ensures (n + h.header + h.align) % h.word == n + h.header + h.align
  {
    Within(h, base, limit, blocks, i);
    MultipleAtLeast(base, h.align);
    Small(n + h.header + h.align, h.word);
  }

  lemma Small(a: nat, m: nat)
    requires a < m
    ensures a % m == a
  {
  }

  lemma NoSplit(h: Shape, blocks: seq<Block>, i: nat, n: nat)
    requires i < |blocks| && !Splits(h, blocks[i].size, n)
    ensures SplitAt(h, blocks, i, n) == blocks
  {
  }

  lemma SplitStaysIn(h: Shape, base: nat, limit: nat, blocks: seq<Block>, i: nat, n: nat)
    requires h.header > 0 && Tiles(h, base, limit, blocks) && i < |blocks| && Splits(h, blocks[i].size, n)
    ensures blocks[i].addr + h.header + n != blocks[i].addr && blocks[i].addr + h.header + n != NextOf(blocks, i)
    ensures NextOf(blocks, i) != blocks[i].addr || NextOf(blocks, i) == 0
  {
  }

  lemma MergedSizeFits(h: Shape, base: nat, limit: nat, blocks: seq<Block>, i: nat)
    requires RegionOk(h, base, limit) && Tiles(h, base, limit, blocks) && i + 1 < |blocks|
    ensures var sum := blocks[i].size + (h.header + blocks[i + 1].size);
            sum % h.word == sum == blocks[i].size + h.header + blocks[i + 1].size
  {
    Within(h, base, limit, blocks, i);
    Within(h, base, limit, blocks, i + 1);
    Small(blocks[i].size + (h.header + blocks[i + 1].size), h.word);
  }

  lemma ReopenedShape(h: Shape, base: nat, limit: nat, blocks: seq<Block>, i: nat)
    requires Tiles(h, base, limit, blocks) && Even(h, blocks) && i < |blocks|
    ensures Tiles(h, base, limit, blocks[i := blocks[i].(free := true)])
    ensures Even(h, blocks[i := blocks[i].(free := true)])
  {
  }

  lemma MergeKeeps(h: Shape, blocks: seq<Block>, i: nat)
    requires i < |blocks|
    ensures i < |MergeAt(h, blocks, i)|
    ensures forall j :: 0 <= j <= i ==> MergeAt(h, blocks, i)[j].addr == blocks[j].addr
    ensures forall j :: 0 <= j < i ==> MergeAt(h, blocks, i)[j] == blocks[j]
  {
  }

  lemma MallocGives(h: Shape, base: nat, limit: nat, blocks: seq<Block>, size: nat)
    requires ShapeOk(h) && size < h.word && (blocks == [] || (RegionOk(h, base, limit) && Inv(h, base, limit, blocks)))
    ensures Malloc(h, blocks, size).ptr == 0 ==> Malloc(h, blocks, size).blocks == blocks
    ensures Malloc(h, blocks, size).ptr != 0 ==> blocks != []
    ensures Malloc(h, blocks, size).ptr != 0 ==>
      exists got ::
        Payload(h, got) == Malloc(h, blocks, size).ptr && Granted(h, blocks, Malloc(h, blocks, size).blocks, size, got)
  {
    if blocks != [] {
      MallocFacts(h, base, limit, blocks, size);
    }
  }

  lemma LiveInside(h: Shape, base: nat, limit: nat, blocks: seq<Block>, b: Block)
    requires RegionOk(h, base, limit) && Inv(h, base, limit, blocks) && b in Live(blocks)
    ensures Payload(h, b) < h.word
  {
    LivePayloads(h, base, limit, blocks, b, b);
  }

  lemma FreeOne(h: Shape, base: nat, limit: nat, blocks: seq<Block>, p: nat, got: Block)
    requires ShapeOk(h) && Inv(h, base, limit, blocks) && got in Live(blocks) && Payload(h, got) == p
    ensures Live(Free(h, blocks, p)) == Live(blocks) - {got}
  {
    hide Inv;
    FreeFacts(h, base, limit, blocks, p);
    forall b | b in Live(blocks) && Payload(h, b) == p
      ensures b == got
    {
      LivePayloads(h, base, limit, blocks, b, got);
    }
  }

  lemma NoneLinked(mem: map<nat, Header>)
    ensures NoForgery(mem, []) ==> forall a :: a in mem ==> mem[a].magic != BLOCK_MAGIC
  {
  }

  /** The header kfree looks at, when it carries the magic number. */
  lemma FreeTarget(h: Shape, base: nat, limit: nat, mem: map<nat, Header>, blocks: seq<Block>, ptr: nat, b: nat)
      returns (i: nat)
    requires RegionOk(h, base, limit) && Tiles(h, base, limit, blocks) && HeadersOk(mem, blocks)
    requires NoForgery(mem, blocks)
    requires ptr < h.word && b == (ptr + h.word - h.header) % h.word && b in mem && mem[b].magic == BLOCK_MAGIC
    ensures i < |blocks| && blocks[i].addr == b && Payload(h, blocks[i]) == ptr
    ensures Free(h, blocks, ptr) == if blocks[i].free then blocks else Released(h, blocks, i)
  {
    i :| 0 <= i < |blocks| && blocks[i].addr == b;
    Within(h, base, limit, blocks, i);
    Wraps(ptr + h.word - h.header, h.word);
    var k := IndexOfPayload(h, blocks, ptr);
    if k < |blocks| {
      AddrUnique(h, base, limit, blocks, i, k);
    } else {
      assert blocks[i] in blocks;
    }
  }

  /** When it is ignored: no live block has its payload there. */
  lemma FreeIgnores(h: Shape, base: nat, limit: nat, mem: map<nat, Header>, blocks: seq<Block>, ptr: nat)
    requires ShapeOk(h) && ptr < h.word
    requires blocks == [] || (RegionOk(h, base, limit) && Tiles(h, base, limit, blocks) && HeadersOk(mem, blocks))
    ensures var b := (ptr + h.word - h.header) % h.word;
            ptr == 0 || b !in mem || mem[b].magic != BLOCK_MAGIC ==> Free(h, blocks, ptr) == blocks
  {
    var b := (ptr + h.word - h.header) % h.word;
    var k := IndexOfPayload(h, blocks, ptr);
    if k < |blocks| {
      Within(h, base, limit, blocks, k);
      Wraps(ptr + h.word - h.header, h.word);
      assert HeaderOk(mem, blocks, k);
    }
  }

  // ---- the two instances -------------------------------------------------------------------------

  /** mm/kheap.c: five 4-byte fields rounded up to 8. */
  const Heap32: Shape := Shape(8, 24, 0x1_0000_0000)

  /** arthic64/mm/kheap.c: 40 bytes rounded up to 16. */
  const Heap64: Shape := Shape(16, 48, 0x1_0000_0000_0000_0000)

  lemma Instances()
    ensures ShapeOk(Heap32) && ShapeOk(Heap64)
    ensures Representable(Heap32, 0xFFFF_FFF8) && !Representable(Heap32, 0xFFFF_FFF9)
  {
  }

  /** A request of 4294967295 bytes is granted on an empty heap, with a payload of no bytes at all. */
  lemma HugeRequestGranted()
    ensures ShapeOk(Heap32)
    ensures var blocks := Fresh(Heap32, 0x200000, 0x300000);
            Malloc(Heap32, blocks, 0xFFFF_FFFF)
            == Reply([Block(0x200000, 0, false), Block(0x200018, 0x100000 - 48, true)], 0x200018)
  {
    Instances();
    var blocks := Fresh(Heap32, 0x200000, 0x300000);
    assert AlignUp(Heap32, 0xFFFF_FFFF) == 0;
    assert FirstFit(blocks, 0, 0) == 0;
  }
}
