/**
 The kernel heap as a list of blocks in address order: first fit with splitting, release with
 merging on both sides. Alignment, header size and word size are parameters, so that the 32-bit and
 the 64-bit heap are two instances.
 */
module HeapModel {
  import opened Multiples

  /** `word` is the number of values a size_t holds. */
  datatype Shape = Shape(align: nat, header: nat, word: nat)

  predicate ShapeOk(h: Shape) {
    && 0 < h.align && 0 < h.header && Multiple(h.header, h.align)
    && h.align < h.word && Multiple(h.word, h.align)
  }

  /** ALIGN_UP, with the wrap of size_t. Clearing the low bits is dividing and multiplying back. */
  function AlignUp(h: Shape, n: nat): nat
    requires ShapeOk(h)
  {
    (n + h.align - 1) % h.word / h.align * h.align
  }

  /** The largest request that does not wrap. */
  predicate Representable(h: Shape, n: nat)
    requires ShapeOk(h)
  {
    n + h.align - 1 < h.word
  }

  lemma AlignUpFacts(h: Shape, n: nat)
    requires ShapeOk(h) && n < h.word
    ensures Multiple(AlignUp(h, n), h.align)
    ensures Representable(h, n) ==> n <= AlignUp(h, n) < n + h.align
    ensures !Representable(h, n) ==> AlignUp(h, n) == 0 < n
  {
    hide Multiple;
    var sum := n + h.align - 1;
    Wraps(sum, h.word);
    RoundDown(sum % h.word, h.align);
    if sum >= h.word {
      Below(sum % h.word, h.align);
    }
  }

  lemma Wraps(a: nat, m: nat)
    requires m > 0 && a < m + m
    ensures a % m == if a < m then a else a - m
  {
  }

  lemma Below(a: nat, m: nat)
    requires a < m
    ensures a / m * m == 0
  {
    assert a / m == 0;
  }

  // ---- the block list ------------------------------------------------------------------------

  datatype Block = Block(addr: nat, size: nat, free: bool)

  function End(h: Shape, b: Block): nat { b.addr + h.header + b.size }
  function Payload(h: Shape, b: Block): nat { b.addr + h.header }

  /** The blocks cover the heap from `base` to `limit` without gaps. */
  ghost predicate Tiles(h: Shape, base: nat, limit: nat, blocks: seq<Block>) {
    && blocks != [] && blocks[0].addr == base && End(h, blocks[|blocks| - 1]) == limit
    && forall i, j :: 0 <= i < |blocks| && 0 <= j < |blocks| && j == i + 1 ==> blocks[j].addr == End(h, blocks[i])
  }

  /** No two neighbours are both free. */
  ghost predicate Merged(blocks: seq<Block>) {
    forall i, j :: 0 <= i < |blocks| && 0 <= j < |blocks| && j == i + 1 ==> !(blocks[i].free && blocks[j].free)
  }

  ghost predicate Even(h: Shape, blocks: seq<Block>) {
    forall i :: 0 <= i < |blocks| ==> Multiple(blocks[i].addr, h.align) && Multiple(blocks[i].size, h.align)
  }

  ghost predicate Inv(h: Shape, base: nat, limit: nat, blocks: seq<Block>) {
    Tiles(h, base, limit, blocks) && Merged(blocks) && Even(h, blocks)
  }

  /** The region the frame allocator handed over. */
  ghost predicate RegionOk(h: Shape, base: nat, limit: nat) {
    && ShapeOk(h) && 0 < base && base + h.header < limit < h.word
    && Multiple(base, h.align) && Multiple(limit, h.align)
  }

  /** The blocks the heap's clients hold. */
  function Live(blocks: seq<Block>): set<Block> { set b | b in blocks && !b.free }

  lemma {:induction false} Ordered(h: Shape, base: nat, limit: nat, blocks: seq<Block>, i: nat, j: nat)
    requires Tiles(h, base, limit, blocks) && i < j < |blocks|
    ensures End(h, blocks[i]) <= blocks[j].addr
    decreases j
  {
    if i + 1 < j {
      Ordered(h, base, limit, blocks, i, j - 1);
      assert blocks[j].addr == End(h, blocks[j - 1]);
    }
  }

  lemma Within(h: Shape, base: nat, limit: nat, blocks: seq<Block>, i: nat)
    requires Tiles(h, base, limit, blocks) && i < |blocks|
    ensures base <= blocks[i].addr && End(h, blocks[i]) <= limit
  {
    if i > 0 {
      Ordered(h, base, limit, blocks, 0, i);
    }
    if i + 1 < |blocks| {
      Ordered(h, base, limit, blocks, i, |blocks| - 1);
    }
  }

  lemma AddrUnique(h: Shape, base: nat, limit: nat, blocks: seq<Block>, i: nat, j: nat)
    requires Tiles(h, base, limit, blocks) && h.header > 0 && i < |blocks| && j < |blocks|
    requires blocks[i].addr == blocks[j].addr
    ensures i == j
  {
    if i < j {
      Ordered(h, base, limit, blocks, i, j);
    } else if j < i {
      Ordered(h, base, limit, blocks, j, i);
    }
  }

  /** Live payloads are aligned, inside the heap, and apart from each other by at least a header. */
  lemma LivePayloads(h: Shape, base: nat, limit: nat, blocks: seq<Block>, a: Block, b: Block)
    requires ShapeOk(h) && Inv(h, base, limit, blocks) && a in Live(blocks) && b in Live(blocks)
    ensures Multiple(Payload(h, a), h.align) && base < Payload(h, a) && Payload(h, a) + a.size <= limit
    ensures a == b
      || Payload(h, a) + a.size + h.header <= Payload(h, b)
      || Payload(h, b) + b.size + h.header <= Payload(h, a)
  {
    var i :| 0 <= i < |blocks| && blocks[i] == a;
    var j :| 0 <= j < |blocks| && blocks[j] == b;
    MultipleSum(a.addr, h.header, h.align);
    Within(h, base, limit, blocks, i);
    if i < j {
      Ordered(h, base, limit, blocks, i, j);
    } else if j < i {
      Ordered(h, base, limit, blocks, j, i);
    }
  }

  // ---- kmalloc -------------------------------------------------------------------------------

  predicate Fits(b: Block, n: nat) { b.free && b.size >= n }

  /** The first block from index i on that is free and big enough, or the length of the list. */
  function FirstFit(blocks: seq<Block>, n: nat, i: nat): (r: nat)
    requires i <= |blocks|
    ensures i <= r <= |blocks|
    ensures forall j :: i <= j < r ==> !Fits(blocks[j], n)
    ensures r < |blocks| ==> Fits(blocks[r], n)
    decreases |blocks| - i
  {
    if i == |blocks| || Fits(blocks[i], n) then i else FirstFit(blocks, n, i + 1)
  }

  /** Whether split divides a block of this size. */
  predicate Splits(h: Shape, size: nat, n: nat) { size >= n + h.header + h.align }

  function Taken(h: Shape, b: Block, n: nat): Block {
    Block(b.addr, if Splits(h, b.size, n) then n else b.size, false)
  }

  function Leftover(h: Shape, b: Block, n: nat): seq<Block> {
    if Splits(h, b.size, n) then [Block(b.addr + h.header + n, b.size - n - h.header, true)] else []
  }

  function Carved(h: Shape, blocks: seq<Block>, i: nat, n: nat): seq<Block>
    requires i < |blocks|
  {
    blocks[..i] + [Taken(h, blocks[i], n)] + Leftover(h, blocks[i], n) + blocks[i + 1..]
  }

  lemma CarvedAt(h: Shape, blocks: seq<Block>, i: nat, n: nat)
    requires i < |blocks|
    ensures |Carved(h, blocks, i, n)| == |blocks| + |Leftover(h, blocks[i], n)|
    ensures forall j :: 0 <= j < i ==> Carved(h, blocks, i, n)[j] == blocks[j]
    ensures Carved(h, blocks, i, n)[i] == Taken(h, blocks[i], n)
    ensures Leftover(h, blocks[i], n) != [] ==> Carved(h, blocks, i, n)[i + 1] == Leftover(h, blocks[i], n)[0]
    ensures forall j :: i + |Leftover(h, blocks[i], n)| < j < |Carved(h, blocks, i, n)| ==>
      Carved(h, blocks, i, n)[j] == blocks[j - |Leftover(h, blocks[i], n)|]
  {
  }

  lemma CarvedInv(h: Shape, base: nat, limit: nat, blocks: seq<Block>, i: nat, n: nat)
    requires ShapeOk(h) && Inv(h, base, limit, blocks) && i < |blocks| && Fits(blocks[i], n) && Multiple(n, h.align)
    ensures Inv(h, base, limit, Carved(h, blocks, i, n))
  {
    hide Multiple, Carved;
    CarvedAt(h, blocks, i, n);
    CarvedEven(h, blocks, i, n);
  }

  lemma CarvedEven(h: Shape, blocks: seq<Block>, i: nat, n: nat)
    requires ShapeOk(h) && Even(h, blocks) && i < |blocks| && Fits(blocks[i], n) && Multiple(n, h.align)
    ensures Even(h, Carved(h, blocks, i, n))
  {
    hide Multiple, Carved;
    CarvedAt(h, blocks, i, n);
    var b := blocks[i];
    if Splits(h, b.size, n) {
      MultipleSum(b.addr, h.header, h.align);
      MultipleSum(b.addr + h.header, n, h.align);
      MultipleSum(b.size, n, h.align);
      MultipleSum(b.size - n, h.header, h.align);
    }
  }

  lemma CarvedLive(h: Shape, base: nat, limit: nat, blocks: seq<Block>, i: nat, n: nat)
    requires ShapeOk(h) && Tiles(h, base, limit, blocks) && i < |blocks| && Fits(blocks[i], n)
    ensures Live(Carved(h, blocks, i, n)) == Live(blocks) + {Taken(h, blocks[i], n)}
    ensures Taken(h, blocks[i], n) !in Live(blocks) && Taken(h, blocks[i], n).size >= n
    ensures forall b :: b in Live(blocks) ==> b.addr != blocks[i].addr
  {
    forall b | b in Live(blocks)
      ensures b.addr != blocks[i].addr
    {
      var j :| 0 <= j < |blocks| && blocks[j] == b;
      if b.addr == blocks[i].addr {
        AddrUnique(h, base, limit, blocks, i, j);
      }
    }
    CarvedMembers(h, blocks, i, n);
  }

  lemma CarvedMembers(h: Shape, blocks: seq<Block>, i: nat, n: nat)
    requires i < |blocks| && blocks[i].free
    ensures Live(Carved(h, blocks, i, n)) == Live(blocks) + {Taken(h, blocks[i], n)}
  {
    var blocks' := Carved(h, blocks, i, n);
    assert blocks == blocks[..i] + [blocks[i]] + blocks[i + 1..];
    forall b
      ensures b in Live(blocks') <==> b in Live(blocks) + {Taken(h, blocks[i], n)}
    {
      assert b in blocks' <==>
        b in blocks[..i] || b == Taken(h, blocks[i], n) || b in Leftover(h, blocks[i], n) || b in blocks[i + 1..];
      assert b in blocks <==> b in blocks[..i] || b == blocks[i] || b in blocks[i + 1..];
    }
  }

  /** The bytes of blocks in the given state, headers included. */
  function Bytes(h: Shape, blocks: seq<Block>, free: bool): nat {
    if blocks == [] then 0
    else
      var last := blocks[|blocks| - 1];
      Bytes(h, blocks[..|blocks| - 1], free) + if last.free == free then h.header + last.size else 0
  }

  lemma {:induction false} BytesUpTo(h: Shape, base: nat, limit: nat, blocks: seq<Block>, i: nat)
    requires Tiles(h, base, limit, blocks) && 0 < i <= |blocks|
    ensures Bytes(h, blocks[..i], true) + Bytes(h, blocks[..i], false) == End(h, blocks[i - 1]) - base
  {
    assert blocks[..i][..i - 1] == blocks[..i - 1];
    if i > 1 {
      BytesUpTo(h, base, limit, blocks, i - 1);
    }
  }

  /** Every byte of the heap is in a free or a used block. */
  lemma BytesAll(h: Shape, base: nat, limit: nat, blocks: seq<Block>)
    requires Tiles(h, base, limit, blocks)
    ensures Bytes(h, blocks, true) + Bytes(h, blocks, false) == limit - base
  {
    assert blocks[..|blocks|] == blocks;
    BytesUpTo(h, base, limit, blocks, |blocks|);
  }

  lemma {:induction false} BytesConcat(h: Shape, a: seq<Block>, b: seq<Block>, free: bool)
    ensures Bytes(h, a + b, free) == Bytes(h, a, free) + Bytes(h, b, free)
    decreases |b|
  {
    if b == [] {
      assert a + b == a;
    } else {
      var n := |b| - 1;
      assert (a + b)[..|a + b| - 1] == a + b[..n];
      BytesConcat(h, a, b[..n], free);
    }
  }

  lemma BytesOne(h: Shape, b: Block, free: bool)
    ensures Bytes(h, [b], free) == if b.free == free then h.header + b.size else 0
  {
    assert [b][..0] == [];
  }

  /** The bytes of the three parts of a list. */
  lemma BytesAround(h: Shape, a: seq<Block>, b: seq<Block>, c: seq<Block>, free: bool)
    ensures Bytes(h, a + b + c, free) == Bytes(h, a, free) + Bytes(h, b, free) + Bytes(h, c, free)
  {
    BytesConcat(h, a + b, c, free);
    BytesConcat(h, a, b, free);
  }

  /** The free bytes shrink by what the caller got, and its header. */
  lemma CarvedBytes(h: Shape, blocks: seq<Block>, i: nat, n: nat)
    requires i < |blocks| && Fits(blocks[i], n)
    ensures Bytes(h, Carved(h, blocks, i, n), true) == Bytes(h, blocks, true) - (h.header + Taken(h, blocks[i], n).size)
  {
    hide Bytes, Carved;
    var b, taken, rest := blocks[i], Taken(h, blocks[i], n), Leftover(h, blocks[i], n);
    CarvedParts(h, blocks, i, n);
    BytesAround(h, blocks[..i], [b], blocks[i + 1..], true);
    BytesAround(h, blocks[..i], [taken] + rest, blocks[i + 1..], true);
    BytesConcat(h, [taken], rest, true);
    BytesOne(h, b, true);
    BytesOne(h, taken, true);
    LeftoverBytes(h, b, n);
  }

  lemma LeftoverBytes(h: Shape, b: Block, n: nat)
    requires Fits(b, n)
    ensures Bytes(h, Leftover(h, b, n), true) + h.header + Taken(h, b, n).size == h.header + b.size
  {
    hide Bytes;
    if Splits(h, b.size, n) {
      BytesOne(h, Leftover(h, b, n)[0], true);
    } else {
      BytesNone(h);
    }
  }

  lemma BytesNone(h: Shape)
    ensures Bytes(h, [], true) == 0
  {
  }

  lemma CarvedParts(h: Shape, blocks: seq<Block>, i: nat, n: nat)
    requires i < |blocks|
    ensures blocks == blocks[..i] + [blocks[i]] + blocks[i + 1..]
    ensures Carved(h, blocks, i, n) ==
      blocks[..i] + ([Taken(h, blocks[i], n)] + Leftover(h, blocks[i], n)) + blocks[i + 1..]
  {
  }

  /** No more is taken than is needed, and nothing useless is left. */
  lemma CarvedTight(h: Shape, blocks: seq<Block>, i: nat, n: nat)
    requires ShapeOk(h) && i < |blocks| && Fits(blocks[i], n)
    ensures var got := Taken(h, blocks[i], n);
            && got.size < n + h.header + h.align
            && (got.size == n || Block(got.addr, got.size, true) in blocks)
    ensures forall b :: b in Carved(h, blocks, i, n) && b.free && b !in blocks ==> b.size >= h.align
  {
    assert blocks[i] == Block(blocks[i].addr, blocks[i].size, true);
  }

  datatype Reply = Reply(blocks: seq<Block>, ptr: nat)

  /** kmalloc. The pointer is 0 when it fails. */
  function Malloc(h: Shape, blocks: seq<Block>, size: nat): Reply
    requires ShapeOk(h)
  {
    if size == 0 then Reply(blocks, 0)
    else
      var n := AlignUp(h, size);
      var i := FirstFit(blocks, n, 0);
      if i < |blocks| then Reply(Carved(h, blocks, i, n), Payload(h, blocks[i])) else Reply(blocks, 0)
  }

  /** What a caller of kmalloc learns. */
  ghost predicate Granted(h: Shape, before: seq<Block>, after: seq<Block>, size: nat, got: Block)
    requires ShapeOk(h)
  {
    && got !in Live(before) && Live(after) == Live(before) + {got}
    && (Representable(h, size) <==> got.size >= size)
    && got.size < AlignUp(h, size) + h.header + h.align
    && (got.size == AlignUp(h, size) || Block(got.addr, got.size, true) in before)
    && (forall b :: b in after && b.free && b !in before ==> b.size >= h.align)
    && Bytes(h, after, true) == Bytes(h, before, true) - (h.header + got.size)
    && (forall b :: b in before && b.addr < got.addr ==> !Fits(b, AlignUp(h, size)))
  }

  /** kmalloc keeps the shape; it fails exactly when no free block is big enough; otherwise exactly
      one live block is added, from the lowest place that fits, and it holds the request unless
      rounding the request up wrapped. It takes the rounded request, or a whole free block that has less than a
      header and a unit to spare; what it leaves free is at least a unit; and the free bytes shrink by what it
      took. */
  lemma MallocFacts(h: Shape, base: nat, limit: nat, blocks: seq<Block>, size: nat)
    requires RegionOk(h, base, limit) && Inv(h, base, limit, blocks) && size < h.word
    ensures Inv(h, base, limit, Malloc(h, blocks, size).blocks)
    ensures Malloc(h, blocks, size).ptr == 0 <==> size == 0 || forall b :: b in blocks ==> !Fits(b, AlignUp(h, size))
    ensures Malloc(h, blocks, size).ptr == 0 ==> Malloc(h, blocks, size).blocks == blocks
    ensures Malloc(h, blocks, size).ptr != 0 ==>
      exists got ::
        Payload(h, got) == Malloc(h, blocks, size).ptr && Granted(h, blocks, Malloc(h, blocks, size).blocks, size, got)
  {
    var n := AlignUp(h, size);
    AlignUpFacts(h, size);
    var i := FirstFit(blocks, n, 0);
    if size > 0 && i < |blocks| {
      CarvedInv(h, base, limit, blocks, i, n);
      CarvedLive(h, base, limit, blocks, i, n);
      var got := Taken(h, blocks[i], n);
      LowestFit(h, base, limit, blocks, n);
      WrapShort(h, base, limit, blocks, i, size);
      CarvedBytes(h, blocks, i, n);
      CarvedTight(h, blocks, i, n);
      assert Granted(h, blocks, Malloc(h, blocks, size).blocks, size, got);
    }
  }

  lemma LowestFit(h: Shape, base: nat, limit: nat, blocks: seq<Block>, n: nat)
    requires Tiles(h, base, limit, blocks) && FirstFit(blocks, n, 0) < |blocks|
    ensures forall b :: b in blocks && b.addr < blocks[FirstFit(blocks, n, 0)].addr ==> !Fits(b, n)
  {
    var i := FirstFit(blocks, n, 0);
    forall b | b in blocks && b.addr < blocks[i].addr
      ensures !Fits(b, n)
    {
      var j :| 0 <= j < |blocks| && blocks[j] == b;
      if i < j {
        Ordered(h, base, limit, blocks, i, j);
      }
    }
  }

  /** A request that wraps is granted a block that is too small for it. */
  lemma WrapShort(h: Shape, base: nat, limit: nat, blocks: seq<Block>, i: nat, size: nat)
    requires RegionOk(h, base, limit) && Inv(h, base, limit, blocks) && i < |blocks| && size < h.word
    requires Fits(blocks[i], AlignUp(h, size))
    ensures Representable(h, size) <==> Taken(h, blocks[i], AlignUp(h, size)).size >= size
  {
    AlignUpFacts(h, size);
    Within(h, base, limit, blocks, i);
    MultipleSum(h.word, limit, h.align);
    MultipleAtLeast(h.word - limit, h.align);
  }

  // ---- kfree ---------------------------------------------------------------------------------

  /** merge_with_next at index i. */
  function MergeAt(h: Shape, blocks: seq<Block>, i: nat): seq<Block>
    requires i < |blocks|
  {
    if i + 1 < |blocks| && blocks[i].free && blocks[i + 1].free then
      blocks[..i] + [Block(blocks[i].addr, blocks[i].size + h.header + blocks[i + 1].size, true)] + blocks[i + 2..]
    else blocks
  }

  function Released(h: Shape, blocks: seq<Block>, i: nat): seq<Block>
    requires i < |blocks|
  {
    var merged := MergeAt(h, blocks[i := blocks[i].(free := true)], i);
    if i > 0 then MergeAt(h, merged, i - 1) else merged
  }

  /** No two neighbours are both free, except perhaps those in `gaps` and the one after each. */
  ghost predicate MergedBut(blocks: seq<Block>, gaps: set<int>) {
    forall i, j :: 0 <= i < |blocks| && 0 <= j < |blocks| && j == i + 1 && i !in gaps ==>
      !(blocks[i].free && blocks[j].free)
  }

  lemma MergeAtAt(h: Shape, blocks: seq<Block>, i: nat)
    requires i + 1 < |blocks| && blocks[i].free && blocks[i + 1].free
    ensures |MergeAt(h, blocks, i)| == |blocks| - 1
    ensures forall j :: 0 <= j < i ==> MergeAt(h, blocks, i)[j] == blocks[j]
    ensures MergeAt(h, blocks, i)[i] == Block(blocks[i].addr, blocks[i].size + h.header + blocks[i + 1].size, true)
    ensures forall j :: i < j < |blocks| - 1 ==> MergeAt(h, blocks, i)[j] == blocks[j + 1]
  {
  }

  lemma MergeAtShape(h: Shape, base: nat, limit: nat, blocks: seq<Block>, i: nat)
    requires ShapeOk(h) && Tiles(h, base, limit, blocks) && Even(h, blocks) && i < |blocks|
    ensures Tiles(h, base, limit, MergeAt(h, blocks, i)) && Even(h, MergeAt(h, blocks, i))
  {
    hide Multiple, MergeAt;
    if i + 1 < |blocks| && blocks[i].free && blocks[i + 1].free {
      MergeAtAt(h, blocks, i);
      MultipleSum(blocks[i].size, h.header, h.align);
      MultipleSum(blocks[i].size + h.header, blocks[i + 1].size, h.align);
    } else {
      MergeNot(h, blocks, i);
    }
  }

  lemma MergeNot(h: Shape, blocks: seq<Block>, i: nat)
    requires i < |blocks| && !(i + 1 < |blocks| && blocks[i].free && blocks[i + 1].free)
    ensures MergeAt(h, blocks, i) == blocks
  {
  }

  lemma MergeAtMerged(h: Shape, blocks: seq<Block>, i: nat)
    requires i < |blocks|
    ensures MergedBut(blocks, {i - 1, i}) && blocks[i].free ==> MergedBut(MergeAt(h, blocks, i), {i - 1})
    ensures MergedBut(blocks, {i}) ==> Merged(MergeAt(h, blocks, i))
  {
    hide MergeAt;
    if i + 1 < |blocks| && blocks[i].free && blocks[i + 1].free {
      MergeAtAt(h, blocks, i);
    } else {
      MergeNot(h, blocks, i);
    }
  }

  lemma MergeAtLive(h: Shape, blocks: seq<Block>, i: nat)
    requires i < |blocks|
    ensures Live(MergeAt(h, blocks, i)) == Live(blocks)
  {
    if i + 1 < |blocks| && blocks[i].free && blocks[i + 1].free {
      assert blocks == blocks[..i] + [blocks[i], blocks[i + 1]] + blocks[i + 2..];
    }
  }

  lemma ReleasedInv(h: Shape, base: nat, limit: nat, blocks: seq<Block>, i: nat)
    requires ShapeOk(h) && Inv(h, base, limit, blocks) && i < |blocks| && !blocks[i].free
    ensures Inv(h, base, limit, Released(h, blocks, i))
    ensures Live(Released(h, blocks, i)) == Live(blocks) - {blocks[i]}
  {
    hide MergeAt;
    var freed := blocks[i := blocks[i].(free := true)];
    ReopenLive(h, base, limit, blocks, i);
    MergeAtShape(h, base, limit, freed, i);
    MergeAtMerged(h, freed, i);
    MergeAtLive(h, freed, i);
    var merged := MergeAt(h, freed, i);
    MergeLength(h, freed, i);
    if i > 0 {
      MergeAtShape(h, base, limit, merged, i - 1);
      MergeAtMerged(h, merged, i - 1);
      MergeAtLive(h, merged, i - 1);
    } else {
      assert Merged(merged);
    }
  }

  lemma MergeLength(h: Shape, blocks: seq<Block>, i: nat)
    requires i < |blocks|
    ensures i < |MergeAt(h, blocks, i)| <= |blocks|
  {
  }

  lemma ReopenLive(h: Shape, base: nat, limit: nat, blocks: seq<Block>, i: nat)
    requires h.header > 0 && Tiles(h, base, limit, blocks) && i < |blocks| && !blocks[i].free
    ensures Live(blocks[i := blocks[i].(free := true)]) == Live(blocks) - {blocks[i]}
  {
    var freed := blocks[i := blocks[i].(free := true)];
    forall b
      ensures b in Live(freed) <==> b in Live(blocks) - {blocks[i]}
    {
      if b in Live(freed) {
        var j :| 0 <= j < |blocks| && freed[j] == b;
        assert blocks[j] == b;
        if b == blocks[i] {
          AddrUnique(h, base, limit, blocks, i, j);
        }
      }
      if b in Live(blocks) && b != blocks[i] {
        var j :| 0 <= j < |blocks| && blocks[j] == b;
        assert freed[j] == b;
      }
    }
  }

  /** The index of the live block whose payload is at p, or the length of the list. */
  function IndexOfPayload(h: Shape, blocks: seq<Block>, p: nat): (r: nat)
    ensures r <= |blocks|
    ensures r < |blocks| ==> Payload(h, blocks[r]) == p && !blocks[r].free
    ensures r == |blocks| ==> forall b :: b in Live(blocks) ==> Payload(h, b) != p
  {
    if blocks == [] then 0
    else if Payload(h, blocks[0]) == p && !blocks[0].free then 0
    else 1 + IndexOfPayload(h, blocks[1..], p)
  }

  /** kfree: anything but the payload address of a live block is ignored. */
  function Free(h: Shape, blocks: seq<Block>, p: nat): seq<Block> {
    var i := IndexOfPayload(h, blocks, p);
    if i < |blocks| then Released(h, blocks, i) else blocks
  }

  lemma FreeFacts(h: Shape, base: nat, limit: nat, blocks: seq<Block>, p: nat)
    requires ShapeOk(h) && Inv(h, base, limit, blocks)
    ensures Inv(h, base, limit, Free(h, blocks, p))
    ensures Live(Free(h, blocks, p)) == set b | b in Live(blocks) && Payload(h, b) != p
  {
    var i := IndexOfPayload(h, blocks, p);
    if i < |blocks| {
      ReleasedInv(h, base, limit, blocks, i);
      forall b | b in Live(blocks) && Payload(h, b) == p
        ensures b == blocks[i]
      {
        LivePayloads(h, base, limit, blocks, b, blocks[i]);
      }
    }
  }

  // ---- runs ----------------------------------------------------------------------------------

  /** kheap_init */
  function Fresh(h: Shape, base: nat, limit: nat): seq<Block>
    requires base + h.header <= limit
  {
    [Block(base, limit - base - h.header, true)]
  }

  lemma FreshInv(h: Shape, base: nat, limit: nat)
    requires RegionOk(h, base, limit)
    ensures Inv(h, base, limit, Fresh(h, base, limit)) && Live(Fresh(h, base, limit)) == {}
  {
    MultipleSum(limit, base, h.align);
    MultipleSum(limit - base, h.header, h.align);
  }

  /** With nothing live the heap is one block again, whatever happened before. */
  lemma NothingLive(h: Shape, base: nat, limit: nat, blocks: seq<Block>)
    requires ShapeOk(h) && Inv(h, base, limit, blocks) && base + h.header <= limit
    ensures Live(blocks) == {} <==> blocks == Fresh(h, base, limit)
  {
    if Live(blocks) == {} {
      forall i | 0 <= i < |blocks|
        ensures blocks[i].free
      {
        assert blocks[i] in blocks;
        assert blocks[i] !in Live(blocks);
      }
      var second := if |blocks| > 1 then 1 else 0;
      assert blocks[0].free && blocks[second].free;
      assert blocks == [blocks[0]];
    }
  }

  datatype Request = Alloc(size: nat) | Release(ptr: nat)

  function Serve(h: Shape, blocks: seq<Block>, request: Request): seq<Block>
    requires ShapeOk(h)
  {
    match request
    case Alloc(size) => Malloc(h, blocks, size).blocks
    case Release(ptr) => Free(h, blocks, ptr)
  }

  function Run(h: Shape, blocks: seq<Block>, requests: seq<Request>): seq<Block>
    requires ShapeOk(h)
    decreases |requests|
  {
    if requests == [] then blocks else Run(h, Serve(h, blocks, requests[0]), requests[1..])
  }

  /** Every run of kmalloc and kfree keeps the heap in shape. */
  lemma {:induction false} RunInv(h: Shape, base: nat, limit: nat, blocks: seq<Block>, requests: seq<Request>)
    requires RegionOk(h, base, limit) && Inv(h, base, limit, blocks)
    requires forall r :: r in requests && r.Alloc? ==> r.size < h.word
    ensures Inv(h, base, limit, Run(h, blocks, requests))
    decreases |requests|
  {
    hide Inv, Malloc, Free;
    if requests != [] {
      assert requests[0] in requests;
      match requests[0] {
        case Alloc(size) => MallocFacts(h, base, limit, blocks, size);
        case Release(ptr) => FreeFacts(h, base, limit, blocks, ptr);
      }
      RunInv(h, base, limit, Serve(h, blocks, requests[0]), requests[1..]);
    }
  }

  function Releases(order: seq<nat>): seq<Request> { seq(|order|, i requires 0 <= i < |order| => Release(order[i])) }

  lemma {:induction false} RunReleases(h: Shape, base: nat, limit: nat, blocks: seq<Block>, order: seq<nat>)
    requires ShapeOk(h) && Inv(h, base, limit, blocks)
    ensures Inv(h, base, limit, Run(h, blocks, Releases(order)))
    ensures Live(Run(h, blocks, Releases(order))) == set b | b in Live(blocks) && Payload(h, b) !in order
    decreases |order|
  {
    hide Inv, Free, Live;
    if order != [] {
      FreeFacts(h, base, limit, blocks, order[0]);
      assert Releases(order)[1..] == Releases(order[1..]);
      assert order == [order[0]] + order[1..];
      RunReleases(h, base, limit, Free(h, blocks, order[0]), order[1..]);
    }
  }

  /** After any run, freeing every live block, in whatever order, gives back the single initial block. */
  lemma FreeAll(h: Shape, base: nat, limit: nat, requests: seq<Request>, order: seq<nat>)
    requires RegionOk(h, base, limit) && forall r :: r in requests && r.Alloc? ==> r.size < h.word
    requires forall b :: b in Live(Run(h, Fresh(h, base, limit), requests)) ==> Payload(h, b) in order
    ensures Run(h, Run(h, Fresh(h, base, limit), requests), Releases(order)) == Fresh(h, base, limit)
  {
    hide Inv, Live, Fresh, Run;
    FreshInv(h, base, limit);
    RunInv(h, base, limit, Fresh(h, base, limit), requests);
    var blocks := Run(h, Fresh(h, base, limit), requests);
    RunReleases(h, base, limit, blocks, order);
    NothingLive(h, base, limit, Run(h, blocks, Releases(order)));
  }
}
