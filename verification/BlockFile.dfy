/** Regular files: an array of fixed-size blocks, each a hole, a reference to an
    item in the log, or a private buffer.  Every operation is proved to do to
    the file's bytes what a flat byte array would do, without ever writing into
    a buffer that has been handed to the log. */
module BlockFile {
  import opened Bytes
  import opened Options

  const BLOCK_SIZE: nat := 32768
  const MAX_FILE_SIZE: nat := BLOCK_SIZE * 0x1000000

  /** A reference-counted string.  Mapped strings lie in a log file. */
  datatype RcStr = RcStr(refcount: nat, mapped: bool, data: Bytes)

  /** An item handed to the log.  `contents` is what the log has for it; `data`
      names the in-memory copy, if there is one. */
  datatype Item = Item(data: Option<nat>, lockCount: nat, located: bool, contents: Bytes)

  datatype Block = Zero | Ref(item: nat) | Dirty(buf: nat)

  /** Strings and items by the number that stands for their address. */
  datatype Heap = Heap(strings: map<nat, RcStr>, items: map<nat, Item>)

  // ------------------------------------------------ representation

  predicate IsBuffer(blocks: seq<Block>, s: nat) {
    exists k :: 0 <= k < |blocks| && blocks[k] == Dirty(s)
  }

  /** Blocks refer to things that exist; a private buffer has one owner. */
  ghost predicate BlocksOwned(blocks: seq<Block>, heap: Heap) {
    && (forall k :: 0 <= k < |blocks| && blocks[k].Ref? ==> blocks[k].item in heap.items)
    && (forall k :: 0 <= k < |blocks| && blocks[k].Dirty? ==>
          blocks[k].buf in heap.strings && heap.strings[blocks[k].buf].refcount == 1
          && !heap.strings[blocks[k].buf].mapped)
    && (forall j, k :: 0 <= j < k < |blocks| && blocks[j].Dirty? && blocks[k].Dirty? ==>
          blocks[j].buf != blocks[k].buf)
  }

  /** The in-memory copy of an item is what the log has, and is nobody's private
      buffer. */
  ghost predicate ItemsIntact(blocks: seq<Block>, heap: Heap) {
    forall i :: i in heap.items && heap.items[i].data.Some? ==>
      var s := heap.items[i].data.value;
      s in heap.strings && heap.strings[s].refcount >= 1
      && heap.strings[s].data == heap.items[i].contents
      && !IsBuffer(blocks, s)
  }

  /** No two items share an in-memory copy. */
  ghost predicate ItemsApart(items: map<nat, Item>) {
    forall i, j :: i in items && j in items && i != j && items[i].data.Some? ==> items[j].data != items[i].data
  }

  function CountDirty(blocks: seq<Block>): (n: nat)
  {
    if blocks == [] then 0
    else CountDirty(blocks[..|blocks| - 1]) + if blocks[|blocks| - 1].Dirty? then 1 else 0
  }

  function BlockCount(size: nat): (n: nat) {
    (size + BLOCK_SIZE - 1) / BLOCK_SIZE
  }

  /** The number of bytes block `k` of a file holds. */
  function BlockLen(size: nat, k: nat): (n: nat)
    requires k < BlockCount(size)
  {
    if (k + 1) * BLOCK_SIZE <= size then BLOCK_SIZE else size - k * BLOCK_SIZE
  }

  /** The bytes of a block that is not a hole. */
  function BlockData(b: Block, heap: Heap): (s: Bytes)
    requires b.Ref? ==> b.item in heap.items
    requires b.Dirty? ==> b.buf in heap.strings
  {
    match b
    case Zero => []
    case Ref(i) => heap.items[i].contents
    case Dirty(s) => heap.strings[s].data
  }

  ghost predicate Sized(size: nat, blocks: seq<Block>, heap: Heap)
    requires BlocksOwned(blocks, heap)
  {
    && |blocks| == BlockCount(size)
    && forall k :: 0 <= k < |blocks| && !blocks[k].Zero? ==> |BlockData(blocks[k], heap)| == BlockLen(size, k)
  }

  // ------------------------------------------------ the abstract file

  function ByteAt(b: Block, heap: Heap, at: nat): (v: Byte)
    requires b.Ref? ==> b.item in heap.items
    requires b.Dirty? ==> b.buf in heap.strings
    requires !b.Zero? ==> at < |BlockData(b, heap)|
  {
    if b.Zero? then 0 else BlockData(b, heap)[at]
  }

  lemma InBlock(size: nat, p: nat)
    requires p < size
    ensures p / BLOCK_SIZE < BlockCount(size)
    ensures p % BLOCK_SIZE < BlockLen(size, p / BLOCK_SIZE)
    ensures p == (p / BLOCK_SIZE) * BLOCK_SIZE + p % BLOCK_SIZE
  {
  }

  ghost predicate Represents(size: nat, blocks: seq<Block>, heap: Heap) {
    BlocksOwned(blocks, heap) && Sized(size, blocks, heap)
  }

  /** The file as a flat sequence of bytes. */
  ghost function Flat(size: nat, blocks: seq<Block>, heap: Heap): (s: Bytes)
    requires Represents(size, blocks, heap)
    ensures |s| == size
  {
    seq(size, p requires 0 <= p < size =>
      InBlock(size, p);
      ByteAt(blocks[p / BLOCK_SIZE], heap, p % BLOCK_SIZE))
  }

  function Resized(s: Bytes, n: nat): (r: Bytes)
    ensures |r| == n
  {
    if n <= |s| then s[..n] else s + Zeros(n - |s|)
  }

  function Spliced(s: Bytes, offset: nat, data: Bytes): (r: Bytes)
    requires offset + |data| <= |s|
    ensures |r| == |s|
  {
    s[..offset] + data + s[offset + |data|..]
  }

  // ------------------------------------------------ single changes

  /** What no operation on the file may do to the items of the log. */
  ghost predicate ItemsKept(before: Heap, after: Heap) {
    forall i :: i in before.items ==> i in after.items && after.items[i].contents == before.items[i].contents
  }

  ghost predicate Known(heap: Heap, next: nat) {
    && (forall s :: s in heap.strings ==> s < next)
    && (forall i :: i in heap.items ==> i < next)
  }

  lemma {:induction false} CountDirtyUpdate(blocks: seq<Block>, i: nat, b: Block)
    requires i < |blocks|
    ensures CountDirty(blocks[i := b])
         == CountDirty(blocks) - (if blocks[i].Dirty? then 1 else 0) + (if b.Dirty? then 1 else 0)
    decreases |blocks|
  {
    var n := |blocks| - 1;
    if i == n {
      assert blocks[i := b][..n] == blocks[..n];
    } else {
      CountDirtyUpdate(blocks[..n], i, b);
      assert blocks[i := b][..n] == blocks[..n][i := b];
    }
  }

  /** A string nobody has seen before may become a block's buffer. */
  lemma NewBuffer(blocks: seq<Block>, heap: Heap, next: nat, i: nat, data: Bytes)
    requires Known(heap, next) && BlocksOwned(blocks, heap) && ItemsIntact(blocks, heap) && i < |blocks|
    ensures var heap' := heap.(strings := heap.strings[next := RcStr(1, false, data)]);
      var blocks' := blocks[i := Dirty(next)];
      Known(heap', next + 1) && BlocksOwned(blocks', heap') && ItemsIntact(blocks', heap')
      && (forall k :: 0 <= k < |blocks| && k != i ==> BlockData(blocks'[k], heap') == BlockData(blocks[k], heap))
  {
    var blocks' := blocks[i := Dirty(next)];
    forall s: nat | s < next && IsBuffer(blocks', s)
      ensures IsBuffer(blocks, s)
    {
      var k :| 0 <= k < |blocks'| && blocks'[k] == Dirty(s);
      assert blocks[k] == Dirty(s);
    }
  }

  /** A block's own buffer may be overwritten in place. */
  lemma BufferWritten(blocks: seq<Block>, heap: Heap, i: nat, data: Bytes)
    requires BlocksOwned(blocks, heap) && ItemsIntact(blocks, heap) && i < |blocks| && blocks[i].Dirty?
    ensures var b := blocks[i].buf;
      var heap' := heap.(strings := heap.strings[b := heap.strings[b].(data := data)]);
      BlocksOwned(blocks, heap') && ItemsIntact(blocks, heap')
      && BlockData(blocks[i], heap') == data
      && (forall k :: 0 <= k < |blocks| && k != i ==> BlockData(blocks[k], heap') == BlockData(blocks[k], heap))
  {
    var b := blocks[i].buf;
    assert IsBuffer(blocks, b);
    forall k | 0 <= k < |blocks| && k != i && blocks[k].Dirty?
      ensures blocks[k].buf != b
    {
      if k < i {
        assert blocks[k].buf != blocks[i].buf;
      }
    }
  }

  /** Reading an item back in gives it a copy of its own. */
  lemma ItemFetched(blocks: seq<Block>, heap: Heap, next: nat, i: nat)
    requires Known(heap, next) && BlocksOwned(blocks, heap) && ItemsIntact(blocks, heap) && ItemsApart(heap.items) && i in heap.items
    ensures var heap' := Heap(heap.strings[next := RcStr(1, true, heap.items[i].contents)],
                              heap.items[i := heap.items[i].(data := Some(next))]);
      Known(heap', next + 1) && BlocksOwned(blocks, heap') && ItemsIntact(blocks, heap') && ItemsApart(heap'.items)
      && ItemsKept(heap, heap')
      && (forall k :: 0 <= k < |blocks| ==> BlockData(blocks[k], heap') == BlockData(blocks[k], heap))
  {
    assert forall k :: 0 <= k < |blocks| && blocks[k].Dirty? ==> blocks[k].buf != next;
  }

  /** One reference less; the last one frees the string. */
  function Unreferenced(strings: map<nat, RcStr>, s: nat): (r: map<nat, RcStr>)
    requires s in strings && strings[s].refcount >= 1
  {
    if strings[s].refcount == 1 then strings - {s}
    else strings[s := strings[s].(refcount := strings[s].refcount - 1)]
  }

  function Without(blocks: seq<Block>, n: nat): (r: seq<Block>)
    requires n < |blocks|
    ensures |r| == |blocks| - 1
    ensures forall k :: 0 <= k < |r| ==> r[k] == if k < n then blocks[k] else blocks[k + 1]
  {
    blocks[..n] + blocks[n + 1..]
  }

  lemma BufferGone(blocks: seq<Block>, heap: Heap, n: nat)
    requires BlocksOwned(blocks, heap) && n < |blocks| && blocks[n].Dirty?
    ensures !IsBuffer(Without(blocks, n), blocks[n].buf)
    ensures IsBuffer(blocks, blocks[n].buf)
  {
    forall k | 0 <= k < |Without(blocks, n)|
      ensures Without(blocks, n)[k] != Dirty(blocks[n].buf)
    {
      var m := if k < n then k else k + 1;
      assert Without(blocks, n)[k] == blocks[m];
      if blocks[m].Dirty? {
        assert if m < n then blocks[m].buf != blocks[n].buf else blocks[n].buf != blocks[m].buf;
      }
    }
  }

  /** Of the strings, exactly the buffers of these blocks have been freed. */
  ghost predicate Freed(was: map<nat, RcStr>, now: map<nat, RcStr>, dropped: seq<Block>) {
    forall s :: s in now <==> s in was && !IsBuffer(dropped, s)
  }

  lemma NoneFreed(strings: map<nat, RcStr>)
    ensures Freed(strings, strings, [])
  {
  }

  lemma FreedMore(was: map<nat, RcStr>, heap: Heap, dropped: seq<Block>, blocks: seq<Block>, n: nat)
    requires Freed(was, heap.strings, dropped) && BlocksOwned(blocks, heap) && n < |blocks|
    ensures Freed(was, AfterDrop(blocks[n], heap).strings, dropped + [blocks[n]])
  {
    var b := blocks[n];
    forall s: nat
      ensures IsBuffer(dropped + [b], s) <==> IsBuffer(dropped, s) || b == Dirty(s)
    {
      if IsBuffer(dropped, s) {
        var k :| 0 <= k < |dropped| && dropped[k] == Dirty(s);
        assert (dropped + [b])[k] == Dirty(s);
      }
      assert (dropped + [b])[|dropped|] == b;
    }
    hide IsBuffer;
  }

  lemma OtherBuffersRemain(blocks: seq<Block>, n: nat, s: nat)
    requires n < |blocks| && IsBuffer(Without(blocks, n), s)
    ensures IsBuffer(blocks, s)
  {
    var k :| 0 <= k < |Without(blocks, n)| && Without(blocks, n)[k] == Dirty(s);
    assert blocks[if k < n then k else k + 1] == Dirty(s);
  }

  lemma DroppedItems(blocks: seq<Block>, heap: Heap, n: nat)
    requires BlocksOwned(blocks, heap) && ItemsIntact(blocks, heap) && n < |blocks|
    ensures ItemsIntact(Without(blocks, n), AfterDrop(blocks[n], heap))
  {
    forall s: nat | IsBuffer(Without(blocks, n), s)
      ensures IsBuffer(blocks, s)
    {
      OtherBuffersRemain(blocks, n, s);
    }
    if blocks[n].Dirty? {
      BufferGone(blocks, heap, n);
    }
    hide Without, IsBuffer;
  }

  lemma DroppedOwned(blocks: seq<Block>, heap: Heap, n: nat)
    requires BlocksOwned(blocks, heap) && n < |blocks|
    ensures BlocksOwned(Without(blocks, n), AfterDrop(blocks[n], heap))
    ensures forall k :: 0 <= k < n ==> BlockData(Without(blocks, n)[k], AfterDrop(blocks[n], heap)) == BlockData(blocks[k], heap)
  {
    if blocks[n].Dirty? {
      BufferGone(blocks, heap, n);
      assert forall k :: 0 <= k < |Without(blocks, n)| && Without(blocks, n)[k].Dirty? ==>
        Without(blocks, n)[k] != Dirty(blocks[n].buf);
    }
  }

  function AfterDrop(b: Block, heap: Heap): (heap': Heap)
    requires b.Dirty? ==> b.buf in heap.strings && heap.strings[b.buf].refcount >= 1
  {
    if b.Dirty? then heap.(strings := Unreferenced(heap.strings, b.buf)) else heap
  }

  lemma {:induction false} CountDirtyDrop(blocks: seq<Block>, n: nat)
    requires n < |blocks|
    ensures CountDirty(Without(blocks, n)) == CountDirty(blocks) - if blocks[n].Dirty? then 1 else 0
    decreases |blocks|
  {
    var last := |blocks| - 1;
    var rest := Without(blocks, n);
    if n == last {
      assert rest == blocks[..last];
    } else {
      CountDirtyDrop(blocks[..last], n);
      assert rest[..|rest| - 1] == Without(blocks[..last], n);
      assert rest[|rest| - 1] == blocks[last];
    }
  }

  lemma {:induction false} CountDirtyGrow(blocks: seq<Block>, n: nat)
    ensures CountDirty(blocks + Holes(n)) == CountDirty(blocks)
  {
    if n == 0 {
      assert blocks + Holes(0) == blocks;
    } else {
      CountDirtyGrow(blocks, n - 1);
      assert (blocks + Holes(n))[..|blocks| + n - 1] == blocks + Holes(n - 1);
    }
  }

  function Holes(n: nat): (r: seq<Block>)
    ensures |r| == n
    ensures forall k :: 0 <= k < n ==> r[k] == Zero
  {
    seq(n, _ => Zero)
  }

  // ------------------------------------------------ changes of size

  /** Every block holds what it held, cut or padded to its new length. */
  ghost predicate BlocksResized(size: nat, blocks: seq<Block>, heap: Heap, size': nat, blocks': seq<Block>, heap': Heap)
    requires BlocksOwned(blocks, heap) && BlocksOwned(blocks', heap')
  {
    && |blocks'| == BlockCount(size')
    && (forall k :: 0 <= k < |blocks'| && k < |blocks| ==>
          if blocks[k].Zero? then blocks'[k].Zero?
          else !blocks'[k].Zero? && BlockData(blocks'[k], heap') == Resized(BlockData(blocks[k], heap), BlockLen(size', k)))
    && (forall k :: |blocks| <= k < |blocks'| ==> blocks'[k].Zero?)
  }

  ghost predicate CountFitted(blocks: seq<Block>, heap: Heap, count: nat, blocks': seq<Block>, heap': Heap)
    requires BlocksOwned(blocks, heap) && BlocksOwned(blocks', heap')
  {
    && |blocks'| == count
    && (forall k :: 0 <= k < count && k < |blocks| ==>
          && blocks'[k].Zero? == blocks[k].Zero?
          && (!blocks[k].Zero? ==>
                BlockData(blocks'[k], heap')
                == if k == |blocks| - 1 && count > |blocks| then Resized(BlockData(blocks[k], heap), BLOCK_SIZE)
                   else BlockData(blocks[k], heap)))
    && (forall k :: |blocks| <= k < count ==> blocks'[k].Zero?)
  }

  lemma PaddedLength(size: nat, blocks: seq<Block>, heap: Heap, blocks': seq<Block>, heap': Heap)
    requires BlocksOwned(blocks, heap) && BlocksOwned(blocks', heap') && LastPadded(size, blocks, heap, blocks', heap')
    ensures |blocks'| == |blocks|
  {
  }

  /** The number of bytes in the last block. */
  function LastLen(size: nat): (n: nat) {
    if size % BLOCK_SIZE == 0 && size > 0 then BLOCK_SIZE else size % BLOCK_SIZE
  }

  lemma LastLength(size: nat)
    requires size > 0
    ensures BlockCount(size) > 0 && LastLen(size) == BlockLen(size, BlockCount(size) - 1) == size - (BlockCount(size) - 1) * BLOCK_SIZE
  {
  }

  /** A block that needs resizing starts inside the old file. */
  lemma FittedStart(size: nat, size': nat, blocks: seq<Block>, heap: Heap, blocks': seq<Block>, heap': Heap)
    requires Represents(size, blocks, heap) && BlocksOwned(blocks', heap')
    requires CountFitted(blocks, heap, BlockCount(size'), blocks', heap')
    ensures |blocks'| == BlockCount(size')
    ensures |blocks'| > 0 && !blocks'[|blocks'| - 1].Zero? ==> (|blocks'| - 1) * BLOCK_SIZE <= size
  {
  }

  /** Only the last block changes: it gets the length the new size gives it. */
  ghost predicate LastFitted(size: nat, size': nat, blocks: seq<Block>, heap: Heap, blocks': seq<Block>, heap': Heap)
    requires BlocksOwned(blocks, heap) && BlocksOwned(blocks', heap') && |blocks| == BlockCount(size')
  {
    && |blocks'| == |blocks|
    && (forall k :: 0 <= k < |blocks| - 1 ==>
          blocks'[k] == blocks[k] && BlockData(blocks'[k], heap') == BlockData(blocks[k], heap))
    && (|blocks| > 0 ==>
          var k := |blocks| - 1;
          && blocks'[k].Zero? == blocks[k].Zero?
          && (!blocks[k].Zero? ==>
                || BlockData(blocks'[k], heap') == Resized(BlockData(blocks[k], heap), BlockLen(size', k))
                || (size' < size && BlockLen(size', k) == BLOCK_SIZE && BlockData(blocks'[k], heap') == BlockData(blocks[k], heap))))
  }

  /** After the last block has its length too, every block has. */
  lemma FittedResized(size: nat, blocks: seq<Block>, heap: Heap, size': nat,
                      blocks1: seq<Block>, heap1: Heap, blocks2: seq<Block>, heap2: Heap)
    requires Represents(size, blocks, heap) && BlocksOwned(blocks1, heap1) && BlocksOwned(blocks2, heap2)
    requires size != size' && CountFitted(blocks, heap, BlockCount(size'), blocks1, heap1)
    requires LastFitted(size, size', blocks1, heap1, blocks2, heap2)
    ensures BlocksResized(size, blocks, heap, size', blocks2, heap2)
  {
    forall k | 0 <= k < |blocks2| && k < |blocks| && !blocks[k].Zero?
      ensures !blocks2[k].Zero? && BlockData(blocks2[k], heap2) == Resized(BlockData(blocks[k], heap), BlockLen(size', k))
    {
      FittedBlock(size, size', k);
    }
  }

  /** How the lengths of one block before and after compare. */
  lemma FittedBlock(size: nat, size': nat, k: nat)
    requires k < BlockCount(size) && k < BlockCount(size')
    ensures k < BlockCount(size') - 1 && k < BlockCount(size) - 1 ==> BlockLen(size', k) == BlockLen(size, k) == BLOCK_SIZE
    ensures k < BlockCount(size') - 1 && k == BlockCount(size) - 1 ==> BlockLen(size', k) == BLOCK_SIZE
    ensures size' < size && BlockLen(size', k) == BLOCK_SIZE ==> BlockLen(size, k) == BLOCK_SIZE
    ensures BlockLen(size, k) <= BLOCK_SIZE && BlockLen(size', k) <= BLOCK_SIZE
  {
  }

  /** Resizing block by block is resizing the whole. */
  lemma ResizedFlat(size: nat, blocks: seq<Block>, heap: Heap, size': nat, blocks': seq<Block>, heap': Heap)
    requires Represents(size, blocks, heap) && BlocksOwned(blocks', heap')
    requires BlocksResized(size, blocks, heap, size', blocks', heap')
    ensures Represents(size', blocks', heap')
    ensures Flat(size', blocks', heap') == Resized(Flat(size, blocks, heap), size')
  {
    var before, after := Flat(size, blocks, heap), Flat(size', blocks', heap');
    forall p | 0 <= p < size'
      ensures after[p] == Resized(before, size')[p]
    {
      ResizedByte(size, blocks, heap, size', blocks', heap', p);
    }
  }

  lemma ResizedByte(size: nat, blocks: seq<Block>, heap: Heap, size': nat, blocks': seq<Block>, heap': Heap, p: nat)
    requires Represents(size, blocks, heap) && Represents(size', blocks', heap')
    requires BlocksResized(size, blocks, heap, size', blocks', heap') && p < size'
    ensures Flat(size', blocks', heap')[p] == Resized(Flat(size, blocks, heap), size')[p]
  {
    InBlock(size', p);
    var k := p / BLOCK_SIZE;
    if p < size {
      InBlock(size, p);
    } else if k < |blocks| {
      assert p % BLOCK_SIZE >= BlockLen(size, k);
    }
  }

  // ------------------------------------------------ changes of content

  /** Block `i` has `chunk` written over it at `at`; nothing else changes. */
  ghost predicate BlockSpliced(size: nat, blocks: seq<Block>, heap: Heap, blocks': seq<Block>, heap': Heap,
                               i: nat, at: nat, chunk: Bytes)
    requires Represents(size, blocks, heap) && BlocksOwned(blocks', heap') && i < |blocks|
  {
    && |blocks'| == |blocks|
    && (forall k :: 0 <= k < |blocks| && k != i ==>
          blocks'[k] == blocks[k] && BlockData(blocks'[k], heap') == BlockData(blocks[k], heap))
    && !blocks'[i].Zero?
    && |BlockData(blocks'[i], heap')| == BlockLen(size, i)
    && (forall q :: 0 <= q < BlockLen(size, i) ==>
          BlockData(blocks'[i], heap')[q] == if at <= q < at + |chunk| then chunk[q - at] else ByteAt(blocks[i], heap, q))
  }

  lemma SplicedFlat(size: nat, blocks: seq<Block>, heap: Heap, blocks': seq<Block>, heap': Heap, i: nat, at: nat, chunk: Bytes)
    requires Represents(size, blocks, heap) && BlocksOwned(blocks', heap') && i < |blocks|
    requires at + |chunk| <= BlockLen(size, i) && i * BLOCK_SIZE + at + |chunk| <= size
    requires BlockSpliced(size, blocks, heap, blocks', heap', i, at, chunk)
    ensures Represents(size, blocks', heap')
    ensures Flat(size, blocks', heap') == Spliced(Flat(size, blocks, heap), i * BLOCK_SIZE + at, chunk)
  {
    var before, after := Flat(size, blocks, heap), Flat(size, blocks', heap');
    forall p | 0 <= p < size
      ensures after[p] == Spliced(before, i * BLOCK_SIZE + at, chunk)[p]
    {
      InBlock(size, p);
    }
  }

  lemma SplicedTwice(s: Bytes, offset: nat, a: Bytes, b: Bytes)
    requires offset + |a| + |b| <= |s|
    ensures Spliced(Spliced(s, offset, a), offset + |a|, b) == Spliced(s, offset, a + b)
  {
  }

  /** The same bytes in every block are the same bytes in the file. */
  lemma SameFlat(size: nat, blocks: seq<Block>, heap: Heap, blocks': seq<Block>, heap': Heap)
    requires Represents(size, blocks, heap) && BlocksOwned(blocks', heap') && |blocks'| == |blocks|
    requires forall k :: 0 <= k < |blocks| ==>
      blocks'[k].Zero? == blocks[k].Zero? && BlockData(blocks'[k], heap') == BlockData(blocks[k], heap)
    ensures Represents(size, blocks', heap')
    ensures Flat(size, blocks', heap') == Flat(size, blocks, heap)
  {
    forall p | 0 <= p < size
      ensures Flat(size, blocks', heap')[p] == Flat(size, blocks, heap)[p]
    {
      InBlock(size, p);
    }
  }

  /** What touching block `i` leaves: its bytes, or zeros where a whole block is
      about to be overwritten. */
  ghost predicate Touched(size: nat, blocks: seq<Block>, heap: Heap, blocks': seq<Block>, heap': Heap, i: nat, preserve: bool)
    requires BlocksOwned(blocks, heap) && BlocksOwned(blocks', heap') && i < |blocks| && i * BLOCK_SIZE <= size
  {
    && |blocks'| == |blocks| && blocks'[i].Dirty?
    && (forall k :: 0 <= k < |blocks| && k != i ==>
          blocks'[k] == blocks[k] && BlockData(blocks'[k], heap') == BlockData(blocks[k], heap))
    && BlockData(blocks'[i], heap')
       == if blocks[i].Zero? || (blocks[i].Ref? && !preserve)
          then Zeros(if i < |blocks| - 1 then BLOCK_SIZE else size - i * BLOCK_SIZE)
          else BlockData(blocks[i], heap)
  }

  /** The heap after block `i`'s own buffer gets new contents. */
  function Overwritten(blocks: seq<Block>, heap: Heap, i: nat, data: Bytes): (heap': Heap)
    requires i < |blocks| && blocks[i].Dirty? && blocks[i].buf in heap.strings
  {
    var b := blocks[i].buf;
    heap.(strings := heap.strings[b := heap.strings[b].(data := data)])
  }

  /** Touching a block and copying a chunk into it splices the block. */
  lemma ChunkSpliced(size: nat, blocks: seq<Block>, heap: Heap, blocks1: seq<Block>, heap1: Heap,
                     i: nat, at: nat, chunk: Bytes, preserve: bool, data: Bytes)
    requires Represents(size, blocks, heap) && BlocksOwned(blocks1, heap1) && ItemsIntact(blocks1, heap1)
    requires i < |blocks| && i * BLOCK_SIZE <= size && Touched(size, blocks, heap, blocks1, heap1, i, preserve)
    requires at + |chunk| <= BlockLen(size, i)
    requires BlockLen(size, i) == if i < |blocks| - 1 then BLOCK_SIZE else size - i * BLOCK_SIZE
    requires preserve || |chunk| == BlockLen(size, i)
    requires |BlockData(blocks1[i], heap1)| == BlockLen(size, i) ==> data == Spliced(BlockData(blocks1[i], heap1), at, chunk)
    ensures |BlockData(blocks1[i], heap1)| == BlockLen(size, i)
    ensures var heap2 := Overwritten(blocks1, heap1, i, data);
      BlocksOwned(blocks1, heap2) && ItemsIntact(blocks1, heap2)
      && BlockSpliced(size, blocks, heap, blocks1, heap2, i, at, chunk)
  {
    BufferWritten(blocks1, heap1, i, data);
  }

  lemma DropFitted(blocks: seq<Block>, heap: Heap, count: nat, blocks': seq<Block>, heap': Heap)
    requires BlocksOwned(blocks, heap) && BlocksOwned(blocks', heap')
    requires count <= |blocks| && blocks' == blocks[..count]
    requires forall k :: 0 <= k < count ==> BlockData(blocks'[k], heap') == BlockData(blocks[k], heap)
    ensures CountFitted(blocks, heap, count, blocks', heap')
  {
  }

  lemma GrowFitted(size: nat, blocks: seq<Block>, heap: Heap, blocks': seq<Block>, heap': Heap, n: nat)
    requires Represents(size, blocks, heap) && BlocksOwned(blocks', heap') && n > 0
    requires LastPadded(size, blocks, heap, blocks', heap')
    requires BlocksOwned(blocks' + Holes(n), heap')
    ensures CountFitted(blocks, heap, |blocks| + n, blocks' + Holes(n), heap')
  {
    var all := blocks' + Holes(n);
    assert forall k :: 0 <= k < |blocks'| ==> all[k] == blocks'[k];
  }

  /** The last block, unless it is a hole, has been padded to full size. */
  ghost predicate LastPadded(size: nat, blocks: seq<Block>, heap: Heap, blocks': seq<Block>, heap': Heap)
    requires BlocksOwned(blocks, heap) && BlocksOwned(blocks', heap')
  {
    && |blocks'| == |blocks|
    && forall k :: 0 <= k < |blocks| ==>
         blocks'[k].Zero? == blocks[k].Zero?
         && (!blocks[k].Zero? ==>
               BlockData(blocks'[k], heap')
               == if k == |blocks| - 1 then Resized(BlockData(blocks[k], heap), BLOCK_SIZE) else BlockData(blocks[k], heap))
  }

  /** A buffer may become the data of a new item: it stops being a buffer. */
  lemma BufferHandedOver(blocks: seq<Block>, heap: Heap, next: nat, i: nat)
    requires Known(heap, next) && BlocksOwned(blocks, heap) && ItemsIntact(blocks, heap) && ItemsApart(heap.items)
    requires i < |blocks| && blocks[i].Dirty?
    ensures var b := blocks[i].buf;
      var heap' := heap.(items := heap.items[next := Item(Some(b), 1, true, heap.strings[b].data)]);
      var blocks' := blocks[i := Ref(next)];
      Known(heap', next + 1) && BlocksOwned(blocks', heap') && ItemsIntact(blocks', heap') && ItemsApart(heap'.items)
      && ItemsKept(heap, heap')
      && (forall k :: 0 <= k < |blocks| ==> BlockData(blocks'[k], heap') == BlockData(blocks[k], heap))
  {
    var b := blocks[i].buf;
    var blocks' := blocks[i := Ref(next)];
    assert IsBuffer(blocks, b);
    forall k | 0 <= k < |blocks'|
      ensures blocks'[k] != Dirty(b)
    {
      if k < i {
        assert blocks[k].Dirty? ==> blocks[k].buf != blocks[i].buf;
      } else if k > i {
        assert blocks[k].Dirty? ==> blocks[i].buf != blocks[k].buf;
      }
    }
    forall s: nat | IsBuffer(blocks', s)
      ensures IsBuffer(blocks, s)
    {
      var k :| 0 <= k < |blocks'| && blocks'[k] == Dirty(s);
      assert blocks[k] == Dirty(s);
    }
  }

  /** An item's in-memory copy may go; what the log has stays. */
  lemma CopyDropped(blocks: seq<Block>, heap: Heap, next: nat, i: nat)
    requires Known(heap, next) && BlocksOwned(blocks, heap) && ItemsIntact(blocks, heap) && ItemsApart(heap.items)
    requires i in heap.items && heap.items[i].data.Some?
    ensures var s := heap.items[i].data.value;
      var heap' := Heap(Unreferenced(heap.strings, s), heap.items[i := heap.items[i].(data := None)]);
      Known(heap', next) && BlocksOwned(blocks, heap') && ItemsIntact(blocks, heap') && ItemsApart(heap'.items)
      && ItemsKept(heap, heap')
      && (forall k :: 0 <= k < |blocks| ==> BlockData(blocks[k], heap') == BlockData(blocks[k], heap))
  {
    var s := heap.items[i].data.value;
    assert forall k :: 0 <= k < |blocks| && blocks[k].Dirty? ==> blocks[k] != Dirty(s);
  }

  lemma {:induction false} NoneDirty(blocks: seq<Block>)
    requires forall k :: 0 <= k < |blocks| ==> !blocks[k].Dirty?
    ensures CountDirty(blocks) == 0
  {
    if blocks != [] {
      NoneDirty(blocks[..|blocks| - 1]);
    }
  }

  // ------------------------------------------------ the file

  class RegularFile {
    var size: nat
    var blocks: seq<Block>
    var heap: Heap
    var nextId: nat
    var cacheDirty: int
    var changeCount: nat

    /** Everything but the block sizes. */
    ghost predicate Sound()
      reads this
    {
      && Known(heap, nextId)
      && BlocksOwned(blocks, heap)
      && ItemsIntact(blocks, heap)
      && ItemsApart(heap.items)
      && cacheDirty == CountDirty(blocks)
    }

    ghost predicate Valid()
      reads this
    {
      Sound() && Sized(size, blocks, heap)
    }

    ghost function Contents(): (s: Bytes)
      reads this
      requires Valid()
    {
      Flat(size, blocks, heap)
    }

    constructor ()
      ensures Valid() && Contents() == [] && changeCount == 1
    {
      size, blocks, heap, nextId, cacheDirty, changeCount := 0, [], Heap(map[], map[]), 0, 0, 1;
    }

    // ---------------------------------------------- strings

    method StringNew(data: Bytes) returns (s: nat)
      modifies this
      ensures s == old(nextId) && nextId == old(nextId) + 1
      ensures heap == old(heap).(strings := old(heap).strings[s := RcStr(1, false, data)])
      ensures unchanged(`size, `blocks, `cacheDirty, `changeCount)
    {
      s := nextId;
      heap := heap.(strings := heap.strings[s := RcStr(1, false, data)]);
      nextId := nextId + 1;
    }

    method StringRef(s: nat)
      requires s in heap.strings
      modifies `heap
      ensures heap == old(heap).(strings := old(heap).strings[s := old(heap).strings[s].(refcount := old(heap).strings[s].refcount + 1)])
    {
      heap := heap.(strings := heap.strings[s := heap.strings[s].(refcount := heap.strings[s].refcount + 1)]);
    }

    /** A private copy: a mapped or shared string is copied and loses one
        reference, an unshared one is returned as it is. */
    method StringDup(s: nat) returns (r: nat)
      requires s in heap.strings && heap.strings[s].refcount >= 1
      modifies this
      ensures unchanged(`size, `blocks, `cacheDirty, `changeCount)
      ensures var was := old(heap).strings[s];
        (!was.mapped && was.refcount == 1 ==> r == s && heap == old(heap) && nextId == old(nextId))
        && (was.mapped || was.refcount > 1 ==>
              r == old(nextId) && nextId == old(nextId) + 1
              && heap == old(heap).(strings := Unreferenced(old(heap).strings, s)[r := RcStr(1, false, was.data)]))
    {
      var was := heap.strings[s];
      if was.mapped || was.refcount > 1 {
        heap := heap.(strings := Unreferenced(heap.strings, s));
        r := StringNew(was.data);
      } else {
        r := s;
      }
    }

    /** Read an item's data back from the log if it is not in memory. */
    method BlockFetch(i: nat)
      requires Sound() && i in heap.items
      modifies `heap, `nextId
      ensures Sound() && ItemsKept(old(heap), heap) && i in heap.items && heap.items[i].data.Some?
      ensures forall k :: 0 <= k < |blocks| ==> BlockData(blocks[k], heap) == old(BlockData(blocks[k], heap))
      ensures heap.items.Keys == old(heap).items.Keys
      ensures forall j :: j in heap.items ==> heap.items[j] == old(heap).items[j].(data := heap.items[j].data)
      ensures forall j :: j in heap.items && j != i ==> heap.items[j] == old(heap).items[j]
      ensures old(heap).items[i].data.None? ==>
        heap.items[i].data.value in heap.strings && heap.strings[heap.items[i].data.value].mapped
    {
      if heap.items[i].data.None? {
        ItemFetched(blocks, heap, nextId, i);
        heap := Heap(heap.strings[nextId := RcStr(1, true, heap.items[i].contents)],
                     heap.items[i := heap.items[i].(data := Some(nextId))]);
        nextId := nextId + 1;
      }
    }

    /** Give block `i` a private buffer.  Its bytes are kept, unless the block is
        a hole or `preserve` is off for a clean block; then they are zero. */
    method BlockTouch(i: nat, preserve: bool)
      requires Sound() && i < |blocks| && i * BLOCK_SIZE <= size
      modifies this
      ensures Sound() && unchanged(`size, `changeCount) && ItemsKept(old(heap), heap)
      ensures Touched(size, old(blocks), old(heap), blocks, heap, i, preserve)
    {
      hide CountDirty, ItemsApart;
      var blockLen := if i < |blocks| - 1 then BLOCK_SIZE else size - i * BLOCK_SIZE;
      match blocks[i] {
        case Zero => InstallNew(i, Zeros(blockLen));
        case Ref(item) =>
          if preserve {
            BlockFetch(item);
            InstallCopy(i, item);
          } else {
            InstallNew(i, Zeros(blockLen));
          }
        case Dirty(b) =>
          var s := StringDup(b);
          assert s == b;
      }
    }

    /** Point block `i` at a new buffer. */
    method InstallNew(i: nat, data: Bytes)
      requires Sound() && i < |blocks| && !blocks[i].Dirty?
      modifies this
      ensures Sound() && unchanged(`size, `changeCount) && heap.items == old(heap).items
      ensures |blocks| == |old(blocks)| && blocks[i].Dirty? && BlockData(blocks[i], heap) == data
      ensures forall k :: 0 <= k < |blocks| && k != i ==>
        blocks[k] == old(blocks)[k] && BlockData(blocks[k], heap) == old(BlockData(blocks[k], heap))
    {
      hide CountDirty, ItemsApart;
      NewBuffer(blocks, heap, nextId, i, data);
      var s := StringNew(data);
      CountDirtyUpdate(blocks, i, Dirty(s));
      cacheDirty := cacheDirty + 1;
      blocks := blocks[i := Dirty(s)];
    }

    /** Point block `i` at a copy of the item's data: one reference is taken first,
        so the item's own string is never the one returned. */
    method InstallCopy(i: nat, item: nat)
      requires Sound() && i < |blocks| && blocks[i] == Ref(item) && heap.items[item].data.Some?
      modifies this
      ensures Sound() && unchanged(`size, `changeCount) && heap.items == old(heap).items
      ensures |blocks| == |old(blocks)| && blocks[i].Dirty? && BlockData(blocks[i], heap) == old(heap).items[item].contents
      ensures forall k :: 0 <= k < |blocks| && k != i ==>
        blocks[k] == old(blocks)[k] && BlockData(blocks[k], heap) == old(BlockData(blocks[k], heap))
    {
      hide CountDirty, ItemsApart;
      var d := heap.items[item].data.value;
      var was := heap.strings[d];
      NewBuffer(blocks, heap, nextId, i, was.data);
      StringRef(d);
      var s := StringDup(d);
      assert heap.strings == old(heap).strings[s := RcStr(1, false, was.data)];
      CountDirtyUpdate(blocks, i, Dirty(s));
      cacheDirty := cacheDirty + 1;
      blocks := blocks[i := Dirty(s)];
    }

    /** Set the length of block `i`; bytes added at its end are zero. */
    method ResizeBlock(i: nat, n: nat)
      requires Sound() && i < |blocks| && !blocks[i].Zero? && i * BLOCK_SIZE <= size
      modifies this
      ensures Sound() && unchanged(`size, `changeCount) && ItemsKept(old(heap), heap)
      ensures |blocks| == |old(blocks)| && blocks[i].Dirty?
      ensures BlockData(blocks[i], heap) == Resized(old(BlockData(blocks[i], heap)), n)
      ensures forall k :: 0 <= k < |blocks| && k != i ==>
        blocks[k] == old(blocks)[k] && BlockData(blocks[k], heap) == old(BlockData(blocks[k], heap))
    {
      BlockTouch(i, true);
      hide CountDirty, ItemsApart;
      var b := blocks[i].buf;
      var data := heap.strings[b].data;
      var oldSize := |data|;
      if n <= oldSize {
        data := data[..n];
      } else {
        // reallocation leaves the new bytes undefined; they are then cleared
        var undefined: Bytes :| |undefined| == n - oldSize by { assert |Zeros(n - oldSize)| == n - oldSize; }
        data := data + undefined;
        data := data[..oldSize] + Zeros(n - oldSize);
      }
      BufferWritten(blocks, heap, i, data);
      heap := heap.(strings := heap.strings[b := heap.strings[b].(data := data)]);
    }

    /** Free the blocks from `n` on. */
    method DropBlocks(n: nat)
      requires Sound() && n <= |blocks|
      modifies this
      ensures Sound() && unchanged(`size, `changeCount) && heap.items == old(heap).items
      ensures blocks == old(blocks)[..n]
      ensures forall k :: 0 <= k < n ==> BlockData(blocks[k], heap) == old(BlockData(blocks[k], heap))
      ensures Freed(old(heap).strings, heap.strings, old(blocks)[n..])
    {
      hide CountDirty, ItemsApart, ItemsIntact, Freed, IsBuffer;
      ghost var rest := blocks;
      assert blocks[..n] + blocks[n..] == blocks && blocks[n..n] == [];
      NoneFreed(heap.strings);
      for i := n to |blocks|
        invariant unchanged(`size, `changeCount, `blocks) && heap.items == old(heap).items
        invariant rest == blocks[..n] + blocks[i..]
        invariant Known(heap, nextId) && BlocksOwned(rest, heap) && ItemsIntact(rest, heap) && ItemsApart(heap.items)
        invariant cacheDirty == CountDirty(rest)
        invariant forall k :: 0 <= k < n ==> BlockData(rest[k], heap) == old(BlockData(blocks[k], heap))
        invariant Freed(old(heap).strings, heap.strings, blocks[n..i])
      {
        assert rest[n] == blocks[i];
        FreedMore(old(heap).strings, heap, blocks[n..i], rest, n);
        assert blocks[n..i + 1] == blocks[n..i] + [rest[n]];
        DroppedOwned(rest, heap, n);
        DroppedItems(rest, heap, n);
        CountDirtyDrop(rest, n);
        if blocks[i].Dirty? {
          cacheDirty := cacheDirty - 1;
        }
        heap := AfterDrop(blocks[i], heap);
        rest := Without(rest, n);
      }
      assert rest == blocks[..n] && blocks[n..|blocks|] == blocks[n..];
      blocks := blocks[..n];
    }

    /** Pad a last block that will no longer be the last. */
    method PadLast()
      requires Valid()
      modifies this
      ensures Sound() && unchanged(`size, `changeCount) && ItemsKept(old(heap), heap)
      ensures LastPadded(size, old(blocks), old(heap), blocks, heap)
    {
      hide CountDirty, ItemsApart, ItemsIntact, Known;
      if |blocks| > 0 {
        LastLength(size);
        var last := |blocks| - 1;
        if !blocks[last].Zero? && LastLen(size) < BLOCK_SIZE {
          ResizeBlock(last, BLOCK_SIZE);
        }
      }
    }

    /** Give the file the right number of blocks. */
    method FitCount(count: nat)
      requires Valid()
      modifies this
      ensures Sound() && unchanged(`size, `changeCount) && ItemsKept(old(heap), heap)
      ensures CountFitted(old(blocks), old(heap), count, blocks, heap)
    {
      hide CountDirty, ItemsApart, ItemsIntact, Known, Sized, CountFitted, LastPadded;
      if count > |blocks| {
        PadLast();
        assert |blocks| == |old(blocks)| by { PaddedLength(size, old(blocks), old(heap), blocks, heap); }
        var n := count - |blocks|;
        ghost var blocks1 := blocks;
        Grow(n);
        GrowFitted(size, old(blocks), old(heap), blocks1, heap, n);
      } else {
        DropBlocks(count);
        DropFitted(old(blocks), old(heap), count, blocks, heap);
      }
    }

    /** Give the last block the length it should have. */
    method FitLast(newSize: nat)
      requires Sound() && |blocks| == BlockCount(newSize)
      requires |blocks| > 0 && !blocks[|blocks| - 1].Zero? ==> (|blocks| - 1) * BLOCK_SIZE <= size
      modifies this
      ensures Sound() && unchanged(`size, `changeCount) && ItemsKept(old(heap), heap)
      ensures LastFitted(size, newSize, old(blocks), old(heap), blocks, heap)
    {
      var count := |blocks|;
      hide CountDirty, ItemsIntact, ItemsApart, LastLen;
      if count > 0 {
        LastLength(newSize);
        var needResize := !blocks[count - 1].Zero? && !(newSize < size && LastLen(newSize) == BLOCK_SIZE);
        if needResize {
          ResizeBlock(count - 1, newSize - (count - 1) * BLOCK_SIZE);
        }
      }
    }

    /** Cut the file or extend it with zeros. */
    method Truncate(newSize: nat)
      requires Valid()
      modifies this
      ensures Valid() && ItemsKept(old(heap), heap)
      ensures Contents() == if newSize <= MAX_FILE_SIZE then Resized(old(Contents()), newSize) else old(Contents())
      ensures changeCount == old(changeCount) + if newSize <= MAX_FILE_SIZE && newSize != old(size) then 1 else 0
    {
      hide CountDirty, Flat, ItemsIntact, ItemsApart, CountFitted, LastFitted, BlocksOwned, Sized, BlocksResized, BlockData;
      if newSize > MAX_FILE_SIZE || newSize == size {
        assert newSize == size ==> Resized(Contents(), newSize) == Contents();
        return;
      }
      FitCount(BlockCount(newSize));
      ghost var blocks1, heap1 := blocks, heap;
      FittedStart(size, newSize, old(blocks), old(heap), blocks, heap);
      FitLast(newSize);
      FittedResized(size, old(blocks), old(heap), newSize, blocks1, heap1, blocks, heap);
      ResizedFlat(size, old(blocks), old(heap), newSize, blocks, heap);
      size := newSize;
      changeCount := changeCount + 1;
    }

    method Grow(n: nat)
      requires Sound()
      modifies `blocks
      ensures Sound() && blocks == old(blocks) + Holes(n)
    {
      CountDirtyGrow(blocks, n);
      ghost var was := blocks;
      blocks := blocks + Holes(n);
      assert forall s: nat :: IsBuffer(blocks, s) ==> IsBuffer(was, s);
    }

    /** Overwrite part of one block. */
    method WriteChunk(offset: nat, chunk: Bytes)
      requires Valid() && 0 < |chunk| && offset + |chunk| <= size
      requires offset % BLOCK_SIZE + |chunk| <= BLOCK_SIZE
      modifies this
      ensures Valid() && unchanged(`size, `changeCount) && ItemsKept(old(heap), heap)
      ensures Contents() == Spliced(old(Contents()), offset, chunk)
    {
      hide CountDirty, Flat, ItemsIntact, ItemsApart, Touched, BlockSpliced, Spliced;
      var i := offset / BLOCK_SIZE;
      var at := offset % BLOCK_SIZE;
      ChunkInBlock(size, offset, |chunk|);
      var blockSize := if i == |blocks| - 1 then size - i * BLOCK_SIZE else BLOCK_SIZE;
      var preserve := !(at == 0 && |chunk| == blockSize);
      BlockTouch(i, preserve);
      ghost var heap1 := heap;
      ChunkRoom(size, old(blocks), old(heap), blocks, heap, i, preserve);
      var data := Spliced(heap.strings[blocks[i].buf].data, at, chunk);
      ChunkSpliced(size, old(blocks), old(heap), blocks, heap, i, at, chunk, preserve, data);
      heap := Overwritten(blocks, heap, i, data);
      SplicedFlat(size, old(blocks), old(heap), blocks, heap, i, at, chunk);
    }

    /** Overwrite bytes inside the file; a range outside it changes nothing. */
    method Write(offset: nat, data: Bytes)
      requires Valid()
      modifies this
      ensures Valid() && size == old(size) && ItemsKept(old(heap), heap)
      ensures Contents() == if offset < old(size) && |data| <= old(size) - offset
                            then Spliced(old(Contents()), offset, data) else old(Contents())
      ensures changeCount == old(changeCount) + if offset < size && 0 < |data| <= size - offset then 1 else 0
    {
      hide Flat, ItemsKept, BlocksOwned, ItemsIntact, ItemsApart, Sized, CountDirty, Known, Spliced;
      KeptRefl(heap);
      if offset >= size || |data| > size - offset {
        return;
      }
      if |data| == 0 {
        SplicedNothing(Contents(), offset);
        assert data == [];
        return;
      }
      ghost var before := Contents();
      SplicedNothing(before, offset);
      var done := 0;
      assert data[..0] == [];
      while done < |data|
        invariant 0 <= done <= |data| && size == old(size) && Valid() && ItemsKept(old(heap), heap)
        invariant changeCount == old(changeCount)
        invariant Contents() == Spliced(before, offset, data[..done])
      {
        var bytes := Min(BLOCK_SIZE - (offset + done) % BLOCK_SIZE, |data| - done);
        ghost var h := heap;
        WriteChunk(offset + done, data[done..done + bytes]);
        KeptTrans(old(heap), h, heap);
        SplicedTwice(before, offset, data[..done], data[done..done + bytes]);
        assert data[..done + bytes] == data[..done] + data[done..done + bytes];
        done := done + bytes;
      }
      assert data[..|data|] == data;
      changeCount := changeCount + 1;
    }

    /** Read one block's share of a range. */
    method ReadChunk(offset: nat, n: nat) returns (chunk: Bytes)
      requires Valid() && 0 < n && offset + n <= size && offset % BLOCK_SIZE + n <= BLOCK_SIZE
      modifies `heap, `nextId
      ensures Valid() && ItemsKept(old(heap), heap) && Contents() == old(Contents())
      ensures chunk == Contents()[offset..offset + n]
    {
      hide CountDirty, Flat, ItemsApart, Known;
      var i := offset / BLOCK_SIZE;
      var at := offset % BLOCK_SIZE;
      ChunkInBlock(size, offset, n);
      match blocks[i] {
        case Zero => chunk := Zeros(n);
        case Ref(item) =>
          BlockFetch(item);
          SameFlat(size, blocks, old(heap), blocks, heap);
          chunk := heap.strings[heap.items[item].data.value].data[at..at + n];
        case Dirty(b) => chunk := heap.strings[b].data[at..at + n];
      }
      FlatChunk(size, blocks, heap, offset, n);
    }

    /** Read bytes inside the file; a range outside it gives nothing. */
    method Read(offset: nat, len: nat) returns (r: Option<Bytes>)
      requires Valid()
      modifies `heap, `nextId
      ensures Valid() && ItemsKept(old(heap), heap) && Contents() == old(Contents())
      ensures r == if (len == 0 && offset <= size) || (offset < size && len <= size - offset)
                   then Some(Contents()[offset..offset + len]) else None
    {
      hide Flat, ItemsKept, BlocksOwned, ItemsIntact, ItemsApart, Sized, CountDirty, Known;
      KeptRefl(heap);
      if len == 0 && offset <= size {
        assert Contents()[offset..offset] == [];
        return Some([]);
      }
      if offset >= size || len > size - offset {
        return None;
      }
      var buf: Bytes := [];
      var done := 0;
      while done < len
        invariant 0 <= done <= len && Valid() && ItemsKept(old(heap), heap) && Contents() == old(Contents())
        invariant buf == Contents()[offset..offset + done]
      {
        var bytes := Min(BLOCK_SIZE - (offset + done) % BLOCK_SIZE, len - done);
        ghost var h := heap;
        var chunk := ReadChunk(offset + done, bytes);
        KeptTrans(old(heap), h, heap);
        Joined(Contents(), offset, offset + done, offset + done + bytes);
        buf := buf + chunk;
        done := done + bytes;
      }
      r := Some(buf);
    }

    /** Hand a private buffer to the log as a new item. */
    method BlockFlush(i: nat) returns (item: Option<nat>)
      requires Valid() && i < |blocks|
      modifies this
      ensures Valid() && unchanged(`size, `changeCount) && ItemsKept(old(heap), heap) && Contents() == old(Contents())
      ensures |blocks| == |old(blocks)| && !blocks[i].Dirty?
      ensures forall k :: 0 <= k < |blocks| && k != i ==> blocks[k] == old(blocks)[k]
      ensures item.Some? == old(blocks)[i].Dirty?
      ensures item.Some? ==> item.value !in old(heap).items && item.value in heap.items && blocks[i] == Ref(item.value)
      ensures item.Some? ==>
        heap.items[item.value] == Item(Some(old(blocks)[i].buf), 1, true, old(BlockData(blocks[i], heap)))
    {
      hide CountDirty, Flat;
      KeptRefl(heap);
      item := None;
      if blocks[i].Dirty? {
        var b := blocks[i].buf;
        BufferHandedOver(blocks, heap, nextId, i);
        CountDirtyUpdate(blocks, i, Ref(nextId));
        heap := heap.(items := heap.items[nextId := Item(Some(b), 1, true, heap.strings[b].data)]);
        blocks := blocks[i := Ref(nextId)];
        item := Some(nextId);
        nextId := nextId + 1;
        cacheDirty := cacheDirty - 1;
        hide ItemsIntact, ItemsApart, Known;
        SameFlat(size, old(blocks), old(heap), blocks, heap);
      }
    }

    /** Flush every block: the file is clean and its bytes are unchanged. */
    method FileFlush() returns (logItems: seq<nat>)
      requires Valid()
      modifies this
      ensures Valid() && size == old(size) && ItemsKept(old(heap), heap) && Contents() == old(Contents())
      ensures forall k :: 0 <= k < |blocks| ==> !blocks[k].Dirty?
      ensures cacheDirty == 0 && |blocks| == |old(blocks)|
      ensures forall k :: 0 <= k < |blocks| && old(blocks)[k].Dirty? ==> blocks[k].Ref? && blocks[k].item in logItems
    {
      hide Flat, ItemsKept, BlocksOwned, ItemsIntact, ItemsApart, Sized, CountDirty, Known;
      KeptRefl(heap);
      logItems := [];
      for i := 0 to |blocks|
        invariant Valid() && size == old(size) && ItemsKept(old(heap), heap) && Contents() == old(Contents())
        invariant |blocks| == |old(blocks)|
        invariant forall k :: 0 <= k < i ==> !blocks[k].Dirty?
        invariant forall k :: i <= k < |blocks| ==> blocks[k] == old(blocks)[k]
        invariant forall k :: 0 <= k < i && old(blocks)[k].Dirty? ==> blocks[k].Ref? && blocks[k].item in logItems
      {
        ghost var h, was, sofar := heap, blocks, logItems;
        var item := BlockFlush(i);
        KeptTrans(old(heap), h, heap);
        if item.Some? {
          logItems := [item.value] + logItems;
          assert logItems[0] == item.value && forall x :: x in sofar ==> x in logItems;
        }
      }
      NoneDirty(blocks);
    }

    /** The log thread is done with an item: unless the item was in the journal
        before, its copy in memory gives way to the one in the file; it is held
        once less. */
    method ItemLogged(i: nat, already: bool)
      requires Valid() && i in heap.items && heap.items[i].data.Some? && heap.items[i].lockCount > 0
      modifies `heap, `nextId
      ensures Valid() && ItemsKept(old(heap), heap) && Contents() == old(Contents())
      ensures heap.items.Keys == old(heap).items.Keys
      ensures forall j :: j in heap.items && j != i ==> heap.items[j] == old(heap).items[j]
      ensures heap.items[i].data.Some? && heap.items[i].lockCount == old(heap).items[i].lockCount - 1
      ensures heap.items[i].located == old(heap).items[i].located
      ensures !already ==>
        heap.items[i].data.value in heap.strings && heap.strings[heap.items[i].data.value].mapped
    {
      hide Flat, ItemsKept, ItemsApart, CountDirty, Known;
      KeptRefl(heap);
      if !already {
        CopyDropped(blocks, heap, nextId, i);
        heap := Heap(Unreferenced(heap.strings, heap.items[i].data.value), heap.items[i := heap.items[i].(data := None)]);
        ghost var h := heap;
        BlockFetch(i);
        KeptTrans(old(heap), h, heap);
      }
      ghost var g := heap;
      HeldLess(blocks, heap, nextId, i);
      heap := heap.(items := heap.items[i := heap.items[i].(lockCount := heap.items[i].lockCount - 1)]);
      KeptTrans(old(heap), g, heap);
      hide ItemsIntact;
      SameFlat(size, blocks, old(heap), blocks, heap);
    }

    /** Forget the in-memory copies of items the log has: of exactly those that
        are blocks of this file, held by nobody and have a place. */
    method DropCached()
      requires Valid()
      modifies `heap
      ensures Valid() && ItemsKept(old(heap), heap) && Contents() == old(Contents())
      ensures heap.items.Keys == old(heap).items.Keys
      ensures forall i :: i in heap.items ==> heap.items[i] == old(heap).items[i].(data := heap.items[i].data)
      ensures forall i :: i in heap.items ==> heap.items[i].data.None? || heap.items[i].data == old(heap).items[i].data
      ensures forall i :: i in heap.items && old(heap).items[i].data.Some? ==>
        (heap.items[i].data.None? <==>
         Ref(i) in blocks && old(heap).items[i].lockCount == 0 && old(heap).items[i].located)
    {
      hide Flat, ItemsKept, ItemsApart, CountDirty, Known;
      KeptRefl(heap);
      assert blocks[..0] == [];
      for k := 0 to |blocks|
        invariant Valid() && ItemsKept(old(heap), heap) && Contents() == old(Contents())
        invariant heap.items.Keys == old(heap).items.Keys
        invariant forall i :: i in heap.items ==> heap.items[i] == Dropped(old(heap).items[i], InFile(blocks[..k], i))
      {
        InFileNext(blocks, k);
        if blocks[k].Ref? {
          var i := blocks[k].item;
          var item := heap.items[i];
          if item.data.Some? && item.lockCount == 0 && item.located {
            ghost var h := heap;
            CopyDropped(blocks, heap, nextId, i);
            heap := Heap(Unreferenced(heap.strings, item.data.value), heap.items[i := item.(data := None)]);
            KeptTrans(old(heap), h, heap);
            hide ItemsIntact;
            SameFlat(size, blocks, h, blocks, heap);
          }
        }
      }
      assert blocks[..|blocks|] == blocks;
      DroppedExact(old(heap).items, heap.items, blocks);
      hide Dropped, InFile, Known, BlocksOwned, ItemsIntact;
    }
  }

  lemma DroppedExact(was: map<nat, Item>, now: map<nat, Item>, blocks: seq<Block>)
    requires now.Keys == was.Keys && forall i :: i in now ==> now[i] == Dropped(was[i], InFile(blocks, i))
    ensures forall i :: i in now ==> now[i] == was[i].(data := now[i].data)
    ensures forall i :: i in now ==> now[i].data.None? || now[i].data == was[i].data
    ensures forall i :: i in now && was[i].data.Some? ==>
      (now[i].data.None? <==> Ref(i) in blocks && was[i].lockCount == 0 && was[i].located)
  {
  }

  predicate InFile(blocks: seq<Block>, i: nat) {
    Ref(i) in blocks
  }

  lemma InFileNext(blocks: seq<Block>, k: nat)
    requires k < |blocks|
    ensures forall i :: InFile(blocks[..k + 1], i) <==> InFile(blocks[..k], i) || blocks[k] == Ref(i)
  {
    assert blocks[..k + 1] == blocks[..k] + [blocks[k]];
  }

  /** An item after the copies of a file's clean blocks have been dropped. */
  function Dropped(item: Item, inFile: bool): (r: Item) {
    if inFile && item.lockCount == 0 && item.located then item.(data := None) else item
  }

  lemma HeldLess(blocks: seq<Block>, heap: Heap, next: nat, i: nat)
    requires Known(heap, next) && BlocksOwned(blocks, heap) && ItemsIntact(blocks, heap) && ItemsApart(heap.items)
    requires i in heap.items && heap.items[i].lockCount > 0
    ensures var heap' := heap.(items := heap.items[i := heap.items[i].(lockCount := heap.items[i].lockCount - 1)]);
      Known(heap', next) && BlocksOwned(blocks, heap') && ItemsIntact(blocks, heap') && ItemsApart(heap'.items)
      && ItemsKept(heap, heap')
      && (forall k :: 0 <= k < |blocks| ==> BlockData(blocks[k], heap') == BlockData(blocks[k], heap))
  {
  }

  lemma Joined(s: Bytes, a: nat, b: nat, c: nat)
    requires a <= b <= c <= |s|
    ensures s[a..b] + s[b..c] == s[a..c]
  {
  }

  /** A range inside one block, read off the block. */
  lemma FlatChunk(size: nat, blocks: seq<Block>, heap: Heap, offset: nat, n: nat)
    requires Represents(size, blocks, heap)
    requires 0 < n && offset + n <= size && offset % BLOCK_SIZE + n <= BLOCK_SIZE
    ensures var i, at := offset / BLOCK_SIZE, offset % BLOCK_SIZE;
      i < |blocks|
      && (blocks[i].Zero? ==> Flat(size, blocks, heap)[offset..offset + n] == Zeros(n))
      && (!blocks[i].Zero? ==>
            at + n <= |BlockData(blocks[i], heap)|
            && Flat(size, blocks, heap)[offset..offset + n] == BlockData(blocks[i], heap)[at..at + n])
  {
    var i, at := offset / BLOCK_SIZE, offset % BLOCK_SIZE;
    ChunkInBlock(size, offset, n);
    forall p | offset <= p < offset + n
      ensures p / BLOCK_SIZE == i && p % BLOCK_SIZE == at + p - offset
    {
    }
  }

  lemma SplicedNothing(s: Bytes, offset: nat)
    requires offset <= |s|
    ensures Spliced(s, offset, []) == s
  {
  }

  lemma ChunkRoom(size: nat, blocks: seq<Block>, heap: Heap, blocks1: seq<Block>, heap1: Heap, i: nat, preserve: bool)
    requires Represents(size, blocks, heap) && BlocksOwned(blocks1, heap1)
    requires i < |blocks| && i * BLOCK_SIZE <= size && Touched(size, blocks, heap, blocks1, heap1, i, preserve)
    requires BlockLen(size, i) == if i < |blocks| - 1 then BLOCK_SIZE else size - i * BLOCK_SIZE
    ensures |blocks1| == |blocks| && blocks1[i].Dirty?
    ensures |BlockData(blocks1[i], heap1)| == BlockLen(size, i)
  {
  }

  function Min(a: nat, b: nat): (m: nat) {
    if a <= b then a else b
  }

  lemma KeptRefl(h: Heap)
    ensures ItemsKept(h, h)
  {
  }

  lemma KeptTrans(a: Heap, b: Heap, c: Heap)
    requires ItemsKept(a, b) && ItemsKept(b, c)
    ensures ItemsKept(a, c)
  {
  }

  lemma ChunkInBlock(size: nat, offset: nat, n: nat)
    requires 0 < n && offset + n <= size && offset % BLOCK_SIZE + n <= BLOCK_SIZE
    ensures var i := offset / BLOCK_SIZE;
      i < BlockCount(size) && offset == i * BLOCK_SIZE + offset % BLOCK_SIZE && i * BLOCK_SIZE <= size
      && offset % BLOCK_SIZE + n <= BlockLen(size, i)
      && BlockLen(size, i) == if i < BlockCount(size) - 1 then BLOCK_SIZE else size - i * BLOCK_SIZE
  {
  }
}
