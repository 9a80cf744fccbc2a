/**
 `Json::BatchAllocator`: pages of equal blocks, and a list of released blocks that is threaded
 through the blocks themselves.
 */
module BatchAllocators {
  import opened Wrappers

  /** The address of a block: a page and the index of the first object in it. */
  datatype Block = Block(batch: Batch, offset: nat)

  /** The word at the start of each block; the owner of a block may write anything there. */
  type Memory = map<Block, Option<Block>>

  class Batch {
    var next: Batch?
    var used: nat
    const end: nat
    /** How many objects the allocated memory holds */
    const capacity: nat

    /** `allocateBatch` */
    constructor (objectsPerPage: nat, objectPerAllocation: nat)
      ensures next == null && used == 0 && end == objectsPerPage && capacity == objectPerAllocation * objectsPerPage
    {
      next := null;
      used := 0;
      end := objectsPerPage;
      capacity := objectPerAllocation * objectsPerPage;
    }
  }

  // ---------------------------------------------------------------- steps of a fixed size

  /** `x` is reached from 0 in steps. */
  predicate IsReached(x: nat, step: nat)
    requires step > 0
  {
    x == 0 || (step <= x && IsReached(x - step, step))
  }

  predicate IsMultiple(x: nat, step: nat) {
    step > 0 && IsReached(x, step)
  }

  lemma MultipleStep(x: nat, step: nat)
    requires IsMultiple(x, step)
    ensures step > 0 && IsMultiple(x + step, step)
  {
  }

  lemma {:induction false} MultipleGap(x: nat, y: nat, step: nat)
    requires IsMultiple(x, step) && IsMultiple(y, step) && x < y
    ensures x + step <= y
  {
    if x > 0 {
      MultipleGap(x - step, y - step, step);
    }
  }

  lemma MultiplesBelow(used: nat, step: nat)
    requires IsMultiple(used, step)
    ensures forall offset: nat :: IsMultiple(offset, step) && offset < used ==> offset + step <= used
  {
    hide IsMultiple;
    forall offset: nat | IsMultiple(offset, step) && offset < used ensures offset + step <= used {
      MultipleGap(offset, used, step);
    }
  }

  lemma CapacityIsEnough(objectsPerPage: nat, step: nat)
    requires step > 0
    ensures objectsPerPage <= step * objectsPerPage && IsMultiple(0, step)
  {
    assert step * objectsPerPage >= 1 * objectsPerPage;
  }

  /** Two blocks at different multiples of the size of a block share no object. */
  lemma DifferentBlocksAreApart(a: Block, b: Block, step: nat)
    requires IsMultiple(a.offset, step) && IsMultiple(b.offset, step) && a != b
    ensures a.batch == b.batch ==> a.offset + step <= b.offset || b.offset + step <= a.offset
  {
    hide IsMultiple;
    if a.offset < b.offset {
      MultipleGap(a.offset, b.offset, step);
    } else if b.offset < a.offset {
      MultipleGap(b.offset, a.offset, step);
    }
  }

  // ---------------------------------------------------------------- the list of released blocks

  /** From `head` on the words of the blocks lead through `list` to the end. */
  ghost predicate Threaded(memory: Memory, head: Option<Block>, list: seq<Block>)
    decreases |list|
  {
    if list == [] then head == None
    else head == Some(list[0]) && list[0] in memory && Threaded(memory, memory[list[0]], list[1..])
  }

  ghost predicate Unique(list: seq<Block>)
    decreases |list|
  {
    list != [] ==> list[0] !in list[1..] && Unique(list[1..])
  }

  /** A write to a block that is not in the list */
  lemma {:induction false} ThreadedElsewhere(memory: Memory, head: Option<Block>, list: seq<Block>, b: Block,
                                             word: Option<Block>)
    requires Threaded(memory, head, list) && b !in list
    ensures Threaded(memory[b := word], head, list)
    decreases |list|
  {
    if list != [] {
      assert list[0] != b;
      ThreadedElsewhere(memory, memory[list[0]], list[1..], b, word);
    }
  }

  /** Every block that was handed out is either in use or released, never both. */
  ghost predicate Partition(carved: set<Block>, live: set<Block>, free: seq<Block>) {
    && live <= carved
    && (forall b :: b in free ==> b in carved && b !in live)
    && (forall b :: b in carved ==> b in live || b in free)
  }

  lemma PopKeepsPartition(carved: set<Block>, live: set<Block>, free: seq<Block>)
    requires Partition(carved, live, free) && Unique(free) && free != []
    ensures free[0] in carved && free[0] !in live
    ensures Partition(carved, live + {free[0]}, free[1..]) && Unique(free[1..])
  {
    assert free == [free[0]] + free[1..];
  }

  lemma PushKeepsPartition(carved: set<Block>, live: set<Block>, free: seq<Block>, b: Block)
    requires Partition(carved, live, free) && Unique(free) && b in live
    ensures b !in free && Partition(carved, live - {b}, [b] + free) && Unique([b] + free)
  {
    assert ([b] + free)[1..] == free;
  }

  lemma CarveKeepsPartition(carved: set<Block>, live: set<Block>, free: seq<Block>, b: Block)
    requires Partition(carved, live, free) && b !in carved
    ensures b !in live && Partition(carved + {b}, live + {b}, free)
  {
  }

  // ---------------------------------------------------------------- the allocator

  class BatchAllocator {
    const objectPerAllocation: nat
    const objectsPerPage: nat
    var batches: Batch
    var currentBatch: Batch
    var freeHead: Option<Block>
    var memory: Memory
    /** The pages in the order of their list, and all blocks that were handed out some time */
    ghost var pages: seq<Batch>
    ghost var carved: set<Block>
    /** The blocks in use, and the released ones in the order of their list */
    ghost var live: set<Block>
    ghost var free: seq<Block>

    ghost function Pages(): set<Batch>
      reads this`pages
    {
      set p | p in pages
    }

    /** The current page is the first one, and all others are full. */
    ghost predicate PagesValid()
      reads this`pages, this`batches, this`currentBatch, Pages()
    {
      && objectsPerPage > 0 && objectPerAllocation > 0
      && pages != [] && batches == pages[0] && currentBatch == batches
      && (forall i, j :: 0 <= i < j < |pages| ==> pages[i] != pages[j])
      && (forall i :: 0 <= i < |pages| - 1 ==> pages[i].next == pages[i + 1])
      && pages[|pages| - 1].next == null
      && (forall i :: 0 <= i < |pages| ==> PageValid(pages[i]))
      && (forall i :: 0 < i < |pages| ==> pages[i].used == pages[i].end)
    }

    /** The size of a block divides the size of a page. */
    predicate Divides() {
      IsMultiple(objectsPerPage, objectPerAllocation)
    }

    /** The used part of a page stays in front of its end if it can meet it. */
    ghost predicate PageValid(p: Batch)
      reads p
    {
      && p.end <= p.capacity && IsMultiple(p.used, objectPerAllocation)
      && (Divides() ==> p.used <= p.end && IsMultiple(p.end, objectPerAllocation))
    }

    /** A block was handed out if it lies in the used part of a page. */
    ghost predicate IsCarved(b: Block)
      reads b.batch
    {
      IsMultiple(b.offset, objectPerAllocation) && b.offset + objectPerAllocation <= b.batch.used
    }

    ghost predicate CarvedValid()
      reads this`pages, this`carved, Pages()
    {
      && (forall b :: b in carved ==> b.batch in pages && IsCarved(b))
      && (forall p, offset: nat :: p in pages && IsCarved(Block(p, offset)) ==> Block(p, offset) in carved)
    }

    ghost predicate FreeValid()
      reads this`freeHead, this`memory, this`free
    {
      Threaded(memory, freeHead, free) && Unique(free)
    }

    ghost predicate Valid()
      reads this, Pages()
    {
      PagesValid() && CarvedValid() && FreeValid() && Partition(carved, live, free)
    }

    constructor (objectPerAllocation: nat, objectsPerPage: nat)
      requires objectsPerPage >= 16 && objectPerAllocation > 0
      ensures Valid() && live == {} && free == [] && fresh(Pages())
      ensures currentBatch.used == currentBatch.end
      ensures this.objectPerAllocation == objectPerAllocation && this.objectsPerPage == objectsPerPage
    {
      this.objectPerAllocation := objectPerAllocation;
      this.objectsPerPage := objectsPerPage;
      var first := new Batch(0, objectPerAllocation);
      batches := first;
      currentBatch := first;
      freeHead := None;
      memory := map[];
      pages := [first];
      carved := {};
      live := {};
      free := [];
    }

    /** A block that nobody uses, inside a page; pages are touched only if no block was released. */
    method Allocate() returns (block: Block)
      requires Valid()
      modifies this, Pages()
      ensures Valid() && fresh(Pages() - old(Pages())) && old(Pages()) <= Pages()
      ensures block !in old(live) && live == old(live) + {block}
      ensures block.batch in pages && (Divides() ==> block.offset + objectPerAllocation <= block.batch.capacity)
      ensures if old(free) != [] then block == old(free)[0] && free == old(free)[1..] && pages == old(pages)
              else free == [] && block.batch == currentBatch && block.offset + objectPerAllocation == currentBatch.used
      ensures old(free) == [] && old(currentBatch.used != currentBatch.end) ==>
                pages == old(pages) && currentBatch == old(currentBatch) && block.offset == old(currentBatch.used)
      ensures old(free) == [] && old(currentBatch.used == currentBatch.end) ==>
                && pages == [currentBatch] + old(pages) && block.offset == 0
                && currentBatch.end == objectsPerPage && currentBatch.capacity == objectPerAllocation * objectsPerPage
      ensures memory == old(memory)
    {
      hide Partition, IsMultiple, Divides;
      if freeHead.Some? {
        block := PopFree();
        return;
      }
      FreeIsEmpty();
      if currentBatch.used == currentBatch.end {
        NextPage();
      }
      block := Carve();
    }

    lemma FreeIsEmpty()
      requires FreeValid()
      ensures freeHead.None? <==> free == []
    {
    }

    /** Takes the first released block. */
    method PopFree() returns (block: Block)
      requires Valid() && freeHead.Some?
      modifies this`freeHead, this`free, this`live
      ensures Valid()
      ensures old(free) != [] && block == old(free)[0] && free == old(free)[1..] && live == old(live) + {block}
              && block !in old(live)
      ensures block in carved
    {
      hide IsMultiple, Partition;
      PopKeepsPartition(carved, live, free);
      block := freeHead.value;
      freeHead := memory[block];
      free := free[1..];
      live := live + {block};
    }

    /** Looks for a page with room behind the current one; there is none, and one is added at the head. */
    method NextPage()
      requires Valid() && currentBatch.used == currentBatch.end
      modifies this`currentBatch, this`batches, this`pages
      ensures Valid() && pages == [batches] + old(pages) && fresh(batches)
      ensures batches.used == 0 && batches.end == objectsPerPage
      ensures batches.capacity == objectPerAllocation * objectsPerPage
    {
      hide IsMultiple, Partition;
      var current := currentBatch.next;
      ghost var i := 1;
      while current != null && current.used == current.end
        invariant i <= |pages| && current == (if i < |pages| then pages[i] else null)
        decreases |pages| - i
      {
        current := current.next;
        i := i + 1;
      }
      if current == null {
        var page := new Batch(objectsPerPage, objectPerAllocation);
        AddPage(page);
      }
    }

    /** Inserts a page at the head of the list. */
    method AddPage(page: Batch)
      requires Valid() && page !in pages && currentBatch.used == currentBatch.end
      requires page.used == 0 && page.end == objectsPerPage && page.capacity == objectPerAllocation * objectsPerPage
      modifies this`currentBatch, this`batches, this`pages, page`next
      ensures Valid() && pages == [page] + old(pages) && batches == page
    {
      hide IsMultiple, Partition;
      CapacityIsEnough(objectsPerPage, objectPerAllocation);
      currentBatch := page;
      currentBatch.next := batches;
      batches := currentBatch;
      pages := [page] + pages;
      NothingCarved(page);
    }

    lemma NothingCarved(page: Batch)
      requires page.used == 0
      ensures forall offset: nat :: !IsCarved(Block(page, offset))
    {
    }

    lemma RoomForBlock(used: nat, end: nat)
      requires IsMultiple(used, objectPerAllocation) && used != end
      requires Divides() ==> used <= end && IsMultiple(end, objectPerAllocation)
      ensures Divides() ==> used + objectPerAllocation <= end
    {
      hide IsMultiple;
      if Divides() {
        MultipleGap(used, end, objectPerAllocation);
      }
    }

    /** Moves the used part of the current page behind one more block. */
    method Advance()
      requires PagesValid() && currentBatch.used != currentBatch.end
      modifies currentBatch`used
      ensures PagesValid() && currentBatch.used == old(currentBatch.used) + objectPerAllocation
    {
      hide IsMultiple, Divides;
      MultipleStep(currentBatch.used, objectPerAllocation);
      RoomForBlock(currentBatch.used, currentBatch.end);
      currentBatch.used := currentBatch.used + objectPerAllocation;
    }

    /** The next block of the current page */
    method Carve() returns (block: Block)
      requires Valid() && currentBatch.used != currentBatch.end
      modifies this`carved, this`live, currentBatch`used
      ensures Valid() && live == old(live) + {block} && block !in old(live) && block !in old(carved)
      ensures currentBatch.used == old(currentBatch.used) + objectPerAllocation
      ensures block == Block(currentBatch, old(currentBatch.used)) && carved == old(carved) + {block}
    {
      hide IsMultiple, Partition, Divides;
      block := Block(currentBatch, currentBatch.used);
      CarveKeepsPartition(carved, live, free, block);
      Advance();
      MultiplesBelow(currentBatch.used, objectPerAllocation);
      carved := carved + {block};
      live := live + {block};
      forall p, offset: nat | p in pages && IsCarved(Block(p, offset)) ensures Block(p, offset) in carved {
        if Block(p, offset) != block {
          if p == currentBatch {
            OffsetBelow(offset, old(currentBatch.used));
          }
          assert old(IsCarved(Block(p, offset)));
        }
      }
    }

    /** A block that ends in front of one more block is that block or ends in front of it. */
    lemma OffsetBelow(offset: nat, used: nat)
      requires IsMultiple(offset, objectPerAllocation) && IsMultiple(used, objectPerAllocation)
      requires offset + objectPerAllocation <= used + objectPerAllocation
      ensures offset == used || offset + objectPerAllocation <= used
    {
      hide IsMultiple;
      if offset < used {
        MultipleGap(offset, used, objectPerAllocation);
      }
    }

    /** Puts a block that is in use at the head of the list; its own memory holds the link. */
    method Release(block: Block)
      requires Valid() && block in live
      modifies this`memory, this`freeHead, this`free, this`live
      ensures Valid()
      ensures free == [block] + old(free) && live == old(live) - {block}
              && memory == old(memory)[block := old(freeHead)]
    {
      hide IsMultiple, Partition;
      PushKeepsPartition(carved, live, free, block);
      ThreadedElsewhere(memory, freeHead, free, block, freeHead);
      memory := memory[block := freeHead];
      freeHead := Some(block);
      free := [block] + free;
      live := live - {block};
      assert free[1..] == old(free);
    }

    /** The owner of a block writes to it; whatever that is, the allocator is not affected. */
    method Write(block: Block, word: Option<Block>)
      requires Valid() && block in live
      modifies this`memory
      ensures Valid() && memory == old(memory)[block := word]
    {
      hide IsMultiple;
      ThreadedElsewhere(memory, freeHead, free, block, word);
      memory := memory[block := word];
    }

    /** Blocks in use lie inside their pages and share no object. */
    lemma LiveBlocksAreApart(a: Block, b: Block)
      requires Valid() && a in live && b in live
      ensures a.batch in pages && a.offset + objectPerAllocation <= a.batch.used
      ensures Divides() ==> a.batch.used <= a.batch.capacity
      ensures a != b && a.batch == b.batch ==>
                a.offset + objectPerAllocation <= b.offset || b.offset + objectPerAllocation <= a.offset
    {
      hide IsMultiple;
      if a != b {
        DifferentBlocksAreApart(a, b, objectPerAllocation);
      }
    }

    /** A released block shares no object with a block in use, so that its link is safe. */
    lemma FreeBlocksAreApart(a: Block, b: Block)
      requires Valid() && a in live && b in free
      ensures a.batch == b.batch ==>
                a.offset + objectPerAllocation <= b.offset || b.offset + objectPerAllocation <= a.offset
    {
      hide IsMultiple;
      DifferentBlocksAreApart(a, b, objectPerAllocation);
    }
  }

  // ---------------------------------------------------------------- pages that blocks do not divide

  /** Whether a fresh page is found full before block number `n` is taken from it. */
  predicate FoundFull(objectsPerPage: nat, step: nat, n: nat) {
    exists m :: 0 <= m <= n && m * step == objectsPerPage
  }

  lemma {:induction false} MultipleHasCount(x: nat, step: nat) returns (k: nat)
    requires IsMultiple(x, step)
    ensures k * step == x
  {
    if x == 0 {
      k := 0;
    } else {
      k := MultipleHasCount(x - step, step);
      k := k + 1;
    }
  }

  lemma {:induction false} CountIsMultiple(k: nat, step: nat)
    requires step > 0
    ensures IsMultiple(k * step, step)
  {
    if k > 0 {
      CountIsMultiple(k - 1, step);
      assert k * step == (k - 1) * step + step;
      MultipleStep((k - 1) * step, step);
    }
  }

  lemma ProductGrows(m: nat, n: nat, step: nat)
    requires m < n
    ensures (m + 1) * step <= n * step
  {
    assert n * step == (m + 1) * step + (n - m - 1) * step;
  }

  /**
   The page is left when its used part equals the page size. All blocks stay inside the memory
   of the page exactly if the block size divides the page size.
   */
  lemma BlocksStayInsideIff(objectsPerPage: nat, step: nat)
    requires step > 0 && objectsPerPage > 0
    ensures (forall n: nat :: !FoundFull(objectsPerPage, step, n) ==> (n + 1) * step <= step * objectsPerPage)
            <==> IsMultiple(objectsPerPage, step)
  {
    if IsMultiple(objectsPerPage, step) {
      var k := MultipleHasCount(objectsPerPage, step);
      forall n: nat | !FoundFull(objectsPerPage, step, n) ensures (n + 1) * step <= step * objectsPerPage {
        assert n < k by {
          assert k <= n ==> FoundFull(objectsPerPage, step, n);
        }
        ProductGrows(n, k, step);
        CapacityIsEnough(objectsPerPage, step);
      }
    } else {
      var n := objectsPerPage;
      if FoundFull(objectsPerPage, step, n) {
        var m :| 0 <= m <= n && m * step == objectsPerPage;
        CountIsMultiple(m, step);
      }
      assert (n + 1) * step == step * objectsPerPage + step;
    }
  }

  /**
   Blocks that do not divide the page: the first page with room is never full, and a block behind its memory
   is handed out.
   */
  method RunOver(objectPerAllocation: nat, objectsPerPage: nat) returns (a: BatchAllocator, block: Block)
    requires objectsPerPage >= 16 && objectPerAllocation > 0 && !IsMultiple(objectsPerPage, objectPerAllocation)
    ensures fresh(a) && a.Valid() && a.objectPerAllocation == objectPerAllocation && a.objectsPerPage == objectsPerPage
    ensures block in a.live && block.offset >= block.batch.capacity
  {
    hide IsMultiple;
    a := new BatchAllocator(objectPerAllocation, objectsPerPage);
    block := a.Allocate();
    var n := 1;
    while n <= objectsPerPage
      invariant 1 <= n <= objectsPerPage + 1
      invariant a.Valid() && fresh(a) && fresh(a.Pages()) && a.free == [] && block in a.live
      invariant a.objectPerAllocation == objectPerAllocation && a.objectsPerPage == objectsPerPage
      invariant block.batch == a.currentBatch && a.currentBatch.end == objectsPerPage
      invariant a.currentBatch.capacity == objectPerAllocation * objectsPerPage
      invariant block.offset + objectPerAllocation == a.currentBatch.used == n * objectPerAllocation
    {
      CountIsMultiple(n, objectPerAllocation);
      OneMore(n, objectPerAllocation);
      block := a.Allocate();
      n := n + 1;
    }
    OneMore(objectsPerPage, objectPerAllocation);
  }

  lemma OneMore(n: nat, step: nat)
    ensures (n + 1) * step == n * step + step
    ensures n * step == step * n
  {
  }

  lemma OddPageSize()
    ensures !IsMultiple(255, 2)
  {
    if IsMultiple(255, 2) {
      var k := MultipleHasCount(255, 2);
    }
  }

  /** With the default page size of 255 objects and blocks of two objects */
  method RunOverDefaultPage() returns (a: BatchAllocator, block: Block)
    ensures fresh(a) && a.Valid() && a.objectPerAllocation == 2 && a.objectsPerPage == 255
    ensures block in a.live && block.offset >= block.batch.capacity
  {
    OddPageSize();
    a, block := RunOver(2, 255);
  }
}
