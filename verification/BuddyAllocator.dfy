/**
 * Blocks of pages: block number i of order k is the aligned run of 2^k pages starting at i << k.
 */
module BuddyBlocks {
  import opened Words

  /** x >> k: the number of the order-k block that holds page x. */
  function BlockOf(x: nat, k: nat): nat
  {
    if k == 0 then x else BlockOf(x, k - 1) / 2
  }

  /** i << k: the first page of block i of order k. */
  function First(i: nat, k: nat): nat
  {
    if k == 0 then i else 2 * First(i, k - 1)
  }

  /** The pages of block i of order k. */
  function Pages(i: nat, k: nat): (s: set<nat>)
    ensures forall x :: x in s <==> BlockOf(x, k) == i
    decreases k
  {
    if k == 0 then {i} else Pages(2 * i, k - 1) + Pages(2 * i + 1, k - 1)
  }

  lemma {:induction false} FirstPage(i: nat, k: nat)
    ensures BlockOf(First(i, k), k) == i
    ensures First(2 * i, k) == First(i, k + 1)
    ensures First(i + 1, k) == First(i, k) + Pow2(k)
    ensures First(i, k) in Pages(i, k)
    decreases k
  {
    if k > 0 {
      FirstPage(i, k - 1);
      FirstPage(2 * i, k - 1);
    }
  }

  lemma {:induction false} FirstIsShift(i: nat, k: nat)
    ensures First(i, k) == i * Pow2(k)
  {
    if k > 0 { FirstIsShift(i, k - 1); }
  }

  /** Pages and BlockOf say in bits what a block is: a run of 2^k pages. */
  lemma {:induction false} BlockIsRun(x: nat, i: nat, k: nat)
    ensures x in Pages(i, k) <==> First(i, k) <= x < First(i, k) + Pow2(k)
    decreases k
  {
    if k > 0 {
      BlockIsRun(x, 2 * i, k - 1);
      BlockIsRun(x, 2 * i + 1, k - 1);
      FirstPage(2 * i, k - 1);
      FirstPage(i, k - 1);
    }
  }

  lemma {:induction false} BlockOfBlock(x: nat, j: nat, k: nat)
    requires j <= k
    ensures BlockOf(BlockOf(x, j), k - j) == BlockOf(x, k)
  {
    if j < k { BlockOfBlock(x, j, k - 1); }
  }

  lemma Parent(i: nat, k: nat)
    requires k > 0
    ensures BlockOf(i / 2, k - 1) == BlockOf(i, k)
  {
    BlockOfBlock(i, 1, k);
  }

  /** A block is free when every page of an aligned run of 2^k pages is. */
  lemma RunIsFree(free: set<nat>, i: nat, k: nat)
    ensures Pages(i, k) <= free <==> forall x: nat :: i * Pow2(k) <= x < i * Pow2(k) + Pow2(k) ==> x in free
  {
    FirstIsShift(i, k);
    forall x: nat ensures x in Pages(i, k) <==> i * Pow2(k) <= x < i * Pow2(k) + Pow2(k) { BlockIsRun(x, i, k); }
    hide Pages, First, BlockOf, Pow2;
  }

  /** A page is aligned when it starts such a run. */
  lemma AlignedRun(p: nat, k: nat)
    ensures Aligned(p, k) <==> p == BlockOf(p, k) * Pow2(k)
    ensures BlockOf(p, k) * Pow2(k) <= p < BlockOf(p, k) * Pow2(k) + Pow2(k)
  {
    FirstIsShift(BlockOf(p, k), k);
    BlockIsRun(p, BlockOf(p, k), k);
    hide Pow2, First;
  }

  predicate Aligned(p: nat, k: nat) { p == First(BlockOf(p, k), k) }

  /** The other half of a pair. */
  function Buddy(i: nat): nat { if i % 2 == 0 then i + 1 else i - 1 }

  lemma Halves(i: nat, k: nat)
    ensures Pages(i / 2, k + 1) == Pages(i, k) + Pages(Buddy(i), k)
    ensures Pages(i, k) !! Pages(Buddy(i), k)
  {
  }
}

/** What the free lists and bitmaps must hold, as a function of the set of free pages. */
module BuddySpec {
  import opened Words
  import opened BuddyBlocks

  const MAX_ORDER: nat := 11

  ghost predicate BlockFree(free: set<nat>, i: nat, k: nat) { Pages(i, k) <= free }

  /** Block i is a maximal free block: it is listed at order k. */
  ghost predicate Listed(free: set<nat>, i: nat, k: nat) {
    BlockFree(free, i, k) && (k == MAX_ORDER - 1 || !BlockFree(free, i / 2, k + 1))
  }

  /** The bitmap bit of pair nr: the XOR of the two halves' listed states. */
  ghost predicate PairBit(free: set<nat>, nr: nat, k: nat) {
    Listed(free, 2 * nr, k) != Listed(free, 2 * nr + 1, k)
  }

  lemma BlockNotEmpty(free: set<nat>, i: nat, k: nat)
    requires BlockFree(free, i, k)
    ensures First(i, k) in free
  {
    FirstPage(i, k);
  }

  /** Nested free blocks: part of a free block is free. */
  lemma {:induction false} PartIsFree(free: set<nat>, i: nat, j: nat, k: nat)
    requires j <= k && BlockFree(free, BlockOf(i, k - j), k)
    ensures BlockFree(free, i, j)
  {
    forall x | x in Pages(i, j) ensures x in free {
      BlockOfBlock(x, j, k);
    }
  }

  /** Taking away a listed block changes which blocks are free only for the blocks meeting it, none of which was
      listed. */
  lemma {:induction false} RemoveListed(free: set<nat>, b: nat, k: nat, i: nat, j: nat)
    requires k < MAX_ORDER && j < MAX_ORDER && Listed(free, b, k)
    ensures Listed(free - Pages(b, k), i, j) <==> Listed(free, i, j) && !(j == k && i == b)
  {
    hide Pages, First, BlockFree;
    FreeAfterRemoval(free, b, k, i, j);
    if j + 1 < MAX_ORDER {
      FreeAfterRemoval(free, b, k, i / 2, j + 1);
    }
    if j < k {
      Parent(i, k - j);
      if BlockOf(i, k - j) == b { PartIsFree(free, i / 2, j + 1, k); }
    }
  }

  /** A block that meets the removed one is inside it, or contains it and was not free. */
  lemma FreeAfterRemoval(free: set<nat>, b: nat, k: nat, i: nat, j: nat)
    requires k < MAX_ORDER && j < MAX_ORDER && Listed(free, b, k)
    ensures BlockFree(free - Pages(b, k), i, j) <==>
            BlockFree(free, i, j) && !(j <= k && BlockOf(i, k - j) == b)
  {
    hide Pages, BlockOf, First;
    if j <= k && BlockOf(i, k - j) == b {
      assert First(i, j) in Pages(i, j) && First(i, j) in Pages(b, k) by {
        FirstPage(i, j);
        BlockOfBlock(First(i, j), j, k);
      }
    } else if j > k && BlockOf(b, j - k) == i {
      if BlockFree(free, i, j) {
        Parent(b, j - k);
        PartIsFree(free, b / 2, k + 1, j);
      }
    } else {
      Apart(i, j, b, k);
    }
  }

  lemma Apart(i: nat, j: nat, b: nat, k: nat)
    requires if j <= k then BlockOf(i, k - j) != b else BlockOf(b, j - k) != i
    ensures Pages(i, j) !! Pages(b, k)
  {
    forall x | x in Pages(i, j) ensures x !in Pages(b, k) {
      if j <= k { BlockOfBlock(x, j, k); } else { BlockOfBlock(x, k, j); }
    }
  }

  /** Some listed block of order k or more covers every free block of order k. */
  lemma {:induction false} CoveringBlock(free: set<nat>, i: nat, k: nat) returns (i': nat, k': nat)
    requires k < MAX_ORDER && BlockFree(free, i, k)
    ensures k <= k' < MAX_ORDER && Listed(free, i', k')
    decreases MAX_ORDER - k
  {
    if Listed(free, i, k) {
      i', k' := i, k;
    } else {
      i', k' := CoveringBlock(free, i / 2, k + 1);
    }
  }

  /** Below the top order no two buddies are both listed. */
  lemma BuddiesNotBothListed(free: set<nat>, i: nat, k: nat)
    requires k < MAX_ORDER - 1 && Listed(free, i, k)
    ensures !Listed(free, Buddy(i), k)
  {
    Halves(i, k);
  }

  /** Listed blocks are pairwise disjoint. */
  lemma ListedDisjoint(free: set<nat>, i: nat, j: nat, b: nat, k: nat)
    requires j < MAX_ORDER && k < MAX_ORDER && Listed(free, i, j) && Listed(free, b, k)
    requires !(i == b && j == k)
    ensures Pages(i, j) !! Pages(b, k)
  {
    RemoveListed(free, b, k, i, j);
    assert Pages(i, j) <= free - Pages(b, k);
  }
}

/** The allocator itself: per-order free lists and one bitmap bit per pair of buddies. */
module PageAlloc {
  import opened Words
  import opened BuddyBlocks
  import opened BuddySpec
  import opened Lists

  /** Every list holds exactly the first pages of the listed blocks of its order. */
  ghost predicate ListsMatch(lists: seq<seq<nat>>, free: set<nat>) {
    && |lists| == MAX_ORDER
    && forall k :: 0 <= k < MAX_ORDER ==> NoDup(lists[k]) && ListMatches(lists[k], free, k)
  }

  ghost predicate ListMatches(list: seq<nat>, free: set<nat>, k: nat) {
    forall p :: p in list <==> Aligned(p, k) && Listed(free, BlockOf(p, k), k)
  }

  /** Every bit is the XOR of its two buddies, except that the bit of pair enr at order ek is inverted. */
  ghost predicate BitsMatch(bits: seq<seq<bool>>, free: set<nat>, ek: nat, enr: nat) {
    && |bits| == MAX_ORDER
    && forall k, nr :: 0 <= k < MAX_ORDER && 0 <= nr < |bits[k]| ==>
         (bits[k][nr] <==> (PairBit(free, nr, k) != (k == ek && nr == enr)))
  }

  function Toggle(bits: seq<seq<bool>>, k: nat, nr: nat): seq<seq<bool>>
    requires k < |bits| && nr < |bits[k]|
  {
    bits[k := bits[k][nr := !bits[k][nr]]]
  }

  lemma ToggleFixes(bits: seq<seq<bool>>, free: set<nat>, k: nat, nr: nat)
    requires k < MAX_ORDER == |bits| && nr < |bits[k]| && BitsMatch(bits, free, k, nr)
    ensures BitsMatch(Toggle(bits, k, nr), free, MAX_ORDER, 0)
  {
  }

  /** The two page sets list the same blocks, except that only one of them lists block b of order k. */
  ghost predicate DifferByBlock(free: set<nat>, free': set<nat>, b: nat, k: nat) {
    forall i: nat, j: nat :: j < MAX_ORDER ==>
      (Listed(free', i, j) <==> (Listed(free, i, j) != (j == k && i == b)))
  }

  lemma PairBitsDiffer(free: set<nat>, free': set<nat>, b: nat, k: nat, nr: nat, j: nat)
    requires j < MAX_ORDER && DifferByBlock(free, free', b, k)
    ensures PairBit(free', nr, j) <==> (PairBit(free, nr, j) != (j == k && nr == b / 2))
  {
    hide Listed;
    assert Listed(free', 2 * nr, j) <==> (Listed(free, 2 * nr, j) != (j == k && 2 * nr == b));
    assert Listed(free', 2 * nr + 1, j) <==> (Listed(free, 2 * nr + 1, j) != (j == k && 2 * nr + 1 == b));
  }

  /** Listing or unlisting one block makes one right bit wrong, or one wrong bit right. */
  lemma BitGoesStale(bits: seq<seq<bool>>, free: set<nat>, free': set<nat>, b: nat, k: nat)
    requires k < MAX_ORDER && DifferByBlock(free, free', b, k)
    ensures BitsMatch(bits, free, MAX_ORDER, 0) ==> BitsMatch(bits, free', k, b / 2)
    ensures BitsMatch(bits, free, k, b / 2) ==> BitsMatch(bits, free', MAX_ORDER, 0)
  {
    hide DifferByBlock, PairBit;
    forall nr: nat, j: nat | j < MAX_ORDER
      ensures PairBit(free', nr, j) <==> (PairBit(free, nr, j) != (j == k && nr == b / 2))
    {
      PairBitsDiffer(free, free', b, k, nr, j);
    }
  }

  lemma RemovalDiffers(free: set<nat>, b: nat, k: nat)
    requires k < MAX_ORDER && Listed(free, b, k)
    ensures DifferByBlock(free, free - Pages(b, k), b, k)
    ensures DifferByBlock(free - Pages(b, k), free, b, k)
  {
    hide Pages;
    forall i: nat, j: nat | j < MAX_ORDER
      ensures Listed(free - Pages(b, k), i, j) <==> Listed(free, i, j) && !(j == k && i == b)
    {
      RemoveListed(free, b, k, i, j);
    }
  }

  /** Unlinking a listed block. */
  lemma RemoveBlock(lists: seq<seq<nat>>, bits: seq<seq<bool>>, free: set<nat>, p: nat, k: nat)
    requires k < MAX_ORDER && ListsMatch(lists, free) && p in lists[k]
    ensures var free' := free - Pages(BlockOf(p, k), k);
      && ListsMatch(lists[k := Remove(lists[k], p)], free')
      && (BitsMatch(bits, free, MAX_ORDER, 0) ==> BitsMatch(bits, free', k, BlockOf(p, k + 1)))
      && (BitsMatch(bits, free, k, BlockOf(p, k + 1)) ==> BitsMatch(bits, free', MAX_ORDER, 0))
  {
    hide Pages, First, Listed, BitsMatch;
    var b := BlockOf(p, k);
    assert Listed(free, b, k);
    Removed(lists[k], p);
    RemovalDiffers(free, b, k);
    BitGoesStale(bits, free, free - Pages(b, k), b, k);
  }

  /** Linking a block whose buddy is not free. */
  lemma AddBlock(lists: seq<seq<nat>>, bits: seq<seq<bool>>, free: set<nat>, p: nat, k: nat)
    requires k < MAX_ORDER && Aligned(p, k) && ListsMatch(lists, free)
    requires Pages(BlockOf(p, k), k) !! free
    requires k == MAX_ORDER - 1 || !BlockFree(free, Buddy(BlockOf(p, k)), k)
    ensures var free' := free + Pages(BlockOf(p, k), k);
      && ListsMatch(lists[k := lists[k] + [p]], free')
      && (BitsMatch(bits, free, MAX_ORDER, 0) ==> BitsMatch(bits, free', k, BlockOf(p, k + 1)))
      && (BitsMatch(bits, free, k, BlockOf(p, k + 1)) ==> BitsMatch(bits, free', MAX_ORDER, 0))
  {
    hide Pages, First, Listed, BitsMatch;
    var b := BlockOf(p, k);
    var free' := free + Pages(b, k);
    BecomesListed(free, b, k);
    RemovalDiffers(free', b, k);
    assert free' - Pages(b, k) == free;
    BitGoesStale(bits, free, free', b, k);
    assert p !in lists[k];
    Appended(lists[k], p);
  }

  lemma BecomesListed(free: set<nat>, b: nat, k: nat)
    requires Pages(b, k) !! free
    requires k == MAX_ORDER - 1 || !BlockFree(free, Buddy(b), k)
    ensures Listed(free + Pages(b, k), b, k) && !Listed(free, b, k)
  {
    FirstPage(b, k);
    Halves(b, k);
  }

  /** Bits in the bitmap of order k: max_pfn >> (k + 1), rounded up to a multiple of 32. */
  function BitmapBits(maxPfn: nat, k: nat): nat { (BlockOf(maxPfn, k + 1) + 31) / 32 * 32 }

  /** The pair number of page p lies inside every bitmap, as alloc_pages and free_pages assert. */
  ghost predicate Covered(maxPfn: nat, p: nat) {
    p < maxPfn && forall k :: 0 <= k < MAX_ORDER ==> PairInside(maxPfn, p, k)
  }

  ghost predicate PairInside(maxPfn: nat, p: nat, k: nat) {
    BlockOf(p, k + 1) < BitmapBits(maxPfn, k)
  }

  class PageAllocator {
    const maxPfn: nat
    var freeList: seq<seq<nat>>   // per order, first pages of the free blocks, oldest first
    var bitmap: seq<seq<bool>>    // per order, one bit per pair of buddies
    var count: map<nat, nat>      // reference counts of single pages
    ghost var free: set<nat>
    ghost var inUse: set<nat> // pages in the hands of callers

    ghost predicate Valid()
      reads this
    {
      && ListsMatch(freeList, free)
      && BitsMatch(bitmap, free, MAX_ORDER, 0)
      && (forall k :: 0 <= k < MAX_ORDER ==> |bitmap[k]| == BitmapBits(maxPfn, k))
      && free !! inUse
      && forall p :: p in free + inUse ==> Covered(maxPfn, p)
    }

    /** Before page_alloc_init hands them over, all managed pages belong to the boot code. */
    constructor (maxPfn: nat, ghost managed: set<nat>)
      requires forall p :: p in managed ==> Covered(maxPfn, p)
      ensures Valid() && this.maxPfn == maxPfn && free == {} && inUse == managed
    {
      this.maxPfn := maxPfn;
      freeList := seq(MAX_ORDER, _ => []);
      bitmap := seq(MAX_ORDER, k requires 0 <= k < MAX_ORDER => seq(BitmapBits(maxPfn, k), _ => false));
      count := map[];
      free, inUse := {}, managed;
      forall i: nat, k: nat ensures !Listed({}, i, k) { FirstPage(i, k); }
    }

    /** Takes a block of 2^order pages, splitting the smallest listed block that is big enough. */
    method AllocPages(order: nat) returns (page: Option<nat>)
      requires Valid() && order < MAX_ORDER
      modifies this`freeList, this`bitmap, this`free, this`inUse
      ensures Valid()
      ensures page == None <==> forall i :: !BlockFree(old(free), i, order)
      ensures page == None ==>
        free == old(free) && inUse == old(inUse) && freeList == old(freeList) && bitmap == old(bitmap)
      ensures page.Some? ==>
        var b := BlockOf(page.value, order);
        && Aligned(page.value, order) && BlockFree(old(free), b, order)
        && free == old(free) - Pages(b, order) && inUse == old(inUse) + Pages(b, order)
      ensures free + inUse == old(free + inUse)
    {
      hide Pages, First, Aligned, Listed, BitsMatch;
      var n := order;
      while freeList[n] == []
        invariant order <= n < MAX_ORDER
        invariant forall k :: order <= k < n ==> freeList[k] == []
        decreases MAX_ORDER - n
      {
        if n == MAX_ORDER - 1 {
          NothingListed(freeList, free, order);
          return None;
        }
        n := n + 1;
      }
      var p := freeList[n][0];
      TakeHead(freeList, bitmap, free, n);
      freeList := freeList[n := freeList[n][1..]];
      ghost var free0 := free;
      free := free - Pages(BlockOf(p, n), n);
      SplitTo(p, n, order, free0);
      inUse := inUse + Pages(BlockOf(p, order), order);
      HasFreeBlock(free0, BlockOf(p, order), order);
      page := Some(p);
    }

    /** Halves the unlinked block of order n0 at p down to the wanted order, listing the upper halves. */
    method SplitTo(p: nat, n0: nat, order: nat, ghost free0: set<nat>)
      requires order <= n0 < MAX_ORDER && Aligned(p, n0)
      requires ListsMatch(freeList, free) && BitsMatch(bitmap, free, n0, BlockOf(p, n0 + 1))
      requires |bitmap| == |freeList| == MAX_ORDER
      requires forall k :: 0 <= k < MAX_ORDER ==> |bitmap[k]| == BitmapBits(maxPfn, k)
      requires BlockFree(free0, BlockOf(p, n0), n0) && free == free0 - Pages(BlockOf(p, n0), n0)
      requires forall q :: q in free0 ==> Covered(maxPfn, q)
      modifies this`freeList, this`bitmap, this`free
      ensures ListsMatch(freeList, free) && BitsMatch(bitmap, free, MAX_ORDER, 0)
      ensures forall k :: 0 <= k < MAX_ORDER ==> |bitmap[k]| == BitmapBits(maxPfn, k)
      ensures Aligned(p, order) && BlockFree(free0, BlockOf(p, order), order)
      ensures free == free0 - Pages(BlockOf(p, order), order)
    {
      hide ListsMatch, BitsMatch, Aligned, Pages, First, Pow2;
      var n := n0;
      while true
        invariant order <= n < MAX_ORDER && Aligned(p, n)
        invariant ListsMatch(freeList, free) && BitsMatch(bitmap, free, n, BlockOf(p, n + 1))
        invariant |bitmap| == |freeList| == MAX_ORDER
        invariant forall k :: 0 <= k < MAX_ORDER ==> |bitmap[k]| == BitmapBits(maxPfn, k)
        invariant BlockFree(free0, BlockOf(p, n), n) && free == free0 - Pages(BlockOf(p, n), n)
        decreases n
      {
        var nr := BlockOf(p, n + 1);
        InsideBitmap(maxPfn, p, free0, n) by { FirstOfFree(free0, p, n); }
        ToggleFixes(bitmap, free, n, nr);
        bitmap := Toggle(bitmap, n, nr);
        if n == order { break; }
        n := n - 1;
        SplitBlock(free0, free, p, n);
        AddBlock(freeList, bitmap, free, p + Pow2(n), n);
        freeList := freeList[n := freeList[n] + [p + Pow2(n)]];
        free := free + Pages(BlockOf(p + Pow2(n), n), n);
      }
    }

    /** Gives back a block of 2^order pages, coalescing with its buddy while that one is free. */
    method FreePages(page: nat, order0: nat)
      requires Valid() && order0 < MAX_ORDER && Aligned(page, order0)
      requires Pages(BlockOf(page, order0), order0) <= inUse
      modifies this`freeList, this`bitmap, this`free, this`inUse
      ensures Valid()
      ensures free == old(free) + Pages(BlockOf(page, order0), order0)
      ensures inUse == old(inUse) - Pages(BlockOf(page, order0), order0)
      ensures free + inUse == old(free + inUse)
    {
      hide ListsMatch, BitsMatch, Aligned, Pages, First, Pow2;
      var p: nat, order: nat := page, order0;
      ghost var free1 := free + Pages(BlockOf(p, order), order);
      Disjoint(free, inUse, BlockOf(p, order), order);
      ListSizes(freeList, bitmap, free);
      while true
        invariant order < MAX_ORDER && Aligned(p, order) && inUse == old(inUse)
        invariant ListsMatch(freeList, free) && BitsMatch(bitmap, free, MAX_ORDER, 0)
        invariant |bitmap| == |freeList| == MAX_ORDER
        invariant forall k :: 0 <= k < MAX_ORDER ==> |bitmap[k]| == BitmapBits(maxPfn, k)
        invariant BlockFree(free1, BlockOf(p, order), order) && free == free1 - Pages(BlockOf(p, order), order)
        decreases MAX_ORDER - order
      {
        var nr := BlockOf(p, order + 1);
        InsideBitmap(maxPfn, p, free1, order) by { FirstOfFree(free1, p, order); }
        BitTellsBuddy(bitmap, free1, free, p, order);
        ghost var bits0 := bitmap;
        var bit := bitmap[order][nr];
        bitmap := Toggle(bitmap, order, nr);
        ToggleBreaks(bits0, free, order, nr);
        if !bit || order == MAX_ORDER - 1 {
          break;
        }
        var buddy := if p == First(nr, order + 1) then p + Pow2(order) else p - Pow2(order);
        BuddyPage(p, order);
        ListedPage(freeList, free, buddy, order);
        RemoveBlock(freeList, bitmap, free, buddy, order);
        freeList := freeList[order := Remove<nat>(freeList[order], buddy)];
        free := free - Pages(BlockOf(buddy, order), order);
        Coalesce(free1, free, BlockOf(p, order), order);
        p := First(nr, order + 1);
        order := order + 1;
      }
      AddBlock(freeList, bitmap, free, p, order);
      freeList := freeList[order := freeList[order] + [p]];
      free := free + Pages(BlockOf(p, order), order);
      inUse := inUse - Pages(BlockOf(page, order0), order0);
      assert free == free1;
    }

    /** __get_page: a single page with one reference. */
    method GetPage() returns (page: Option<nat>)
      requires Valid()
      modifies this
      ensures Valid()
      ensures page == None <==> old(free) == {}
      ensures page == None ==> free == old(free) && inUse == old(inUse) && count == old(count)
      ensures page.Some? ==>
        var p := page.value;
        && p in old(free) && free == old(free) - {p} && inUse == old(inUse) + {p} && count == old(count)[p := 1]
    {
      page := AllocPages(0);
      if page.Some? {
        count := count[page.value := 1];
        assert Pages(page.value, 0) == {page.value};
      } else {
        forall p | p in free ensures false {
          assert BlockFree(free, p, 0);
        }
      }
    }

    /** __put_page: the page goes back to the allocator with its last reference. */
    method PutPage(p: nat)
      requires Valid() && p in inUse && p in count && count[p] > 0
      modifies this
      ensures Valid() && count == old(count)[p := old(count)[p] - 1]
      ensures old(count)[p] == 1 ==> free == old(free) + {p} && inUse == old(inUse) - {p}
      ensures old(count)[p] > 1 ==> free == old(free) && inUse == old(inUse)
    {
      count := count[p := count[p] - 1];
      if count[p] == 0 {
        assert Pages(p, 0) == {p} && Aligned(p, 0) && BlockOf(p, 0) == p;
        FreePages(p, 0);
      }
    }
  }

  /** The same blocks are listed, each once; only the order within a list may differ. */
  ghost predicate SameLists(a: seq<seq<nat>>, b: seq<seq<nat>>) {
    && |a| == |b|
    && forall k :: 0 <= k < |a| ==> multiset(a[k]) == multiset(b[k])
  }

  lemma {:induction false} MultisetOfDistinct(s: seq<nat>, x: nat)
    requires NoDup(s)
    ensures multiset(s)[x] == if x in s then 1 else 0
  {
    if s != [] {
      assert s == [s[0]] + s[1..];
      MultisetOfDistinct(s[1..], x);
    }
  }

  /** The lists and bitmaps are a function of the set of free pages. */
  lemma CanonicalState(a: PageAllocator, b: PageAllocator)
    requires a.Valid() && b.Valid() && a.maxPfn == b.maxPfn && a.free == b.free
    ensures SameLists(a.freeList, b.freeList) && a.bitmap == b.bitmap
    ensures |a.freeList| == |b.freeList| == 11
    ensures forall k :: 0 <= k < 11 ==> multiset(a.freeList[k]) == multiset(b.freeList[k])
  {
    SameFreeSameState(a.freeList, a.bitmap, b.freeList, b.bitmap, a.free);
  }

  lemma SameFreeSameState(lists: seq<seq<nat>>, bits: seq<seq<bool>>, lists': seq<seq<nat>>, bits': seq<seq<bool>>,
                          free: set<nat>)
    requires ListsMatch(lists, free) && ListsMatch(lists', free)
    requires BitsMatch(bits, free, MAX_ORDER, 0) && BitsMatch(bits', free, MAX_ORDER, 0)
    requires forall k :: 0 <= k < MAX_ORDER ==> |bits[k]| == |bits'[k]|
    ensures SameLists(lists, lists') && bits == bits'
  {
    hide Aligned, Listed;
    forall k | 0 <= k < MAX_ORDER ensures multiset(lists[k]) == multiset(lists'[k]) && bits[k] == bits'[k] {
      forall x: nat ensures multiset(lists[k])[x] == multiset(lists'[k])[x] {
        MultisetOfDistinct(lists[k], x);
        MultisetOfDistinct(lists'[k], x);
        assert x in lists[k] <==> x in lists'[k];
      }
      forall nr | 0 <= nr < |bits[k]| ensures bits[k][nr] == bits'[k][nr] {
      }
    }
  }

  /** Allocating a block and freeing it again restores lists and bitmaps. */
  method AllocThenFree(a: PageAllocator, order: nat)
    requires a.Valid() && order < MAX_ORDER
    modifies a
    ensures a.Valid() && a.free == old(a.free) && a.inUse == old(a.inUse)
    ensures a.bitmap == old(a.bitmap) && |a.freeList| == |old(a.freeList)|
    ensures forall k :: 0 <= k < |a.freeList| ==> multiset(a.freeList[k]) == multiset(old(a.freeList)[k])
  {
    ghost var lists, bits := a.freeList, a.bitmap;
    var page := a.AllocPages(order);
    if page.Some? {
      a.FreePages(page.value, order);
    }
    SameFreeSameState(a.freeList, a.bitmap, lists, bits, a.free);
  }

  /** Two allocators with the same free pages end in the same state whichever of two blocks each frees first. */
  method FreesCommute(a: PageAllocator, b: PageAllocator, p: nat, k: nat, q: nat, m: nat)
    requires a != b && a.Valid() && b.Valid() && a.maxPfn == b.maxPfn && a.free == b.free && a.inUse == b.inUse
    requires k < MAX_ORDER && m < MAX_ORDER && Aligned(p, k) && Aligned(q, m)
    requires Pages(BlockOf(p, k), k) + Pages(BlockOf(q, m), m) <= a.inUse
    requires Pages(BlockOf(p, k), k) !! Pages(BlockOf(q, m), m)
    modifies a, b
    ensures a.bitmap == b.bitmap && |a.freeList| == |b.freeList|
    ensures forall k :: 0 <= k < |a.freeList| ==> multiset(a.freeList[k]) == multiset(b.freeList[k])
  {
    a.FreePages(p, k);
    a.FreePages(q, m);
    b.FreePages(q, m);
    b.FreePages(p, k);
    CanonicalState(a, b);
  }

  /** The rounded-up bitmap of order k reaches the last, possibly partial, pair. */
  ghost predicate LastPairFits(maxPfn: nat, k: nat) {
    First(BlockOf(maxPfn, k + 1), k + 1) == maxPfn || BlockOf(maxPfn, k + 1) % 32 != 0
  }

  /** Every page below max_pfn may be managed exactly when no bitmap cuts off a last, partial pair. */
  lemma AllPagesCovered(maxPfn: nat)
    ensures (forall p :: 0 <= p < maxPfn ==> Covered(maxPfn, p)) <==>
            (maxPfn == 0 || forall k :: 0 <= k < MAX_ORDER ==> LastPairFits(maxPfn, k))
  {
    if k :| 0 <= k < MAX_ORDER && maxPfn > 0 && !LastPairFits(maxPfn, k) {
      LastPairs(maxPfn, maxPfn - 1, k + 1);
      RoundUp(BlockOf(maxPfn, k + 1));
      assert !PairInside(maxPfn, maxPfn - 1, k);
      assert !Covered(maxPfn, maxPfn - 1);
    } else {
      forall p, k | 0 <= p < maxPfn && 0 <= k < MAX_ORDER ensures PairInside(maxPfn, p, k) {
        assert LastPairFits(maxPfn, k);
        LastPairs(maxPfn, p, k + 1);
        RoundUp(BlockOf(maxPfn, k + 1));
      }
    }
  }

  lemma RoundUp(b: nat)
    ensures b % 32 == 0 ==> (b + 31) / 32 * 32 == b
    ensures b % 32 != 0 ==> (b + 31) / 32 * 32 > b
  {
  }

  /** A page below max_pfn is in a pair before max_pfn's own, or in that pair when max_pfn does not start one. */
  lemma {:induction false} LastPairs(maxPfn: nat, p: nat, k: nat)
    requires p < maxPfn
    ensures BlockOf(p, k) <= BlockOf(maxPfn, k)
    ensures First(BlockOf(maxPfn, k), k) == maxPfn ==> BlockOf(p, k) < BlockOf(maxPfn, k)
    ensures First(BlockOf(maxPfn, k), k) != maxPfn && p == maxPfn - 1 ==> BlockOf(p, k) == BlockOf(maxPfn, k)
  {
    BlockIsRun(p, BlockOf(p, k), k);
    BlockIsRun(maxPfn, BlockOf(maxPfn, k), k);
    BlockIsRun(p, BlockOf(maxPfn, k), k);
    FirstIsShift(BlockOf(p, k), k);
    FirstIsShift(BlockOf(maxPfn, k), k);
    var i, j := BlockOf(p, k), BlockOf(maxPfn, k);
    if i >= j { MulMono(j, i, Pow2(k)); }
  }

  /** With 65 pages the pair bit of the last page lies outside the bitmap of order 0. */
  lemma SixtyFivePages()
    ensures !Covered(65, 64)
  {
    assert BlockOf(64, 1) == 32 && BitmapBits(65, 0) == 32;
    assert !PairInside(65, 64, 0);
  }

  lemma Disjoint(free: set<nat>, inUse: set<nat>, i: nat, k: nat)
    requires free !! inUse && Pages(i, k) <= inUse
    ensures free == free + Pages(i, k) - Pages(i, k)
    ensures BlockFree(free + Pages(i, k), i, k)
  {
  }

  lemma ListSizes(lists: seq<seq<nat>>, bits: seq<seq<bool>>, free: set<nat>)
    requires ListsMatch(lists, free) && BitsMatch(bits, free, MAX_ORDER, 0)
    ensures |lists| == |bits| == MAX_ORDER
  {
  }

  lemma ToggleBreaks(bits: seq<seq<bool>>, free: set<nat>, k: nat, nr: nat)
    requires k < MAX_ORDER == |bits| && nr < |bits[k]| && BitsMatch(bits, free, MAX_ORDER, 0)
    ensures BitsMatch(Toggle(bits, k, nr), free, k, nr)
  {
  }

  /** While the block of p is held back from the free set, its pair's bit says whether its buddy is free. */
  lemma BitTellsBuddy(bits: seq<seq<bool>>, free1: set<nat>, free: set<nat>, p: nat, k: nat)
    requires k < MAX_ORDER == |bits| && BlockOf(p, k + 1) < |bits[k]| && BitsMatch(bits, free, MAX_ORDER, 0)
    requires BlockFree(free1, BlockOf(p, k), k) && free == free1 - Pages(BlockOf(p, k), k)
    ensures bits[k][BlockOf(p, k + 1)] <==> Listed(free, Buddy(BlockOf(p, k)), k)
    ensures Listed(free, Buddy(BlockOf(p, k)), k) <==> BlockFree(free, Buddy(BlockOf(p, k)), k)
  {
    var i := BlockOf(p, k);
    FirstPage(i, k);
    Halves(i, k);
    assert !BlockFree(free, i, k) && !BlockFree(free, i / 2, k + 1);
    assert bits[k][i / 2] <==> PairBit(free, i / 2, k);
  }

  lemma ListedPage(lists: seq<seq<nat>>, free: set<nat>, p: nat, k: nat)
    requires k < MAX_ORDER && ListsMatch(lists, free) && Aligned(p, k) && Listed(free, BlockOf(p, k), k)
    ensures p in lists[k]
  {
  }

  /** A free block and its free buddy are the parent block. */
  lemma Coalesce(free1: set<nat>, free: set<nat>, i: nat, k: nat)
    requires BlockFree(free1, i, k) && BlockFree(free1 - Pages(i, k), Buddy(i), k)
    requires free == free1 - Pages(i, k) - Pages(Buddy(i), k)
    ensures BlockFree(free1, i / 2, k + 1) && free == free1 - Pages(i / 2, k + 1)
  {
    Halves(i, k);
  }

  /** expand: the page of the buddy, found by going up or down 2^order pages. */
  lemma BuddyPage(p: nat, k: nat)
    requires Aligned(p, k)
    ensures var buddy := if p == First(BlockOf(p, k + 1), k + 1) then p + Pow2(k) else p - Pow2(k);
      buddy >= 0 && Aligned(buddy, k) && BlockOf(buddy, k) == Buddy(BlockOf(p, k))
        && BlockOf(buddy, k + 1) == BlockOf(p, k + 1)
    ensures BlockOf(p, k + 1) == BlockOf(p, k) / 2
    ensures BlockOf(First(BlockOf(p, k + 1), k + 1), k + 1) == BlockOf(p, k + 1)
    ensures Aligned(First(BlockOf(p, k + 1), k + 1), k + 1)
  {
    var i := BlockOf(p, k);
    var nr := i / 2;
    hide Pages;
    FirstPage(nr, k);
    FirstPage(nr, k + 1);
    FirstPage(2 * nr, k);
    FirstPage(2 * nr + 1, k);
    assert BlockOf(p, k + 1) == nr && Pow2(k) > 0;
    if i % 2 == 0 { assert p == First(2 * nr, k); } else { assert p == First(2 * nr + 1, k); }
  }

  lemma ListedInList(lists: seq<seq<nat>>, free: set<nat>, i: nat, k: nat)
    requires k < MAX_ORDER && ListsMatch(lists, free) && Listed(free, i, k)
    ensures First(i, k) in lists[k]
  {
    FirstPage(i, k);
  }

  /** With the lists of the order and all higher ones empty, no block of that order is free. */
  lemma NothingListed(lists: seq<seq<nat>>, free: set<nat>, order: nat)
    requires order < MAX_ORDER && ListsMatch(lists, free)
    requires forall k :: order <= k < MAX_ORDER ==> lists[k] == []
    ensures forall i :: !BlockFree(free, i, order)
  {
    forall i: nat ensures !BlockFree(free, i, order) {
      if BlockFree(free, i, order) {
        var i', k' := CoveringBlock(free, i, order);
        ListedInList(lists, free, i', k');
      }
    }
  }

  lemma HasFreeBlock(free: set<nat>, i: nat, k: nat)
    requires BlockFree(free, i, k)
    ensures !forall i :: !BlockFree(free, i, k)
  {
  }

  lemma TakeHead(lists: seq<seq<nat>>, bits: seq<seq<bool>>, free: set<nat>, n: nat)
    requires n < MAX_ORDER && ListsMatch(lists, free) && lists[n] != [] && BitsMatch(bits, free, MAX_ORDER, 0)
    ensures var p := lists[n][0];
      var free' := free - Pages(BlockOf(p, n), n);
      && Aligned(p, n) && BlockFree(free, BlockOf(p, n), n)
      && ListsMatch(lists[n := lists[n][1..]], free') && BitsMatch(bits, free', n, BlockOf(p, n + 1))
  {
    var p := lists[n][0];
    assert p in lists[n];
    RemoveBlock(lists, bits, free, p, n);
  }

  lemma FirstOfFree(free: set<nat>, p: nat, k: nat)
    requires Aligned(p, k) && BlockFree(free, BlockOf(p, k), k)
    ensures p in free
  {
    BlockNotEmpty(free, BlockOf(p, k), k);
  }

  lemma InsideBitmap(maxPfn: nat, p: nat, pages: set<nat>, k: nat)
    requires p in pages && k < MAX_ORDER && forall q :: q in pages ==> Covered(maxPfn, q)
    ensures BlockOf(p, k + 1) < BitmapBits(maxPfn, k)
  {
    assert PairInside(maxPfn, p, k);
  }

  /** Keeping the lower half of a block of order n + 1: the upper half may be listed. */
  lemma SplitBlock(free0: set<nat>, free: set<nat>, p: nat, n: nat)
    requires Aligned(p, n + 1) && BlockFree(free0, BlockOf(p, n + 1), n + 1)
    requires free == free0 - Pages(BlockOf(p, n + 1), n + 1)
    ensures var p' := p + Pow2(n);
      && Aligned(p, n) && Aligned(p', n)
      && BlockOf(p', n) == Buddy(BlockOf(p, n)) && BlockOf(p', n + 1) == BlockOf(p, n + 1)
      && BlockOf(p, n) == Buddy(BlockOf(p', n))
      && Pages(BlockOf(p', n), n) !! free && !BlockFree(free, BlockOf(p, n), n)
      && BlockFree(free0, BlockOf(p, n), n)
      && free + Pages(BlockOf(p', n), n) == free0 - Pages(BlockOf(p, n), n)
  {
    var i := BlockOf(p, n + 1);
    FirstPage(i, n);
    FirstPage(2 * i, n);
    FirstPage(2 * i + 1, n);
    assert BlockOf(p, n) == 2 * i && BlockOf(p + Pow2(n), n) == 2 * i + 1;
    HalvesApart(free0, free, i, n);
  }

  lemma HalvesApart(free0: set<nat>, free: set<nat>, i: nat, n: nat)
    requires BlockFree(free0, i, n + 1) && free == free0 - Pages(i, n + 1)
    ensures Pages(2 * i + 1, n) !! free && !BlockFree(free, 2 * i, n) && BlockFree(free0, 2 * i, n)
    ensures free + Pages(2 * i + 1, n) == free0 - Pages(2 * i, n)
  {
    Halves(2 * i, n);
    FirstPage(2 * i, n);
  }
}
