/**
 The tag array of src/kernel/alloc.c as a value.  An allocation of n blocks is recorded only in
 its first block, whose tag is n; every other tag inside it is zero.
 */
module BlockTags {
  import opened Basics

  const BLOCK_SIZE: nat := 32

  datatype BlockTag = BlockTag(tid: int, tag: nat)

  /** Where the heap lies, and the largest value of the machine's size_t. */
  datatype Layout = Layout(base: nat, sizeMax: nat)

  ghost predicate Covers(t: seq<BlockTag>, h: int, i: int) {
    0 <= h < |t| && h <= i < h + t[h].tag
  }

  ghost predicate IsFree(t: seq<BlockTag>, i: int) {
    0 <= i < |t| && forall h :: !Covers(t, h, i)
  }

  ghost predicate IsFreeRun(t: seq<BlockTag>, start: int, n: nat) {
    0 <= start && start + n <= |t| && forall i | start <= i < start + n :: IsFree(t, i)
  }

  /** Every tag stays inside the heap and all other tags inside an allocated run are zero. */
  ghost predicate WellFormed(t: seq<BlockTag>) {
    forall h | 0 <= h < |t| && t[h].tag > 0 ::
      h + t[h].tag <= |t| && forall i | h < i < h + t[h].tag :: t[i].tag == 0
  }

  /** The lowest start, not below `from`, of n consecutive free blocks. */
  ghost function LowestFit(t: seq<BlockTag>, n: nat, from: nat): (r: Option<nat>)
    requires from <= |t|
    ensures r.Some? ==> from <= r.value && IsFreeRun(t, r.value, n)
                        && forall st | from <= st < r.value :: !IsFreeRun(t, st, n)
    ensures r.None? ==> forall st | from <= st :: !IsFreeRun(t, st, n)
    decreases |t| - from
  {
    if IsFreeRun(t, from, n) then Some(from)
    else if from == |t| then None
    else LowestFit(t, n, from + 1)
  }

  /** First fit; a request for no blocks is never satisfied. */
  ghost function FirstFit(t: seq<BlockTag>, n: nat): Option<nat> {
    if n == 0 then None else LowestFit(t, n, 0)
  }

  /** Division rounding up, where the addition wraps like a size_t. */
  function ToBlocks(layout: Layout, size: nat): nat {
    (size + BLOCK_SIZE - 1) % (layout.sizeMax + 1) / BLOCK_SIZE
  }

  function BlockOf(layout: Layout, ptr: nat): nat
    requires layout.base <= ptr
  {
    (ptr - layout.base) / BLOCK_SIZE
  }

  function BlockPtr(layout: Layout, block: nat): nat {
    layout.base + block * BLOCK_SIZE
  }

  /** A pointer the kernel can be given: NULL, or not below the heap. */
  predicate UsablePtr(layout: Layout, ptr: nat) {
    ptr == 0 || layout.base <= ptr
  }

  predicate CanReallocFree(t: seq<BlockTag>, layout: Layout, tid: int, ptr: nat)
    requires UsablePtr(layout, ptr)
  {
    ptr != 0 && ptr < layout.base + |t| * BLOCK_SIZE && t[BlockOf(layout, ptr)].tid == tid
  }

  function Untagged(t: seq<BlockTag>, i: nat): seq<BlockTag>
    requires i < |t|
  {
    t[i := t[i].(tag := 0)]
  }

  /** The tags after, and the pointer returned by, a malloc of `size` bytes for thread `tid`. */
  ghost function Malloc(t: seq<BlockTag>, layout: Layout, allowed: bool, tid: int, size: nat): (seq<BlockTag>, nat) {
    var n := ToBlocks(layout, size);
    var fit := FirstFit(t, n);
    if allowed && fit.Some? then (t[fit.value := BlockTag(tid, n)], BlockPtr(layout, fit.value)) else (t, 0)
  }

  ghost function Realloc(t: seq<BlockTag>, layout: Layout, allowed: bool, tid: int, ptr: nat,
                         size: nat): (seq<BlockTag>, nat)
    requires UsablePtr(layout, ptr)
  {
    if !allowed then (t, 0)
    else if ptr == 0 then Malloc(t, layout, allowed, tid, size)
    else if !CanReallocFree(t, layout, tid, ptr) then (t, ptr)
    else
      var released := Untagged(t, BlockOf(layout, ptr));
      var moved := Malloc(released, layout, allowed, tid, size);
      if moved.1 == 0 then (t, 0) else moved
  }

  ghost function Free(t: seq<BlockTag>, layout: Layout, allowed: bool, tid: int, ptr: nat): seq<BlockTag>
    requires UsablePtr(layout, ptr)
  {
    if !allowed || !CanReallocFree(t, layout, tid, ptr) then t
    else t[BlockOf(layout, ptr) := BlockTag(0, 0)]
  }

  ghost function FreeAll(t: seq<BlockTag>, tid: int): seq<BlockTag> {
    seq(|t|, i requires 0 <= i < |t| => if t[i].tid == tid then t[i].(tag := 0) else t[i])
  }

  /** The start of a run that thread `tid` owns. */
  ghost predicate Owns(t: seq<BlockTag>, tid: int, h: int) {
    0 <= h < |t| && t[h].tag > 0 && t[h].tid == tid
  }

  // ---- What each operation keeps

  lemma FreeBlocksAreUntagged(t: seq<BlockTag>, i: int)
    requires IsFree(t, i)
    ensures t[i].tag == 0
  {
    assert !Covers(t, i, i);
  }

  lemma ClaimKeepsWellFormed(t: seq<BlockTag>, start: nat, n: nat, tid: int)
    requires WellFormed(t) && n > 0 && IsFreeRun(t, start, n)
    ensures WellFormed(t[start := BlockTag(tid, n)])
  {
    forall i | start <= i < start + n
      ensures t[i].tag == 0
    {
      FreeBlocksAreUntagged(t, i);
    }
    assert IsFree(t, start);
    var r := t[start := BlockTag(tid, n)];
    forall h, i | 0 <= h < |r| && r[h].tag > 0 && h < i < h + r[h].tag
      ensures h + r[h].tag <= |r| && r[i].tag == 0
    {
      assert h != start ==> !Covers(t, h, start);
    }
    forall h | 0 <= h < |r| && r[h].tag > 0
      ensures h + r[h].tag <= |r|
    {
      assert h != start ==> h + t[h].tag <= |t|;
    }
  }

  lemma MallocKeepsWellFormed(t: seq<BlockTag>, layout: Layout, allowed: bool, tid: int, size: nat)
    requires WellFormed(t)
    ensures WellFormed(Malloc(t, layout, allowed, tid, size).0)
  {
    var n := ToBlocks(layout, size);
    var fit := FirstFit(t, n);
    if fit.Some? {
      ClaimKeepsWellFormed(t, fit.value, n, tid);
    }
  }

  lemma ReallocKeepsWellFormed(t: seq<BlockTag>, layout: Layout, allowed: bool, tid: int, ptr: nat, size: nat)
    requires WellFormed(t) && UsablePtr(layout, ptr)
    ensures WellFormed(Realloc(t, layout, allowed, tid, ptr, size).0)
  {
    MallocKeepsWellFormed(t, layout, allowed, tid, size);
    if allowed && ptr != 0 && CanReallocFree(t, layout, tid, ptr) {
      MallocKeepsWellFormed(Untagged(t, BlockOf(layout, ptr)), layout, allowed, tid, size);
    }
  }

  /** No malloc, realloc, free or free_all by (or for) one thread touches another thread's run. */
  lemma MallocSparesOwnedRuns(t: seq<BlockTag>, layout: Layout, allowed: bool, tid: int, size: nat, other: int, h: int)
    requires Owns(t, other, h)
    ensures Malloc(t, layout, allowed, tid, size).0[h] == t[h]
  {
    var fit := FirstFit(t, ToBlocks(layout, size));
    if fit.Some? {
      assert IsFree(t, fit.value);
      FreeBlocksAreUntagged(t, fit.value);
    }
  }

  lemma ReallocSparesOthers(t: seq<BlockTag>, layout: Layout, allowed: bool, tid: int, ptr: nat, size: nat,
                            other: int, h: int)
    requires UsablePtr(layout, ptr) && Owns(t, other, h) && other != tid
    ensures Realloc(t, layout, allowed, tid, ptr, size).0[h] == t[h]
  {
    MallocSparesOwnedRuns(t, layout, allowed, tid, size, other, h);
    if allowed && ptr != 0 && CanReallocFree(t, layout, tid, ptr) {
      MallocSparesOwnedRuns(Untagged(t, BlockOf(layout, ptr)), layout, allowed, tid, size, other, h);
    }
  }

  /** Two runs never share a block. */
  lemma RunsAreDisjoint(t: seq<BlockTag>, h: int, k: int, i: int)
    requires WellFormed(t) && Covers(t, h, i) && h != k
    ensures !Covers(t, k, i)
  {
  }

  // ---- Conservation

  /** No run reaches over `i` from below. */
  ghost predicate IsBoundary(t: seq<BlockTag>, i: int) {
    0 <= i <= |t| && forall h | 0 <= h < i :: h + t[h].tag <= i
  }

  ghost function CountFree(t: seq<BlockTag>, from: nat): nat
    requires from <= |t|
    decreases |t| - from
  {
    if from == |t| then 0 else (if IsFree(t, from) then 1 else 0) + CountFree(t, from + 1)
  }

  ghost function SumTags(t: seq<BlockTag>, from: nat): nat
    requires from <= |t|
    decreases |t| - from
  {
    if from == |t| then 0 else t[from].tag + SumTags(t, from + 1)
  }

  lemma {:induction false} InsideARun(t: seq<BlockTag>, h: nat, i: nat)
    requires WellFormed(t) && h < |t| && h < i <= h + t[h].tag
    ensures CountFree(t, i) == CountFree(t, h + t[h].tag) && SumTags(t, i) == SumTags(t, h + t[h].tag)
    decreases |t| - i
  {
    if i == h + t[h].tag {
    } else {
      InsideARun(t, h, i + 1);
      assert Covers(t, h, i);
    }
  }

  lemma {:induction false} ConservationFrom(t: seq<BlockTag>, from: nat)
    requires WellFormed(t) && IsBoundary(t, from)
    ensures CountFree(t, from) + SumTags(t, from) == |t| - from
    decreases |t| - from
  {
    if from == |t| {
    } else {
      if t[from].tag == 0 {
        assert IsFree(t, from);
        ConservationFrom(t, from + 1);
      } else {
        var past := from + t[from].tag;
        assert Covers(t, from, from);
        InsideARun(t, from, from + 1);
        assert IsBoundary(t, past) by {
          forall h | 0 <= h < past
            ensures h + t[h].tag <= past
          {
            assert h < from || h == from || t[h].tag == 0;
          }
        }
        ConservationFrom(t, past);
      }
    }
  }

  // ---- Whole runs

  datatype HeapCall =
    | CallMalloc(tid: int, allowed: bool, size: nat)
    | CallRealloc(tid: int, allowed: bool, ptr: nat, size: nat)
    | CallFree(tid: int, allowed: bool, ptr: nat)
    | CallFreeAll(tid: int)
  {
    predicate Usable(layout: Layout) {
      (CallRealloc? || CallFree?) ==> UsablePtr(layout, ptr)
    }

    ghost function Apply(t: seq<BlockTag>, layout: Layout): seq<BlockTag>
      requires Usable(layout)
    {
      match this
      case CallMalloc(tid, allowed, size) => Malloc(t, layout, allowed, tid, size).0
      case CallRealloc(tid, allowed, ptr, size) => Realloc(t, layout, allowed, tid, ptr, size).0
      case CallFree(tid, allowed, ptr) => Free(t, layout, allowed, tid, ptr)
      case CallFreeAll(tid) => FreeAll(t, tid)
    }
  }

  ghost function ApplyAll(t: seq<BlockTag>, layout: Layout, calls: seq<HeapCall>): (r: seq<BlockTag>)
    requires forall c | c in calls :: c.Usable(layout)
    ensures |r| == |t|
    decreases |calls|
  {
    if calls == [] then t else ApplyAll(calls[0].Apply(t, layout), layout, calls[1..])
  }

  lemma ApplyKeepsWellFormed(t: seq<BlockTag>, layout: Layout, call: HeapCall)
    requires WellFormed(t) && call.Usable(layout)
    ensures WellFormed(call.Apply(t, layout)) && |call.Apply(t, layout)| == |t|
  {
    match call
    case CallMalloc(tid, allowed, size) => MallocKeepsWellFormed(t, layout, allowed, tid, size);
    case CallRealloc(tid, allowed, ptr, size) => ReallocKeepsWellFormed(t, layout, allowed, tid, ptr, size);
    case CallFree(_, _, _) =>
    case CallFreeAll(_) =>
  }

  /** Any calls with any in-heap pointers keep the heap well formed, and the free blocks plus the
      tags add up to the size of the heap. */
  lemma {:induction false} EveryRunKeepsTheHeap(t: seq<BlockTag>, layout: Layout, calls: seq<HeapCall>)
    requires WellFormed(t) && forall c | c in calls :: c.Usable(layout)
    ensures var r := ApplyAll(t, layout, calls);
            WellFormed(r) && |r| == |t| && CountFree(r, 0) + SumTags(r, 0) == |t|
    decreases |calls|
  {
    if calls == [] {
      ConservationFrom(t, 0);
    } else {
      ApplyKeepsWellFormed(t, layout, calls[0]);
      EveryRunKeepsTheHeap(calls[0].Apply(t, layout), layout, calls[1..]);
    }
  }

  /** A run stays exactly as it is through any calls that are not for its owner. */
  lemma {:induction false} OthersNeverTouchARun(t: seq<BlockTag>, layout: Layout, calls: seq<HeapCall>, owner: int,
                                                h: int)
    requires WellFormed(t) && Owns(t, owner, h)
    requires forall c | c in calls :: c.Usable(layout) && c.tid != owner
    ensures ApplyAll(t, layout, calls)[h] == t[h]
    decreases |calls|
  {
    if calls == [] {
    } else {
      var call := calls[0];
      match call {
        case CallMalloc(tid, allowed, size) => MallocSparesOwnedRuns(t, layout, allowed, tid, size, owner, h);
        case CallRealloc(tid, allowed, ptr, size) => ReallocSparesOthers(t, layout, allowed, tid, ptr, size, owner, h);
        case CallFree(_, _, _) =>
        case CallFreeAll(_) =>
      }
      ApplyKeepsWellFormed(t, layout, call);
      OthersNeverTouchARun(call.Apply(t, layout), layout, calls[1..], owner, h);
    }
  }

  // ---- Relocation

  /** A reallocation of run h goes below or onto h, or wholly past the end of the old run: first
      fit never picks a start strictly inside the blocks it has just released. */
  lemma RelocationNeverStartsInside(t: seq<BlockTag>, h: nat, n: nat, start: nat)
    requires WellFormed(t) && h < |t| && FirstFit(Untagged(t, h), n) == Some(start)
    ensures start <= h || h + t[h].tag <= start
  {
    var u := Untagged(t, h);
    if h < start < h + t[h].tag {
      forall i | h <= i < h + n
        ensures IsFree(u, i)
      {
        if i < start {
          forall k
            ensures !Covers(u, k, i)
          {
            assert Covers(t, h, i);
            assert Covers(u, k, i) ==> k != h && Covers(t, k, i);
          }
        }
      }
      assert IsFreeRun(u, h, n);
      assert false;
    }
  }

  /** A request that fits in the old run is met, at or below the old run. */
  lemma ShrinkingNeverFails(t: seq<BlockTag>, h: nat, n: nat)
    requires WellFormed(t) && h < |t| && 0 < n <= t[h].tag
    ensures FirstFit(Untagged(t, h), n).Some? && FirstFit(Untagged(t, h), n).value <= h
  {
    var u := Untagged(t, h);
    forall i | h <= i < h + n, k
      ensures !Covers(u, k, i)
    {
      assert Covers(t, h, i);
      assert Covers(u, k, i) ==> k != h && Covers(t, k, i);
    }
    assert IsFreeRun(u, h, n);
  }

  /** The blocks a reallocation claims belonged to nobody else. */
  lemma RelocationTakesNoOthersBlock(t: seq<BlockTag>, h: nat, n: nat, start: nat, k: int, i: int)
    requires h < |t| && FirstFit(Untagged(t, h), n) == Some(start)
    requires k != h && Covers(t, k, i)
    ensures !(start <= i < start + n)
  {
    var u := Untagged(t, h);
    assert Covers(u, k, i);
    assert start <= i < start + n ==> IsFree(u, i);
  }

  /** Pointer q is a new run of n blocks that thread `tid` owns, at the lowest place there was; all other
      runs are as they were. */
  ghost predicate IsNewRun(t: seq<BlockTag>, r: seq<BlockTag>, layout: Layout, tid: int, n: nat, q: nat) {
    && q >= layout.base && (q - layout.base) % BLOCK_SIZE == 0
    && var start := BlockOf(layout, q);
       && Owns(r, tid, start) && r[start].tag == n
       && (forall h, i | h != start && Covers(r, h, i) :: Covers(t, h, i) && !Covers(r, start, i))
       && (forall h, i | Covers(t, h, i) :: h != start && Covers(r, h, i))
       && (forall st | st < start :: !IsFreeRun(t, st, n))
  }

  /** What a successful request means: the run is new, disjoint from all others and owned. */
  lemma MallocMeans(t: seq<BlockTag>, layout: Layout, allowed: bool, tid: int, size: nat)
    requires WellFormed(t) && layout.base > 0
    ensures var (r, ptr) := Malloc(t, layout, allowed, tid, size);
            var n := ToBlocks(layout, size);
            if ptr == 0 then r == t && (!allowed || n == 0 || forall st :: !IsFreeRun(t, st, n))
            else IsNewRun(t, r, layout, tid, n, ptr)
  {
    var (r, ptr) := Malloc(t, layout, allowed, tid, size);
    var n := ToBlocks(layout, size);
    if ptr != 0 {
      var start := FirstFit(t, n).value;
      assert BlockOf(layout, ptr) == start;
      assert IsFree(t, start);
      FreeBlocksAreUntagged(t, start);
      forall h, i | h != start && Covers(r, h, i)
        ensures Covers(t, h, i) && !Covers(r, start, i)
      {
        assert Covers(t, h, i);
        assert start <= i < start + n ==> IsFree(t, i);
      }
      forall h, i | Covers(t, h, i)
        ensures h != start && Covers(r, h, i)
      {
      }
    }
  }

  // ---- What a reallocation and a free mean

  /** The n blocks from `start` are free but for those of run h. */
  ghost predicate IsRoomFor(t: seq<BlockTag>, h: int, start: int, n: nat) {
    0 <= start && start + n <= |t| && forall i, k | start <= i < start + n && Covers(t, k, i) :: k == h
  }

  /** Once a block is untagged it covers nothing, and all else is as before. */
  lemma UntaggedCovers(t: seq<BlockTag>, h: nat)
    requires h < |t|
    ensures forall k, i :: Covers(Untagged(t, h), k, i) <==> k != h && Covers(t, k, i)
  {
  }

  lemma RoomIsFree(t: seq<BlockTag>, h: nat, start: int, n: nat)
    requires h < |t|
    ensures IsFreeRun(Untagged(t, h), start, n) <==> IsRoomFor(t, h, start, n)
  {
    var u := Untagged(t, h);
    UntaggedCovers(t, h);
    if IsFreeRun(u, start, n) {
      forall i, k | start <= i < start + n && Covers(t, k, i)
        ensures k == h
      {
        assert IsFree(u, i);
        assert !Covers(u, k, i);
      }
    }
    if IsRoomFor(t, h, start, n) {
      forall i | start <= i < start + n
        ensures IsFree(u, i)
      {
        assert forall k :: Covers(u, k, i) ==> Covers(t, k, i);
      }
    }
  }

  /** A reallocation of the caller's run h that succeeds makes q the caller's new run of n blocks. */
  ghost predicate IsMoved(t: seq<BlockTag>, r: seq<BlockTag>, layout: Layout, tid: int, h: int, n: nat, q: nat) {
    && q >= layout.base && (q - layout.base) % BLOCK_SIZE == 0
    && var start := BlockOf(layout, q);
       && Owns(r, tid, start) && r[start].tag == n
       && IsRoomFor(t, h, start, n) && (forall st | st < start :: !IsRoomFor(t, h, st, n))
       && forall k, i | k != start :: Covers(r, k, i) <==> k != h && Covers(t, k, i)
  }

  /** What a reallocation makes of tags t: the result q, with the tags r. */
  ghost predicate IsReallocated(t: seq<BlockTag>, r: seq<BlockTag>, layout: Layout, allowed: bool, tid: int, ptr: nat,
                                n: nat, q: nat)
    requires layout.base <= ptr
  {
    var h := BlockOf(layout, ptr);
    var own := h < |t| && t[h].tid == tid;
    && |r| == |t|
    && (q == 0 <==> !allowed || (own && (n == 0 || forall st :: !IsRoomFor(t, h, st, n))))
    && (q == 0 ==> r == t)
    && (q != 0 && !own ==> r == t && q == ptr)
    && (q != 0 && own ==> IsMoved(t, r, layout, tid, h, n, q))
  }

  /** What a reallocation means: without permission it is refused; another thread's block, and a pointer
      past the heap, are handed back as they are.  The caller's own run keeps everything if there is no
      room for the new size in free blocks and its own; otherwise it moves to the lowest room there is. */
  lemma ReallocMeans(t: seq<BlockTag>, layout: Layout, allowed: bool, tid: int, ptr: nat, size: nat)
    requires WellFormed(t) && 0 < layout.base <= ptr
    ensures var (r, q) := Realloc(t, layout, allowed, tid, ptr, size);
            IsReallocated(t, r, layout, allowed, tid, ptr, ToBlocks(layout, size), q)
  {
    var h, n := BlockOf(layout, ptr), ToBlocks(layout, size);
    if allowed && h < |t| && t[h].tid == tid {
      var u := Untagged(t, h);
      assert WellFormed(u);
      MallocMeans(u, layout, allowed, tid, size);
      UntaggedCovers(t, h);
      forall st
        ensures IsFreeRun(u, st, n) <==> IsRoomFor(t, h, st, n)
      {
        RoomIsFree(t, h, st, n);
      }
      MallocFits(u, layout, tid, size);
    }
  }

  /** A request that is met gets free blocks. */
  lemma MallocFits(t: seq<BlockTag>, layout: Layout, tid: int, size: nat)
    requires layout.base > 0
    ensures var q := Malloc(t, layout, true, tid, size).1;
            && (q != 0 ==> q >= layout.base && IsFreeRun(t, BlockOf(layout, q), ToBlocks(layout, size)))
            && (q == 0 <==> ToBlocks(layout, size) == 0 || forall st :: !IsFreeRun(t, st, ToBlocks(layout, size)))
  {
  }

  /** What a free makes of tags t. */
  ghost predicate IsFreed(t: seq<BlockTag>, r: seq<BlockTag>, layout: Layout, allowed: bool, tid: int, ptr: nat)
    requires UsablePtr(layout, ptr)
  {
    && |r| == |t|
    && if allowed && ptr != 0 && BlockOf(layout, ptr) < |t| && t[BlockOf(layout, ptr)].tid == tid then
         var h := BlockOf(layout, ptr);
         && (forall i | Covers(t, h, i) :: IsFree(r, i))
         && forall k, i :: Covers(r, k, i) <==> k != h && Covers(t, k, i)
       else r == t
  }

  /** What a free means: the blocks of the caller's run, and only those, become free; any other pointer
      changes nothing. */
  lemma FreeMeans(t: seq<BlockTag>, layout: Layout, allowed: bool, tid: int, ptr: nat)
    requires WellFormed(t) && 0 < layout.base && UsablePtr(layout, ptr)
    ensures IsFreed(t, Free(t, layout, allowed, tid, ptr), layout, allowed, tid, ptr)
  {
    if ptr != 0 && BlockOf(layout, ptr) < |t| {
      var h := BlockOf(layout, ptr);
      UntaggedCovers(t, h);
      forall i, k | Covers(t, h, i) && k != h
        ensures !Covers(t, k, i)
      {
        RunsAreDisjoint(t, h, k, i);
      }
    }
  }

  /** Freed blocks serve the next request they are enough for, at the freed place or below. */
  lemma FreedBlocksServe(t: seq<BlockTag>, layout: Layout, owner: int, h: nat, tid: int, size: nat)
    requires WellFormed(t) && layout.base > 0 && Owns(t, owner, h) && 0 < ToBlocks(layout, size) <= t[h].tag
    ensures var q := Malloc(Free(t, layout, true, owner, BlockPtr(layout, h)), layout, true, tid, size).1;
            layout.base <= q <= BlockPtr(layout, h)
  {
    var r, n := Free(t, layout, true, owner, BlockPtr(layout, h)), ToBlocks(layout, size);
    assert BlockOf(layout, BlockPtr(layout, h)) == h;
    FreeMeans(t, layout, true, owner, BlockPtr(layout, h));
    forall i | h <= i < h + n
      ensures IsFree(r, i)
    {
      assert Covers(t, h, i);
    }
    assert IsFreeRun(r, h, n);
  }

  /** Freeing what was just allocated gives every block back. */
  lemma MallocThenFree(t: seq<BlockTag>, layout: Layout, tid: int, size: nat)
    requires WellFormed(t) && layout.base > 0
    ensures var (r, q) := Malloc(t, layout, true, tid, size);
            q != 0 ==>
              && layout.base <= q
              && forall k, i :: Covers(Free(r, layout, true, tid, q), k, i) <==> Covers(t, k, i)
  {
    var (r, q) := Malloc(t, layout, true, tid, size);
    MallocMeans(t, layout, true, tid, size);
    MallocKeepsWellFormed(t, layout, true, tid, size);
    if q != 0 {
      FreeMeans(r, layout, true, tid, q);
    }
  }

  /** A second free of the same pointer does nothing. */
  lemma FreeTwice(t: seq<BlockTag>, layout: Layout, allowed: bool, tid: int, ptr: nat)
    requires UsablePtr(layout, ptr)
    ensures var r := Free(t, layout, allowed, tid, ptr);
            && Free(r, layout, allowed, tid, ptr) == r
            && (tid != 0 && r != t ==> forall again :: Realloc(r, layout, allowed, tid, ptr, again) == (r, ptr))
  {
  }

  /** The end of a thread frees the blocks of its runs and no others. */
  lemma FreeAllMeans(t: seq<BlockTag>, tid: int)
    ensures var r := FreeAll(t, tid);
            |r| == |t| && forall k, i :: Covers(r, k, i) <==> Covers(t, k, i) && t[k].tid != tid
  {
  }
}
