/** The heap of src/kernel/alloc.c, changed in place. */
module Allocator {
  import opened Basics
  import opened BlockTags
  import Libc

  class Heap {
    const layout: Layout
    const blockTags: array<BlockTag>
    const bytes: array<uint8>

    ghost predicate Valid()
      reads blockTags
    {
      && 1 <= blockTags.Length <= 65535  // tags are uint16_t
      && bytes.Length == blockTags.Length * BLOCK_SIZE
      && 0 < layout.base && layout.base + bytes.Length <= layout.sizeMax
      && WellFormed(blockTags[..])
    }

    constructor (layout: Layout, numBlocks: nat)
      requires 1 <= numBlocks <= 65535
      requires 0 < layout.base && layout.base + numBlocks * BLOCK_SIZE <= layout.sizeMax
      ensures Valid() && fresh(blockTags) && fresh(bytes) && this.layout == layout
      ensures blockTags[..] == seq(numBlocks, _ => BlockTag(0, 0))
    {
      this.layout := layout;
      blockTags := new BlockTag[numBlocks](_ => BlockTag(0, 0));
      bytes := new uint8[numBlocks * BLOCK_SIZE](_ => 0);
    }

    /** The next block the tag walk visits, or SIZE_MAX at the end of the heap.  From a boundary between
        runs it goes to the very next one. */
    method NextTag(idx: nat) returns (next: nat)
      requires Valid() && idx < blockTags.Length
      ensures var after := idx + if blockTags[idx].tag > 0 then blockTags[idx].tag else 1;
              next == if after < blockTags.Length then after else layout.sizeMax
      ensures IsBoundary(blockTags[..], idx) ==>
                var end := if next == layout.sizeMax then blockTags.Length else next;
                idx < end && IsBoundary(blockTags[..], end) && forall i | idx < i < end :: !IsBoundary(blockTags[..], i)
    {
      ghost var t := blockTags[..];
      NextBoundary(t, idx);
      next := idx;
      if blockTags[next].tag != 0 {
        next := next + blockTags[next].tag;
      } else {
        next := next + 1;
      }
      next := if next < blockTags.Length then next else layout.sizeMax;
    }

    /** First fit by walking the tags; SIZE_MAX when nothing fits. */
    method FindFreeSpace(numBlocks: nat) returns (start: nat)
      requires Valid()
      ensures match FirstFit(blockTags[..], numBlocks)
              case Some(fit) => start == fit
              case None => start == layout.sizeMax
    {
      ghost var t := blockTags[..];
      var freeFound, startIdx, currentIdx := 0, 0, 0;
      ghost var walked := 0;
      while true
        invariant 0 <= walked < |t| && currentIdx == walked && IsBoundary(t, walked)
        invariant 0 <= startIdx && startIdx + freeFound == walked && 0 <= freeFound
        invariant numBlocks > 0 ==> freeFound < numBlocks
        invariant IsFreeRun(t, startIdx, freeFound)
        invariant forall st | 0 <= st < startIdx :: !IsFreeRun(t, st, numBlocks) || numBlocks == 0
        decreases |t| - walked
      {
        ghost var here := walked;
        if blockTags[currentIdx].tag != 0 {
          freeFound := 0;
          currentIdx := NextTag(currentIdx);
          walked := walked + t[walked].tag;
          CannotStartBefore(t, startIdx, here, numBlocks);
          startIdx := currentIdx;
        } else {
          freeFound := freeFound + 1;
          currentIdx := NextTag(currentIdx);
          walked := walked + 1;
          UntaggedBoundaryIsFree(t, here);
          assert IsFreeRun(t, startIdx, freeFound);
          if freeFound == numBlocks {
            return startIdx;
          }
        }
        if currentIdx == layout.sizeMax {
          break;
        }
      }
      start := layout.sizeMax;
    }

    method Malloc(allowed: bool, tid: int, size: nat) returns (ptr: nat)
      requires Valid() && size <= layout.sizeMax
      modifies blockTags
      ensures Valid()
      ensures (blockTags[..], ptr) == BlockTags.Malloc(old(blockTags[..]), layout, allowed, tid, size)
    {
      if !allowed {
        return 0;
      }
      var numBlocks := ToBlocks(layout, size);
      var allocIdx := FindFreeSpace(numBlocks);
      if allocIdx != layout.sizeMax {
        MallocKeepsWellFormed(blockTags[..], layout, allowed, tid, size);
        blockTags[allocIdx] := BlockTag(tid, numBlocks);
        return BlockPtr(layout, allocIdx);
      }
      return 0;
    }

    /** Copies the part of an old run, from byte `src`, that its new place `to` can hold. */
    method CopyRun(src: nat, to: nat, numBlocks: nat, oldTag: nat, size: nat)
      requires 31 < layout.sizeMax && size <= layout.sizeMax && bytes.Length == blockTags.Length * BLOCK_SIZE
      requires numBlocks == ToBlocks(layout, size) > 0 && to + numBlocks <= blockTags.Length
      requires src + CopySize(oldTag, size) <= bytes.Length
      modifies bytes
      ensures Libc.InRange(bytes.Length, to * BLOCK_SIZE, src, CopySize(oldTag, size))
      ensures bytes[..] == Libc.ForwardCopy(old(bytes[..]), to * BLOCK_SIZE, src, CopySize(oldTag, size))
    {
      var oldSize := oldTag * BLOCK_SIZE;
      var copySize := if size < oldSize then size else oldSize;
      RoundedSizeFits(layout, size);
      Libc.Memcpy(bytes, to * BLOCK_SIZE, src, copySize);
    }

    method Realloc(allowed: bool, tid: int, ptr: nat, size: nat) returns (r: nat)
      requires Valid() && size <= layout.sizeMax
      requires UsablePtr(layout, ptr) && CopyStaysInside(blockTags[..], layout, allowed, tid, ptr, size)
      modifies blockTags, bytes
      ensures Valid()
      ensures (blockTags[..], r) == BlockTags.Realloc(old(blockTags[..]), layout, allowed, tid, ptr, size)
      ensures bytes[..] == ReallocBytes(old(bytes[..]), old(blockTags[..]), layout, allowed, tid, ptr, size)
    {
      ghost var t := blockTags[..];
      ReallocKeepsWellFormed(t, layout, allowed, tid, ptr, size);
      if !allowed {
        return 0;
      }
      if ptr == 0 {
        r := Malloc(allowed, tid, size);
        return;
      }
      if ptr >= layout.base + bytes.Length || blockTags[BlockOf(layout, ptr)].tid != tid {
        return ptr;
      }
      var numBlocks, tagIdx := ToBlocks(layout, size), BlockOf(layout, ptr);
      var oldTag := blockTags[tagIdx].tag;
      blockTags[tagIdx] := blockTags[tagIdx].(tag := 0);
      assert blockTags[..] == Untagged(t, tagIdx);
      var allocIdx := FindFreeSpace(numBlocks);
      if allocIdx != layout.sizeMax {
        assert Relocates(t, layout, allowed, tid, ptr, size);
        CopyRun(ptr - layout.base, allocIdx, numBlocks, oldTag, size);
        blockTags[allocIdx] := BlockTag(tid, numBlocks);
        return BlockPtr(layout, allocIdx);
      }
      assert !Relocates(t, layout, allowed, tid, ptr, size);
      blockTags[tagIdx] := blockTags[tagIdx].(tag := oldTag);
      assert blockTags[..] == t;
      return 0;
    }

    /** Releases the runs of `tid`, although it clears the tags it walks by. */
    method FreeAll(tid: int)
      requires Valid()
      modifies blockTags
      ensures Valid()
      ensures blockTags[..] == BlockTags.FreeAll(old(blockTags[..]), tid)
    {
      ghost var t := blockTags[..];
      ghost var done := BlockTags.FreeAll(t, tid);
      var currentIdx := 0;
      while currentIdx != layout.sizeMax
        invariant 0 <= currentIdx && (currentIdx < |t| || currentIdx == layout.sizeMax)
        invariant Valid()
        invariant forall i | 0 <= i < |t| && i < currentIdx :: blockTags[i] == done[i]
        invariant forall i | 0 <= i < |t| && i >= currentIdx :: blockTags[i] == t[i]
        decreases if currentIdx < |t| then |t| - currentIdx else 0
      {
        if blockTags[currentIdx].tag != 0 && blockTags[currentIdx].tid == tid {
          blockTags[currentIdx] := blockTags[currentIdx].(tag := 0);
        }
        currentIdx := NextTag(currentIdx);
      }
    }

    method Free(allowed: bool, tid: int, ptr: nat)
      requires Valid() && UsablePtr(layout, ptr)
      modifies blockTags
      ensures Valid()
      ensures blockTags[..] == BlockTags.Free(old(blockTags[..]), layout, allowed, tid, ptr)
    {
      if !allowed || ptr == 0 || ptr >= layout.base + bytes.Length
         || blockTags[BlockOf(layout, ptr)].tid != tid {
        return;
      }
      var tagIdx := BlockOf(layout, ptr);
      blockTags[tagIdx] := BlockTag(0, 0);
    }
  }

  // ---- Steps of the tag walk

  lemma UntaggedBoundaryIsFree(t: seq<BlockTag>, i: nat)
    requires i < |t| && IsBoundary(t, i) && t[i].tag == 0
    ensures IsFree(t, i)
  {
    assert forall h :: !Covers(t, h, i);
  }

  lemma BoundaryAfter(t: seq<BlockTag>, i: nat, next: nat)
    requires WellFormed(t) && i < |t| && IsBoundary(t, i)
    requires next == i + if t[i].tag > 0 then t[i].tag else 1
    ensures IsBoundary(t, next)
  {
    assert forall h | i < h < next :: t[h].tag == 0;
  }

  /** Skipping a run, or one free block, leads to the next boundary. */
  lemma NextBoundary(t: seq<BlockTag>, i: nat)
    requires WellFormed(t) && i < |t|
    ensures var next := i + if t[i].tag > 0 then t[i].tag else 1;
            next <= |t| && (IsBoundary(t, i) ==> IsBoundary(t, next) && forall k | i < k < next :: !IsBoundary(t, k))
  {
    var next := i + if t[i].tag > 0 then t[i].tag else 1;
    if IsBoundary(t, i) {
      BoundaryAfter(t, i, next);
    }
  }

  /** Once the walk meets an allocated run, no fit starts at or before the run's last block. */
  lemma CannotStartBefore(t: seq<BlockTag>, from: nat, at: nat, n: nat)
    requires WellFormed(t) && at < |t| && t[at].tag > 0 && from <= at && (n > 0 ==> at < from + n)
    ensures forall st | from <= st < at + t[at].tag :: !IsFreeRun(t, st, n) || n == 0
  {
    forall st | from <= st < at + t[at].tag && n > 0
      ensures !IsFreeRun(t, st, n)
    {
      var i := if st <= at then at else st;
      assert Covers(t, at, i);
      assert IsFreeRun(t, st, n) ==> IsFree(t, i);
    }
  }

  lemma ModOf(x: nat, q: nat, m: nat)
    requires x < m && q <= 1
    ensures (q * m + x) % m == x
  {
  }

  /** A size that wraps in the rounding asks for no blocks; any other is covered by its blocks. */
  lemma RoundedSizeFits(layout: Layout, size: nat)
    requires 31 < layout.sizeMax && size <= layout.sizeMax
    ensures ToBlocks(layout, size) == 0 <==> size == 0 || size + 31 > layout.sizeMax
    ensures ToBlocks(layout, size) > 0 ==> size <= ToBlocks(layout, size) * BLOCK_SIZE < size + BLOCK_SIZE
  {
    var m := layout.sizeMax + 1;
    if size + 31 < m {
      ModOf(size + 31, 0, m);
    } else {
      ModOf(size + 31 - m, 1, m);
      assert 1 * m == m;
      assert ToBlocks(layout, size) == (size + 31 - m) / BLOCK_SIZE;
    }
  }

  // ---- The contents of allocations

  /** The bytes a reallocation carries over. */
  function CopySize(oldTag: nat, size: nat): nat {
    if size < oldTag * BLOCK_SIZE then size else oldTag * BLOCK_SIZE
  }

  /** The call moves a run of its owner. */
  ghost predicate Relocates(t: seq<BlockTag>, layout: Layout, allowed: bool, tid: int, ptr: nat, size: nat)
    requires UsablePtr(layout, ptr)
  {
    && allowed && CanReallocFree(t, layout, tid, ptr)
    && FirstFit(Untagged(t, BlockOf(layout, ptr)), ToBlocks(layout, size)).Some?
  }

  /** What the call copies lies in the heap, as it always does for the start of a block. */
  ghost predicate CopyStaysInside(t: seq<BlockTag>, layout: Layout, allowed: bool, tid: int, ptr: nat, size: nat)
    requires UsablePtr(layout, ptr)
  {
    Relocates(t, layout, allowed, tid, ptr, size) ==>
      ptr - layout.base + CopySize(t[BlockOf(layout, ptr)].tag, size) <= |t| * BLOCK_SIZE
  }

  lemma BlockStartsStayInside(t: seq<BlockTag>, layout: Layout, allowed: bool, tid: int, ptr: nat, size: nat)
    requires WellFormed(t) && UsablePtr(layout, ptr) && IsAligned(layout, ptr)
    ensures CopyStaysInside(t, layout, allowed, tid, ptr, size)
  {
    if CanReallocFree(t, layout, tid, ptr) {
      AlignedPtr(layout, ptr);
    }
  }

  /** The heap's bytes after a reallocation, by the forward byte loop. */
  ghost function ReallocBytes(b: seq<uint8>, t: seq<BlockTag>, layout: Layout, allowed: bool, tid: int, ptr: nat,
                              size: nat): (r: seq<uint8>)
    requires WellFormed(t) && |b| == |t| * BLOCK_SIZE && 31 < layout.sizeMax && size <= layout.sizeMax
    requires UsablePtr(layout, ptr) && CopyStaysInside(t, layout, allowed, tid, ptr, size)
    ensures |r| == |b|
  {
    if !Relocates(t, layout, allowed, tid, ptr, size) then b
    else
      RoundedSizeFits(layout, size);
      var h := BlockOf(layout, ptr);
      var start := FirstFit(Untagged(t, h), ToBlocks(layout, size)).value;
      Libc.ForwardCopy(b, start * BLOCK_SIZE, ptr - layout.base, CopySize(t[h].tag, size))
  }

  predicate IsAligned(layout: Layout, ptr: nat)
    requires UsablePtr(layout, ptr)
  {
    ptr != 0 ==> (ptr - layout.base) % BLOCK_SIZE == 0
  }

  lemma AlignedPtr(layout: Layout, ptr: nat)
    requires layout.base <= ptr && (ptr - layout.base) % BLOCK_SIZE == 0
    ensures BlockOf(layout, ptr) * BLOCK_SIZE == ptr - layout.base
  {
  }

  /** The bytes a relocation copies start at `src`, in run h, and go to `start`. */
  ghost predicate IsRelocation(t: seq<BlockTag>, h: nat, n: nat, start: nat, src: nat, copied: nat) {
    && WellFormed(t) && h < |t| && FirstFit(Untagged(t, h), n) == Some(start)
    && h * BLOCK_SIZE <= src && src + copied <= |t| * BLOCK_SIZE
    && copied <= t[h].tag * BLOCK_SIZE && copied <= n * BLOCK_SIZE
  }

  /** The forward byte loop stays out of every other run. */
  lemma RelocationSparesOthers(b: seq<uint8>, t: seq<BlockTag>, h: nat, n: nat, start: nat, src: nat, copied: nat)
    requires IsRelocation(t, h, n, start, src, copied) && |b| == |t| * BLOCK_SIZE
    ensures Libc.InRange(|b|, start * BLOCK_SIZE, src, copied)
    ensures var after := Libc.ForwardCopy(b, start * BLOCK_SIZE, src, copied);
            forall p, k | 0 <= p < |b| && k != h && Covers(t, k, p / BLOCK_SIZE) :: after[p] == b[p]
  {
    Libc.ForwardCopySpares(b, start * BLOCK_SIZE, src, copied);
    forall p, k | 0 <= p < |b| && k != h && Covers(t, k, p / BLOCK_SIZE)
      ensures !(start * BLOCK_SIZE <= p < start * BLOCK_SIZE + copied)
    {
      RelocationTakesNoOthersBlock(t, h, n, start, k, p / BLOCK_SIZE);
    }
  }

  /** First fit makes the forward byte loop a move, for a run copied from its start. */
  lemma StartOfRunMoves(t: seq<BlockTag>, h: nat, n: nat, start: nat, src: nat, copied: nat)
    requires IsRelocation(t, h, n, start, src, copied) && src == h * BLOCK_SIZE
    ensures start * BLOCK_SIZE <= src || src + copied <= start * BLOCK_SIZE
  {
    RelocationNeverStartsInside(t, h, n, start);
  }

  /** What a reallocation copies, and where to. */
  lemma RelocationOf(t: seq<BlockTag>, layout: Layout, allowed: bool, tid: int, ptr: nat, size: nat)
    requires WellFormed(t) && 31 < layout.sizeMax && size <= layout.sizeMax && UsablePtr(layout, ptr)
    requires CopyStaysInside(t, layout, allowed, tid, ptr, size) && Relocates(t, layout, allowed, tid, ptr, size)
    ensures var h, n := BlockOf(layout, ptr), ToBlocks(layout, size);
            var start := FirstFit(Untagged(t, h), n).value;
            && IsRelocation(t, h, n, start, ptr - layout.base, CopySize(t[h].tag, size))
            && Realloc(t, layout, allowed, tid, ptr, size).1 == layout.base + start * BLOCK_SIZE
  {
    RoundedSizeFits(layout, size);
  }

  /** From any pointer, a reallocation changes no byte of any other allocation. */
  lemma ReallocSparesOtherBytes(b: seq<uint8>, t: seq<BlockTag>, layout: Layout, allowed: bool, tid: int, ptr: nat,
                                size: nat)
    requires WellFormed(t) && |b| == |t| * BLOCK_SIZE && UsablePtr(layout, ptr)
    requires 31 < layout.sizeMax && size <= layout.sizeMax
    requires CopyStaysInside(t, layout, allowed, tid, ptr, size) && Relocates(t, layout, allowed, tid, ptr, size)
    ensures var after := ReallocBytes(b, t, layout, allowed, tid, ptr, size);
            forall p, k | 0 <= p < |b| && k != BlockOf(layout, ptr) && Covers(t, k, p / BLOCK_SIZE) :: after[p] == b[p]
  {
    var h, n := BlockOf(layout, ptr), ToBlocks(layout, size);
    var start, copied := FirstFit(Untagged(t, h), n).value, CopySize(t[h].tag, size);
    RelocationOf(t, layout, allowed, tid, ptr, size);
    RelocationSparesOthers(b, t, h, n, start, ptr - layout.base, copied);
  }

  /** Although the copy is a forward byte loop over regions that may overlap, reallocating a block keeps
      its first min(size, old size) bytes and changes no byte of any other allocation. */
  lemma ReallocKeepsContents(b: seq<uint8>, t: seq<BlockTag>, layout: Layout, allowed: bool, tid: int, ptr: nat,
                             size: nat)
    requires WellFormed(t) && |b| == |t| * BLOCK_SIZE && UsablePtr(layout, ptr) && IsAligned(layout, ptr)
    requires 31 < layout.sizeMax && size <= layout.sizeMax && Relocates(t, layout, allowed, tid, ptr, size)
    ensures CopyStaysInside(t, layout, allowed, tid, ptr, size)
    ensures var after := ReallocBytes(b, t, layout, allowed, tid, ptr, size);
            var src, dst := ptr - layout.base, Realloc(t, layout, allowed, tid, ptr, size).1 - layout.base;
            var copied := CopySize(t[BlockOf(layout, ptr)].tag, size);
            && dst >= 0 && Libc.InRange(|b|, dst, src, copied)
            && after[dst..dst + copied] == b[src..src + copied]
            && forall p, k | 0 <= p < |b| && k != BlockOf(layout, ptr) && Covers(t, k, p / BLOCK_SIZE) ::
                 after[p] == b[p]
  {
    var h, n := BlockOf(layout, ptr), ToBlocks(layout, size);
    var start, src, copied := FirstFit(Untagged(t, h), n).value, ptr - layout.base, CopySize(t[h].tag, size);
    BlockStartsStayInside(t, layout, allowed, tid, ptr, size);
    RelocationOf(t, layout, allowed, tid, ptr, size);
    ReallocSparesOtherBytes(b, t, layout, allowed, tid, ptr, size);
    AlignedPtr(layout, ptr);
    StartOfRunMoves(t, h, n, start, src, copied);
    Libc.ForwardCopyMoves(b, start * BLOCK_SIZE, src, copied);
    Libc.MovedSlice(b, start * BLOCK_SIZE, src, copied);
  }

  /** The bytes copied arrive as they were, whatever the heap contains. */
  ghost predicate KeepsEveryContent(t: seq<BlockTag>, layout: Layout, allowed: bool, tid: int, ptr: nat, size: nat,
                                    dst: nat,
                                    src: nat, copied: nat)
    requires WellFormed(t) && UsablePtr(layout, ptr) && 31 < layout.sizeMax && size <= layout.sizeMax
    requires CopyStaysInside(t, layout, allowed, tid, ptr, size) && Libc.InRange(|t| * BLOCK_SIZE, dst, src, copied)
  {
    forall b: seq<uint8> {:trigger ReallocBytes(b, t, layout, allowed, tid, ptr, size)} | |b| == |t| * BLOCK_SIZE ::
      ReallocBytes(b, t, layout, allowed, tid, ptr, size)[dst..dst + copied] == b[src..src + copied]
  }

  /** The call copies `copied` bytes from src to dst. */
  ghost predicate CopiesTo(t: seq<BlockTag>, layout: Layout, allowed: bool, tid: int, ptr: nat, size: nat, dst: nat,
                           src: nat, copied: nat)
  {
    && WellFormed(t) && UsablePtr(layout, ptr) && 31 < layout.sizeMax && size <= layout.sizeMax
    && CopyStaysInside(t, layout, allowed, tid, ptr, size) && Relocates(t, layout, allowed, tid, ptr, size)
    && src == ptr - layout.base && copied == CopySize(t[BlockOf(layout, ptr)].tag, size)
    && dst == FirstFit(Untagged(t, BlockOf(layout, ptr)), ToBlocks(layout, size)).value * BLOCK_SIZE
  }

  lemma CopiesInRange(t: seq<BlockTag>, layout: Layout, allowed: bool, tid: int, ptr: nat, size: nat, dst: nat,
                      src: nat,
                      copied: nat)
    requires CopiesTo(t, layout, allowed, tid, ptr, size, dst, src, copied)
    ensures Libc.InRange(|t| * BLOCK_SIZE, dst, src, copied)
    ensures Realloc(t, layout, allowed, tid, ptr, size).1 == layout.base + dst
  {
    RelocationOf(t, layout, allowed, tid, ptr, size);
    BytesOf(seq(|t| * BLOCK_SIZE, _ => 0), t, layout, allowed, tid, ptr, size, dst, src, copied);
  }

  /** From any other pointer a reallocation keeps the bytes it copies exactly if the new place does not
      start inside them. */
  lemma ReallocKeepsEveryContentIff(t: seq<BlockTag>, layout: Layout, allowed: bool, tid: int, ptr: nat, size: nat)
    requires WellFormed(t) && UsablePtr(layout, ptr) && 31 < layout.sizeMax && size <= layout.sizeMax
    requires CopyStaysInside(t, layout, allowed, tid, ptr, size) && Relocates(t, layout, allowed, tid, ptr, size)
    ensures var src, dst := ptr - layout.base, Realloc(t, layout, allowed, tid, ptr, size).1 - layout.base;
            var copied := CopySize(t[BlockOf(layout, ptr)].tag, size);
            && dst >= 0 && Libc.InRange(|t| * BLOCK_SIZE, dst, src, copied)
            && (KeepsEveryContent(t, layout, allowed, tid, ptr, size, dst, src, copied)
                <==> dst <= src || src + copied <= dst)
  {
    var h := BlockOf(layout, ptr);
    var src, copied := ptr - layout.base, CopySize(t[h].tag, size);
    var dst := FirstFit(Untagged(t, h), ToBlocks(layout, size)).value * BLOCK_SIZE;
    CopiesInRange(t, layout, allowed, tid, ptr, size, dst, src, copied);
    if dst <= src || src + copied <= dst {
      ClearCopyKeeps(t, layout, allowed, tid, ptr, size, dst, src, copied);
    } else {
      InsideCopyFails(t, layout, allowed, tid, ptr, size, dst, src, copied);
    }
  }

  lemma BytesOf(b: seq<uint8>, t: seq<BlockTag>, layout: Layout, allowed: bool, tid: int, ptr: nat, size: nat,
                dst: nat, src: nat, copied: nat)
    requires CopiesTo(t, layout, allowed, tid, ptr, size, dst, src, copied) && |b| == |t| * BLOCK_SIZE
    ensures Libc.InRange(|b|, dst, src, copied)
    ensures ReallocBytes(b, t, layout, allowed, tid, ptr, size) == Libc.ForwardCopy(b, dst, src, copied)
  {
    RoundedSizeFits(layout, size);
  }

  lemma ClearCopyKeeps(t: seq<BlockTag>, layout: Layout, allowed: bool, tid: int, ptr: nat, size: nat, dst: nat,
                       src: nat, copied: nat)
    requires CopiesTo(t, layout, allowed, tid, ptr, size, dst, src, copied)
    requires Libc.InRange(|t| * BLOCK_SIZE, dst, src, copied)
    requires dst <= src || src + copied <= dst
    ensures KeepsEveryContent(t, layout, allowed, tid, ptr, size, dst, src, copied)
  {
    forall b: seq<uint8> | |b| == |t| * BLOCK_SIZE
      ensures ReallocBytes(b, t, layout, allowed, tid, ptr, size)[dst..dst + copied] == b[src..src + copied]
    {
      BytesOf(b, t, layout, allowed, tid, ptr, size, dst, src, copied);
      Libc.ForwardCopyMoves(b, dst, src, copied);
      Libc.MovedSlice(b, dst, src, copied);
    }
  }

  lemma InsideCopyFails(t: seq<BlockTag>, layout: Layout, allowed: bool, tid: int, ptr: nat, size: nat, dst: nat,
                        src: nat, copied: nat)
    requires CopiesTo(t, layout, allowed, tid, ptr, size, dst, src, copied)
    requires Libc.InRange(|t| * BLOCK_SIZE, dst, src, copied)
    requires src < dst < src + copied
    ensures !KeepsEveryContent(t, layout, allowed, tid, ptr, size, dst, src, copied)
  {
    var blank: seq<uint8> := seq(|t| * BLOCK_SIZE, _ => 0);
    var b := blank[src := 1];
    BytesOf(b, t, layout, allowed, tid, ptr, size, dst, src, copied);
    Libc.ForwardCopyFailsInside(b, dst, src, copied);
  }

  // ---- Bytes over whole runs of calls

  /** The call's size is a size_t, and what it copies lies in the heap. */
  ghost predicate IsSafe(call: HeapCall, t: seq<BlockTag>, layout: Layout)
    requires call.Usable(layout)
  {
    call.CallRealloc? ==>
      call.size <= layout.sizeMax && CopyStaysInside(t, layout, call.allowed, call.tid, call.ptr, call.size)
  }

  /** The heap's bytes after a call: only a reallocation moves any. */
  ghost function ApplyBytes(b: seq<uint8>, t: seq<BlockTag>, layout: Layout, call: HeapCall): (r: seq<uint8>)
    requires WellFormed(t) && |b| == |t| * BLOCK_SIZE && 31 < layout.sizeMax
    requires call.Usable(layout) && IsSafe(call, t, layout)
    ensures |r| == |b|
  {
    match call
    case CallRealloc(tid, allowed, ptr, size) => ReallocBytes(b, t, layout, allowed, tid, ptr, size)
    case _ => b
  }

  ghost predicate AllSafe(t: seq<BlockTag>, layout: Layout, calls: seq<HeapCall>)
    decreases |calls|
  {
    calls == []
    || (calls[0].Usable(layout) && IsSafe(calls[0], t, layout)
         && AllSafe(calls[0].Apply(t, layout), layout, calls[1..]))
  }

  ghost function ApplyAllBytes(b: seq<uint8>, t: seq<BlockTag>, layout: Layout, calls: seq<HeapCall>): seq<uint8>
    requires WellFormed(t) && |b| == |t| * BLOCK_SIZE && 31 < layout.sizeMax && AllSafe(t, layout, calls)
    decreases |calls|
  {
    if calls == [] then b
    else
      ApplyKeepsWellFormed(t, layout, calls[0]);
      ApplyAllBytes(ApplyBytes(b, t, layout, calls[0]), calls[0].Apply(t, layout), layout, calls[1..])
  }

  lemma CallSparesRun(b: seq<uint8>, t: seq<BlockTag>, layout: Layout, call: HeapCall, owner: int, h: int)
    requires WellFormed(t) && |b| == |t| * BLOCK_SIZE && 31 < layout.sizeMax
    requires call.Usable(layout) && IsSafe(call, t, layout) && Owns(t, owner, h) && call.tid != owner
    ensures |call.Apply(t, layout)| == |t| && call.Apply(t, layout)[h] == t[h]
    ensures forall p | 0 <= p < |b| && Covers(t, h, p / BLOCK_SIZE) :: ApplyBytes(b, t, layout, call)[p] == b[p]
  {
    OthersNeverTouchARun(t, layout, [call], owner, h);
    assert [call][1..] == [];
    assert ApplyAll(t, layout, [call]) == call.Apply(t, layout);
    match call {
      case CallRealloc(tid, allowed, ptr, size) =>
        if Relocates(t, layout, allowed, tid, ptr, size) {
          ReallocSparesOtherBytes(b, t, layout, allowed, tid, ptr, size);
        }
      case _ =>
    }
  }

  /** No byte of a run changes through any calls that are not for its owner. */
  lemma {:induction false} OthersNeverTouchBytes(b: seq<uint8>, t: seq<BlockTag>, layout: Layout, calls: seq<HeapCall>,
                                                 owner: int, h: int, p: nat)
    requires WellFormed(t) && |b| == |t| * BLOCK_SIZE && 31 < layout.sizeMax && AllSafe(t, layout, calls)
    requires Owns(t, owner, h) && p < |b| && Covers(t, h, p / BLOCK_SIZE)
    requires forall c | c in calls :: c.tid != owner
    ensures p < |ApplyAllBytes(b, t, layout, calls)| && ApplyAllBytes(b, t, layout, calls)[p] == b[p]
    decreases |calls|
  {
    if calls == [] {
    } else {
      var call := calls[0];
      ApplyKeepsWellFormed(t, layout, call);
      CallSparesRun(b, t, layout, call, owner, h);
      OthersNeverTouchBytes(ApplyBytes(b, t, layout, call), call.Apply(t, layout), layout, calls[1..], owner, h, p);
    }
  }
}
