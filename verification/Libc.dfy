/**
 The byte loops of src/common/libc.c.  Both loops work inside one array, so that source and
 destination may overlap, as they may in the heap and on a thread's stack.
 */
module Libc {
  import opened Basics

  ghost predicate InRange(size: nat, dst: nat, src: nat, len: nat) {
    dst + len <= size && src + len <= size
  }

  /** What a move promises: the destination holds the old source bytes, nothing else changes. */
  ghost function Moved(b: seq<uint8>, dst: nat, src: nat, len: nat): (r: seq<uint8>)
    requires InRange(|b|, dst, src, len)
    ensures |r| == |b|
  {
    seq(|b|, i requires 0 <= i < |b| => if dst <= i < dst + len then b[i - dst + src] else b[i])
  }

  /** The effect of copying `len` bytes one at a time, lowest address first. */
  ghost function ForwardCopy(b: seq<uint8>, dst: nat, src: nat, len: nat): (r: seq<uint8>)
    requires InRange(|b|, dst, src, len)
    ensures |r| == |b|
  {
    if len == 0 then b
    else var c := ForwardCopy(b, dst, src, len - 1); c[dst + len - 1 := c[src + len - 1]]
  }

  method Memcpy(a: array<uint8>, dst: nat, src: nat, len: nat)
    requires InRange(a.Length, dst, src, len)
    modifies a
    ensures a[..] == ForwardCopy(old(a[..]), dst, src, len)
  {
    var d, s := dst, src;
    var left := len;
    while left > 0
      invariant 0 <= left <= len && d == dst + (len - left) && s == src + (len - left)
      invariant a[..] == ForwardCopy(old(a[..]), dst, src, len - left)
    {
      a[d] := a[s];
      d, s, left := d + 1, s + 1, left - 1;
    }
  }

  method Memmove(a: array<uint8>, dst: nat, src: nat, len: nat)
    requires InRange(a.Length, dst, src, len)
    modifies a
    ensures a[..] == Moved(old(a[..]), dst, src, len)
  {
    if len == 0 || dst == src {
      return;
    }
    ghost var b := a[..];
    if src < dst {
      var k := len;
      while k > 0
        invariant 0 <= k <= len
        invariant forall i | 0 <= i < dst + k :: a[i] == b[i]
        invariant forall i | dst + k <= i < dst + len :: a[i] == b[i - dst + src]
        invariant forall i | dst + len <= i < a.Length :: a[i] == b[i]
      {
        k := k - 1;
        a[dst + k] := a[src + k];
      }
    } else {
      var k := 0;
      while k < len
        invariant 0 <= k <= len
        invariant forall i | 0 <= i < dst :: a[i] == b[i]
        invariant forall i | dst <= i < dst + k :: a[i] == b[i - dst + src]
        invariant forall i | dst + k <= i < a.Length :: a[i] == b[i]
      {
        a[dst + k] := a[src + k];
        k := k + 1;
      }
    }
  }

  /** Nothing outside the destination is written, and a destination that does not start inside
      the source (other than at its first byte) receives the old source bytes. */
  lemma {:induction false} ForwardCopyAt(b: seq<uint8>, dst: nat, src: nat, len: nat)
    requires InRange(|b|, dst, src, len)
    requires dst <= src || src + len <= dst
    ensures var r := ForwardCopy(b, dst, src, len);
            && (forall i | 0 <= i < dst :: r[i] == b[i])
            && (forall i | dst <= i < dst + len :: r[i] == b[i - dst + src])
            && (forall i | dst + len <= i < |b| :: r[i] == b[i])
  {
    if len == 0 {
    } else {
      ForwardCopyAt(b, dst, src, len - 1);
      var c, last := ForwardCopy(b, dst, src, len - 1), src + len - 1;
      assert last < dst || dst + (len - 1) <= last;
      assert c[last] == b[last];
      assert ForwardCopy(b, dst, src, len) == c[dst + len - 1 := b[last]];
    }
  }

  /** Whatever the overlap, nothing outside the destination is written. */
  lemma {:induction false} ForwardCopySpares(b: seq<uint8>, dst: nat, src: nat, len: nat)
    requires InRange(|b|, dst, src, len)
    ensures var r := ForwardCopy(b, dst, src, len);
            forall i | 0 <= i < |b| && !(dst <= i < dst + len) :: r[i] == b[i]
  {
    if len == 0 {
    } else {
      ForwardCopySpares(b, dst, src, len - 1);
    }
  }

  lemma ForwardCopyMoves(b: seq<uint8>, dst: nat, src: nat, len: nat)
    requires InRange(|b|, dst, src, len)
    requires dst <= src || src + len <= dst
    ensures ForwardCopy(b, dst, src, len) == Moved(b, dst, src, len)
  {
    ForwardCopyAt(b, dst, src, len);
    IsMoved(b, ForwardCopy(b, dst, src, len), dst, src, len);
  }

  lemma IsMoved(b: seq<uint8>, c: seq<uint8>, dst: nat, src: nat, len: nat)
    requires InRange(|b|, dst, src, len) && |c| == |b|
    requires forall i | 0 <= i < dst :: c[i] == b[i]
    requires forall i | dst <= i < dst + len :: c[i] == b[i - dst + src]
    requires forall i | dst + len <= i < |b| :: c[i] == b[i]
    ensures c == Moved(b, dst, src, len)
  {
  }

  lemma MovedSlice(b: seq<uint8>, dst: nat, src: nat, len: nat)
    requires InRange(|b|, dst, src, len)
    ensures Moved(b, dst, src, len)[dst..dst + len] == b[src..src + len]
  {
    var there, here := Moved(b, dst, src, len)[dst..dst + len], b[src..src + len];
    assert forall i | 0 <= i < len :: there[i] == here[i];
  }

  /** Bytes below the destination are never written; a destination inside the source repeats the
      first `dst - src` source bytes over and over. */
  lemma {:induction false} ForwardCopySmears(b: seq<uint8>, dst: nat, src: nat, len: nat)
    requires InRange(|b|, dst, src, len) && src < dst
    ensures var c := ForwardCopy(b, dst, src, len);
            && c[..dst] == b[..dst]
            && forall i | dst <= i < dst + len :: c[i] == c[i - dst + src]
  {
    if len == 0 {
    } else {
      ForwardCopySmears(b, dst, src, len - 1);
      var c, d := ForwardCopy(b, dst, src, len - 1), dst - src;
      assert ForwardCopy(b, dst, src, len) == c[dst + len - 1 := c[src + len - 1]];
      assert src + len - 1 == dst + len - 1 - d;
    }
  }

  lemma ForwardCopyFailsInside(b: seq<uint8>, dst: nat, src: nat, len: nat)
    requires InRange(|b|, dst, src, len)
    requires src < dst < src + len && b[src] != b[dst]
    ensures ForwardCopy(b, dst, src, len)[dst..dst + len] != b[src..src + len]
  {
    var d, c := dst - src, ForwardCopy(b, dst, src, len);
    ForwardCopySmears(b, dst, src, len);
    assert c[src] == c[..dst][src] == b[..dst][src] == b[src];
    assert c[dst + d] == c[dst] == c[src];
    assert c[dst..dst + len][d] == b[src] && b[src..src + len][d] == b[dst];
  }

  ghost predicate CopiesEveryContent(size: nat, dst: nat, src: nat, len: nat)
    requires InRange(size, dst, src, len)
  {
    forall b: seq<uint8> {:trigger ForwardCopy(b, dst, src, len)} | |b| == size ::
      ForwardCopy(b, dst, src, len)[dst..dst + len] == b[src..src + len]
  }

  /** A forward byte loop is a move for every memory content exactly when the destination does
      not start strictly inside the source. */
  lemma ForwardCopyIsMoveIff(size: nat, dst: nat, src: nat, len: nat)
    requires InRange(size, dst, src, len)
    ensures CopiesEveryContent(size, dst, src, len) <==> (dst <= src || src + len <= dst)
  {
    if dst <= src || src + len <= dst {
      forall b: seq<uint8> | |b| == size
        ensures ForwardCopy(b, dst, src, len)[dst..dst + len] == b[src..src + len]
      {
        ForwardCopyMoves(b, dst, src, len);
        MovedSlice(b, dst, src, len);
      }
    } else {
      var b: seq<uint8> := seq(size, _ => 0)[src := 1];
      ForwardCopyFailsInside(b, dst, src, len);
    }
  }
}
