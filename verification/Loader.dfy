/** The stack of a loader thread: k_add_thread_from_file_with_args moves the initial context down
    and copies the arguments and the filename above it. */
module Loader {
  import opened Basics
  import opened Threads
  import opened Scheduler
  import opened Lifecycle
  import Libc

  /** The stack can hold the filename, the arguments and the context with its alignment. */
  predicate FilenameFits(stackEnd: int, stackSize: nat, filenameLen: nat) {
    stackEnd - stackSize <= LoaderStackPtr(stackEnd, filenameLen)
  }

  /** The three regions lie in the stack in this order and do not overlap, and the context is
      aligned, whatever the filename's length. */
  lemma LoaderRegionsAreDisjoint(stackEnd: int, filenameLen: nat)
    ensures LoaderStackPtr(stackEnd, filenameLen) % STACK_ALIGN == 0
    ensures LoaderStackPtr(stackEnd, filenameLen) + CONTEXT_SIZE <= FilenameDest(stackEnd, filenameLen)
    ensures FilenameDest(stackEnd, filenameLen) + filenameLen == ArgsDest(stackEnd)
    ensures ArgsDest(stackEnd) + ARGS_SIZE == stackEnd
  {
    AlignDownIs(stackEnd);
    AlignDownIs(AlignDown(stackEnd) - CONTEXT_SIZE - filenameLen - ARGS_SIZE);
  }

  /** A simple bound on the filename is enough for everything to fit. */
  lemma ShortFilenamesFit(stackEnd: int, stackSize: nat, filenameLen: nat)
    requires filenameLen + ARGS_SIZE + CONTEXT_SIZE + 2 * STACK_ALIGN <= stackSize
    ensures FilenameFits(stackEnd, stackSize, filenameLen)
  {
    AlignDownIs(stackEnd);
    AlignDownIs(AlignDown(stackEnd) - CONTEXT_SIZE - filenameLen - ARGS_SIZE);
  }

  /** The bytes with `data` copied over them at `dst`. */
  ghost function Overwritten(b: seq<uint8>, dst: nat, data: seq<uint8>): seq<uint8>
    requires dst + |data| <= |b|
  {
    b[..dst] + data + b[dst + |data|..]
  }

  lemma OverwriteSpares(b: seq<uint8>, dst: nat, data: seq<uint8>, from: nat, to: nat)
    requires dst + |data| <= |b| && from <= to <= |b| && (to <= dst || dst + |data| <= from)
    ensures Overwritten(b, dst, data)[from..to] == b[from..to]
  {
  }

  method CopyIn(stack: array<uint8>, dst: nat, data: seq<uint8>)
    requires dst + |data| <= stack.Length
    modifies stack
    ensures stack[..] == Overwritten(old(stack[..]), dst, data)
  {
    var k := 0;
    while k < |data|
      invariant 0 <= k <= |data|
      invariant forall i | dst <= i < dst + k :: stack[i] == data[i - dst]
      invariant forall i | 0 <= i < dst :: stack[i] == old(stack[i])
      invariant forall i | dst + k <= i < stack.Length :: stack[i] == old(stack[i])
    {
      stack[dst + k] := data[k];
      k := k + 1;
    }
  }

  /** Moves a context of the given size, then copies the filename and the arguments above it. */
  method Fill(stack: array<uint8>, context: nat, oldContext: nat, name: nat, filename: seq<uint8>, args: seq<uint8>)
    requires oldContext + CONTEXT_SIZE <= stack.Length
    requires context + CONTEXT_SIZE <= name && name + |filename| + |args| == stack.Length
    modifies stack
    ensures stack[context..context + CONTEXT_SIZE] == old(stack[oldContext..oldContext + CONTEXT_SIZE])
    ensures stack[name..name + |filename|] == filename
    ensures stack[name + |filename|..] == args
  {
    ghost var b0, argsDest := stack[..], name + |filename|;
    Libc.Memmove(stack, context, oldContext, CONTEXT_SIZE);
    ghost var b1 := stack[..];
    CopyIn(stack, name + |filename|, args);
    ghost var b2 := stack[..];
    CopyIn(stack, name, filename);
    ghost var b3 := stack[..];
    OverwriteSpares(b1, argsDest, args, context, context + CONTEXT_SIZE);
    OverwriteSpares(b2, name, filename, context, context + CONTEXT_SIZE);
    OverwriteSpares(b2, name, filename, argsDest, |b2|);
    Libc.MovedSlice(b0, context, oldContext, CONTEXT_SIZE);
    assert b1[context..context + CONTEXT_SIZE] == b0[oldContext..oldContext + CONTEXT_SIZE];
    assert b2[argsDest..|b2|] == args;
    assert b3[name..name + |filename|] == filename;
    assert stack[argsDest..] == b3[argsDest..|b2|];
  }

  /** Prepares the stack at `base` of a freshly initialised loader thread and returns its new stack
      pointer.  The context keeps its contents although it may overlap its old place, and both
      copies arrive whole. */
  method PrepareStack(stack: array<uint8>, base: int, filename: seq<uint8>, args: seq<uint8>) returns (stackPtr: int)
    requires |args| == ARGS_SIZE && |filename| >= 1
    requires FilenameFits(base + stack.Length, stack.Length, |filename|)
    modifies stack
    ensures stackPtr == LoaderStackPtr(base + stack.Length, |filename|) && base <= stackPtr
    ensures var name := FilenameDest(base + stack.Length, |filename|) - base;
            && stackPtr - base + CONTEXT_SIZE <= name
            && stack[name..name + |filename|] == filename && stack[name + |filename|..] == args
    ensures var oldPtr := AlignDown(base + stack.Length) - CONTEXT_SIZE;
            && base <= oldPtr
            && stack[stackPtr - base..stackPtr - base + CONTEXT_SIZE]
               == old(stack[oldPtr - base..oldPtr - base + CONTEXT_SIZE])
  {
    var stackEnd := base + stack.Length;
    var oldPtr := AlignDown(stackEnd) - CONTEXT_SIZE;
    LoaderRegionsAreDisjoint(stackEnd, |filename|);
    AlignDownIs(stackEnd);
    AlignDownIs(oldPtr - |filename| - ARGS_SIZE);
    stackPtr := AlignDown(oldPtr - |filename| - ARGS_SIZE);
    var argsDest := stackEnd - ARGS_SIZE;
    var filenameDest := argsDest - |filename|;
    Fill(stack, stackPtr - base, oldPtr - base, filenameDest - base, filename, args);
  }
}
