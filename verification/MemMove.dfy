/**
 `memmove` (lib/memmove.c) over a memory of bytes: forwards or backwards, in bytes
 until the operands are aligned and then in words. An address is an index.
 */
module MemMove {
  import opened Common

  const WSIZE: nat := 8

  /** Where the byte at an address comes from, once `w` bytes went from `s` to `d`. */
  function Origin(k: nat, d: nat, s: nat, w: nat): nat {
    if d <= k < d + w then s + (k - d) else k
  }

  /** Memory in which `w` bytes were loaded from `s` and then stored at `d`. */
  ghost predicate Copied(was: seq<Byte>, mem: seq<Byte>, d: nat, s: nat, w: nat)
    requires |was| == |mem| && d + w <= |was| && s + w <= |was|
  {
    forall k :: 0 <= k < |was| ==> mem[k] == was[Origin(k, d, s, w)]
  }

  /** Memory in which bytes `lo` to `hi` of a block have been moved from `s` to `d`. */
  ghost predicate Moved(was: seq<Byte>, mem: seq<Byte>, d: nat, s: nat, lo: nat, hi: nat)
    requires |was| == |mem| && lo <= hi && d + hi <= |was| && s + hi <= |was|
  {
    Copied(was, mem, d + lo, s + lo, hi - lo)
  }

  lemma NothingMoved(mem: seq<Byte>, d: nat, s: nat, i: nat)
    requires d + i <= |mem| && s + i <= |mem|
    ensures Moved(mem, mem, d, s, i, i)
  {
  }

  /** Towards lower addresses, a block can be moved on from its start. */
  lemma MovedUp(was: seq<Byte>, m: seq<Byte>, m1: seq<Byte>, d: nat, s: nat, i: nat, w: nat)
    requires |was| == |m| == |m1| && d < s && s + i + w <= |was|
    requires Moved(was, m, d, s, 0, i) && Copied(m, m1, d + i, s + i, w)
    ensures Moved(was, m1, d, s, 0, i + w)
  {
  }

  /** Towards higher addresses, from its end. */
  lemma MovedDown(was: seq<Byte>, m: seq<Byte>, m1: seq<Byte>, d: nat, s: nat, i: nat, w: nat, len: nat)
    requires |was| == |m| == |m1| && s < d && w <= i <= len && d + len <= |was|
    requires Moved(was, m, d, s, i, len) && Copied(m, m1, d + i - w, s + i - w, w)
    ensures Moved(was, m1, d, s, i - w, len)
  {
  }

  method CopyByte(mem: array<Byte>, d: nat, s: nat)
    requires d < mem.Length && s < mem.Length
    modifies mem
    ensures Copied(old(mem[..]), mem[..], d, s, 1)
  {
    mem[d] := mem[s];
  }

  /** A load and a store of a whole word; both addresses must be aligned. */
  method CopyWord(mem: array<Byte>, d: nat, s: nat)
    requires d + WSIZE <= mem.Length && s + WSIZE <= mem.Length && d % WSIZE == 0 && s % WSIZE == 0
    modifies mem
    ensures Copied(old(mem[..]), mem[..], d, s, WSIZE)
  {
    var word := mem[s..s + WSIZE];
    forall i | d <= i < d + WSIZE { mem[i] := word[i - d]; }
  }

  /** `t` bytes upwards, from offset `i` of the block on. */
  method BytesUp(mem: array<Byte>, d: nat, s: nat, i: nat, t: nat, ghost was: seq<Byte>)
    requires d < s && s + i + t <= mem.Length == |was| && Moved(was, mem[..], d, s, 0, i)
    modifies mem
    ensures Moved(was, mem[..], d, s, 0, i + t)
  {
    hide Moved, Copied;
    for n := 0 to t
      invariant Moved(was, mem[..], d, s, 0, i + n)
    {
      ghost var m := mem[..];
      CopyByte(mem, d + i + n, s + i + n);
      MovedUp(was, m, mem[..], d, s, i + n, 1);
    }
  }

  /** `t` words upwards */
  method WordsUp(mem: array<Byte>, d: nat, s: nat, i: nat, t: nat, ghost was: seq<Byte>)
    requires d < s && s + i + t * WSIZE <= mem.Length == |was| && Moved(was, mem[..], d, s, 0, i)
    requires t > 0 ==> (d + i) % WSIZE == 0 && (s + i) % WSIZE == 0
    modifies mem
    ensures Moved(was, mem[..], d, s, 0, i + t * WSIZE)
  {
    hide Moved, Copied;
    for n := 0 to t
      invariant Moved(was, mem[..], d, s, 0, i + n * WSIZE)
    {
      ghost var m := mem[..];
      CopyWord(mem, d + i + n * WSIZE, s + i + n * WSIZE);
      MovedUp(was, m, mem[..], d, s, i + n * WSIZE, WSIZE);
    }
  }

  /** `t` bytes downwards, below offset `i` of the block. */
  method BytesDown(mem: array<Byte>, d: nat, s: nat, i: nat, t: nat, len: nat, ghost was: seq<Byte>)
    requires s < d && t <= i <= len && d + len <= mem.Length == |was| && Moved(was, mem[..], d, s, i, len)
    modifies mem
    ensures Moved(was, mem[..], d, s, i - t, len)
  {
    hide Moved, Copied;
    for n := 0 to t
      invariant Moved(was, mem[..], d, s, i - n, len)
    {
      ghost var m := mem[..];
      CopyByte(mem, d + i - n - 1, s + i - n - 1);
      MovedDown(was, m, mem[..], d, s, i - n, 1, len);
    }
  }

  /** `t` words downwards */
  method WordsDown(mem: array<Byte>, d: nat, s: nat, i: nat, t: nat, len: nat, ghost was: seq<Byte>)
    requires s < d && t * WSIZE <= i <= len && d + len <= mem.Length == |was| && Moved(was, mem[..], d, s, i, len)
    requires t > 0 ==> (d + i) % WSIZE == 0 && (s + i) % WSIZE == 0
    modifies mem
    ensures Moved(was, mem[..], d, s, i - t * WSIZE, len)
  {
    hide Moved, Copied;
    for n := 0 to t
      invariant Moved(was, mem[..], d, s, i - n * WSIZE, len)
    {
      ghost var m := mem[..];
      CopyWord(mem, d + i - n * WSIZE - WSIZE, s + i - n * WSIZE - WSIZE);
      MovedDown(was, m, mem[..], d, s, i - n * WSIZE, WSIZE, len);
    }
  }

  /** How many bytes to copy until both operands are aligned, or all of them if they
      never are, or there are too few. */
  function ToAlignUp(src: nat, dst: nat, length: nat): (t: nat)
    requires length > 0
    ensures t <= length
    ensures t < length ==> (src + t) % WSIZE == 0 && (dst + t) % WSIZE == 0
  {
    if src % WSIZE == 0 && dst % WSIZE == 0 then 0
    else if src % WSIZE != dst % WSIZE || length < WSIZE then length
    else WSIZE - src % WSIZE
  }

  function ToAlignDown(src: nat, dst: nat, length: nat): (t: nat)
    requires length > 0
    ensures t <= length
    ensures t < length ==> (src + length - t) % WSIZE == 0 && (dst + length - t) % WSIZE == 0
  {
    if (src + length) % WSIZE == 0 && (dst + length) % WSIZE == 0 then 0
    else if (src + length) % WSIZE != (dst + length) % WSIZE || length <= WSIZE then length
    else (src + length) % WSIZE
  }

  method Forward(mem: array<Byte>, dst: nat, src: nat, length: nat)
    requires dst < src && src + length <= mem.Length && length > 0
    modifies mem
    ensures Moved(old(mem[..]), mem[..], dst, src, 0, length)
  {
    hide ToAlignUp, Copied;
    ghost var was := mem[..];
    NothingMoved(was, dst, src, 0);
    var t0 := ToAlignUp(src, dst, length);
    BytesUp(mem, dst, src, 0, t0, was);
    var left := length - t0;
    WordsUp(mem, dst, src, t0, left / WSIZE, was);
    BytesUp(mem, dst, src, t0 + left / WSIZE * WSIZE, left % WSIZE, was);
    assert t0 + left / WSIZE * WSIZE + left % WSIZE == length;
  }

  method Backward(mem: array<Byte>, dst: nat, src: nat, length: nat)
    requires src < dst && dst + length <= mem.Length && length > 0
    modifies mem
    ensures Moved(old(mem[..]), mem[..], dst, src, 0, length)
  {
    hide ToAlignDown, Copied;
    ghost var was := mem[..];
    NothingMoved(was, dst, src, length);
    var t0 := ToAlignDown(src, dst, length);
    BytesDown(mem, dst, src, length, t0, length, was);
    var left := length - t0;
    WordsDown(mem, dst, src, left, left / WSIZE, length, was);
    BytesDown(mem, dst, src, left - left / WSIZE * WSIZE, left % WSIZE, length, was);
    assert left - left / WSIZE * WSIZE - left % WSIZE == 0;
  }

  /** The destination becomes what the source was, and nothing else changes, however
      the two overlap and are aligned. */
  method Memmove(mem: array<Byte>, dst: nat, src: nat, length: nat)
    requires dst + length <= mem.Length && src + length <= mem.Length
    modifies mem
    ensures mem[dst..dst + length] == old(mem[src..src + length])
    ensures mem[..dst] == old(mem[..dst]) && mem[dst + length..] == old(mem[dst + length..])
  {
    if length == 0 || dst == src { return; }
    if dst < src {
      Forward(mem, dst, src, length);
    } else {
      Backward(mem, dst, src, length);
    }
    Whole(old(mem[..]), mem[..], dst, src, length);
  }

  lemma Whole(was: seq<Byte>, mem: seq<Byte>, d: nat, s: nat, n: nat)
    requires |was| == |mem| && d + n <= |was| && s + n <= |was| && Moved(was, mem, d, s, 0, n)
    ensures mem[d..d + n] == was[s..s + n] && mem[..d] == was[..d] && mem[d + n..] == was[d + n..]
  {
    forall j | d <= j < d + n
      ensures mem[j] == was[s..s + n][j - d]
    {
      assert mem[j] == was[Origin(j, d, s, n)];
    }
  }
}
