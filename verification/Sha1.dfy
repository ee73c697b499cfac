/**
 SHA-1 (lib/sha1.c) against FIPS 180-4: the message schedule in a circular buffer
 of 16 words, rounds on rotating registers, and a context that takes a message in
 chunks.
 */
module Sha1 {
  import opened Common

  type Octet = bv8
  type Word = bv32

  const TWO32: nat := 0x1_0000_0000
  const TWO64: nat := 0x1_0000_0000_0000_0000

  datatype Hash = Hash(a: Word, b: Word, c: Word, d: Word, e: Word)

  function Rol(x: Word, n: bv6): Word
    requires n <= 32
  {
    (x << n) | (x >> (32 - n))
  }

  // --- Sections 4.1.1 and 4.2.1 of FIPS 180-4 ---

  function Ch(x: Word, y: Word, z: Word): Word { (x & y) ^ (!x & z) }
  function Parity(x: Word, y: Word, z: Word): Word { x ^ y ^ z }
  function Maj(x: Word, y: Word, z: Word): Word { (x & y) ^ (x & z) ^ (y & z) }

  function F(t: nat, x: Word, y: Word, z: Word): Word {
    if t < 20 then Ch(x, y, z)
    else if t < 40 then Parity(x, y, z)
    else if t < 60 then Maj(x, y, z)
    else Parity(x, y, z)
  }

  function K(t: nat): Word {
    if t < 20 then 0x5A827999 else if t < 40 then 0x6ED9EBA1 else if t < 60 then 0x8F1BBCDC else 0xCA62C1D6
  }

  // --- Section 6.1.2: the hash computation ---

  function Join(p: Octet, q: Octet, r: Octet, s: Octet): Word {
    (p as Word << 24) | (q as Word << 16) | (r as Word << 8) | s as Word
  }

  /** A word of four bytes, the highest first. */
  function BigEndian(s: seq<Octet>, i: nat): Word
    requires i + 4 <= |s|
  {
    Join(s[i], s[i + 1], s[i + 2], s[i + 3])
  }

  function Combine(a: Word, b: Word, c: Word, d: Word): Word { Rol(a ^ b ^ c ^ d, 1) }

  /** The message schedule of a block, in 80 words. */
  function W(block: seq<Octet>, t: nat): Word
    requires |block| == 64
  {
    if t < 16 then BigEndian(block, 4 * t)
    else Combine(W(block, t - 3), W(block, t - 8), W(block, t - 14), W(block, t - 16))
  }

  function Step(r: Hash, f: Word, k: Word, w: Word): Hash {
    Hash(Sum(Rol(r.a, 5), f, r.e, k, w), r.a, Rol(r.b, 30), r.c, r.d)
  }

  function Sum(v: Word, f: Word, e: Word, k: Word, w: Word): Word { v + f + e + k + w }

  /** The working variables after `t` rounds. */
  function Rounds(h: Hash, block: seq<Octet>, t: nat): Hash
    requires |block| == 64
  {
    if t == 0 then h
    else
      var r := Rounds(h, block, t - 1);
      Step(r, F(t - 1, r.b, r.c, r.d), K(t - 1), W(block, t - 1))
  }

  function Compress(h: Hash, block: seq<Octet>): Hash
    requires |block| == 64
  {
    Plus(h, Rounds(h, block, 80))
  }

  function Plus(h: Hash, r: Hash): Hash {
    Hash(h.a + r.a, h.b + r.b, h.c + r.c, h.d + r.d, h.e + r.e)
  }

  const H0 := Hash(0x67452301, 0xEFCDAB89, 0x98BADCFE, 0x10325476, 0xC3D2E1F0)

  // --- What the numbers are ---

  /** The round constants are the square roots of 2, 3, 5 and 10, times 2^30, rounded down. */
  lemma KRoots(t: nat)
    ensures var x, k := (if t < 20 then 2 else if t < 40 then 3 else if t < 60 then 5 else 10), K(t) as nat;
      k * k <= x * 0x1000_0000_0000_0000 < (k + 1) * (k + 1)
  {
    if t < 20 {
      assert K(t) as nat == 0x5A827999;
    } else if t < 40 {
      assert K(t) as nat == 0x6ED9EBA1;
    } else if t < 60 {
      assert K(t) as nat == 0x8F1BBCDC;
    } else {
      assert K(t) as nat == 0xCA62C1D6;
    }
  }

  /** Four bytes as a word, the lowest first. */
  function Bytes(p: Word, q: Word, r: Word, s: Word): Word { p + 0x100 * q + 0x1_0000 * r + 0x100_0000 * s }

  /** The initial hash value counts up, then down, in its digits. */
  lemma H0Counts()
    ensures H0.a == Bytes(0x01, 0x23, 0x45, 0x67) && H0.b == Bytes(0x89, 0xAB, 0xCD, 0xEF)
    ensures H0.c == Bytes(0xFE, 0xDC, 0xBA, 0x98) && H0.d == Bytes(0x76, 0x54, 0x32, 0x10)
    ensures H0.e == Bytes(0xF0, 0xE1, 0xD2, 0xC3)
  {
  }

  /** A round, with its rotations as multiplications and divisions of words. */
  lemma StepMeans(r: Hash, f: Word, k: Word, w: Word)
    ensures Step(r, f, k, w) == Hash(Sum(Rotated(r.a, 32, 0x800_0000), f, r.e, k, w), r.a, Rotated(r.b, 0x4000_0000, 4), r.c, r.d)
  {
    hide Rol, Rotated, Sum;
    TimesThirtyTwo(r.a);
    OverFour(r.b);
  }

  /** A word times a power of two, and what goes over the end. */
  function Rotated(x: Word, up: Word, down: Word): Word
    requires down != 0
  {
    x * up + x / down
  }

  lemma TimesThirtyTwo(x: Word) ensures Rol(x, 5) == Rotated(x, 32, 0x800_0000) { }
  lemma OverFour(x: Word) ensures Rol(x, 30) == Rotated(x, 0x4000_0000, 4) { }
  lemma Doubled(x: Word) ensures Rol(x, 1) == Rotated(x, 2, 0x8000_0000) { }

  lemma CombineMeans(a: Word, b: Word, c: Word, d: Word)
    ensures Combine(a, b, c, d) == Rotated(a ^ b ^ c ^ d, 2, 0x8000_0000)
  {
    hide Rol, Rotated;
    Doubled(a ^ b ^ c ^ d);
  }

  function HashBlocks(m: seq<Octet>): Hash
    requires |m| % 64 == 0
  {
    if m == [] then H0 else Compress(HashBlocks(m[..|m| - 64]), m[|m| - 64..])
  }

  // --- Section 5.1.1: padding ---

  function Zeros(k: nat): (r: seq<Octet>)
    ensures |r| == k
  {
    seq(k, _ => 0)
  }

  function AsOctet(x: nat): Octet
    requires x < 256
  {
    x as Octet
  }

  function ByteAt(n: nat, unit: nat): Octet
    requires unit > 0
  {
    AsOctet(n / unit % 256)
  }

  /** The bytes of a 32-bit number, the highest first. */
  function Bytes32(n: nat): (r: seq<Octet>)
    ensures |r| == 4
  {
    [ByteAt(n, 0x100_0000), ByteAt(n, 0x1_0000), ByteAt(n, 0x100), ByteAt(n, 1)]
  }

  /** A 64-bit length, the highest byte first. */
  function LengthBytes(n: nat): (r: seq<Octet>)
    ensures |r| == 8
  {
    Bytes32(n / TWO32) + Bytes32(n % TWO32)
  }

  lemma Digits256(a: nat, b: nat, c: nat, d: nat)
    requires a < 256 && b < 256 && c < 256 && d < 256
    ensures var n := ((a * 256 + b) * 256 + c) * 256 + d;
      n / 0x100_0000 % 256 == a && n / 0x1_0000 % 256 == b && n / 0x100 % 256 == c && n / 1 % 256 == d
  {
  }

  /** The bytes of a number are its digits in base 256, the highest first; every 32-bit number has four. */
  lemma Bytes32Means(a: nat, b: nat, c: nat, d: nat)
    requires a < 256 && b < 256 && c < 256 && d < 256
    ensures Bytes32(((a * 256 + b) * 256 + c) * 256 + d) == [AsOctet(a), AsOctet(b), AsOctet(c), AsOctet(d)]
  {
    hide AsOctet;
    Digits256(a, b, c, d);
  }

  /** The zero bytes that leave room for exactly the length in the last block. */
  function PadZeros(n: nat): (k: nat)
    ensures (n + 1 + k) % 64 == 56
  {
    if n % 64 <= 55 then 55 - n % 64 else 119 - n % 64
  }

  lemma PadZerosFewest(n: nat, z: nat)
    requires (n + 1 + z) % 64 == 56
    ensures PadZeros(n) <= z
  {
  }

  lemma PadLength(n: nat)
    ensures (n + 1 + PadZeros(n) + 8) % 64 == 0
  {
  }

  function Padded(m: seq<Octet>): (r: seq<Octet>)
    ensures |r| % 64 == 0
  {
    PadLength(|m|);
    m + [0x80] + Zeros(PadZeros(|m|)) + LengthBytes(8 * |m| % TWO64)
  }

  /** The bytes of a word, the highest first. */
  function WordBytes(w: Word): (r: seq<Octet>)
    ensures |r| == 4
  {
    [((w >> 24) & 255) as Octet, ((w >> 16) & 255) as Octet, ((w >> 8) & 255) as Octet, (w & 255) as Octet]
  }

  lemma WordBytesJoin(w: Word)
    ensures BigEndian(WordBytes(w), 0) == w
  {
  }

  function DigestOf(h: Hash): (r: seq<Octet>)
    ensures |r| == 20
  {
    WordBytes(h.a) + WordBytes(h.b) + WordBytes(h.c) + WordBytes(h.d) + WordBytes(h.e)
  }

  /** The five words that a digest is made of. */
  function DigestWords(d: seq<Octet>): Hash
    requires |d| == 20
  {
    Hash(BigEndian(d, 0), BigEndian(d, 4), BigEndian(d, 8), BigEndian(d, 12), BigEndian(d, 16))
  }

  lemma DigestRoundTrip(h: Hash)
    ensures DigestWords(DigestOf(h)) == h
  {
    hide WordBytes, Join;
    WordBytesJoin(h.a);
    WordBytesJoin(h.b);
    WordBytesJoin(h.c);
    WordBytesJoin(h.d);
    WordBytesJoin(h.e);
  }

  /** The digest of a message. */
  function Sha1(m: seq<Octet>): seq<Octet> {
    DigestOf(HashBlocks(Padded(m)))
  }

  // --- The transform ---

  /** A word as the machine loads it, the lowest byte first. */
  function Loaded(s: seq<Octet>, i: nat): Word
    requires i + 4 <= |s|
  {
    Join(s[i + 3], s[i + 2], s[i + 1], s[i])
  }

  function Swap(x: Word): Word {
    (Rol(x, 24) & 0xFF00FF00) | (Rol(x, 8) & 0x00FF00FF)
  }

  lemma SwapBytes(p: Octet, q: Octet, r: Octet, s: Octet)
    ensures Swap(Join(s, r, q, p)) == Join(p, q, r, s)
  {
  }

  /** The round functions as the source writes them. */
  function Choose(w: Word, x: Word, y: Word): Word { (w & (x ^ y)) ^ y }
  function Vote(w: Word, x: Word, y: Word): Word { ((w | x) & y) | (w & x) }

  function Mix(t: nat, w: Word, x: Word, y: Word): Word {
    if t < 20 then Choose(w, x, y)
    else if t < 40 then Parity(w, x, y)
    else if t < 60 then Vote(w, x, y)
    else Parity(w, x, y)
  }

  lemma ChooseBits(w: Word, x: Word, y: Word)
    ensures (w & (x ^ y)) ^ y == (w & x) ^ (!w & y)
  {
  }

  lemma VoteBits(w: Word, x: Word, y: Word)
    ensures ((w | x) & y) | (w & x) == (w & x) ^ (w & y) ^ (x & y)
  {
  }

  lemma ChooseIsCh(w: Word, x: Word, y: Word)
    ensures Choose(w, x, y) == Ch(w, x, y)
  {
    ChooseBits(w, x, y);
  }

  lemma VoteIsMaj(w: Word, x: Word, y: Word)
    ensures Vote(w, x, y) == Maj(w, x, y)
  {
    VoteBits(w, x, y);
  }

  lemma MixIsF(t: nat, w: Word, x: Word, y: Word)
    ensures Mix(t, w, x, y) == F(t, w, x, y)
  {
    hide Ch, Parity, Maj, Choose, Vote;
    ChooseIsCh(w, x, y);
    VoteIsMaj(w, x, y);
  }

  /** What a macro adds up, in its order. */
  function Accumulate(z: Word, f: Word, w: Word, k: Word, v: Word): Word { z + (f + w + k + v) }

  lemma Reassociate(z: Word, f: Word, w: Word, k: Word, v: Word)
    ensures Accumulate(z, f, w, k, v) == Sum(v, f, z, k, w)
  {
  }

  /** The circular buffer before round `t`: the last words of the schedule, and behind
      them the words of the block not yet swapped. */
  ghost predicate Circular(ws: seq<Word>, block: seq<Octet>, t: nat)
    requires |ws| == 16 && |block| == 64
  {
    && (forall u :: 0 <= u < t <= u + 16 ==> ws[u % 16] == W(block, u))
    && (forall i :: t <= i < 16 ==> ws[i] == Loaded(block, 4 * i))
  }

  /** `blk0` and `blk`: the word of the schedule that the buffer yields for a round. */
  function Expand(ws: seq<Word>, t: nat): Word
    requires |ws| == 16
  {
    if t < 16 then Swap(ws[t])
    else Combine(ws[(t + 13) % 16], ws[(t + 8) % 16], ws[(t + 2) % 16], ws[t % 16])
  }

  lemma Apart(t: nat, u: nat)
    requires u < t < u + 16
    ensures u % 16 != t % 16
  {
  }

  lemma ExpandIsW(ws: seq<Word>, block: seq<Octet>, t: nat)
    requires |ws| == 16 && |block| == 64 && Circular(ws, block, t)
    ensures Expand(ws, t) == W(block, t)
  {
    hide Rol, Swap, Join, Combine;
    if t < 16 {
      SwapBytes(block[4 * t], block[4 * t + 1], block[4 * t + 2], block[4 * t + 3]);
    } else {
      WStep(block, t);
    }
  }

  lemma WStep(block: seq<Octet>, t: nat)
    requires |block| == 64 && t >= 16
    ensures W(block, t) == Combine(W(block, t - 3), W(block, t - 8), W(block, t - 14), W(block, t - 16))
  {
  }

  lemma CircularStep(ws: seq<Word>, block: seq<Octet>, t: nat)
    requires |ws| == 16 && |block| == 64 && Circular(ws, block, t)
    ensures Circular(ws[t % 16 := W(block, t)], block, t + 1)
  {
    hide W, Loaded;
    var xs := ws[t % 16 := W(block, t)];
    forall u | 0 <= u < t + 1 <= u + 16
      ensures xs[u % 16] == W(block, u)
    {
      if u < t { Apart(t, u); }
    }
  }

  /** One of the macros R0 to R4: round `t`, on registers in the roles of the working
      variables. It leaves the new `a` in `z` and the new `c` in `w`. */
  method Round(v: Word, w: Word, x: Word, y: Word, z: Word, t: nat, ws: array<Word>, ghost block: seq<Octet>)
    returns (w1: Word, z1: Word)
    requires ws.Length == 16 && |block| == 64 && Circular(ws[..], block, t)
    modifies ws
    ensures Circular(ws[..], block, t + 1)
    ensures Hash(z1, v, w1, x, y) == Step(Hash(v, w, x, y, z), F(t, w, x, y), K(t), W(block, t))
  {
    hide Circular, Expand, W, Rol, F, K, Mix, Accumulate, Sum;
    ExpandIsW(ws[..], block, t);
    CircularStep(ws[..], block, t);
    MixIsF(t, w, x, y);
    ghost var was := ws[..];
    ws[t % 16] := Expand(ws[..], t);
    assert ws[..] == was[t % 16 := W(block, t)];
    Reassociate(z, F(t, w, x, y), W(block, t), K(t), Rol(v, 5));
    z1 := Accumulate(z, Mix(t, w, x, y), ws[t % 16], K(t), Rol(v, 5));
    w1 := Rol(w, 30);
  }

  lemma RoundsStep(h: Hash, block: seq<Octet>, t: nat)
    requires |block| == 64
    ensures var r := Rounds(h, block, t);
      Rounds(h, block, t + 1) == Step(r, F(t, r.b, r.c, r.d), K(t), W(block, t))
  {
  }

  /** `sha1_transform`. The source unrolls the loop; its registers are back in their
      places after every five rounds. */
  method Transform(h: Hash, buffer: seq<Octet>) returns (r: Hash)
    requires |buffer| == 64
    ensures r == Compress(h, buffer)
  {
    hide W, F, K, Step, Rounds, Circular, Plus;
    var ws := Load(buffer);
    var a, b, c, d, e := h.a, h.b, h.c, h.d, h.e;
    RoundsNone(h, buffer);
    var t := 0;
    while t < 80
      invariant 0 <= t <= 80 && t % 5 == 0 && fresh(ws) && ws.Length == 16
      invariant Circular(ws[..], buffer, t)
      invariant Hash(a, b, c, d, e) == Rounds(h, buffer, t)
    {
      RoundsStep(h, buffer, t);
      b, e := Round(a, b, c, d, e, t, ws, buffer);
      RoundsStep(h, buffer, t + 1);
      a, d := Round(e, a, b, c, d, t + 1, ws, buffer);
      RoundsStep(h, buffer, t + 2);
      e, c := Round(d, e, a, b, c, t + 2, ws, buffer);
      RoundsStep(h, buffer, t + 3);
      d, b := Round(c, d, e, a, b, t + 3, ws, buffer);
      RoundsStep(h, buffer, t + 4);
      c, a := Round(b, c, d, e, a, t + 4, ws, buffer);
      t := t + 5;
    }
    r := Plus(h, Hash(a, b, c, d, e));
  }

  lemma RoundsNone(h: Hash, block: seq<Octet>)
    requires |block| == 64
    ensures Rounds(h, block, 0) == h
  {
  }

  /** The copy of a block into the workspace, seen as 16 words. */
  method Load(buffer: seq<Octet>) returns (ws: array<Word>)
    requires |buffer| == 64
    ensures fresh(ws) && ws.Length == 16 && Circular(ws[..], buffer, 0)
  {
    hide Loaded;
    ws := new Word[16];
    for i := 0 to 16
      invariant forall j :: 0 <= j < i ==> ws[j] == Loaded(buffer, 4 * j)
    {
      ws[i] := Loaded(buffer, 4 * i);
    }
  }

  // --- The context ---

  /** The longest prefix of a message made of whole blocks. */
  function Whole(n: nat): (r: nat)
    ensures r <= n < r + 64 && r % 64 == 0
  {
    n - n % 64
  }

  lemma LenSplits(len: nat)
    ensures len * 8 == len / 0x2000_0000 * TWO32 + (len * 8) % TWO32
  {
  }

  lemma Carries(c0: nat, lo: nat)
    requires c0 < TWO32 && lo < TWO32
    ensures var d0 := (c0 + lo) % TWO32; c0 + lo == (if d0 < lo then TWO32 else 0) + d0
  {
  }

  lemma Split(x: nat, y: nat)
    requires y < TWO32
    ensures (x * TWO32 + y) % TWO64 == x % TWO32 * TWO32 + y
  {
  }

  lemma ModAdds(x: nat, y: nat)
    ensures (x % TWO64 + y) % TWO64 == (x + y) % TWO64
  {
  }

  lemma ModTwice(x: nat, y: nat)
    ensures (x % TWO32 + y) % TWO32 == (x + y) % TWO32
  {
  }

  function NewLow(c0: nat, len: nat): nat { (c0 + (len * 8) % TWO32) % TWO32 }

  function NewHigh(c0: nat, c1: nat, len: nat): nat {
    ((c1 + (if NewLow(c0, len) < (len * 8) % TWO32 then 1 else 0)) % TWO32 + len / 0x2000_0000) % TWO32
  }

  /** The two-word bit count, with its carry, counts 8 bits for every byte. */
  lemma CountAdds(c0: nat, c1: nat, n: nat, len: nat)
    requires c0 < TWO32 && c1 < TWO32 && c1 * TWO32 + c0 == 8 * n % TWO64
    ensures NewLow(c0, len) < TWO32 && NewHigh(c0, c1, len) < TWO32
    ensures NewHigh(c0, c1, len) * TWO32 + NewLow(c0, len) == 8 * (n + len) % TWO64
  {
    var lo, hi, d0 := (len * 8) % TWO32, len / 0x2000_0000, NewLow(c0, len);
    var carry := if d0 < lo then 1 else 0;
    LenSplits(len);
    Carries(c0, lo);
    ModAdds(8 * n, 8 * len);
    ModTwice(c1 + carry, hi);
    Split(c1 + carry + hi, d0);
  }

  /** One more block of a message. */
  lemma NextBlock(m: seq<Octet>, w: nat)
    requires w % 64 == 0 && w + 64 <= |m|
    ensures HashBlocks(m[..w + 64]) == Compress(HashBlocks(m[..w]), m[w..w + 64])
  {
    var p := m[..w + 64];
    assert p[..|p| - 64] == m[..w] && p[|p| - 64..] == m[w..w + 64];
  }

  /** The low word of the count gives the number of buffered bytes. */
  lemma Buffered(c0: nat, c1: nat, n: nat)
    requires c0 < TWO32 && c1 * TWO32 + c0 == 8 * n % TWO64
    ensures c0 / 8 % 64 == n % 64
  {
    var q := 8 * n / TWO64;
    var k := q * 0x80_0000_0000_0000 + c1 * 0x80_0000;
    assert 8 * n == q * TWO64 + (c1 * TWO32 + c0);
    assert c0 == 8 * (n - 64 * k);
  }

  /** The whole blocks of a message are in the hash and the rest is in the buffer. */
  ghost predicate Absorbed(m: seq<Octet>, state: Hash, buffer: seq<Octet>) {
    && |buffer| == 64
    && state == HashBlocks(m[..Whole(|m|)])
    && buffer[..|m| % 64] == m[Whole(|m|)..]
  }

  lemma AbsorbedSmall(m: seq<Octet>, data: seq<Octet>, state: Hash, was: seq<Octet>, buffer: seq<Octet>)
    requires Absorbed(m, state, was) && |m| % 64 + |data| <= 63 && |buffer| == 64
    requires buffer[..|m| % 64 + |data|] == was[..|m| % 64] + data
    ensures Absorbed(m + data, state, buffer)
  {
    hide HashBlocks;
    assert (m + data)[..Whole(|m|)] == m[..Whole(|m|)];
    assert (m + data)[Whole(|m|)..] == m[Whole(|m|)..] + data;
  }

  lemma FirstBlock(m: seq<Octet>, data: seq<Octet>, state: Hash, was: seq<Octet>, i: nat)
    requires Absorbed(m, state, was) && i == 64 - |m| % 64 <= |data|
    ensures was[..|m| % 64] + data[..i] == (m + data)[Whole(|m|)..Whole(|m|) + 64]
    ensures Compress(state, was[..|m| % 64] + data[..i]) == HashBlocks((m + data)[..|m| + i])
  {
    hide HashBlocks, Compress;
    var w := Whole(|m|);
    assert (m + data)[..w] == m[..w];
    assert was[..|m| % 64] + data[..i] == (m + data)[w..w + 64];
    NextBlock(m + data, w);
  }

  lemma MiddleBlock(m: seq<Octet>, data: seq<Octet>, i: nat)
    requires (|m| + i) % 64 == 0 && i + 64 <= |data|
    ensures Compress(HashBlocks((m + data)[..|m| + i]), data[i..i + 64]) == HashBlocks((m + data)[..|m| + (i + 64)])
  {
    hide HashBlocks, Compress;
    assert data[i..i + 64] == (m + data)[|m| + i..|m| + i + 64];
    NextBlock(m + data, |m| + i);
  }

  lemma AbsorbedLast(m: seq<Octet>, data: seq<Octet>, i: nat, state: Hash, buffer: seq<Octet>)
    requires (|m| + i) % 64 == 0 && i <= |data| < i + 64 && |buffer| == 64
    requires state == HashBlocks((m + data)[..|m| + i]) && buffer[..|data| - i] == data[i..]
    ensures Absorbed(m + data, state, buffer)
  {
    hide HashBlocks;
    assert Whole(|m + data|) == |m| + i;
    assert (m + data)[|m| + i..] == data[i..];
  }

  class Context {
    var state: Hash
    var count0: nat
    var count1: nat
    const buffer: array<Octet>

    /** The message so far. */
    ghost var msg: seq<Octet>

    ghost predicate Valid()
      reads this, buffer
    {
      && buffer.Length == 64 && Counts(|msg|)
      && Absorbed(msg, state, buffer[..])
    }

    ghost predicate Counts(n: nat)
      reads this
    {
      count0 < TWO32 && count1 < TWO32 && count1 * TWO32 + count0 == 8 * n % TWO64
    }

    /** `sha1_init` */
    constructor ()
      ensures Valid() && msg == [] && fresh(buffer)
    {
      state := H0;
      count0, count1 := 0, 0;
      buffer := new Octet[64];
      msg := [];
    }

    /** `sha1_update`, for chunks short enough that its 32-bit sums do not wrap. */
    method Update(data: seq<Octet>)
      requires Valid() && |data| <= TWO32 - 64
      modifies this, buffer
      ensures Valid() && msg == old(msg) + data
    {
      hide Absorbed, NewLow, NewHigh;
      Buffered(count0, count1, |msg|);
      CountAdds(count0, count1, |msg|, |data|);
      var j := count0 / 8 % 64;
      count0, count1 := NewLow(count0, |data|), NewHigh(count0, count1, |data|);
      Absorb(data, j);
      msg := msg + data;
    }

    /** The part of `sha1_update` that fills the buffer and hashes the blocks. */
    method Absorb(data: seq<Octet>, j: nat)
      requires buffer.Length == 64 && Absorbed(msg, state, buffer[..]) && j == |msg| % 64
      modifies `state, buffer
      ensures Absorbed(msg + data, state, buffer[..])
    {
      hide Absorbed, HashBlocks, Compress;
      ghost var was := buffer[..];
      var len, i, at := |data|, 0, j;
      if j + len > 63 {
        i := 64 - j;
        FirstBlock(msg, data, state, was, i);
        CopyIn(j, data[..i]);
        assert buffer[..] == was[..j] + data[..i];
        state := Transform(state, buffer[..]);
        while i + 63 < len
          invariant 64 - j <= i <= len && (|msg| + i) % 64 == 0
          invariant state == HashBlocks((msg + data)[..|msg| + i])
        {
          MiddleBlock(msg, data, i);
          state := Transform(state, data[i..i + 64]);
          i := i + 64;
        }
        at := 0;
      }
      CopyIn(at, data[i..]);
      if i == 0 {
        AbsorbedSmall(msg, data, state, was, buffer[..]);
      } else {
        AbsorbedLast(msg, data, i, state, buffer[..]);
      }
    }

    /** `memcpy` into the buffer */
    method CopyIn(j: nat, data: seq<Octet>)
      requires buffer.Length == 64 && j + |data| <= 64
      modifies buffer
      ensures buffer[..j + |data|] == old(buffer[..j]) + data
    {
      forall k | 0 <= k < |data| { buffer[j + k] := data[k]; }
    }

    /** The loop of `sha1_final` that adds a 1 bit and zeros. */
    method Pad()
      requires Valid()
      modifies this, buffer
      ensures Valid() && msg == old(msg) + [0x80] + Zeros(PadZeros(|old(msg)|))
    {
      hide Absorbed, Zeros;
      ghost var n, z := |msg|, 0;
      Update([0x80]);
      ZerosNone();
      assert msg == old(msg) + [0x80] + Zeros(0);
      PadCheck(count0, count1, n, z);
      while Masked504(count0) != 448
        invariant Valid() && z <= PadZeros(n) && msg == old(msg) + [0x80] + Zeros(z)
        invariant Masked504(count0) == 448 <==> z == PadZeros(n)
        decreases PadZeros(n) - z
      {
        Update([0]);
        ZerosMore(z);
        z := z + 1;
        assert msg == old(msg) + [0x80] + Zeros(z);
        PadCheck(count0, count1, n, z);
      }
    }

    /** `sha1_final`: the digest of the whole message. */
    method Final() returns (digest: seq<Octet>)
      requires Valid()
      modifies this, buffer
      ensures digest == Sha1(old(msg)) && |digest| == 20
      ensures DigestWords(digest) == HashBlocks(Padded(old(msg)))
    {
      hide Absorbed, LengthBytes, Bytes32, HashBlocks, DigestOf, DigestWords, PadZeros, Zeros;
      var finalcount := Bytes32(count1) + Bytes32(count0);
      CountBytes(count0, count1);
      Pad();
      Update(finalcount);
      assert msg == Padded(old(msg));
      WholeHash(msg, state, buffer[..]);
      DigestRoundTrip(state);
      digest := DigestOf(state);
    }
  }

  lemma ZerosNone()
    ensures Zeros(0) == []
  {
  }

  lemma ZerosMore(z: nat)
    ensures Zeros(z + 1) == Zeros(z) + [0]
  {
  }

  /** The count tells when there are enough zeros. */
  lemma PadCheck(c0: nat, c1: nat, n: nat, z: nat)
    requires c0 < TWO32 && c1 * TWO32 + c0 == 8 * (n + 1 + z) % TWO64 && z <= PadZeros(n)
    ensures Masked504(c0) == 448 <==> z == PadZeros(n)
  {
    Buffered(c0, c1, n + 1 + z);
    if (n + 1 + z) % 64 == 56 { PadZerosFewest(n, z); }
  }

  /** `x & 504`: bits 3 to 8. */
  function Masked504(x: nat): nat { x / 8 % 64 * 8 }

  lemma CountBytes(c0: nat, c1: nat)
    requires c0 < TWO32 && c1 < TWO32
    ensures LengthBytes(c1 * TWO32 + c0) == Bytes32(c1) + Bytes32(c0)
  {
    hide Bytes32;
  }

  lemma WholeHash(m: seq<Octet>, state: Hash, buffer: seq<Octet>)
    requires |m| % 64 == 0 && Absorbed(m, state, buffer)
    ensures state == HashBlocks(m)
  {
    assert m[..Whole(|m|)] == m;
  }

  /** However a message is cut into chunks, its digest is the digest of the whole. */
  method HashChunks(chunks: seq<seq<Octet>>) returns (digest: seq<Octet>)
    requires forall i :: 0 <= i < |chunks| ==> |chunks[i]| <= TWO32 - 64
    ensures digest == Sha1(Flat(chunks))
  {
    hide Sha1, Absorbed;
    var ctx := new Context();
    for i := 0 to |chunks|
      invariant fresh(ctx) && fresh(ctx.buffer) && ctx.Valid() && ctx.msg == Flat(chunks[..i])
    {
      assert chunks[..i + 1][..i] == chunks[..i];
      ctx.Update(chunks[i]);
    }
    assert chunks[..|chunks|] == chunks;
    digest := ctx.Final();
  }
}
