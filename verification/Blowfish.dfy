/**
 Blowfish and its variants on 60, 61 and 64 bits (lib/bf60.c), and the category ids
 made with it (dj/mapcreate.cc), for any tables.
 */
module Blowfish {
  const N: nat := 16

  datatype Ctx = Ctx(p: seq<bv32>, s: seq<seq<bv32>>) {
    predicate Valid() {
      |p| == N + 2 && |s| == 4 && forall i :: 0 <= i < 4 ==> |s[i]| == 256
    }
  }

  datatype Pair = Pair(l: bv32, r: bv32)

  /** How much of each half a variant uses. */
  datatype Masks = Masks(l: bv32, r: bv32)

  /** A byte of a word, as an index; the first is the highest. */
  function First(x: bv32): (i: nat) ensures i < 256 { ((x >> 24) & 0xff) as bv8 as nat }
  function Second(x: bv32): (i: nat) ensures i < 256 { ((x >> 16) & 0xff) as bv8 as nat }
  function Third(x: bv32): (i: nat) ensures i < 256 { ((x >> 8) & 0xff) as bv8 as nat }
  function Fourth(x: bv32): (i: nat) ensures i < 256 { (x & 0xff) as bv8 as nat }

  function Blend(a: bv32, b: bv32, c: bv32, d: bv32): bv32 { ((a + b) ^ c) + d }

  /** `bf_F` */
  function F(c: Ctx, x: bv32): bv32
    requires c.Valid()
  {
    Blend(c.s[0][First(x)], c.s[1][Second(x)], c.s[2][Third(x)], c.s[3][Fourth(x)])
  }

  /** A word of four bytes, the highest first. */
  function Word(a: bv8, b: bv8, c: bv8, d: bv8): bv32 {
    0x100_0000 * a as bv32 + 0x1_0000 * b as bv32 + 0x100 * c as bv32 + d as bv32
  }

  lemma FirstByte(a: bv8, b: bv8, c: bv8, d: bv8) ensures ((Word(a, b, c, d) >> 24) & 0xff) as bv8 == a { }
  lemma SecondByte(a: bv8, b: bv8, c: bv8, d: bv8) ensures ((Word(a, b, c, d) >> 16) & 0xff) as bv8 == b { }
  lemma ThirdByte(a: bv8, b: bv8, c: bv8, d: bv8) ensures ((Word(a, b, c, d) >> 8) & 0xff) as bv8 == c { }
  lemma FourthByte(a: bv8, b: bv8, c: bv8, d: bv8) ensures (Word(a, b, c, d) & 0xff) as bv8 == d { }

  lemma BytesAre(a: bv8, b: bv8, c: bv8, d: bv8)
    ensures First(Word(a, b, c, d)) == a as nat && Second(Word(a, b, c, d)) == b as nat
    ensures Third(Word(a, b, c, d)) == c as nat && Fourth(Word(a, b, c, d)) == d as nat
  {
    FirstByte(a, b, c, d);
    SecondByte(a, b, c, d);
    ThirdByte(a, b, c, d);
    FourthByte(a, b, c, d);
    hide Word;
  }

  /** Each byte of a word looks up its own table, the highest the first one. */
  lemma FMeans(x: Ctx, a: bv8, b: bv8, c: bv8, d: bv8)
    requires x.Valid()
    ensures F(x, Word(a, b, c, d)) == Blend(x.s[0][a as nat], x.s[1][b as nat], x.s[2][c as nat], x.s[3][d as nat])
  {
    hide Word, First, Second, Third, Fourth, Blend;
    BytesAre(a, b, c, d);
  }

  /** The first two entries are added modulo 2^32, the third is taken bit by bit, and the
      fourth is added: the sum in the third place leaves the fourth alone. */
  lemma BlendCancels(a: bv32, b: bv32, d: bv32) ensures Blend(a, b, a + b, d) == d { }
  lemma BlendAdds(a: bv32, b: bv32) ensures Blend(a, b, 0, 0) == a + b { }
  lemma BlendInverts(a: bv32) ensures Blend(a, 0, 0xFFFF_FFFF, 0) == !a { }

  function Xor(a: bv32, b: bv32): bv32 { a ^ b }
  function And(a: bv32, b: bv32): bv32 { a & b }

  /** Two rounds with two subkeys. */
  function Step(c: Ctx, m: Masks, k0: bv32, k1: bv32, x: Pair): Pair
    requires c.Valid()
  {
    var l := Xor(x.l, And(k0, m.l));
    var r := Xor(Xor(x.r, And(F(c, l), m.r)), And(k1, m.r));
    Pair(Xor(l, And(F(c, r), m.l)), r)
  }

  /** `n` double rounds, with the subkeys in order. */
  function Rounds(c: Ctx, p: seq<bv32>, m: Masks, n: nat, x: Pair): Pair
    requires c.Valid() && 2 * n <= |p|
  {
    if n == 0 then x else Step(c, m, p[2 * n - 2], p[2 * n - 1], Rounds(c, p, m, n - 1, x))
  }

  /** The last two subkeys, and the halves changing places. */
  function Finish(m: Masks, k0: bv32, k1: bv32, x: Pair): Pair {
    Pair(Xor(x.r, And(k1, m.r)), Xor(x.l, And(k0, m.l)))
  }

  function Swapped(m: Masks): Masks { Masks(m.r, m.l) }

  /** A whole encipherment with given subkeys. */
  function Cipher(c: Ctx, p: seq<bv32>, m: Masks, x: Pair): Pair
    requires c.Valid() && |p| == N + 2
  {
    Finish(m, p[N], p[N + 1], Rounds(c, p, m, N / 2, x))
  }

  function Reversed(p: seq<bv32>): (r: seq<bv32>)
    ensures |r| == |p| && forall i :: 0 <= i < |p| ==> r[i] == p[|p| - 1 - i]
  {
    seq(|p|, i requires 0 <= i < |p| => p[|p| - 1 - i])
  }

  lemma Cancel(a: bv32, b: bv32)
    ensures Xor(Xor(a, b), b) == a
  {
  }

  lemma Commute(a: bv32, b: bv32, c: bv32)
    ensures Xor(Xor(a, b), c) == Xor(Xor(a, c), b)
  {
    hide Xor;
    XorIs(a, b);
    XorIs(a, c);
    XorIs(Xor(a, b), c);
    XorIs(Xor(a, c), b);
    CommuteBits(a, b, c, Xor(a, b), Xor(a, c));
  }

  lemma XorIs(a: bv32, b: bv32)
    ensures Xor(a, b) == a ^ b
  {
  }

  lemma CommuteBits(a: bv32, b: bv32, c: bv32, ab: bv32, ac: bv32)
    requires ab == a ^ b && ac == a ^ c
    ensures ab ^ c == ac ^ b
  {
  }

  /** Two rounds of the other direction take back two rounds, up to the subkeys. */
  lemma StepBack(c: Ctx, m: Masks, k0: bv32, k1: bv32, q0: bv32, q1: bv32, x: Pair)
    requires c.Valid()
    ensures Step(c, Swapped(m), q1, q0, Finish(m, q0, q1, Step(c, m, k0, k1, x))) == Finish(m, k0, k1, x)
  {
    hide F, Xor, And;
    var l := Xor(x.l, And(k0, m.l));
    var f := And(F(c, l), m.r);
    var r := Xor(Xor(x.r, f), And(k1, m.r));
    var g, q := And(F(c, r), m.l), And(q0, m.l);
    Cancel(r, And(q1, m.r));
    Commute(l, g, q);
    Cancel(Xor(l, q), g);
    Cancel(l, q);
    Commute(x.r, f, And(k1, m.r));
    Cancel(Xor(x.r, And(k1, m.r)), f);
  }

  lemma RoundsMore(c: Ctx, p: seq<bv32>, m: Masks, n: nat, x: Pair)
    requires c.Valid() && 2 * n + 2 <= |p|
    ensures Rounds(c, p, m, n + 1, x) == Step(c, m, p[2 * n], p[2 * n + 1], Rounds(c, p, m, n, x))
    ensures Rounds(c, p, m, 0, x) == x
  {
  }

  /** Deciphering has undone the last `k` double rounds. */
  lemma {:induction false} Undone(c: Ctx, p: seq<bv32>, m: Masks, x: Pair, k: nat)
    requires c.Valid() && |p| == N + 2 && k <= N / 2
    ensures Rounds(c, Reversed(p), Swapped(m), k, Cipher(c, p, m, x))
         == Finish(m, p[N - 2 * k], p[N + 1 - 2 * k], Rounds(c, p, m, N / 2 - k, x))
  {
    hide Rounds, Step, Finish, Reversed;
    if k == 0 {
      RoundsMore(c, Reversed(p), Swapped(m), 0, Cipher(c, p, m, x));
    } else {
      var n := N / 2 - k;
      Undone(c, p, m, x, k - 1);
      RoundsMore(c, p, m, n, x);
      RoundsMore(c, Reversed(p), Swapped(m), k - 1, Cipher(c, p, m, x));
      StepBack(c, m, p[2 * n], p[2 * n + 1], p[2 * n + 2], p[2 * n + 3], Rounds(c, p, m, n, x));
    }
  }

  /** The same cipher with the subkeys reversed and the masks swapped is its inverse. */
  lemma CipherInverse(c: Ctx, p: seq<bv32>, m: Masks, x: Pair)
    requires c.Valid() && |p| == N + 2
    ensures Cipher(c, Reversed(p), Swapped(m), Cipher(c, p, m, x)) == x
  {
    hide Rounds, Step, Reversed, Xor, And;
    Undone(c, p, m, x, N / 2);
    RoundsMore(c, p, m, 0, x);
    Cancel(x.l, And(p[0], m.l));
    Cancel(x.r, And(p[1], m.r));
  }

  // --- The variants ---

  /** The loop that every encipherment has. */
  method Encipher(c: Ctx, m: Masks, x: Pair) returns (y: Pair)
    requires c.Valid()
    ensures y == Cipher(c, c.p, m, x)
  {
    hide Rounds, F, Xor, And;
    var xl, xr := x.l, x.r;
    var i := 0;
    ghost var n := 0;
    RoundsMore(c, c.p, m, 0, x);
    while i < N
      invariant i == 2 * n && n <= N / 2 && Pair(xl, xr) == Rounds(c, c.p, m, n, x)
    {
      RoundsMore(c, c.p, m, n, x);
      xl := Xor(xl, And(c.p[i], m.l));
      i := i + 1;
      xr := Xor(xr, And(F(c, xl), m.r));
      xr := Xor(xr, And(c.p[i], m.r));
      i := i + 1;
      xl := Xor(xl, And(F(c, xr), m.l));
      n := n + 1;
    }
    y := Pair(Xor(xr, And(c.p[N + 1], m.r)), Xor(xl, And(c.p[N], m.l)));
  }

  /** The loop that every decipherment has, with the subkeys backwards. */
  method Decipher(c: Ctx, m: Masks, x: Pair) returns (y: Pair)
    requires c.Valid()
    ensures y == Cipher(c, Reversed(c.p), m, x)
  {
    hide Rounds, F, Xor, And, Reversed;
    var xl, xr := x.l, x.r;
    var i := N + 1;
    ghost var n, q := 0, Reversed(c.p);
    RoundsMore(c, q, m, 0, x);
    while i > 1
      invariant i == N + 1 - 2 * n && n <= N / 2 && Pair(xl, xr) == Rounds(c, q, m, n, x)
    {
      RoundsMore(c, q, m, n, x);
      assert q[2 * n] == c.p[i] && q[2 * n + 1] == c.p[i - 1];
      xl := Xor(xl, And(c.p[i], m.l));
      i := i - 1;
      xr := Xor(xr, And(F(c, xl), m.r));
      xr := Xor(xr, And(c.p[i], m.r));
      i := i - 1;
      xl := Xor(xl, And(F(c, xr), m.l));
      n := n + 1;
    }
    y := Pair(Xor(xr, And(c.p[0], m.r)), Xor(xl, And(c.p[1], m.l)));
  }

  /** Halves that keep within a variant's masks. */
  predicate Within(m: Masks, x: Pair) {
    And(x.l, m.l) == x.l && And(x.r, m.r) == x.r
  }

  lemma MaskedXor(a: bv32, b: bv32, m: bv32)
    ensures And(a, m) == a ==> And(Xor(a, And(b, m)), m) == Xor(a, And(b, m))
  {
  }

  lemma StepWithin(c: Ctx, m: Masks, k0: bv32, k1: bv32, x: Pair)
    requires c.Valid() && Within(m, x)
    ensures Within(m, Step(c, m, k0, k1, x))
  {
    hide F, Xor, And;
    var l := Xor(x.l, And(k0, m.l));
    MaskedXor(x.l, k0, m.l);
    MaskedXor(x.r, F(c, l), m.r);
    var r := Xor(x.r, And(F(c, l), m.r));
    MaskedXor(r, k1, m.r);
    MaskedXor(l, F(c, Xor(r, And(k1, m.r))), m.l);
  }

  lemma {:induction false} RoundsWithin(c: Ctx, p: seq<bv32>, m: Masks, n: nat, x: Pair)
    requires c.Valid() && 2 * n <= |p| && Within(m, x)
    ensures Within(m, Rounds(c, p, m, n, x))
  {
    hide Within, Step;
    if n > 0 {
      RoundsWithin(c, p, m, n - 1, x);
      StepWithin(c, m, p[2 * n - 2], p[2 * n - 1], Rounds(c, p, m, n - 1, x));
    }
  }

  lemma CipherWithin(c: Ctx, p: seq<bv32>, m: Masks, x: Pair)
    requires c.Valid() && |p| == N + 2 && Within(m, x)
    ensures Within(Swapped(m), Cipher(c, p, m, x))
  {
    hide Rounds, Xor, And;
    RoundsWithin(c, p, m, N / 2, x);
    var y := Rounds(c, p, m, N / 2, x);
    MaskedXor(y.l, p[N], m.l);
    MaskedXor(y.r, p[N + 1], m.r);
  }

  lemma {:induction false} ReversedTwice(p: seq<bv32>)
    ensures Reversed(Reversed(p)) == p
  {
  }

  const ALL := Masks(0xffffffff, 0xffffffff)
  const M60 := Masks(0x3fffffff, 0x3fffffff)
  const M61 := Masks(0x3fffffff, 0x7fffffff)

  // A value as two halves, and back. The 61-bit encipherment's halves overlap in two bits.

  function Split64(v: bv64): Pair { Pair((v >> 32) as bv32, (v & 0xffffffff) as bv32) }
  function Join64(x: Pair): bv64 { (x.l as bv64 << 32) | x.r as bv64 }

  function Split60(v: bv64): Pair { Pair(((v >> 30) & 0x3fffffff) as bv32, (v & 0x3fffffff) as bv32) }
  function Join60(x: Pair): bv64 { (x.l as bv64 << 30) | x.r as bv64 }

  function Split61(v: bv64): Pair { Pair(((v >> 29) & 0x3fffffff) as bv32, (v & 0x7fffffff) as bv32) }
  function Unsplit61(v: bv64): Pair { Pair(((v >> 30) & 0x7fffffff) as bv32, (v & 0x3fffffff) as bv32) }
  function Unjoin61(x: Pair): bv64 { (x.l as bv64 << 31) | x.r as bv64 }

  lemma High64(x: Pair) ensures Split64(Join64(x)).l == x.l { }
  lemma Low64(x: Pair) ensures Split64(Join64(x)).r == x.r { }
  lemma Whole64(v: bv64) ensures Join64(Split64(v)) == v { }

  lemma HighWithin60(v: bv64) ensures And(Split60(v).l, 0x3fffffff) == Split60(v).l { }
  lemma LowWithin60(v: bv64) ensures And(Split60(v).r, 0x3fffffff) == Split60(v).r { }
  lemma Whole60(v: bv64) ensures Join60(Split60(v)) == v & 0xfff_ffff_ffff_ffff { }

  lemma High60(x: Pair)
    requires And(x.l, 0x3fffffff) == x.l && And(x.r, 0x3fffffff) == x.r
    ensures Split60(Join60(x)).l == x.l
  {
  }

  lemma Low60(x: Pair)
    requires And(x.l, 0x3fffffff) == x.l && And(x.r, 0x3fffffff) == x.r
    ensures Split60(Join60(x)).r == x.r
  {
  }

  lemma HighWithin61(v: bv64) ensures And(Split61(v).l, 0x3fffffff) == Split61(v).l { }
  lemma LowWithin61(v: bv64) ensures And(Split61(v).r, 0x7fffffff) == Split61(v).r { }

  lemma High61(x: Pair)
    requires And(x.l, 0x7fffffff) == x.l && And(x.r, 0x3fffffff) == x.r
    ensures Unsplit61(Join60(x)).l == x.l
  {
  }

  lemma Low61(x: Pair)
    requires And(x.l, 0x7fffffff) == x.l && And(x.r, 0x3fffffff) == x.r
    ensures Unsplit61(Join60(x)).r == x.r
  {
  }

  /** What the 61-bit encipherment takes for the high half, and what the decipherment
      puts there. */
  function Middle61(v: bv64): bv64 { (v >> 29) & 0x3fffffff }
  function Top61(v: bv64): bv64 { v >> 31 }
  function Recombined61(h: bv64, v: bv64): bv64 { (h << 31) | (v & 0x7fffffff) }

  lemma JoinedBits61(v: bv64) ensures Unjoin61(Split61(v)) == (((v >> 29) & 0x3fffffff) << 31) | (v & 0x7fffffff) { }

  lemma Joined61(v: bv64)
    ensures Unjoin61(Split61(v)) == Recombined61(Middle61(v), v)
  {
    hide Unjoin61, Split61;
    JoinedBits61(v);
  }

  lemma Rejoined61(v: bv64) ensures Recombined61(Top61(v), v) == v { }
  lemma Upper61(v: bv64) ensures Top61(Recombined61(Middle61(v), v)) == Middle61(v) { }

  lemma Whole61(v: bv64)
    ensures Unjoin61(Split61(v)) == v <==> Middle61(v) == Top61(v)
  {
    hide Unjoin61, Split61, Middle61, Top61, Recombined61;
    Joined61(v);
    Rejoined61(v);
    Upper61(v);
  }

  function Enc64(c: Ctx, v: bv64): bv64
    requires c.Valid()
  {
    Join64(Cipher(c, c.p, ALL, Split64(v)))
  }

  function Dec64(c: Ctx, v: bv64): bv64
    requires c.Valid()
  {
    Join64(Cipher(c, Reversed(c.p), ALL, Split64(v)))
  }

  function Enc60(c: Ctx, v: bv64): bv64
    requires c.Valid()
  {
    Join60(Cipher(c, c.p, M60, Split60(v)))
  }

  function Dec60(c: Ctx, v: bv64): bv64
    requires c.Valid()
  {
    Join60(Cipher(c, Reversed(c.p), M60, Split60(v)))
  }

  function Enc61(c: Ctx, v: bv64): bv64
    requires c.Valid()
  {
    Join60(Cipher(c, c.p, M61, Split61(v)))
  }

  function Dec61(c: Ctx, v: bv64): bv64
    requires c.Valid()
  {
    Unjoin61(Cipher(c, Reversed(c.p), Swapped(M61), Unsplit61(v)))
  }

  /** Deciphering 64 bits gives back every value, and enciphering too. */
  lemma RoundTrip64(c: Ctx, v: bv64)
    requires c.Valid()
    ensures Dec64(c, Enc64(c, v)) == v && Enc64(c, Dec64(c, v)) == v
  {
    hide Cipher, Split64, Join64, Reversed;
    var x := Split64(v);
    var y, z := Cipher(c, c.p, ALL, x), Cipher(c, Reversed(c.p), ALL, x);
    Whole64(v);
    High64(y);
    Low64(y);
    High64(z);
    Low64(z);
    CipherInverse(c, c.p, ALL, x);
    CipherInverse(c, Reversed(c.p), ALL, x);
    ReversedTwice(c.p);
  }

  /** Deciphering 60 bits gives back exactly the values of 60 bits. */
  lemma RoundTrip60(c: Ctx, v: bv64)
    requires c.Valid()
    ensures Dec60(c, Enc60(c, v)) == v & 0xfff_ffff_ffff_ffff && Enc60(c, Dec60(c, v)) == v & 0xfff_ffff_ffff_ffff
  {
    hide Cipher, Split60, Join60, And, Reversed;
    var x := Split60(v);
    var y, z := Cipher(c, c.p, M60, x), Cipher(c, Reversed(c.p), M60, x);
    Whole60(v);
    HighWithin60(v);
    LowWithin60(v);
    CipherWithin(c, c.p, M60, x);
    CipherWithin(c, Reversed(c.p), M60, x);
    High60(y);
    Low60(y);
    High60(z);
    Low60(z);
    CipherInverse(c, c.p, M60, x);
    CipherInverse(c, Reversed(c.p), M60, x);
    ReversedTwice(c.p);
  }

  /** Deciphering 61 bits gives back a value exactly when bits 29 to 58 and bits 31 on
      agree, because the encipherment shifts by 29. */
  lemma RoundTrip61(c: Ctx, v: bv64)
    requires c.Valid()
    ensures Dec61(c, Enc61(c, v)) == v <==> Middle61(v) == Top61(v)
  {
    hide Cipher, Split61, Unsplit61, Join60, Unjoin61, And, Reversed, Middle61, Top61;
    var x := Split61(v);
    var y := Cipher(c, c.p, M61, x);
    Whole61(v);
    HighWithin61(v);
    LowWithin61(v);
    CipherWithin(c, c.p, M61, x);
    High61(y);
    Low61(y);
    CipherInverse(c, c.p, M61, x);
  }

  // The other way round: a deciphered value splits into the halves it was joined from
  // exactly when it meets the same condition.

  lemma HighWithin61Back(v: bv64) ensures And(Unsplit61(v).l, 0x7fffffff) == Unsplit61(v).l { }
  lemma LowWithin61Back(v: bv64) ensures And(Unsplit61(v).r, 0x3fffffff) == Unsplit61(v).r { }
  lemma Whole61Back(v: bv64) ensures Join60(Unsplit61(v)) == v & 0x1fff_ffff_ffff_ffff { }
  lemma Same61Back(v: bv64) ensures Unsplit61(v & 0x1fff_ffff_ffff_ffff) == Unsplit61(v) { }
  lemma Widen(a: bv32, b: bv32) ensures a as bv64 == b as bv64 ==> a == b { }
  lemma MiddleIsHigh61(v: bv64) ensures Split61(v).l as bv64 == Middle61(v) { }

  lemma TopOfJoined61(y: Pair)
    requires And(y.l, 0x3fffffff) == y.l && And(y.r, 0x7fffffff) == y.r
    ensures Top61(Unjoin61(y)) == y.l as bv64
  {
  }

  lemma LowOfJoined61(y: Pair)
    requires And(y.l, 0x3fffffff) == y.l && And(y.r, 0x7fffffff) == y.r
    ensures Split61(Unjoin61(y)).r == y.r
  {
  }

  lemma Resplit61(y: Pair)
    requires Within(M61, y) && Middle61(Unjoin61(y)) == Top61(Unjoin61(y))
    ensures Split61(Unjoin61(y)) == y
  {
    hide Split61, Unjoin61, Middle61, Top61, And;
    MiddleIsHigh61(Unjoin61(y));
    TopOfJoined61(y);
    LowOfJoined61(y);
    Widen(Split61(Unjoin61(y)).l, y.l);
  }

  /** Enciphering gives back the low 61 bits of what was deciphered exactly when the
      deciphered value meets the condition. */
  lemma RoundTrip61Back(c: Ctx, v: bv64)
    requires c.Valid()
    ensures Enc61(c, Dec61(c, v)) == v & 0x1fff_ffff_ffff_ffff <==> Middle61(Dec61(c, v)) == Top61(Dec61(c, v))
  {
    hide Cipher, Split61, Unsplit61, Join60, Unjoin61, And, Reversed, Middle61, Top61;
    var x, w := Unsplit61(v), Dec61(c, v);
    var y := Cipher(c, Reversed(c.p), Swapped(M61), x);
    HighWithin61Back(v);
    LowWithin61Back(v);
    Whole61Back(v);
    Same61Back(v);
    RoundTrip61(c, w);
    CipherWithin(c, Reversed(c.p), Swapped(M61), x);
    CipherInverse(c, Reversed(c.p), Swapped(M61), x);
    ReversedTwice(c.p);
    if Middle61(w) == Top61(w) { Resplit61(y); }
  }

  /** Which is so exactly for the encipherments of values that can be taken back. */
  ghost predicate FromGood61(c: Ctx, v: bv64)
    requires c.Valid()
  {
    exists u :: Middle61(u) == Top61(u) && Enc61(c, u) == v & 0x1fff_ffff_ffff_ffff
  }

  lemma TakenBack61(c: Ctx, v: bv64)
    requires c.Valid()
    ensures Enc61(c, Dec61(c, v)) == v & 0x1fff_ffff_ffff_ffff <==> FromGood61(c, v)
  {
    hide Enc61, Middle61, Top61, Unsplit61, Unjoin61, Cipher;
    RoundTrip61Back(c, v);
    Same61Back(v);
    if u :| Middle61(u) == Top61(u) && Enc61(c, u) == v & 0x1fff_ffff_ffff_ffff {
      RoundTrip61(c, u);
    }
  }

  lemma Small61(v: bv64)
    requires v >> 29 == 0
    ensures Middle61(v) == Top61(v)
  {
  }

  /** Two values that differ in bit 59 alone have one encipherment on 61 bits. */
  lemma Collision61(c: Ctx, v: bv64)
    requires c.Valid()
    ensures Enc61(c, v ^ 0x800_0000_0000_0000) == Enc61(c, v)
  {
  }

  /** `bf64_encipher` */
  method Bf64Encipher(c: Ctx, v: bv64) returns (w: bv64)
    requires c.Valid()
    ensures w == Enc64(c, v) && Dec64(c, w) == v
  {
    hide Cipher, Split64, Join64;
    var y := Encipher(c, ALL, Split64(v));
    RoundTrip64(c, v);
    w := Join64(y);
  }

  method Bf64Decipher(c: Ctx, v: bv64) returns (w: bv64)
    requires c.Valid()
    ensures w == Dec64(c, v) && Enc64(c, w) == v
  {
    hide Cipher, Split64, Join64;
    var y := Decipher(c, ALL, Split64(v));
    RoundTrip64(c, v);
    w := Join64(y);
  }

  /** `bf60_encipher` */
  method Bf60Encipher(c: Ctx, v: bv64) returns (w: bv64)
    requires c.Valid()
    ensures w == Enc60(c, v) && Dec60(c, w) == v & 0xfff_ffff_ffff_ffff
  {
    hide Cipher, Split60, Join60;
    var y := Encipher(c, M60, Split60(v));
    RoundTrip60(c, v);
    w := Join60(y);
  }

  method Bf60Decipher(c: Ctx, v: bv64) returns (w: bv64)
    requires c.Valid()
    ensures w == Dec60(c, v) && Enc60(c, w) == v & 0xfff_ffff_ffff_ffff
  {
    hide Cipher, Split60, Join60;
    var y := Decipher(c, M60, Split60(v));
    RoundTrip60(c, v);
    w := Join60(y);
  }

  /** `bf61_encipher` */
  method Bf61Encipher(c: Ctx, v: bv64) returns (w: bv64)
    requires c.Valid()
    ensures w == Enc61(c, v) && (Dec61(c, w) == v <==> Middle61(v) == Top61(v))
  {
    hide Cipher, Split61, Join60, Middle61, Top61;
    var y := Encipher(c, M61, Split61(v));
    RoundTrip61(c, v);
    w := Join60(y);
  }

  /** `bf61_decipher` */
  method Bf61Decipher(c: Ctx, v: bv64) returns (w: bv64)
    requires c.Valid()
    ensures w == Dec61(c, v)
    ensures Enc61(c, w) == v & 0x1fff_ffff_ffff_ffff <==> FromGood61(c, v)
  {
    hide Cipher, Unsplit61, Unjoin61, Enc61, FromGood61;
    var y := Decipher(c, Swapped(M61), Unsplit61(v));
    TakenBack61(c, v);
    w := Unjoin61(y);
  }

  // --- Category ids ---

  /** The id of a category made `k` requests after another one, for any `k` short of a
      full turn of the 64-bit counter, is another id. */
  lemma CategoryIdsDiffer(c: Ctx, counter: bv64, k: bv64)
    requires c.Valid() && k != 0
    ensures Enc64(c, counter + k) != Enc64(c, counter)
  {
    hide Enc64, Dec64;
    RoundTrip64(c, counter);
    RoundTrip64(c, counter + k);
    Advanced(counter, k);
  }

  lemma Advanced(counter: bv64, k: bv64)
    requires k != 0
    ensures counter + k != counter
  {
  }
}
