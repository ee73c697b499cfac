/**
 The open-addressing hash table (lib/hashtable.c), with linear probing and
 tombstones, for an arbitrary hash function.
 */
module HashTable {
  import opened Common

  const TWO64: nat := 0x1_0000_0000_0000_0000
  const TOMB: nat := TWO64 - 1

  datatype Ent = Ent(key: nat, val: nat)

  datatype Result = Ok | EInval | ENoSpace | ENotFound | AssertFailed

  predicate Real(k: nat) { k != 0 && k != TOMB }

  /** The slot that the `i`-th probe for a key looks at. */
  function Probe(h: nat -> nat, cap: nat, k: nat, i: nat): (p: nat)
    requires cap > 0
    ensures p < cap
  {
    (h(k) + i) % TWO64 % cap
  }

  /** The first probe looks where the hash says, and each one at the next slot, the first one
      coming after the last, short of a turn of the 64-bit sum. */
  lemma ProbeMeans(h: nat -> nat, cap: nat, k: nat, i: nat)
    requires 0 < cap && h(k) + i + 1 < 0x1_0000_0000_0000_0000
    ensures Probe(h, cap, k, 0) == h(k) % cap
    ensures Probe(h, cap, k, i + 1) == if Probe(h, cap, k, i) + 1 == cap then 0 else Probe(h, cap, k, i) + 1
  {
    hide Probe;
    ProbeIs(h, cap, k, 0);
    ProbeIs(h, cap, k, i);
    ProbeIs(h, cap, k, i + 1);
    NextRemainder(h(k) + i, cap);
  }

  lemma ProbeIs(h: nat -> nat, cap: nat, k: nat, i: nat)
    requires 0 < cap && h(k) + i < TWO64
    ensures Probe(h, cap, k, i) == (h(k) + i) % cap
  {
    var x := h(k) + i;
    assert x % TWO64 == x;
  }

  lemma NextRemainder(x: nat, cap: nat)
    requires cap > 0
    ensures (x + 1) % cap == if x % cap + 1 == cap then 0 else x % cap + 1
  {
    var d := x / cap;
    assert x == d * cap + x % cap;
    assert (d + 1) * cap == d * cap + cap;
    if x % cap + 1 == cap { Remainder(d + 1, cap, 0); } else { Remainder(d, cap, x % cap + 1); }
  }

  /** Some probe for a key reaches a slot. */
  ghost predicate Reached(h: nat -> nat, cap: nat, k: nat, p: nat)
    requires cap > 0
  {
    exists i :: 0 <= i < cap && Probe(h, cap, k, i) == p
  }

  /** The probes for a key reach every slot. */
  ghost predicate Covers(h: nat -> nat, cap: nat, k: nat)
    requires cap > 0
  {
    forall p :: 0 <= p < cap ==> Reached(h, cap, k, p)
  }

  /** They do, if and only if they do not wrap around 2^64 or the capacity divides it. */
  lemma CoverCondition(h: nat -> nat, cap: nat, k: nat)
    requires 0 < cap <= TWO64 && h(k) < TWO64
    ensures Covers(h, cap, k) <==> h(k) + cap <= TWO64 || TWO64 % cap == 0
  {
    if h(k) + cap <= TWO64 || TWO64 % cap == 0 {
      forall p | 0 <= p < cap
        ensures Reached(h, cap, k, p)
      {
        Lands(h(k), cap, p);
        assert Probe(h, cap, k, Distance(h(k), cap, p)) == p;
      }
    } else {
      var p := MissedSlot(h(k), cap);
      forall i | 0 <= i < cap
        ensures Probe(h, cap, k, i) != p
      {
        Misses(h(k), cap, i);
      }
      assert !Reached(h, cap, k, p);
    }
  }

  /** The slot behind both runs of probes, the one before the wrap and the one after it. */
  function MissedSlot(x: nat, cap: nat): (p: nat)
    requires 0 < cap && x < TWO64 < x + cap && TWO64 % cap != 0
    ensures p < cap
  {
    var w := TWO64 - x;
    if TWO64 % cap >= cap - w then TWO64 % cap else cap - w
  }

  lemma Misses(x: nat, cap: nat, i: nat)
    requires 0 < cap <= TWO64 && x < TWO64 < x + cap && TWO64 % cap != 0 && i < cap
    ensures (x + i) % TWO64 % cap != MissedSlot(x, cap)
  {
    var w := TWO64 - x;
    if i < w {
      BeforeMultiple(cap, w - i);
    } else {
      assert (x + i) % TWO64 == i - w;
      Remainder(0, cap, i - w);
    }
  }

  /** The remainder of a number just below 2^64. */
  lemma BeforeMultiple(cap: nat, j: nat)
    requires 0 < j < cap <= TWO64
    ensures var r := TWO64 % cap; (TWO64 - j) % cap == if j <= r then r - j else r - j + cap
  {
    var d, r := TWO64 / cap, TWO64 % cap;
    assert TWO64 == d * cap + r;
    if j <= r {
      Remainder(d, cap, r - j);
    } else {
      assert d >= 1;
      assert (d - 1) * cap == d * cap - cap;
      Remainder(d - 1, cap, r - j + cap);
    }
  }

  /** How far it is from a number to the next one with a given remainder. */
  function Distance(x: nat, cap: nat, p: nat): (i: nat)
    requires p < cap
    ensures i < cap
  {
    if x % cap <= p then p - x % cap else p + cap - x % cap
  }

  lemma Lands(x: nat, cap: nat, p: nat)
    requires p < cap && x < TWO64 && (x + cap <= TWO64 || TWO64 % cap == 0)
    ensures (x + Distance(x, cap, p)) % TWO64 % cap == p
  {
    var i := Distance(x, cap, p);
    LandsAt(x, cap, p);
    if x + i >= TWO64 {
      assert (x + i) % TWO64 == x + i - TWO64;
      DropMultiple(x + i, TWO64, cap);
    }
  }

  lemma LandsAt(x: nat, cap: nat, p: nat)
    requires p < cap
    ensures (x + Distance(x, cap, p)) % cap == p
  {
    var q := x / cap;
    assert x == q * cap + x % cap;
    if x % cap <= p {
      Remainder(q, cap, p);
    } else {
      assert (q + 1) * cap == q * cap + cap;
      Remainder(q + 1, cap, p);
    }
  }

  lemma DropMultiple(x: nat, y: nat, m: nat)
    requires m > 0 && y % m == 0 && x >= y
    ensures (x - y) % m == x % m
  {
    var d, e := x / m, y / m;
    assert x == d * m + x % m && y == e * m;
    assert (d - e) * m == d * m - e * m;
    if d < e {
      Multiple(e - d, m);
    } else {
      Remainder(d - e, m, x % m);
    }
  }

  lemma Multiple(a: int, m: nat)
    requires a >= 1
    ensures a * m >= m
  {
  }

  lemma Remainder(q: nat, m: nat, r: nat)
    requires r < m
    ensures (q * m + r) % m == r
  {
    var x := q * m + r;
    var d := x / m;
    assert x == d * m + x % m;
    assert (q - d) * m == q * m - d * m && (d - q) * m == d * m - q * m;
    if q > d {
      Multiple(q - d, m);
    } else if q < d {
      Multiple(d - q, m);
    }
  }

  // --- What a table stands for ---

  /** The probes before the `i`-th for a key met no free slot, so a search goes past them. */
  ghost predicate NoHole(es: seq<Ent>, h: nat -> nat, k: nat, i: nat)
    requires |es| > 0
  {
    forall j :: 0 <= j < i ==> es[Probe(h, |es|, k, j)].key != 0
  }

  /** A search for a key gets as far as a slot. */
  ghost predicate Placed(es: seq<Ent>, h: nat -> nat, k: nat, p: nat)
    requires |es| > 0
  {
    exists i :: 0 <= i < |es| && Probe(h, |es|, k, i) == p && NoHole(es, h, k, i)
  }

  ghost predicate Distinct(es: seq<Ent>) {
    forall p, q :: 0 <= p < q < |es| && Real(es[p].key) ==> es[p].key != es[q].key
  }

  /** A search for a key gets to every slot that has it. */
  ghost predicate Open(es: seq<Ent>, h: nat -> nat) {
    forall p :: 0 <= p < |es| && Real(es[p].key) ==> Placed(es, h, es[p].key, p)
  }

  /** Every key is in one slot, which a search for it reaches. */
  ghost predicate Sound(es: seq<Ent>, h: nat -> nat) {
    Distinct(es) && Open(es, h)
  }

  /** The value of a key, if some slot has the key. */
  function At(es: seq<Ent>, k: nat): (r: Option<nat>)
    ensures r == None <==> forall p :: 0 <= p < |es| ==> es[p].key != k
    ensures r.Some? ==> Ent(k, r.value) in es
  {
    if es == [] then None else if es[0].key == k then Some(es[0].val) else At(es[1..], k)
  }

  lemma AtSlot(es: seq<Ent>, p: nat)
    requires p < |es| && Real(es[p].key) && Distinct(es)
    ensures At(es, es[p].key) == Some(es[p].val)
  {
  }

  /** The number of slots that hold keys. */
  function Count(es: seq<Ent>): (n: nat)
    ensures n <= |es|
  {
    if es == [] then 0 else Count(es[..|es| - 1]) + if Real(es[|es| - 1].key) then 1 else 0
  }

  lemma {:induction false} CountUpdate(es: seq<Ent>, p: nat, e: Ent)
    requires p < |es|
    ensures Count(es[p := e]) == Count(es) - (if Real(es[p].key) then 1 else 0) + (if Real(e.key) then 1 else 0)
  {
    var n := |es| - 1;
    if p < n {
      CountUpdate(es[..n], p, e);
      assert es[p := e][..n] == es[..n][p := e];
    } else {
      assert es[p := e][..n] == es[..n];
    }
  }

  lemma {:induction false} SomeFree(es: seq<Ent>)
    requires Count(es) < |es|
    ensures exists p :: 0 <= p < |es| && !Real(es[p].key)
  {
    if Real(es[|es| - 1].key) {
      SomeFree(es[..|es| - 1]);
      var p :| 0 <= p < |es| - 1 && !Real(es[..|es| - 1][p].key);
      assert !Real(es[p].key);
    }
  }

  /** A slot that gets a key or a tombstone does not stop a search that went past it. */
  lemma StillPlaced(es: seq<Ent>, h: nat -> nat, q: nat, e: Ent, k: nat, p: nat)
    requires |es| > 0 && q < |es| && e.key != 0 && Placed(es, h, k, p)
    ensures Placed(es[q := e], h, k, p)
  {
    var i :| 0 <= i < |es| && Probe(h, |es|, k, i) == p && NoHole(es, h, k, i);
    assert NoHole(es[q := e], h, k, i);
  }

  lemma StaysOpen(es: seq<Ent>, h: nat -> nat, q: nat, e: Ent)
    requires |es| > 0 && q < |es| && e.key != 0 && Open(es, h)
    requires Real(e.key) ==> Placed(es, h, e.key, q)
    ensures Open(es[q := e], h)
  {
    var fs := es[q := e];
    forall p | 0 <= p < |fs| && Real(fs[p].key)
      ensures Placed(fs, h, fs[p].key, p)
    {
      StillPlaced(es, h, q, e, fs[p].key, p);
    }
  }

  /** A key's value once a slot has been written over. */
  function After(es: seq<Ent>, q: nat, e: Ent, k: nat): Option<nat>
    requires q < |es|
  {
    if k == e.key then Some(e.val) else if k == es[q].key then None else At(es, k)
  }

  /** Writing over a slot: it has the new key, not the old one, and the others stay. */
  lemma Written(es: seq<Ent>, h: nat -> nat, q: nat, e: Ent)
    requires |es| > 0 && q < |es| && e.key != 0 && Sound(es, h)
    requires Real(e.key) ==> Placed(es, h, e.key, q) && forall p :: 0 <= p < |es| && p != q ==> es[p].key != e.key
    ensures Sound(es[q := e], h)
    ensures forall k | Real(k) :: At(es[q := e], k) == After(es, q, e, k)
  {
    var fs := es[q := e];
    StaysOpen(es, h, q, e);
    hide Open;
    forall k | Real(k)
      ensures At(fs, k) == After(es, q, e, k)
    {
      WrittenAt(es, q, e, k);
    }
  }

  lemma WrittenAt(es: seq<Ent>, q: nat, e: Ent, k: nat)
    requires q < |es| && Distinct(es) && Distinct(es[q := e]) && Real(k)
    ensures At(es[q := e], k) == After(es, q, e, k)
  {
    var fs := es[q := e];
    if k == e.key {
      AtSlot(fs, q);
    } else if k != es[q].key && At(es, k).Some? {
      var p :| 0 <= p < |es| && es[p] == Ent(k, At(es, k).value);
      assert fs[p] == es[p];
      AtSlot(fs, p);
    }
  }

  // --- Searching ---

  /** The probes before the `i`-th for a key all met other keys. */
  ghost predicate Passes(es: seq<Ent>, h: nat -> nat, k: nat, i: nat)
    requires |es| > 0
  {
    forall j :: 0 <= j < i ==> Real(es[Probe(h, |es|, k, j)].key) && es[Probe(h, |es|, k, j)].key != k
  }

  /** A search for a key meets a tombstone before the key or a free slot. */
  ghost predicate TombFirst(es: seq<Ent>, h: nat -> nat, k: nat)
    requires |es| > 0
  {
    exists i :: 0 <= i < |es| && es[Probe(h, |es|, k, i)].key == TOMB && Passes(es, h, k, i)
  }

  /** The key is written where a search for it first meets it, or a slot without a key. */
  ghost predicate StoredFirst(es: seq<Ent>, h: nat -> nat, k: nat, v: nat, fs: seq<Ent>) {
    |es| > 0 && exists i ::
      && 0 <= i < |es| && Passes(es, h, k, i)
      && (!Real(es[Probe(h, |es|, k, i)].key) || es[Probe(h, |es|, k, i)].key == k)
      && fs == es[Probe(h, |es|, k, i) := Ent(k, v)]
  }

  /** A tombstone is written where a search for the key first meets it. */
  ghost predicate DroppedFirst(es: seq<Ent>, h: nat -> nat, k: nat, fs: seq<Ent>) {
    |es| > 0 && exists i ::
      && 0 <= i < |es| && (forall j :: 0 <= j < i ==> es[Probe(h, |es|, k, j)].key != k)
      && es[Probe(h, |es|, k, i)].key == k
      && fs == es[Probe(h, |es|, k, i) := Ent(TOMB, 0)]
  }

  /** What a search for a key finds from its `i`-th probe on. */
  function FoundFrom(es: seq<Ent>, h: nat -> nat, k: nat, i: nat): Option<nat>
    requires |es| > 0
    decreases |es| - i
  {
    if i >= |es| then None
    else
      var e := es[Probe(h, |es|, k, i)];
      if e.key == k then Some(e.val)
      else if e.key == 0 then None
      else FoundFrom(es, h, k, i + 1)
  }

  function Found(es: seq<Ent>, h: nat -> nat, k: nat): Option<nat> {
    if es == [] then None else FoundFrom(es, h, k, 0)
  }

  lemma {:induction false} NotFoundFrom(es: seq<Ent>, h: nat -> nat, k: nat, i: nat)
    requires |es| > 0 && forall p :: 0 <= p < |es| ==> es[p].key != k
    ensures FoundFrom(es, h, k, i) == None
    decreases |es| - i
  {
    if i < |es| { NotFoundFrom(es, h, k, i + 1); }
  }

  /** A search gets to a slot that it is not cut off from. */
  lemma {:induction false} FoundBefore(es: seq<Ent>, h: nat -> nat, k: nat, i: nat, j: nat)
    requires |es| > 0 && i <= j < |es| && es[Probe(h, |es|, k, j)].key == k && NoHole(es, h, k, j)
    ensures FoundFrom(es, h, k, i).Some? && Ent(k, FoundFrom(es, h, k, i).value) in es
    decreases j - i
  {
    if i < j { FoundBefore(es, h, k, i + 1, j); }
  }

  /** Where every slot can be reached, a search finds a key that is there. */
  lemma FoundIfThere(es: seq<Ent>, h: nat -> nat, k: nat)
    requires Open(es, h) && Real(k)
    ensures Found(es, h, k) == None <==> At(es, k) == None
    ensures Found(es, h, k).Some? ==> Ent(k, Found(es, h, k).value) in es
  {
    if At(es, k) == None {
      if es != [] { NotFoundFrom(es, h, k, 0); }
    } else {
      var p :| 0 <= p < |es| && es[p] == Ent(k, At(es, k).value);
      assert Placed(es, h, k, p);
      var j :| 0 <= j < |es| && Probe(h, |es|, k, j) == p && NoHole(es, h, k, j);
      FoundBefore(es, h, k, 0, j);
    }
  }

  lemma FoundIsAt(es: seq<Ent>, h: nat -> nat, k: nat)
    requires Sound(es, h) && Real(k)
    ensures Found(es, h, k) == At(es, k)
  {
    FoundIfThere(es, h, k);
    if Found(es, h, k).Some? {
      var p :| 0 <= p < |es| && es[p] == Ent(k, Found(es, h, k).value);
      AtSlot(es, p);
    }
  }

  /** A slot that neither has the key nor gets it, and is not free, changes no search. */
  lemma {:induction false} SameSearch(es: seq<Ent>, h: nat -> nat, q: nat, e: Ent, k: nat, i: nat)
    requires q < |es| && es[q].key != 0 && e.key != 0 && es[q].key != k && e.key != k
    ensures FoundFrom(es[q := e], h, k, i) == FoundFrom(es, h, k, i)
    decreases |es| - i
  {
    if i < |es| { SameSearch(es, h, q, e, k, i + 1); }
  }

  /** Nor does one that was free. */
  lemma {:induction false} SameSearchPast(es: seq<Ent>, h: nat -> nat, q: nat, e: Ent, k: nat, i: nat)
    requires q < |es| && e.key != 0 && es[q].key != k && e.key != k
    requires FoundFrom(es, h, k, i).Some?
    ensures FoundFrom(es[q := e], h, k, i) == FoundFrom(es, h, k, i)
    decreases |es| - i
  {
    if es[Probe(h, |es|, k, i)].key != k { SameSearchPast(es, h, q, e, k, i + 1); }
  }

  lemma OthersFound(es: seq<Ent>, h: nat -> nat, q: nat, e: Ent, k: nat)
    requires Open(es, h) && q < |es| && e.key != 0 && Real(k) && es[q].key != k && e.key != k
    ensures Found(es[q := e], h, k) == Found(es, h, k)
  {
    if Found(es, h, k).Some? {
      SameSearchPast(es, h, q, e, k, 0);
    } else {
      FoundIfThere(es, h, k);
      NotFoundFrom(es[q := e], h, k, 0);
    }
  }

  /** A key that is written where a search for a place ends is what a search then finds. */
  lemma {:induction false} FoundWhereStored(es: seq<Ent>, h: nat -> nat, k: nat, v: nat, i: nat, j: nat)
    requires |es| > 0 && Real(k) && j <= i < |es| && Passes(es, h, k, i)
    requires !Real(es[Probe(h, |es|, k, i)].key) || es[Probe(h, |es|, k, i)].key == k
    ensures FoundFrom(es[Probe(h, |es|, k, i) := Ent(k, v)], h, k, j) == Some(v)
    decreases i - j
  {
    if j < i { FoundWhereStored(es, h, k, v, i, j + 1); }
  }

  /** At most one slot has the key. */
  ghost predicate Once(es: seq<Ent>, k: nat) {
    forall p, q :: 0 <= p < q < |es| && es[p].key == k ==> es[q].key != k
  }

  /** With a slot left and probes that reach it, a search for a place finds one. */
  lemma PlaceLeft(es: seq<Ent>, h: nat -> nat, k: nat)
    requires |es| > 0 && Count(es) < |es| && Covers(h, |es|, k)
    ensures !Passes(es, h, k, |es|)
  {
    SomeFree(es);
    var p :| 0 <= p < |es| && !Real(es[p].key);
    assert Reached(h, |es|, k, p);
  }

  /** A present key is not behind a free slot. */
  lemma NotBehindHole(es: seq<Ent>, h: nat -> nat, k: nat, i: nat)
    requires |es| > 0 && Sound(es, h) && Real(k) && i <= |es|
    requires forall j :: 0 <= j < i ==> es[Probe(h, |es|, k, j)].key != k
    requires i == |es| || es[Probe(h, |es|, k, i)].key == 0
    ensures At(es, k) == None
  {
    SearchReaches(es, h, k);
  }

  lemma SearchReaches(es: seq<Ent>, h: nat -> nat, k: nat)
    requires |es| > 0 && Sound(es, h) && Real(k)
    ensures At(es, k).Some? ==>
      exists i :: 0 <= i < |es| && es[Probe(h, |es|, k, i)].key == k && NoHole(es, h, k, i)
  {
  }

  /** Where `hash_put` writes: the table stays sound, and is updated like a map, unless
      the key is there already, behind the tombstone. */
  lemma PutSafe(es: seq<Ent>, h: nat -> nat, k: nat, v: nat, i: nat)
    requires |es| > 0 && Sound(es, h) && Real(k) && i < |es| && Passes(es, h, k, i)
    requires !Real(es[Probe(h, |es|, k, i)].key) || es[Probe(h, |es|, k, i)].key == k
    requires At(es, k) == None || !TombFirst(es, h, k)
    ensures var p := Probe(h, |es|, k, i);
      Sound(es[p := Ent(k, v)], h) && forall x | Real(x) :: At(es[p := Ent(k, v)], x) == After(es, p, Ent(k, v), x)
  {
    var p := Probe(h, |es|, k, i);
    assert NoHole(es, h, k, i);
    if es[p].key == 0 { NotBehindHole(es, h, k, i); }
    Written(es, h, p, Ent(k, v));
  }

  lemma PutUnsafe(es: seq<Ent>, h: nat -> nat, k: nat, v: nat, i: nat)
    requires |es| > 0 && Sound(es, h) && Real(k) && i < |es| && Passes(es, h, k, i)
    requires !Real(es[Probe(h, |es|, k, i)].key) || es[Probe(h, |es|, k, i)].key == k
    requires At(es, k).Some? && TombFirst(es, h, k)
    ensures !Distinct(es[Probe(h, |es|, k, i) := Ent(k, v)])
  {
    var p := Probe(h, |es|, k, i);
    var t :| 0 <= t < |es| && es[Probe(h, |es|, k, t)].key == TOMB && Passes(es, h, k, t);
    assert t == i;
    var q :| 0 <= q < |es| && es[q] == Ent(k, At(es, k).value);
    var fs := es[p := Ent(k, v)];
    assert fs[q].key == k && fs[p].key == k && p != q;
  }

  class Table {
    const hash: nat -> nat
    const ents: array<Ent>
    var size: int

    /** The size is the number of slots that hold keys. */
    ghost predicate Counted()
      reads this, ents
    {
      size == Count(ents[..])
    }

    ghost predicate Valid()
      reads this, ents
    {
      Counted() && Sound(ents[..], hash)
    }

    /** `hash_init` */
    constructor (h: nat -> nat, n: nat)
      ensures Valid() && fresh(ents) && ents.Length == n && hash == h && size == 0
      ensures forall p :: 0 <= p < n ==> ents[p] == Ent(0, 0)
      ensures forall k | Real(k) :: At(ents[..], k) == None
    {
      hash, size := h, 0;
      ents := new Ent[n](_ => Ent(0, 0));
      new;
      CountZero(ents[..]);
    }

    method Get(key: nat) returns (r: Result, val: nat)
      ensures r == EInval <==> key == 0 || key == 0xFFFF_FFFF_FFFF_FFFF
      ensures Real(key) ==> r == if Found(ents[..], hash, key).Some? then Ok else ENotFound
      ensures r == Ok ==> Found(ents[..], hash, key) == Some(val)
      ensures Real(key) && Sound(ents[..], hash) ==> Found(ents[..], hash, key) == At(ents[..], key)
    {
      hide Sound, At;
      val := 0;
      if !Real(key) { return EInval, 0; }
      if Sound(ents[..], hash) { FoundIsAt(ents[..], hash, key); }
      var i := 0;
      while i < ents.Length
        invariant 0 <= i <= ents.Length
        invariant ents.Length > 0 ==> FoundFrom(ents[..], hash, key, i) == Found(ents[..], hash, key)
      {
        var p := Probe(hash, ents.Length, key, i);
        if ents[p].key == key {
          return Ok, ents[p].val;
        } else if ents[p].key == 0 {
          break;
        }
        i := i + 1;
      }
      r := ENotFound;
    }

    /** `hash_put`. The assertion fails exactly when every probe meets another key; a key
        that was put is found with its value, and the table is updated like a map exactly
        when the key was absent or met first. */
    method Put(key: nat, val: nat) returns (r: Result)
      requires Counted()
      modifies ents, `size
      ensures Counted() && r != ENotFound && (r != Ok ==> ents[..] == old(ents[..]))
      ensures r == EInval <==> key == 0 || key == 0xFFFF_FFFF_FFFF_FFFF
      ensures r == ENoSpace <==> Real(key) && old(size) == ents.Length
      ensures r == AssertFailed <==> Real(key) && old(size) < ents.Length && Passes(old(ents[..]), hash, key, ents.Length)
      ensures r == Ok && Open(old(ents[..]), hash) ==> Open(ents[..], hash) && forall k | Real(k) ::
        Found(ents[..], hash, k) == if k == key then Some(val) else Found(old(ents[..]), hash, k)
      ensures r == Ok && Sound(old(ents[..]), hash) ==>
        ((At(old(ents[..]), key) == None || !TombFirst(old(ents[..]), hash, key)) <==> Sound(ents[..], hash))
      ensures r == Ok && Sound(old(ents[..]), hash) && Sound(ents[..], hash) ==> forall k | Real(k) ::
        At(ents[..], k) == if k == key then Some(val) else At(old(ents[..]), k)
      ensures r == Ok ==> StoredFirst(old(ents[..]), hash, key, val, ents[..])
      ensures r == Ok && At(old(ents[..]), key) == None ==> size == old(size) + 1
      ensures r != Ok ==> size == old(size)
    {
      hide Passes, TombFirst, Sound, Open, Found, Count;
      if !Real(key) { return EInval; }
      CountFits(ents[..]);
      if size == ents.Length { return ENoSpace; }
      var i := FindPlace(key);
      if i == ents.Length { return AssertFailed; }
      var p := Probe(hash, ents.Length, key, i);
      ghost var es := ents[..];
      CountUpdate(es, p, Ent(key, val));
      PassesNoMore(es, hash, key, i);
      if Open(es, hash) { PutFound(es, hash, key, val, i); }
      if Sound(es, hash) { PutMapped(es, hash, key, val, i); }
      if ents[p].key != key { size := size + 1; }
      ents[p] := Ent(key, val);
      assert ents[..] == es[p := Ent(key, val)];
      r := Ok;
    }

    /** The probe loop of `hash_put` */
    method FindPlace(key: nat) returns (i: nat)
      requires Real(key) && ents.Length > 0
      ensures i <= ents.Length && Passes(ents[..], hash, key, i)
      ensures i < ents.Length ==>
        !Real(ents[Probe(hash, ents.Length, key, i)].key) || ents[Probe(hash, ents.Length, key, i)].key == key
    {
      i := 0;
      while i < ents.Length
        invariant 0 <= i <= ents.Length && Passes(ents[..], hash, key, i)
      {
        var k := ents[Probe(hash, ents.Length, key, i)].key;
        if k == 0 || k == TOMB || k == key { return; }
        i := i + 1;
      }
    }

    /** `hash_del`: the key is gone, if it was there once, and the others stay. */
    method Del(key: nat) returns (r: Result)
      requires Counted()
      modifies ents, `size
      ensures Counted() && size == old(size) - if r == Ok then 1 else 0
      ensures r == Ok || r == if key == 0 || key == 0xFFFF_FFFF_FFFF_FFFF then EInval else ENotFound
      ensures r != Ok ==> ents[..] == old(ents[..])
      ensures r == Ok <==> Real(key) && Found(old(ents[..]), hash, key).Some?
      ensures r == Ok && Open(old(ents[..]), hash) ==>
        && Open(ents[..], hash) && (Found(ents[..], hash, key) == None <==> Once(old(ents[..]), key))
        && forall k | Real(k) && k != key :: Found(ents[..], hash, k) == Found(old(ents[..]), hash, k)
      ensures Real(key) && Sound(old(ents[..]), hash) ==> (r == Ok <==> At(old(ents[..]), key).Some?)
      ensures r == Ok && Sound(old(ents[..]), hash) ==>
        && Sound(ents[..], hash)
        && forall k | Real(k) :: At(ents[..], k) == if k == key then None else At(old(ents[..]), k)
      ensures r == Ok ==> DroppedFirst(old(ents[..]), hash, key, ents[..])
    {
      hide Sound, Open, Once, At, Count;
      if !Real(key) { return EInval; }
      var i := 0;
      ghost var es := ents[..];
      if Sound(es, hash) { FoundIsAt(es, hash, key); }
      while i < ents.Length
        invariant 0 <= i <= ents.Length && ents[..] == es
        invariant ents.Length > 0 ==> FoundFrom(es, hash, key, i) == Found(es, hash, key)
        invariant forall j :: 0 <= j < i ==> es[Probe(hash, |es|, key, j)].key != key
      {
        var p := Probe(hash, ents.Length, key, i);
        if ents[p].key == key {
          hide Found;
          CountUpdate(es, p, Ent(TOMB, 0));
          if Open(es, hash) { DelFound(es, hash, key, p); }
          if Sound(es, hash) { DelMapped(es, hash, key, p); }
          ents[p] := Ent(TOMB, 0);
          assert ents[..] == es[p := Ent(TOMB, 0)];
          size := size - 1;
          assert DroppedFirst(es, hash, key, ents[..]);
          return Ok;
        } else if ents[p].key == 0 {
          break;
        }
        i := i + 1;
      }
      r := ENotFound;
    }

    /** `hashiter_next`: the next slot from an index on that holds a key. */
    method IterNext(index: nat) returns (found: bool, next: nat, e: Ent)
      requires index <= ents.Length
      ensures found ==> index < next <= ents.Length && e == ents[next - 1] && Real(e.key)
      ensures found ==> forall p :: index <= p < next - 1 ==> !Real(ents[p].key)
      ensures !found ==> forall p :: index <= p < ents.Length ==> !Real(ents[p].key)
    {
      var i := index;
      while i < ents.Length
        invariant index <= i <= ents.Length
        invariant forall p :: index <= p < i ==> !Real(ents[p].key)
      {
        if Real(ents[i].key) { return true, i + 1, ents[i]; }
        i := i + 1;
      }
      return false, i, Ent(0, 0);
    }

    /** A whole iteration: every slot with a key, so every key once if it is there once. */
    method Iterate() returns (out: seq<Ent>)
      requires Counted()
      ensures |out| == size && forall e :: e in out <==> e in ents[..] && Real(e.key)
      ensures Distinct(ents[..]) ==>
        Distinct(out) && forall e :: e in out <==> Real(e.key) && At(ents[..], e.key) == Some(e.val)
    {
      hide Count;
      out := [];
      var next := 0;
      var found, n, e := IterNext(0);
      SelectedSkip(ents[..], 0, if found then n - 1 else ents.Length);
      while found
        invariant 0 <= next <= ents.Length && out == Selected(ents[..next])
        invariant found ==> next < n <= ents.Length && e == ents[n - 1] && Real(e.key)
        invariant Selected(ents[..if found then n - 1 else ents.Length]) == out
        decreases ents.Length - next, found
      {
        out := out + [e];
        SelectedStep(ents[..], n - 1);
        next := n;
        found, n, e := IterNext(next);
        SelectedSkip(ents[..], next, if found then n - 1 else ents.Length);
      }
      assert ents[..ents.Length] == ents[..];
      SelectedIs(ents[..]);
      if Distinct(ents[..]) { SelectedAll(ents[..]); }
    }
  }

  /** The slots that hold keys, in order. */
  function Selected(es: seq<Ent>): seq<Ent> {
    if es == [] then []
    else Selected(es[..|es| - 1]) + if Real(es[|es| - 1].key) then [es[|es| - 1]] else []
  }

  lemma SelectedStep(es: seq<Ent>, p: nat)
    requires p < |es|
    ensures Selected(es[..p + 1]) == Selected(es[..p]) + if Real(es[p].key) then [es[p]] else []
  {
    assert es[..p + 1][..p] == es[..p];
  }

  lemma {:induction false} SelectedSkip(es: seq<Ent>, i: nat, j: nat)
    requires i <= j <= |es| && forall p :: i <= p < j ==> !Real(es[p].key)
    ensures Selected(es[..j]) == Selected(es[..i])
    decreases j
  {
    if i < j {
      SelectedStep(es, j - 1);
      SelectedSkip(es, i, j - 1);
    }
  }

  lemma {:induction false} SelectedIs(es: seq<Ent>)
    ensures |Selected(es)| == Count(es)
    ensures forall e :: e in Selected(es) <==> e in es && Real(e.key)
  {
    if es != [] { SelectedIs(es[..|es| - 1]); }
  }

  lemma {:induction false} SelectedDistinct(es: seq<Ent>)
    requires Distinct(es)
    ensures Distinct(Selected(es))
  {
    if es != [] {
      var front := es[..|es| - 1];
      SelectedDistinct(front);
      SelectedIs(front);
      forall p | 0 <= p < |Selected(front)|
        ensures Selected(front)[p].key != es[|es| - 1].key || !Real(es[|es| - 1].key)
      {
        assert Selected(front)[p] in front;
      }
    }
  }

  lemma SelectedAll(es: seq<Ent>)
    requires Distinct(es)
    ensures |Selected(es)| == Count(es) && Distinct(Selected(es))
    ensures forall e :: e in Selected(es) <==> Real(e.key) && At(es, e.key) == Some(e.val)
  {
    SelectedIs(es);
    SelectedDistinct(es);
    forall e | e in es && Real(e.key)
      ensures At(es, e.key) == Some(e.val)
    {
      var p :| 0 <= p < |es| && es[p] == e;
      AtSlot(es, p);
    }
  }

  lemma CountFits(es: seq<Ent>)
    ensures Count(es) <= |es|
  {
  }

  lemma PassesNoMore(es: seq<Ent>, h: nat -> nat, k: nat, i: nat)
    requires |es| > 0 && i < |es|
    requires !Real(es[Probe(h, |es|, k, i)].key) || es[Probe(h, |es|, k, i)].key == k
    ensures !Passes(es, h, k, |es|)
  {
  }

  /** What a put makes of the searches, whether the key is now there twice or not. */
  lemma PutFound(es: seq<Ent>, h: nat -> nat, k: nat, v: nat, i: nat)
    requires |es| > 0 && Open(es, h) && Real(k) && i < |es| && Passes(es, h, k, i)
    requires !Real(es[Probe(h, |es|, k, i)].key) || es[Probe(h, |es|, k, i)].key == k
    ensures var fs := es[Probe(h, |es|, k, i) := Ent(k, v)];
      Open(fs, h) && forall x | Real(x) :: Found(fs, h, x) == if x == k then Some(v) else Found(es, h, x)
  {
    var p := Probe(h, |es|, k, i);
    assert NoHole(es, h, k, i);
    StaysOpen(es, h, p, Ent(k, v));
    FoundWhereStored(es, h, k, v, i, 0);
    forall x | Real(x) && x != k
      ensures Found(es[p := Ent(k, v)], h, x) == Found(es, h, x)
    {
      OthersFound(es, h, p, Ent(k, v), x);
    }
  }

  /** What a delete makes of them: the key is not found any more exactly if it was there once. */
  lemma DelFound(es: seq<Ent>, h: nat -> nat, k: nat, p: nat)
    requires Open(es, h) && Real(k) && p < |es| && es[p].key == k
    ensures var fs := es[p := Ent(TOMB, 0)];
      && Open(fs, h) && (Found(fs, h, k) == None <==> Once(es, k))
      && forall x | Real(x) && x != k :: Found(fs, h, x) == Found(es, h, x)
  {
    var fs := es[p := Ent(TOMB, 0)];
    StaysOpen(es, h, p, Ent(TOMB, 0));
    FoundIfThere(fs, h, k);
    if At(fs, k) == None {
      assert forall q :: 0 <= q < |es| && q != p ==> fs[q] == es[q];
    } else {
      var q :| 0 <= q < |fs| && fs[q] == Ent(k, At(fs, k).value);
      assert es[q].key == k && q != p;
    }
    forall x | Real(x) && x != k
      ensures Found(fs, h, x) == Found(es, h, x)
    {
      OthersFound(es, h, p, Ent(TOMB, 0), x);
    }
  }

  /** In a table with every key once, it works like a map. */
  lemma DelMapped(es: seq<Ent>, h: nat -> nat, k: nat, p: nat)
    requires Sound(es, h) && Real(k) && p < |es| && es[p].key == k
    ensures var fs := es[p := Ent(TOMB, 0)];
      Sound(fs, h) && forall x | Real(x) :: At(fs, x) == if x == k then None else At(es, x)
  {
    AtSlot(es, p);
    Written(es, h, p, Ent(TOMB, 0));
  }

  /** What a put does, safe or not. */
  lemma PutMapped(es: seq<Ent>, h: nat -> nat, k: nat, v: nat, i: nat)
    requires |es| > 0 && Sound(es, h) && Real(k) && i < |es| && Passes(es, h, k, i)
    requires !Real(es[Probe(h, |es|, k, i)].key) || es[Probe(h, |es|, k, i)].key == k
    ensures var fs := es[Probe(h, |es|, k, i) := Ent(k, v)];
      && ((At(es, k) == None || !TombFirst(es, h, k)) <==> Sound(fs, h))
      && (Sound(fs, h) ==> forall x | Real(x) :: At(fs, x) == if x == k then Some(v) else At(es, x))
  {
    if At(es, k) == None || !TombFirst(es, h, k) {
      PutSafe(es, h, k, v, i);
    } else {
      PutUnsafe(es, h, k, v, i);
    }
  }

  lemma {:induction false} CountZero(es: seq<Ent>)
    requires forall p :: 0 <= p < |es| ==> es[p].key == 0
    ensures Count(es) == 0
  {
    if es != [] { CountZero(es[..|es| - 1]); }
  }

  // --- Whole runs ---

  datatype Op = OpPut(k: nat, v: nat) | OpGet(k: nat) | OpDel(k: nat)

  /** A call's return code, and the value a get found. */
  datatype Out = Out(r: Result, val: nat)

  /** What a finite map of bounded size answers. */
  function MapOut(m: map<nat, nat>, cap: nat, op: Op): Out {
    if !Real(op.k) then Out(EInval, 0)
    else
      match op
      case OpPut(_, _) => Out(if |m| == cap then ENoSpace else Ok, 0)
      case OpGet(k) => if k in m then Out(Ok, m[k]) else Out(ENotFound, 0)
      case OpDel(k) => Out(if k in m then Ok else ENotFound, 0)
  }

  function MapNext(m: map<nat, nat>, cap: nat, op: Op): map<nat, nat> {
    if !Real(op.k) then m
    else
      match op
      case OpPut(k, v) => if |m| == cap then m else m[k := v]
      case OpGet(_) => m
      case OpDel(k) => m - {k}
  }

  function MapAfter(cap: nat, ops: seq<Op>): map<nat, nat> {
    if ops == [] then map[] else MapNext(MapAfter(cap, ops[..|ops| - 1]), cap, ops[|ops| - 1])
  }

  ghost predicate Represents(es: seq<Ent>, m: map<nat, nat>) {
    && (forall k | k in m :: Real(k))
    && (forall k | Real(k) :: At(es, k) == if k in m then Some(m[k]) else None)
  }

  lemma Puts(es: seq<Ent>, fs: seq<Ent>, m: map<nat, nat>, k: nat, v: nat)
    requires Represents(es, m) && Real(k) && k !in m
    requires forall x | Real(x) :: At(fs, x) == if x == k then Some(v) else At(es, x)
    ensures Represents(fs, m[k := v]) && |m[k := v]| == |m| + 1
  {
  }

  lemma Deletes(es: seq<Ent>, fs: seq<Ent>, m: map<nat, nat>, k: nat)
    requires Represents(es, m) && k in m
    requires forall x | Real(x) :: At(fs, x) == if x == k then None else At(es, x)
    ensures Represents(fs, m - {k}) && |m - {k}| == |m| - 1
  {
  }

  lemma Answers(es: seq<Ent>, m: map<nat, nat>, k: nat)
    requires Represents(es, m) && Real(k)
    ensures At(es, k) == if k in m then Some(m[k]) else None
  {
  }

  /** One call answers as the map does, and leaves the table standing for the map after it. */
  method Step(t: Table, op: Op, ghost m: map<nat, nat>) returns (out: Out)
    requires t.Valid() && Represents(t.ents[..], m) && t.size == |m|
    requires op.OpPut? && Real(op.k) ==> op.k !in m && (t.ents.Length > 0 ==> Covers(t.hash, t.ents.Length, op.k))
    modifies t, t.ents
    ensures t.Valid() && Represents(t.ents[..], MapNext(m, t.ents.Length, op)) && t.size == |MapNext(m, t.ents.Length, op)|
    ensures out == MapOut(m, t.ents.Length, op)
  {
    hide Sound, Passes, Covers, TombFirst, Count, At, Represents;
    ghost var es := t.ents[..];
    if Real(op.k) { Answers(es, m, op.k); }
    match op
    case OpPut(k, v) =>
      out := StepPut(t, k, v, m);
    case OpGet(k) =>
      var r, val := t.Get(k);
      out := Out(r, if r == Ok then val else 0);
    case OpDel(k) =>
      var r := t.Del(k);
      if r == Ok {
        Deletes(es, t.ents[..], m, k);
      } else {
        assert k !in m ==> m - {k} == m;
      }
      out := Out(r, 0);
  }

  method StepPut(t: Table, k: nat, v: nat, ghost m: map<nat, nat>) returns (out: Out)
    requires t.Valid() && Represents(t.ents[..], m) && t.size == |m|
    requires Real(k) ==> k !in m && (t.ents.Length > 0 ==> Covers(t.hash, t.ents.Length, k))
    modifies t, t.ents
    ensures t.Valid() && var m1 := MapNext(m, t.ents.Length, OpPut(k, v)); Represents(t.ents[..], m1) && t.size == |m1|
    ensures out == MapOut(m, t.ents.Length, OpPut(k, v))
  {
    hide Sound, Passes, Covers, TombFirst, Count, At, Represents;
    ghost var es := t.ents[..];
    CountFits(es);
    if Real(k) {
      Answers(es, m, k);
      if t.size < t.ents.Length { PlaceLeft(es, t.hash, k); }
    }
    var r := t.Put(k, v);
    if r == Ok { Puts(es, t.ents[..], m, k, v); }
    out := Out(r, 0);
  }

  /** Every call so far was answered as the map answers it. */
  ghost predicate Agrees(cap: nat, ops: seq<Op>, outs: seq<Out>) {
    |outs| <= |ops| && forall i :: 0 <= i < |outs| ==> outs[i] == MapOut(MapAfter(cap, ops[..i]), cap, ops[i])
  }

  lemma AgreesMore(cap: nat, ops: seq<Op>, outs: seq<Out>, out: Out)
    requires Agrees(cap, ops, outs) && |outs| < |ops|
    requires out == MapOut(MapAfter(cap, ops[..|outs|]), cap, ops[|outs|])
    ensures Agrees(cap, ops, outs + [out])
    ensures MapAfter(cap, ops[..|outs| + 1]) == MapNext(MapAfter(cap, ops[..|outs|]), cap, ops[|outs|])
  {
    hide MapOut, MapNext;
    assert ops[..|outs| + 1][..|outs|] == ops[..|outs|];
  }

  /** Only keys that are absent are put, and the probes for them reach every slot. */
  ghost predicate Puttable(h: nat -> nat, cap: nat, ops: seq<Op>) {
    forall i :: 0 <= i < |ops| && ops[i].OpPut? && Real(ops[i].k) ==>
      ops[i].k !in MapAfter(cap, ops[..i]) && (cap > 0 ==> Covers(h, cap, ops[i].k))
  }

  /** In every run that puts only absent keys, every call answers as a finite map would. */
  method Run(t: Table, ops: seq<Op>) returns (outs: seq<Out>)
    requires t.Valid() && t.size == 0 && forall k | Real(k) :: At(t.ents[..], k) == None
    requires Puttable(t.hash, t.ents.Length, ops)
    modifies t, t.ents
    ensures |outs| == |ops| && Agrees(t.ents.Length, ops, outs)
    ensures Represents(t.ents[..], MapAfter(t.ents.Length, ops))
  {
    hide Sound, Covers, Count, At, MapAfter, MapOut, MapNext, Represents, Agrees;
    StartsEmpty(t.ents[..], t.ents.Length, ops);
    outs := [];
    ghost var cap := t.ents.Length;
    while |outs| < |ops|
      invariant |outs| <= |ops| && Agrees(cap, ops, outs)
      invariant t.Valid() && Represents(t.ents[..], MapAfter(cap, ops[..|outs|])) && t.size == |MapAfter(cap, ops[..|outs|])|
    {
      var out := Step(t, ops[|outs|], MapAfter(cap, ops[..|outs|]));
      AgreesMore(cap, ops, outs, out);
      outs := outs + [out];
    }
    assert ops[..|outs|] == ops;
  }

  lemma StartsEmpty(es: seq<Ent>, cap: nat, ops: seq<Op>)
    requires forall k | Real(k) :: At(es, k) == None
    ensures MapAfter(cap, ops[..0]) == map[] && Represents(es, map[]) && Agrees(cap, ops, [])
  {
  }

  // --- A key that is put twice ---

  /** With a hash of 0 a key goes into the first of two slots that has no key. */
  lemma InFirst(es: seq<Ent>, h: nat -> nat, k: nat, v: nat)
    requires |es| == 2 && h(k) == 0 && !Real(es[0].key)
    ensures !Passes(es, h, k, 2)
    ensures forall fs :: StoredFirst(es, h, k, v, fs) ==> fs == [Ent(k, v), es[1]]
  {
    assert Probe(h, 2, k, 0) == 0;
  }

  lemma InSecond(es: seq<Ent>, h: nat -> nat, k: nat, v: nat)
    requires |es| == 2 && h(k) == 0 && Real(es[0].key) && es[0].key != k && !Real(es[1].key)
    ensures !Passes(es, h, k, 2)
    ensures forall fs :: StoredFirst(es, h, k, v, fs) ==> fs == [es[0], Ent(k, v)]
  {
    assert Probe(h, 2, k, 0) == 0 && Probe(h, 2, k, 1) == 1;
  }

  /** A run that stores a key twice: two keys, the first deleted, the second put again. */
  method PutTwice() returns (t: Table)
    ensures fresh(t) && fresh(t.ents) && t.Counted() && t.hash(2) == 0 && t.ents[..] == [Ent(2, 8), Ent(2, 7)]
    ensures Open(t.ents[..], t.hash) && !Distinct(t.ents[..]) && !Sound(t.ents[..], t.hash)
  {
    hide Passes, StoredFirst, Sound, Open, Found, Once, Count, TombFirst, Probe, Distinct;
    t := new Table(_ => 0, 2);
    SoundIsOpen(t.ents[..], t.hash);
    assert t.ents[..] == [Ent(0, 0), Ent(0, 0)];
    InFirst(t.ents[..], t.hash, 1, 5);
    var r := t.Put(1, 5);
    assert t.ents[..] == [Ent(1, 5), Ent(0, 0)];
    InSecond(t.ents[..], t.hash, 2, 7);
    r := t.Put(2, 7);
    assert t.ents[..] == [Ent(1, 5), Ent(2, 7)];
    r := t.Del(1);
    assert t.ents[..] == [Ent(TOMB, 0), Ent(2, 7)];
    InFirst(t.ents[..], t.hash, 2, 8);
    r := t.Put(2, 8);
    assert t.ents[..] == [Ent(2, 8), Ent(2, 7)];
    SameKeyTwice(t.ents[..], t.hash);
  }

  lemma SameKeyTwice(es: seq<Ent>, h: nat -> nat)
    requires |es| == 2 && Real(es[0].key) && es[0].key == es[1].key
    ensures !Distinct(es) && !Sound(es, h)
  {
  }
  lemma SoundIsOpen(es: seq<Ent>, h: nat -> nat)
    requires Sound(es, h)
    ensures Open(es, h)
  {
  }

  lemma FirstIsDropped(es: seq<Ent>, h: nat -> nat, k: nat)
    requires |es| == 2 && h(k) == 0 && es[0].key == k
    ensures Found(es, h, k).Some?
    ensures forall fs :: DroppedFirst(es, h, k, fs) ==> fs == [Ent(TOMB, 0), es[1]]
  {
    assert Probe(h, 2, k, 0) == 0;
  }

  lemma SecondIsFound(es: seq<Ent>, h: nat -> nat, k: nat)
    requires |es| == 2 && h(k) == 0 && es[0].key == TOMB && es[1].key == k && Real(k)
    ensures Found(es, h, k) == Some(es[1].val)
  {
    assert Probe(h, 2, k, 0) == 0 && Probe(h, 2, k, 1) == 1;
    assert FoundFrom(es, h, k, 0) == FoundFrom(es, h, k, 1);
  }

  /** A run after which a deleted key comes back, with the value that a later put had
      written over. */
  method ComesBack() returns (t: Table, r: Result, val: nat)
    ensures r == Ok && val == 7 && t.Counted() && t.ents[..] == [Ent(TOMB, 0), Ent(2, 7)]
  {
    hide Sound, Open, Count, Found, DroppedFirst;
    t := PutTwice();
    FirstIsDropped(t.ents[..], t.hash, 2);
    r := t.Del(2);
    SecondIsFound(t.ents[..], t.hash, 2);
    r, val := t.Get(2);
  }

  // --- Runs of any calls ---

  /** What the calls so far say about a key. */
  datatype Last = Untouched | Stored(v: nat) | Deleted

  function LastOf(ops: seq<Op>, outs: seq<Out>, k: nat): Last
    requires |outs| == |ops|
  {
    if ops == [] then Untouched
    else
      var n := |ops| - 1;
      if ops[n].k != k || outs[n].r != Ok || ops[n].OpGet? then LastOf(ops[..n], outs[..n], k)
      else if ops[n].OpPut? then Stored(ops[n].v)
      else Deleted
  }

  /** What a search finds, given what was found before the run; nothing is said of a
      key after a delete. */
  predicate Knows(last: Last, before: Option<nat>, now: Option<nat>) {
    match last
    case Untouched => now == before
    case Stored(v) => now == Some(v)
    case Deleted => true
  }

  ghost predicate Remembers(es0: seq<Ent>, es: seq<Ent>, h: nat -> nat, ops: seq<Op>, outs: seq<Out>)
    requires |outs| == |ops|
  {
    forall k | Real(k) :: Knows(LastOf(ops, outs, k), Found(es0, h, k), Found(es, h, k))
  }

  /** The answer that the calls so far demand. */
  ghost predicate Expected(op: Op, out: Out, now: Option<nat>, h: nat -> nat, cap: nat) {
    if !Real(op.k) then out == Out(EInval, 0)
    else
      match op
      case OpPut(k, _) => out.r == Ok || out.r == ENoSpace || (out.r == AssertFailed && cap > 0 && !Covers(h, cap, k))
      case OpGet(_) => out == if now.Some? then Out(Ok, now.value) else Out(ENotFound, 0)
      case OpDel(_) => out == Out(if now.Some? then Ok else ENotFound, 0)
  }

  /** Every call was answered so, for what a search could find at that time. */
  ghost predicate Truthful(es0: seq<Ent>, h: nat -> nat, ops: seq<Op>, outs: seq<Out>) {
    |outs| <= |ops| && forall i :: 0 <= i < |outs| ==> Answered(es0, h, ops[..i], outs[..i], ops[i], outs[i])
  }

  ghost predicate Answered(es0: seq<Ent>, h: nat -> nat, ops: seq<Op>, outs: seq<Out>, op: Op, out: Out)
    requires |outs| == |ops|
  {
    exists now :: (Real(op.k) ==> Knows(LastOf(ops, outs, op.k), Found(es0, h, op.k), now)) && Expected(op, out, now, h, |es0|)
  }

  /** One call of any kind. */
  ghost predicate Moves(op: Op, out: Out, es: seq<Ent>, fs: seq<Ent>, h: nat -> nat) {
    && (forall k | Real(k) && (k != op.k || out.r != Ok || op.OpGet?) :: Found(fs, h, k) == Found(es, h, k))
    && (op.OpPut? && out.r == Ok ==> Found(fs, h, op.k) == Some(op.v))
  }

  method StepAny(t: Table, op: Op) returns (out: Out)
    requires t.Counted() && Open(t.ents[..], t.hash)
    modifies t, t.ents
    ensures t.Counted() && Open(t.ents[..], t.hash)
    ensures Expected(op, out, Found(old(t.ents[..]), t.hash, op.k), t.hash, t.ents.Length)
    ensures Moves(op, out, old(t.ents[..]), t.ents[..], t.hash)
  {
    hide Sound, Open, Passes, Covers, TombFirst, StoredFirst, Count, At, Found, Once;
    match op
    case OpPut(k, v) =>
      CountFits(t.ents[..]);
      if t.size < t.ents.Length && Covers(t.hash, t.ents.Length, k) { PlaceLeft(t.ents[..], t.hash, k); }
      var r := t.Put(k, v);
      out := Out(r, 0);
    case OpGet(k) =>
      var r, val := t.Get(k);
      out := Out(r, if r == Ok then val else 0);
    case OpDel(k) =>
      var r := t.Del(k);
      out := Out(r, 0);
  }

  lemma RemembersMore(es0: seq<Ent>, es: seq<Ent>, fs: seq<Ent>, h: nat -> nat, ops: seq<Op>, outs: seq<Out>, op: Op, out: Out)
    requires |outs| == |ops| && |es| == |es0| && Remembers(es0, es, h, ops, outs)
    requires Moves(op, out, es, fs, h) && Expected(op, out, Found(es, h, op.k), h, |es0|)
    ensures Remembers(es0, fs, h, ops + [op], outs + [out])
    ensures Answered(es0, h, ops, outs, op, out)
  {
    hide Found, Covers;
    assert (ops + [op])[..|ops|] == ops && (outs + [out])[..|outs|] == outs;
    assert Real(op.k) ==> Knows(LastOf(ops, outs, op.k), Found(es0, h, op.k), Found(es, h, op.k));
  }

  lemma TruthfulMore(es0: seq<Ent>, h: nat -> nat, ops: seq<Op>, outs: seq<Out>, out: Out)
    requires Truthful(es0, h, ops, outs) && |outs| < |ops|
    requires Answered(es0, h, ops[..|outs|], outs, ops[|outs|], out)
    ensures Truthful(es0, h, ops, outs + [out])
  {
    hide Answered;
    var longer := outs + [out];
    forall i | 0 <= i < |longer|
      ensures Answered(es0, h, ops[..i], longer[..i], ops[i], longer[i])
    {
      assert longer[..i] == outs[..i];
      assert i == |outs| ==> outs[..i] == outs;
    }
  }

  lemma StartsKnown(es: seq<Ent>, h: nat -> nat, ops: seq<Op>)
    ensures Remembers(es, es, h, ops[..0], []) && Truthful(es, h, ops, [])
  {
  }

  /** In every run of any calls, from any table that can be searched, the size is the
      number of slots with keys, the assertion can only fail for a key whose probes miss a
      slot, and a key that was put and not deleted since is found with its last value. */
  method RunAny(t: Table, ops: seq<Op>) returns (outs: seq<Out>)
    requires t.Counted() && Open(t.ents[..], t.hash)
    modifies t, t.ents
    ensures t.Counted() && Open(t.ents[..], t.hash)
    ensures |outs| == |ops| && Truthful(old(t.ents[..]), t.hash, ops, outs)
    ensures Remembers(old(t.ents[..]), t.ents[..], t.hash, ops, outs)
  {
    hide Open, Count, Remembers, Truthful, Answered, Moves, Expected, Found;
    ghost var es0 := t.ents[..];
    StartsKnown(es0, t.hash, ops);
    outs := [];
    while |outs| < |ops|
      invariant |outs| <= |ops| && t.Counted() && Open(t.ents[..], t.hash)
      invariant Truthful(es0, t.hash, ops, outs) && Remembers(es0, t.ents[..], t.hash, ops[..|outs|], outs)
    {
      ghost var es := t.ents[..];
      var n := |outs|;
      var out := StepAny(t, ops[n]);
      RemembersMore(es0, es, t.ents[..], t.hash, ops[..n], outs, ops[n], out);
      TruthfulMore(es0, t.hash, ops, outs, out);
      assert ops[..n + 1] == ops[..n] + [ops[n]];
      outs := outs + [out];
    }
    assert ops[..|outs|] == ops;
  }
}
