/**
 Reading and printing numbers: `strtou64` (lib/strtou64.c) and `printnum`
 (lib/printfmt.c).
 */
module Numbers {
  import opened Common

  const TWO64: nat := 0x1_0000_0000_0000_0000

  datatype Result = Ok | EInval | ERange

  // --- What a string of digits means ---

  /** A character's value as a digit, if it is one in some base up to 36. */
  function DigitOf(c: char): (r: Option<nat>)
    ensures r.Some? ==> r.value < 36
  {
    if '0' <= c <= '9' then Some(c as nat - '0' as nat)
    else if 'a' <= c <= 'z' then Some(c as nat - 'a' as nat + 10)
    else if 'A' <= c <= 'Z' then Some(c as nat - 'A' as nat + 10)
    else None
  }

  predicate IsDigit(c: char, base: nat) {
    DigitOf(c).Some? && DigitOf(c).value < base
  }

  predicate AllDigits(ds: string, base: nat) {
    forall i :: 0 <= i < |ds| ==> IsDigit(ds[i], base)
  }

  /** The number that digits stand for, without bound. */
  function Value(ds: string, base: nat): nat
    requires AllDigits(ds, base)
  {
    if ds == [] then 0 else Value(ds[..|ds| - 1], base) * base + DigitOf(ds[|ds| - 1]).value
  }

  // --- Reading ---

  /** A character of a terminated string. */
  function At(s: string, i: nat): char {
    if i < |s| then s[i] else '\0'
  }

  function SkipSpace(s: string, i: nat): (r: nat)
    requires i <= |s|
    ensures i <= r <= |s|
    decreases |s| - i
  {
    if At(s, i) == ' ' || At(s, i) == '\t' then SkipSpace(s, i + 1) else i
  }

  /** Behind leading white space and a plus sign. */
  function AfterSign(s: string): (r: nat)
    ensures r <= |s|
  {
    var i := SkipSpace(s, 0);
    if At(s, i) == '+' then i + 1 else i
  }

  predicate HexPrefix(s: string, i: nat) {
    At(s, i) == '0' && (At(s, i + 1) == 'x' || At(s, i + 1) == 'X')
  }

  /** The base that a call means, if any, and where its digits start. */
  function Resolve(s: string, i: nat, base: int): (r: Option<(nat, nat)>)
    requires i <= |s|
    ensures r.Some? ==> r.value.0 <= |s| && 2 <= r.value.1 <= 36
  {
    if (base == 0 || base == 16) && HexPrefix(s, i) then Some((i + 2, 16))
    else if base == 0 && At(s, i) == '0' then Some((i, 8))
    else if base == 0 then Some((i, 10))
    else if base < 2 || base > 36 then None
    else Some((i, base))
  }

  /** The end of the run of digits from an index on. */
  function RunEnd(s: string, i: nat, base: nat): (r: nat)
    requires i <= |s|
    ensures i <= r <= |s| && AllDigits(s[i..r], base)
    ensures r < |s| ==> !IsDigit(s[r], base)
    decreases |s| - i
  {
    if i < |s| && IsDigit(s[i], base) then
      var r := RunEnd(s, i + 1, base);
      assert s[i..r] == [s[i]] + s[i + 1..r];
      r
    else i
  }

  /** The source's table: per base, the largest number that can take another digit. */
  function Overflow(b: nat): nat
    requires 2 <= b <= 35
  {
    match b
    case 2 => 9223372036854775807
    case 3 => 6148914691236517205
    case 4 => 4611686018427387903
    case 5 => 3689348814741910323
    case 6 => 3074457345618258602
    case 7 => 2635249153387078802
    case 8 => 2305843009213693951
    case 9 => 2049638230412172401
    case 10 => 1844674407370955161
    case 11 => 1676976733973595601
    case 12 => 1537228672809129301
    case 13 => 1418980313362273201
    case 14 => 1317624576693539401
    case 15 => 1229782938247303441
    case 16 => 1152921504606846975
    case 17 => 1085102592571150095
    case 18 => 1024819115206086200
    case 19 => 970881267037344821
    case 20 => 922337203685477580
    case 21 => 878416384462359600
    case 22 => 838488366986797800
    case 23 => 802032351030850070
    case 24 => 768614336404564650
    case 25 => 737869762948382064
    case 26 => 709490156681136600
    case 27 => 683212743470724133
    case 28 => 658812288346769700
    case 29 => 636094623231363848
    case 30 => 614891469123651720
    case 31 => 595056260442243600
    case 32 => 576460752303423487
    case 33 => 558992244657865200
    case 34 => 542551296285575047
    case 35 => 527049830677415760
  }

  /** The table is what its use needs: the quotient of 2^64 - 1 by the base. */
  lemma TableIsQuotient(b: nat)
    requires 2 <= b <= 35
    ensures Overflow(b) * b <= TWO64 - 1 < Overflow(b) * b + b
  {
  }

  lemma {:induction false} Monotone(x: nat, y: nat, b: nat)
    requires x <= y
    ensures x * b <= y * b
  {
  }

  /** The overflow test is exact. */
  lemma OverflowTest(val: nat, dig: nat, b: nat)
    requires 2 <= b <= 35 && dig < b
    ensures val > Overflow(b) || (val == Overflow(b) && dig > TWO64 - 1 - Overflow(b) * b) <==> val * b + dig >= TWO64
  {
    hide Overflow;
    TableIsQuotient(b);
    if val < Overflow(b) {
      Monotone(val + 1, Overflow(b), b);
    } else if val > Overflow(b) {
      Monotone(Overflow(b) + 1, val, b);
    }
  }

  lemma ValueMore(s: string, i: nat, j: nat, base: nat)
    requires i <= j < |s| && AllDigits(s[i..j], base) && IsDigit(s[j], base)
    ensures AllDigits(s[i..j + 1], base)
    ensures Value(s[i..j + 1], base) == Value(s[i..j], base) * base + DigitOf(s[j]).value
  {
    assert s[i..j + 1] == s[i..j] + [s[j]];
    assert s[i..j + 1][..j - i] == s[i..j];
  }

  lemma {:induction false} RunEndIs(s: string, i: nat, j: nat, base: nat)
    requires i <= j <= |s| && AllDigits(s[i..j], base) && (j == |s| || !IsDigit(s[j], base))
    ensures RunEnd(s, i, base) == j
    decreases j - i
  {
    if i < j {
      assert IsDigit(s[i..j][0], base);
      assert s[i + 1..j] == s[i..j][1..];
      RunEndIs(s, i + 1, j, base);
    }
  }

  /** The digit loop: the exact value if it is below 2^64, and a range error otherwise. */
  method ReadDigits(s: string, i: nat, base: nat) returns (r: Result, end: nat, val: nat)
    requires i <= |s| && 2 <= base <= 35
    ensures end == RunEnd(s, i, base)
    ensures r == EInval <==> end == i
    ensures r == ERange <==> Value(s[i..end], base) >= TWO64
    ensures r == Ok ==> val == Value(s[i..end], base)
  {
    hide Overflow, Value;
    var overflowVal := Overflow(base);
    var overflowDigit := TWO64 - 1 - overflowVal * base;
    end, r, val := i, EInval, 0;
    ValueNone(s[i..i], base);
    while true
      invariant i <= end <= |s| && AllDigits(s[i..end], base)
      invariant r == EInval <==> end == i
      invariant r == ERange <==> Value(s[i..end], base) >= TWO64
      invariant r != ERange ==> val == Value(s[i..end], base)
      decreases |s| - end
    {
      var dig := DigitOf(At(s, end));
      if dig.None? || dig.value >= base { break; }
      ValueMore(s, i, end, base);
      ValueGrows(s, i, end, base);
      OverflowTest(val, dig.value, base);
      if r == EInval { r := Ok; }
      if val > overflowVal || (val == overflowVal && dig.value > overflowDigit) { r := ERange; }
      val := (val * base + dig.value) % TWO64;
      end := end + 1;
    }
    RunEndIs(s, i, end, base);
  }

  lemma ValueNone(ds: string, base: nat)
    requires ds == []
    ensures Value(ds, base) == 0
  {
  }

  lemma ValueGrows(s: string, i: nat, j: nat, base: nat)
    requires i <= j < |s| && AllDigits(s[i..j], base) && base >= 1
    ensures Value(s[i..j], base) <= Value(s[i..j], base) * base
  {
    Monotone(1, base, Value(s[i..j], base));
  }

  /** `strtou64`. Base 36 is excluded: the table has no entry for it. */
  method Strtou64(begin: Option<string>, base: int) returns (r: Result, end: nat, stored: Option<nat>)
    requires base != 36
    ensures begin.None? ==> r == EInval
    ensures begin.Some? ==> Parsed(begin.value, base, r, end, stored)
  {
    end, stored := 0, None;
    if begin.None? { return EInval, 0, None; }
    var s := begin.value;
    while At(s, end) == ' ' || At(s, end) == '\t'
      invariant end <= |s| && SkipSpace(s, end) == SkipSpace(s, 0)
      decreases |s| - end
    {
      end := end + 1;
    }
    if At(s, end) == '+' { end := end + 1; }
    var b := Resolve(s, end, base);
    if b.None? { return EInval, end, None; }
    var i := b.value.0;
    var val;
    r, end, val := ReadDigits(s, i, b.value.1);
    if r == EInval {
      end := 0;
    } else if r == ERange {
      stored := Some(TWO64 - 1);
    } else {
      stored := Some(val);
    }
  }

  /** What a parse gives: an error if the base or the digits are missing, and otherwise
      the exact value of all the digits, or a range error if it needs more than 64 bits. */
  ghost predicate Parsed(s: string, base: int, r: Result, end: nat, stored: Option<nat>) {
    match Resolve(s, AfterSign(s), base)
    case None => r == EInval && end == AfterSign(s) && stored == None
    case Some((i, b)) =>
      var e := RunEnd(s, i, b);
      if e == i then r == EInval && end == 0 && stored == None
      else if Value(s[i..e], b) < TWO64 then r == Ok && end == e && stored == Some(Value(s[i..e], b))
      else r == ERange && end == e && stored == Some(TWO64 - 1)
  }

  // --- What is read, in terms of the string ---

  /** The digits are those of ASCII, and letters of either case go on from 10. */
  lemma DigitsAre(c: char, d: nat)
    ensures DigitOf(c) == Some(d) <==>
      || (d < 10 && c as int == 48 + d)
      || (10 <= d < 36 && (c as int == 97 + (d - 10) || c as int == 65 + (d - 10)))
  {
  }

  predicate Spaces(ws: string) {
    forall i :: 0 <= i < |ws| ==> ws[i] == ' ' || ws[i] == '\t'
  }

  lemma {:induction false} SpacesSkipped(ws: string, tail: string, i: nat)
    requires Spaces(ws) && i <= |ws| && (tail == [] || (tail[0] != ' ' && tail[0] != '\t'))
    ensures SkipSpace(ws + tail, i) == |ws|
    decreases |ws| - i
  {
    if i < |ws| { SpacesSkipped(ws, tail, i + 1); }
  }

  /** A plus sign, or nothing, and then something else. */
  predicate Signed(plus: string, body: string) {
    plus == "+" || (plus == "" && (body == [] || (body[0] != ' ' && body[0] != '\t' && body[0] != '+')))
  }

  lemma SignIsBehind(ws: string, plus: string, body: string)
    requires Spaces(ws) && Signed(plus, body)
    ensures AfterSign(ws + plus + body) == |ws + plus|
  {
    SpacesSkipped(ws, plus + body, 0);
    assert ws + (plus + body) == ws + plus + body;
    if plus == "+" { assert (ws + plus + body)[|ws|] == '+'; }
  }

  /** The base that a call means: 16 behind `0x` or `0X`, if base 16 or none was given; without
      one, 8 if a zero comes first, and else 10; and else the one given, from 2 to 36. */
  function BaseMeant(pre: string, body: string, base: int): Option<nat> {
    if pre == "0x" || pre == "0X" then Some(16)
    else if base == 0 then Some(if "0" <= body then 8 else 10)
    else if 2 <= base <= 36 then Some(base)
    else None
  }

  /** A prefix is one wherever it can be one. */
  predicate Prefixed(pre: string, body: string, base: int) {
    if base == 0 || base == 16 then
      pre == "0x" || pre == "0X" || (pre == "" && !("0x" <= body) && !("0X" <= body))
    else pre == ""
  }

  lemma BaseIsMeant(lead: string, pre: string, body: string, base: int)
    requires Prefixed(pre, body, base)
    ensures var r, b := Resolve(lead + pre + body, |lead|, base), BaseMeant(pre, body, base);
      (r.None? <==> b.None?) && (r.Some? ==> r.value.0 == |lead + pre| && r.value.1 == b.value)
  {
    var s, n := lead + pre + body, |lead|;
    assert s[n..] == pre + body;
    if pre == "" {
      assert s[n..] == body;
      assert At(s, n) == At(body, 0) && At(s, n + 1) == At(body, 1);
      assert "0" <= body <==> At(body, 0) == '0';
      assert At(body, 0) == '0' && At(body, 1) == 'x' ==> "0x" <= body;
      assert At(body, 0) == '0' && At(body, 1) == 'X' ==> "0X" <= body;
    } else {
      assert s[n] == pre[0] && s[n + 1] == pre[1];
    }
  }

  /** White space, a sign, a prefix and digits, up to the first character that is none: the
      number they stand for, or a range error if it needs more than 64 bits. */
  lemma Reads(ws: string, plus: string, pre: string, ds: string, rest: string, base: int, b: nat,
              r: Result, end: nat, stored: Option<nat>)
    requires Spaces(ws) && Signed(plus, pre + ds + rest) && Prefixed(pre, ds + rest, base)
    requires BaseMeant(pre, ds + rest, base) == Some(b) && AllDigits(ds, b) && (rest == [] || !IsDigit(rest[0], b))
    requires Parsed(ws + plus + pre + ds + rest, base, r, end, stored)
    ensures ds == [] ==> r == EInval && end == 0 && stored == None
    ensures ds != [] && Value(ds, b) < 0x1_0000_0000_0000_0000 ==>
      r == Ok && end == |ws + plus + pre + ds| && stored == Some(Value(ds, b))
    ensures ds != [] && Value(ds, b) >= 0x1_0000_0000_0000_0000 ==>
      r == ERange && end == |ws + plus + pre + ds| && stored == Some(0xFFFF_FFFF_FFFF_FFFF)
  {
    hide Value, RunEnd, Resolve, DigitOf, AfterSign, BaseMeant, Prefixed, Signed, Spaces, AllDigits;
    var s, lead, i := ws + plus + pre + ds + rest, ws + plus, |ws + plus + pre|;
    assert s == ws + plus + (pre + ds + rest) == lead + pre + (ds + rest);
    SignIsBehind(ws, plus, pre + ds + rest);
    BaseIsMeant(lead, pre, ds + rest, base);
    assert s[i..i + |ds|] == ds;
    assert i + |ds| < |s| ==> s[i + |ds|] == rest[0];
    RunEndIs(s, i, i + |ds|, b);
  }

  // --- Printing ---

  function DigitChar(d: nat): (c: char)
    requires d < 16
    ensures DigitOf(c) == Some(d)
  {
    if d < 10 then '0' + d as char else 'a' + (d - 10) as char
  }

  /** The digits of a number, the highest first; none for 0. */
  function Numeral(n: nat, base: nat): (r: string)
    requires 2 <= base <= 16
    ensures AllDigits(r, base)
  {
    if n == 0 then [] else Numeral(n / base, base) + [DigitChar(n % base)]
  }

  lemma {:induction false} NumeralValue(n: nat, base: nat)
    requires 2 <= base <= 16
    ensures Value(Numeral(n, base), base) == n
  {
    hide Value, DigitOf, DigitChar;
    if n == 0 {
      ValueNone([], base);
    } else {
      NumeralValue(n / base, base);
      ValueLast(Numeral(n / base, base), DigitChar(n % base), base);
      DivMod(n, base);
    }
  }

  lemma ValueLast(ds: string, c: char, base: nat)
    requires AllDigits(ds, base) && IsDigit(c, base)
    ensures AllDigits(ds + [c], base) && Value(ds + [c], base) == Value(ds, base) * base + DigitOf(c).value
  {
  }

  lemma DivMod(n: nat, b: nat)
    requires b > 0
    ensures n / b * b + n % b == n
  {
  }

  function Pow2(k: nat): nat { if k == 0 then 1 else 2 * Pow2(k - 1) }

  lemma HalfAtMost(n: nat, base: nat)
    requires base >= 2
    ensures 2 * (n / base) <= n
  {
    DivMod(n, base);
    Monotone(2, base, n / base);
  }

  lemma NumeralNone(base: nat)
    requires 2 <= base <= 16
    ensures Numeral(0, base) == []
  {
  }

  lemma NumeralLonger(n: nat, base: nat)
    requires 2 <= base <= 16 && n > 0
    ensures |Numeral(n, base)| == |Numeral(n / base, base)| + 1
  {
  }

  lemma {:induction false} NumeralFits(n: nat, base: nat, k: nat)
    requires 2 <= base <= 16 && n < Pow2(k)
    ensures |Numeral(n, base)| <= k
  {
    hide Numeral;
    if n == 0 {
      NumeralNone(base);
    } else {
      HalfAtMost(n, base);
      NumeralFits(n / base, base, k - 1);
      NumeralLonger(n, base);
    }
  }

  lemma SixtyFourDigits(n: nat, base: nat)
    requires 2 <= base <= 16 && n < TWO64
    ensures |Numeral(n, base)| <= 64
  {
    hide Numeral, Pow2;
    Pow2Is64();
    NumeralFits(n, base, 64);
  }

  lemma Pow2Is64()
    ensures Pow2(64) == TWO64
  {
    assert Pow2(8) == 256;
    hide Pow2;
    Pow2Add(8, 8);
    Pow2Add(16, 16);
    Pow2Add(32, 32);
  }

  lemma {:induction false} Pow2Add(j: nat, k: nat)
    ensures Pow2(j + k) == Pow2(j) * Pow2(k)
  {
    if k > 0 { Pow2Add(j, k - 1); }
  }

  /** What is printed for a number: its digits, or a zero. */
  function Printed(n: nat, base: nat): (r: string)
    requires 2 <= base <= 16
    ensures AllDigits(r, base) && r != []
  {
    if n == 0 then "0" else Numeral(n, base)
  }

  lemma PrintedValue(n: nat, base: nat)
    requires 2 <= base <= 16
    ensures Value(Printed(n, base), base) == n
  {
    NumeralValue(n, base);
  }

  function Repeat(c: char, n: int): (r: string)
    ensures |r| == if n > 0 then n else 0
    ensures forall i :: 0 <= i < |r| ==> r[i] == c
  {
    if n <= 0 then [] else [c] + Repeat(c, n - 1)
  }

  lemma {:induction false} RepeatMore(c: char, n: nat)
    ensures Repeat(c, n + 1) == Repeat(c, n) + [c]
  {
  }

  function Reversed(s: string): (r: string)
    ensures |r| == |s|
  {
    if s == [] then [] else [s[|s| - 1]] + Reversed(s[..|s| - 1])
  }

  lemma NumeralStep(n: nat, base: nat)
    requires 2 <= base <= 16
    ensures n > 0 ==> Numeral(n, base) == Numeral(n / base, base) + [DigitChar(n % base)] && n / base < n
    ensures n == 0 ==> Numeral(n, base) == []
  {
    hide DigitChar;
    if n > 0 { Shrinks(n, base); }
  }

  lemma Shrinks(n: nat, b: nat)
    requires n > 0 && b >= 2
    ensures n / b < n
  {
  }

  /** What is still to come and what is in the buffer make up the numeral. */
  predicate Filling(num0: nat, base: nat, num: nat, done: string)
    requires 2 <= base <= 16
  {
    Numeral(num, base) + Reversed(done) == Numeral(num0, base)
  }

  function LowDigit(n: nat, base: nat): char
    requires 2 <= base <= 16
  {
    DigitChar(n % base)
  }

  function Rest(n: nat, base: nat): nat
    requires 2 <= base <= 16
  {
    n / base
  }

  lemma FillStep(num0: nat, base: nat, num: nat, done: string)
    requires 2 <= base <= 16 && num > 0 && num0 < TWO64 && Filling(num0, base, num, done)
    ensures Filling(num0, base, Rest(num, base), done + [LowDigit(num, base)])
    ensures Rest(num, base) < num && |done| < 64
  {
    hide Reversed, Numeral, DigitChar;
    SixtyFourDigits(num0, base);
    NumeralStep(num, base);
    ReversedMore(done, DigitChar(num % base));
  }

  lemma FillDone(num0: nat, base: nat, done: string)
    requires 2 <= base <= 16 && num0 < TWO64 && Filling(num0, base, 0, done)
    ensures |done| <= 64 && (done == [] <==> num0 == 0)
    ensures Reversed(if done == [] then "0" else done) == Printed(num0, base)
  {
    SixtyFourDigits(num0, base);
    NumeralStep(num0, base);
  }

  /** The first loop of `printnum`: the digits, the lowest first, in a buffer of 68. */
  method FillDigits(num0: nat, base: nat, buf: array<char>) returns (x: nat)
    requires num0 < TWO64 && 2 <= base <= 16 && buf.Length == 68
    modifies buf
    ensures 0 < x <= 64 && Reversed(buf[..x]) == Printed(num0, base)
  {
    assert Filling(num0, base, num0, []) by { ReversedNone(); }
    hide Filling, Printed, Reversed, LowDigit, Rest;
    var num: nat := num0;
    x := 0;
    while num > 0
      invariant x <= 64 && Filling(num0, base, num, buf[..x])
    {
      FillStep(num0, base, num, buf[..x]);
      buf[x] := LowDigit(num, base);
      assert buf[..x + 1] == buf[..x] + [buf[x]];
      num := Rest(num, base);
      x := x + 1;
    }
    FillDone(num0, base, buf[..x]);
    if x == 0 {
      buf[x] := '0';
      assert buf[..x + 1] == "0";
      x := x + 1;
    }
  }

  lemma ReversedNone()
    ensures Reversed([]) == []
  {
  }

  lemma ReversedMore(s: string, c: char)
    ensures Reversed(s + [c]) == [c] + Reversed(s)
  {
  }

  /** `printnum`; what it puts out is `out`. */
  method PrintNum(num: nat, base: nat, width0: int, padc: char) returns (out: string)
    requires num < TWO64 && 2 <= base <= 16
    ensures var pad := width0 - |Printed(num, base)|;
      out == (if padc != '-' then Repeat(padc, pad) else []) + Printed(num, base) + (if padc == '-' then Repeat(' ', pad) else [])
  {
    hide Printed, Reversed, Repeat;
    var buf := new char[68];
    var width := width0;
    var x := FillDigits(num, base, buf);
    var chars := buf[..x];
    ghost var ds, pad := Printed(num, base), width0 - x;
    out := [];
    RepeatNone(padc, 0);
    RepeatNone(' ', 0);
    RepeatNone(padc, pad);
    if padc != '-' {
      ghost var k := 0;
      while width > x
        invariant width == width0 - k && out == Repeat(padc, k) && (k == 0 || k <= pad)
      {
        out := out + [padc];
        RepeatMore(padc, k);
        width, k := width - 1, k + 1;
      }
    }
    ghost var left := out;
    ghost var w := width;
    assert chars[..x] == chars;
    while x > 0
      invariant 0 <= x <= |ds| && width == w - (|ds| - x)
      invariant out + Reversed(chars[..x]) == left + ds
    {
      x := x - 1;
      out := out + [chars[x]];
      assert chars[..x + 1] == chars[..x] + [chars[x]];
      ReversedMore(chars[..x], chars[x]);
      width := width - 1;
    }
    ReversedNone();
    assert chars[..0] == [];
    assert out == left + ds;
    if padc == '-' {
      ghost var k := 0;
      while width > 0
        invariant width == pad - k && out == ds + Repeat(' ', k) && (k == 0 || k <= pad)
      {
        out := out + [' '];
        RepeatMore(' ', k);
        width, k := width - 1, k + 1;
      }
    }
  }

  lemma RepeatNone(c: char, n: int)
    ensures n <= 0 ==> Repeat(c, n) == []
  {
  }

  // --- Round trip ---

  lemma {:induction false} ZeroPadded(left: string, ds: string, base: nat)
    requires base >= 1 && AllDigits(ds, base) && forall i :: 0 <= i < |left| ==> left[i] == '0'
    ensures AllDigits(left + ds, base) && Value(left + ds, base) == Value(ds, base)
    decreases |left| + |ds|
  {
    if ds != [] {
      var n := |ds| - 1;
      ZeroPadded(left, ds[..n], base);
      ValueLast(left + ds[..n], ds[n], base);
      assert left + ds[..n] + [ds[n]] == left + ds;
    } else if left != [] {
      var n := |left| - 1;
      ZeroPadded(left[..n], ds, base);
      assert left[..n] + ds == left[..n] && left + ds == left[..n] + ['0'];
      ValueLast(left[..n], '0', base);
    } else {
      assert left + ds == ds;
    }
  }

  lemma {:induction false} SpacePadded(s: string, i: nat, j: nat)
    requires i <= j < |s| && s[j] != ' ' && s[j] != '\t' && forall k :: i <= k < j ==> s[k] == ' '
    ensures SkipSpace(s, i) == j
    decreases j - i
  {
    if i < j { SpacePadded(s, i + 1, j); }
  }

  lemma NotAPrefix(s: string, i: nat, ds: string, base: nat)
    requires base <= 16 && ds != [] && AllDigits(ds, base) && i + |ds| <= |s| && s[i..i + |ds|] == ds
    requires i + |ds| == |s| || s[i + |ds|] == ' '
    ensures s[i] == ds[0] && s[i] != ' ' && s[i] != '\t' && s[i] != '+' && !HexPrefix(s, i)
  {
  }

  lemma ReadBack(s: string, i: nat, ds: string, base: nat)
    requires 2 <= base <= 16 && ds != [] && AllDigits(ds, base) && i + |ds| <= |s| && s[i..i + |ds|] == ds
    requires i + |ds| == |s| || s[i + |ds|] == ' '
    requires forall k :: 0 <= k < i ==> s[k] == ' '
    ensures Resolve(s, AfterSign(s), base) == Some((i, base)) && RunEnd(s, i, base) == i + |ds|
  {
    NotAPrefix(s, i, ds, base);
    SpacePadded(s, 0, i);
    RunEndIs(s, i, i + |ds|, base);
  }

  /** What a parse gives once its digits are known. */
  lemma ParsedDigits(s: string, i: nat, ds: string, base: nat, r: Result, end: nat, stored: Option<nat>)
    requires 2 <= base <= 16 && ds != [] && AllDigits(ds, base) && Value(ds, base) < TWO64
    requires i + |ds| <= |s| && s[i..i + |ds|] == ds && (i + |ds| == |s| || s[i + |ds|] == ' ')
    requires forall k :: 0 <= k < i ==> s[k] == ' '
    requires Parsed(s, base, r, end, stored)
    ensures r == Ok && stored == Some(Value(ds, base)) && end == i + |ds|
  {
    hide Value, RunEnd, Resolve, DigitOf, SkipSpace, AllDigits;
    ReadBack(s, i, ds, base);
  }

  /** What was printed in a base, padded with spaces or zeros on the left or with spaces
      on the right, is read back in that base as the same number. */
  lemma RoundTrip(n: nat, base: nat, left: string, right: string, r: Result, end: nat, stored: Option<nat>)
    requires n < TWO64 && 2 <= base <= 16
    requires (forall i :: 0 <= i < |left| ==> left[i] == ' ') || (forall i :: 0 <= i < |left| ==> left[i] == '0')
    requires right == [] || right[0] == ' '
    requires Parsed(left + Printed(n, base) + right, base, r, end, stored)
    ensures r == Ok && stored == Some(n) && end == |left + Printed(n, base)|
  {
    hide Parsed, Value, RunEnd, Resolve, DigitOf, AllDigits, Printed;
    var s, ds := left + Printed(n, base) + right, Printed(n, base);
    PrintedValue(n, base);
    if left != [] && left[0] == '0' {
      ZeroPadded(left, ds, base);
      assert s[0..|left + ds|] == left + ds;
      ParsedDigits(s, 0, left + ds, base, r, end, stored);
    } else {
      assert s[|left|..|left| + |ds|] == ds;
      ParsedDigits(s, |left|, ds, base, r, end, stored);
    }
  }

  /** Printing a number and reading it back, in any base and with any padding. */
  method PrintAndRead(num: nat, base: nat, width: int, padc: char) returns (r: Result, end: nat, stored: Option<nat>)
    requires num < TWO64 && 2 <= base <= 16 && (padc == ' ' || padc == '0' || padc == '-')
    ensures r == Ok && stored == Some(num)
  {
    var out := PrintNum(num, base, width, padc);
    r, end, stored := Strtou64(Some(out), base);
    ghost var pad := width - |Printed(num, base)|;
    hide Parsed, Printed, Repeat;
    RoundTrip(num, base, if padc != '-' then Repeat(padc, pad) else [], if padc == '-' then Repeat(' ', pad) else [], r, end, stored);
  }
}
