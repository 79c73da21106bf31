/**
 The number printer and parser of src/common/print.cpp: what a numeral denotes, and the two
 loops that write and read numerals.
 */
module Numerals {

  const NUL: char := '\0'

  /** The printer's formats: 'u' is decimal, 'x' and 'X' are hexadecimal. */
  function BaseOf(fmt: char): nat {
    if fmt == 'u' then 10 else 16
  }

  function DigitChar(d: nat, fmt: char): char
    requires d < 16
  {
    if d < 10 then (48 + d) as char else ((if fmt == 'X' then 65 else 97) + (d - 10)) as char
  }

  predicate IsDigit(c: char) {
    '0' <= c <= '9'
  }

  /** What a character stands for in a numeral of either base. */
  function DigitValue(c: char): int {
    if IsDigit(c) then c as int - 48
    else if 'A' <= c <= 'F' then c as int - 55
    else c as int - 87
  }

  ghost function ValueOf(s: seq<char>, base: nat): int {
    if s == [] then 0 else ValueOf(s[..|s| - 1], base) * base + DigitValue(s[|s| - 1])
  }

  ghost function Exp(base: nat, power: nat): nat {
    if power == 0 then 1 else base * Exp(base, power - 1)
  }

  /** The digits of n without leading zeros, none for zero. */
  ghost function Digits(n: nat, fmt: char): seq<char> {
    if n == 0 then [] else Digits(n / BaseOf(fmt), fmt) + [DigitChar(n % BaseOf(fmt), fmt)]
  }

  ghost function Numeral(n: nat, fmt: char): seq<char> {
    if n == 0 then ['0'] else Digits(n, fmt)
  }

  // ---- What numerals denote

  lemma OneMoreDigit(front: seq<char>, c: char, base: nat)
    ensures ValueOf(front + [c], base) == ValueOf(front, base) * base + DigitValue(c)
  {
    assert (front + [c])[..|front|] == front;
  }

  lemma DigitCharDenotes(d: nat, fmt: char)
    requires d < BaseOf(fmt)
    ensures DigitValue(DigitChar(d, fmt)) == d && (fmt == 'u' ==> IsDigit(DigitChar(d, fmt)))
  {
  }

  lemma {:induction false} DigitsDenote(n: nat, fmt: char)
    ensures ValueOf(Digits(n, fmt), BaseOf(fmt)) == n
    ensures fmt == 'u' ==> forall c | c in Digits(n, fmt) :: IsDigit(c)
  {
    if n == 0 {
    } else {
      var b := BaseOf(fmt);
      var front, last := Digits(n / b, fmt), DigitChar(n % b, fmt);
      DigitsDenote(n / b, fmt);
      DigitCharDenotes(n % b, fmt);
      OneMoreDigit(front, last, b);
      assert Digits(n, fmt) == front + [last];
    }
  }

  lemma NumeralDenotes(n: nat, fmt: char)
    ensures ValueOf(Numeral(n, fmt), BaseOf(fmt)) == n
    ensures fmt == 'u' ==> forall c | c in Numeral(n, fmt) :: IsDigit(c)
  {
    DigitsDenote(n, fmt);
    assert ValueOf([], BaseOf(fmt)) == 0;
    assert ['0'][..0] == [];
  }

  lemma {:induction false} DigitCount(n: nat, fmt: char)
    requires n > 0
    ensures |Digits(n, fmt)| > 0
    ensures Exp(BaseOf(fmt), |Digits(n, fmt)| - 1) <= n < Exp(BaseOf(fmt), |Digits(n, fmt)|)
  {
    var b := BaseOf(fmt);
    var q, k := n / b, |Digits(n / b, fmt)|;
    assert n == q * b + n % b;
    if q > 0 {
      DigitCount(q, fmt);
      assert Exp(b, k) == b * Exp(b, k - 1) <= b * q;
      assert b * (q + 1) <= b * Exp(b, k);
    }
  }

  lemma MultipleGrows(b: nat, e: nat)
    requires b > 0
    ensures b * e >= e
  {
  }

  lemma {:induction false} ExpGrows(base: nat, i: nat, j: nat)
    requires base > 0 && i <= j
    ensures 0 < Exp(base, i) <= Exp(base, j)
  {
    if i > 0 {
      ExpGrows(base, i - 1, i - 1);
      MultipleGrows(base, Exp(base, i - 1));
    }
    if i < j {
      ExpGrows(base, i, j - 1);
      MultipleGrows(base, Exp(base, j - 1));
    }
  }

  /** A numeral has at most k digits exactly when its number is below base^k. */
  lemma FitsInDigits(n: nat, fmt: char, k: nat)
    requires k > 0
    ensures |Numeral(n, fmt)| <= k <==> n < Exp(BaseOf(fmt), k)
  {
    var b := BaseOf(fmt);
    ExpGrows(b, 0, k);
    if n > 0 {
      DigitCount(n, fmt);
      var len := |Digits(n, fmt)|;
      if len <= k { ExpGrows(b, len, k); } else { ExpGrows(b, k, len - 1); }
    }
  }

  lemma ExpTwo(k: nat)
    ensures Exp(16, k) == Exp(2, 4 * k)
  {
    if k > 0 {
      ExpTwo(k - 1);
      assert Exp(2, 4 * k) == 2 * Exp(2, 4 * k - 1) == 4 * Exp(2, 4 * k - 2) == 8 * Exp(2, 4 * k - 3);
    }
  }

  /** The 17-byte buffer of the formatter holds every 64-bit number in hexadecimal; in decimal it
      holds a number exactly when that is below 10^16. */
  lemma FormatBufferFits(n: nat)
    ensures n < Exp(2, 64) ==> |Numeral(n, 'x')| + 1 <= 17 && |Numeral(n, 'X')| + 1 <= 17
    ensures |Numeral(n, 'u')| + 1 <= 17 <==> n < 1_0000_0000_0000_0000
  {
    FitsInDigits(n, 'x', 16);
    FitsInDigits(n, 'X', 16);
    FitsInDigits(n, 'u', 16);
    ExpTwo(16);
    TenToTheSixteen();
  }

  lemma TenToTheSixteen()
    ensures Exp(10, 16) == 1_0000_0000_0000_0000
  {
    assert Exp(10, 4) == 10000;
    assert Exp(10, 8) == 1_0000_0000;
    assert Exp(10, 12) == 1_0000_0000_0000;
  }

  // ---- The printer

  /** The loop's arithmetic for one digit: '0', 'A' or 'a' plus the digit modulo 10. */
  method CharFor(digit: nat, fmt: char) returns (c: char)
    requires digit < 16
    ensures c == DigitChar(digit, fmt)
  {
    var hexAChar := if fmt == 'X' then 65 else 97;
    var newChar := if digit >= 10 then hexAChar else 48;
    newChar := newChar + digit % 10;
    c := newChar as char;
  }

  /** When all but the last `len` digits are those of `rest`, the next digit is its last one. */
  lemma LastDigit(digits: seq<char>, rest: nat, len: nat, fmt: char)
    requires rest > 0 && |Digits(rest, fmt)| + len == |digits| && digits[..|digits| - len] == Digits(rest, fmt)
    ensures var b := BaseOf(fmt);
            && rest % b < 16 && |Digits(rest / b, fmt)| + len + 1 == |digits|
            && digits[|digits| - 1 - len] == DigitChar(rest % b, fmt)
            && digits[..|digits| - (len + 1)] == Digits(rest / b, fmt)
  {
    var b, front := BaseOf(fmt), digits[..|digits| - len];
    assert Digits(rest, fmt) == Digits(rest / b, fmt) + [DigitChar(rest % b, fmt)];
    assert digits[|digits| - 1 - len] == front[|front| - 1];
    assert digits[..|digits| - (len + 1)] == front[..|front| - 1];
  }

  /** Writes the digits of num, lowest first. */
  method WriteBackwards(num: nat, out: array<char>, fmt: char) returns (len: nat)
    requires |Digits(num, fmt)| < out.Length
    modifies out
    ensures len == |Digits(num, fmt)|
    ensures forall i | 0 <= i < len :: out[i] == Digits(num, fmt)[len - 1 - i]
    ensures forall i | len <= i < out.Length :: out[i] == old(out[i])
  {
    ghost var digits := Digits(num, fmt);
    var base, rest := BaseOf(fmt), num;
    len := 0;
    while rest != 0
      invariant |Digits(rest, fmt)| + len == |digits|
      invariant digits[..|digits| - len] == Digits(rest, fmt)
      invariant forall i | 0 <= i < len :: out[i] == digits[|digits| - 1 - i]
      invariant forall i | len <= i < out.Length :: out[i] == old(out[i])
    {
      LastDigit(digits, rest, len, fmt);
      var newChar := CharFor(rest % base, fmt);
      out[len] := newChar;
      len := len + 1;
      rest := rest / base;
    }
  }

  method ReversePrefix(out: array<char>, len: nat)
    requires 0 < len <= out.Length
    modifies out
    ensures forall i | 0 <= i < len :: out[i] == old(out[len - 1 - i])
    ensures forall i | len <= i < out.Length :: out[i] == old(out[i])
  {
    var last, idx := len - 1, 0;
    while idx != len / 2
      invariant 0 <= idx <= len / 2
      invariant forall i | 0 <= i < idx :: out[i] == old(out[len - 1 - i])
      invariant forall i | idx <= i < len - idx :: out[i] == old(out[i])
      invariant forall i | len - idx <= i < len :: out[i] == old(out[len - 1 - i])
      invariant forall i | len <= i < out.Length :: out[i] == old(out[i])
    {
      var chr := out[idx];
      out[idx] := out[last - idx];
      out[last - idx] := chr;
      idx := idx + 1;
    }
  }

  /** Writes the numeral of num and a terminating NUL; digits are produced backwards and then
      reversed in place. */
  method UintToStr(num: nat, out: array<char>, fmt: char) returns (len: nat)
    requires |Numeral(num, fmt)| < out.Length
    modifies out
    ensures len == |Numeral(num, fmt)|
    ensures out[..len + 1] == Numeral(num, fmt) + [NUL]
    ensures out[len + 1..] == old(out[len + 1..])
  {
    if num != 0 {
      DigitCount(num, fmt);
      len := WriteBackwards(num, out, fmt);
      ReversePrefix(out, len);
      assert out[..len] == Digits(num, fmt);
    } else {
      out[0] := '0';
      len := 1;
    }
    out[len] := NUL;
  }

  // ---- The parser

  lemma RemainderIs(x: nat, m: nat, q: nat, r: nat)
    requires r < m && x == q * m + r
    ensures x % m == r
  {
    var k := x / m - q;
    assert x == (x / m) * m + x % m;
    assert k * m == r - x % m;
    NonzeroMultiple(k, m);
  }

  lemma NonzeroMultiple(k: int, m: nat)
    ensures k >= 1 ==> k * m >= m
    ensures k <= -1 ==> k * m <= -(m as int)
  {
  }

  lemma Distribute(q: nat, m: nat, r: nat, y: nat)
    ensures (q * m + r) * y == (q * y) * m + r * y
    ensures q * y >= 0 && r * y >= 0
  {
  }

  lemma DivParts(x: nat, m: nat)
    requires m > 0
    ensures x == (x / m) * m + x % m && 0 <= x % m < m
  {
  }

  lemma ModAddMultiple(q: nat, m: nat, s: nat)
    requires m > 0
    ensures (q * m + s) % m == s % m
  {
    DivParts(s, m);
    SumOfMultiples(q, s / m, m);
    RemainderIs(q * m + s, m, q + s / m, s % m);
  }

  lemma SumOfMultiples(q: nat, p: nat, m: nat)
    ensures q * m + p * m == (q + p) * m
  {
  }

  lemma ModMulParts(x: nat, y: nat, m: nat, q: nat, r: nat)
    requires m > 0 && x == q * m + r
    ensures (r * y) % m == (x * y) % m
  {
    Distribute(q, m, r, y);
    ModAddMultiple(q * y, m, r * y);
  }

  lemma ModMul(x: nat, y: nat, m: nat)
    requires m > 0
    ensures ((x % m) * y) % m == (x * y) % m
  {
    DivParts(x, m);
    ModMulParts(x, y, m, x / m, x % m);
  }

  lemma ModAdd(x: nat, y: nat, m: nat)
    requires m > 0
    ensures (x % m + y) % m == (x + y) % m
  {
    DivParts(x, m);
    ModAddParts(x, y, m, x / m, x % m);
  }

  lemma ModAddParts(x: nat, y: nat, m: nat, q: nat, r: nat)
    requires m > 0 && x == q * m + r
    ensures (r + y) % m == (x + y) % m
  {
    ModAddMultiple(q, m, r + y);
  }

  /** base^(power - 1), and 1 for power 0, in arithmetic modulo 2^width of a size_t. */
  method Pow(base: nat, power: nat, modulus: nat) returns (r: nat)
    requires modulus > 1
    ensures r == Exp(base, if power == 0 then 0 else power - 1) % modulus
  {
    if power == 0 {
      return 1;
    }
    r := 1;
    var left := power;
    while left > 1
      invariant 1 <= left <= power
      invariant r == Exp(base, power - left) % modulus
    {
      ModMul(Exp(base, power - left), base, modulus);
      assert Exp(base, power - left + 1) == Exp(base, power - left) * base;
      r := r * base % modulus;
      left := left - 1;
    }
  }

  /** Where the digits starting at `from` end. */
  ghost function DigitsEnd(text: seq<char>, from: nat): (end: nat)
    requires from <= |text|
    ensures from <= end <= |text| && forall i | from <= i < end :: IsDigit(text[i])
    ensures end < |text| ==> !IsDigit(text[end])
    decreases |text| - from
  {
    if from < |text| && IsDigit(text[from]) then DigitsEnd(text, from + 1) else from
  }

  lemma {:induction false} DigitsEndIs(text: seq<char>, from: nat, end: nat)
    requires from <= end < |text|
    requires (forall i | from <= i < end :: IsDigit(text[i])) && !IsDigit(text[end])
    ensures DigitsEnd(text, from) == end
    decreases end - from
  {
    if from == end {
    } else {
      DigitsEndIs(text, from + 1, end);
    }
  }

  lemma PartialSum(read: nat, digit: nat, weight: nat)
    ensures read * (10 * weight) + digit * weight == (read * 10 + digit) * weight
    ensures digit * weight >= 0 && read * (10 * weight) >= 0
  {
  }

  /** num + digit * multiplier in a size_t. */
  function AddScaled(num: nat, digit: nat, multiplier: nat, modulus: nat): nat
    requires modulus > 0
  {
    PartialSum(0, digit, multiplier);
    (num + digit * multiplier) % modulus
  }

  // ---- What a run of digits is parsed to

  predicate AllDigits(s: seq<char>) {
    forall c | c in s :: IsDigit(c)
  }

  lemma {:induction false} ExpPositive(base: nat, power: nat)
    requires base > 0
    ensures Exp(base, power) > 0
  {
    if power == 0 {
    } else {
      ExpPositive(base, power - 1);
      MultipleGrows(base, Exp(base, power - 1));
    }
  }

  /** The weight of digit k when the first one has weight `top`. */
  ghost function Weight(top: nat, k: nat): nat {
    ExpPositive(10, k);
    top / Exp(10, k)
  }

  /** The digits weighted from `top` down. */
  ghost function WeightedSum(s: seq<char>, top: nat): nat
    requires AllDigits(s)
  {
    if s == [] then 0
    else
      var digit: nat := DigitValue(s[|s| - 1]);
      PartialSum(0, digit, Weight(top, |s| - 1));
      WeightedSum(s[..|s| - 1], top) + digit * Weight(top, |s| - 1)
  }

  /** What the parser makes of a run of digits: the first digit's weight is reduced to a size_t before
      the others are derived from it. */
  ghost function Parsed(s: seq<char>, modulus: nat): nat
    requires s != [] && AllDigits(s) && modulus > 1
  {
    WeightedSum(s, Exp(10, |s| - 1) % modulus) % modulus
  }

  lemma QuotientIs(x: nat, m: nat, q: nat, r: nat)
    requires r < m && x == q * m + r
    ensures x / m == q
  {
    RemainderIs(x, m, q, r);
    DivParts(x, m);
    var k := x / m - q;
    assert k * m == 0;
    NonzeroMultiple(k, m);
  }

  lemma TenTimes(p: nat, t: nat, a: nat, r: nat)
    ensures (10 * p + t) * a + r == p * (10 * a) + (t * a + r)
    ensures t <= 9 && r < a ==> 0 <= t * a + r < 10 * a
  {
  }

  lemma DivideTwice(x: nat, a: nat)
    requires a > 0
    ensures x / a / 10 == x / (10 * a)
  {
    var q, r := x / a, x % a;
    var p, t := q / 10, q % 10;
    DivParts(x, a);
    TenTimes(p, t, a, r);
    QuotientIs(x, 10 * a, p, t * a + r);
  }

  lemma NextWeight(top: nat, k: nat)
    ensures Weight(top, k) / 10 == Weight(top, k + 1)
  {
    ExpPositive(10, k);
    DivideTwice(top, Exp(10, k));
  }

  lemma NextDigit(s: seq<char>, c: char, top: nat)
    requires AllDigits(s) && IsDigit(c)
    ensures AllDigits(s + [c]) && DigitValue(c) >= 0
    ensures WeightedSum(s + [c], top) == WeightedSum(s, top) + DigitValue(c) * Weight(top, |s|)
  {
    assert (s + [c])[..|s|] == s;
  }

  lemma ExactWeight(n: nat, k: nat)
    requires k <= n
    ensures Weight(Exp(10, n), k) == Exp(10, n - k)
    decreases k
  {
    if k == 0 {
    } else {
      ExactWeight(n, k - 1);
      NextWeight(Exp(10, n), k - 1);
      assert Exp(10, n - k + 1) == 10 * Exp(10, n - k);
    }
  }

  lemma Shift(read: nat, digit: nat, weight: nat)
    ensures (read * 10 + digit) * weight == read * (10 * weight) + digit * weight
  {
  }

  /** With the first weight intact, the sum is the digits' value. */
  lemma {:induction false} ExactSum(s: seq<char>, n: nat)
    requires AllDigits(s) && |s| <= n + 1
    ensures 0 <= ValueOf(s, 10) && WeightedSum(s, Exp(10, n)) == ValueOf(s, 10) * Exp(10, n + 1 - |s|)
    decreases |s|
  {
    if s == [] {
    } else {
      var front, c := s[..|s| - 1], s[|s| - 1];
      assert s == front + [c] && IsDigit(c);
      ExactSum(front, n);
      NextDigit(front, c, Exp(10, n));
      OneMoreDigit(front, c, 10);
      ExactWeight(n, |front|);
      assert Exp(10, n + 1 - |front|) == 10 * Exp(10, n - |front|);
      Shift(ValueOf(front, 10), DigitValue(c), Exp(10, n - |front|));
    }
  }

  /** As long as the first digit's weight is a size_t, a run is parsed to its value, modulo size_t. */
  lemma FittingRunsParse(s: seq<char>, modulus: nat)
    requires s != [] && AllDigits(s) && modulus > 1 && Exp(10, |s| - 1) < modulus
    ensures 0 <= ValueOf(s, 10) && Parsed(s, modulus) == ValueOf(s, 10) % modulus
  {
    RemainderIs(Exp(10, |s| - 1), modulus, 0, Exp(10, |s| - 1));
    ExactSum(s, |s| - 1);
  }

  lemma SmallQuotient(x: nat, m: nat)
    requires x < m
    ensures x / m == 0
  {
    QuotientIs(x, m, 0, x);
  }

  /** Otherwise the last digit has weight 0. */
  lemma LastDigitIsIgnored(front: seq<char>, c: char, modulus: nat)
    requires AllDigits(front) && IsDigit(c) && modulus > 1 && Exp(10, |front|) >= modulus
    ensures AllDigits(front + [c])
    ensures Parsed(front + [c], modulus) == WeightedSum(front, Exp(10, |front|) % modulus) % modulus
  {
    var top := Exp(10, |front|) % modulus;
    NextDigit(front, c, top);
    SmallQuotient(top, Exp(10, |front|));
    PartialSum(0, DigitValue(c), 0);
  }

  /** After long leading zeros a digit is lost. */
  lemma LeadingZerosLoseADigit(front: seq<char>, c: char, modulus: nat)
    requires (forall z | z in front :: z == '0') && IsDigit(c) && modulus > 1 && Exp(10, |front|) >= modulus
    ensures AllDigits(front + [c]) && Parsed(front + [c], modulus) == 0
  {
    ZerosAddNothing(front, Exp(10, |front|) % modulus);
    LastDigitIsIgnored(front, c, modulus);
    RemainderIs(0, modulus, 0, 0);
  }

  lemma {:induction false} ZerosAddNothing(s: seq<char>, top: nat)
    requires forall z | z in s :: z == '0'
    ensures AllDigits(s) && WeightedSum(s, top) == 0
    decreases |s|
  {
    if s == [] {
    } else {
      var front, last := s[..|s| - 1], s[|s| - 1];
      assert s == front + [last] && last in s && forall z | z in front :: z in s;
      ZerosAddNothing(front, top);
      NextDigit(front, last, top);
    }
  }

  lemma SuccessorDiffers(x: nat, m: nat)
    requires m > 1
    ensures x % m != (x + 1) % m
  {
    DivParts(x, m);
    if x % m + 1 < m {
      RemainderIs(x + 1, m, x / m, x % m + 1);
    } else {
      SumOfMultiples(x / m, 1, m);
      RemainderIs(x + 1, m, x / m + 1, 0);
    }
  }

  /** The run ending in c is parsed to its value, modulo size_t. */
  ghost predicate LastDigitParses(front: seq<char>, c: char, modulus: nat)
    requires AllDigits(front) && IsDigit(c) && modulus > 1
  {
    0 <= ValueOf(front + [c], 10) && Parsed(front + [c], modulus) == ValueOf(front + [c], 10) % modulus
  }

  /** Digits are parsed to their value, whatever the last one is, exactly if the first one's weight is a
      size_t. */
  lemma ParsesEveryLastDigitIff(front: seq<char>, modulus: nat)
    requires AllDigits(front) && modulus > 1
    ensures (forall c | IsDigit(c) :: LastDigitParses(front, c, modulus)) <==> Exp(10, |front|) < modulus
  {
    if Exp(10, |front|) < modulus {
      forall c | IsDigit(c)
        ensures LastDigitParses(front, c, modulus)
      {
        FittingRunsParse(front + [c], modulus);
      }
    } else {
      NotBothParse(front, modulus);
      assert IsDigit('0') && IsDigit('1');
    }
  }

  lemma NotBothParse(front: seq<char>, modulus: nat)
    requires AllDigits(front) && modulus > 1 && Exp(10, |front|) >= modulus
    ensures !LastDigitParses(front, '0', modulus) || !LastDigitParses(front, '1', modulus)
  {
    LastDigitIsIgnored(front, '0', modulus);
    LastDigitIsIgnored(front, '1', modulus);
    OneMoreDigit(front, '0', 10);
    OneMoreDigit(front, '1', 10);
    NonNegative(front);
    var v: nat := ValueOf(front, 10) * 10;
    assert ValueOf(front + ['0'], 10) == v && ValueOf(front + ['1'], 10) == v + 1;
    SuccessorDiffers(v, modulus);
  }

  /** The descending-multiplier loop over a run of digits. */
  method SumDigits(run: seq<char>, modulus: nat) returns (num: nat)
    requires run != [] && modulus > 1 && AllDigits(run)
    ensures num == Parsed(run, modulus)
  {
    num := 0;
    var multiplier: nat := Pow(10, |run|, modulus);
    ghost var top := multiplier;
    RemainderIs(0, modulus, 0, 0);
    var begin := 0;
    while begin < |run|
      invariant 0 <= begin <= |run| && multiplier == Weight(top, begin)
      invariant num == WeightedSum(run[..begin], top) % modulus
    {
      assert IsDigit(run[begin]) && run[..begin + 1] == run[..begin] + [run[begin]];
      NextDigit(run[..begin], run[begin], top);
      AddsWeighted(WeightedSum(run[..begin], top), num, DigitValue(run[begin]), multiplier, modulus);
      num := AddScaled(num, run[begin] as int - 48, multiplier, modulus);
      NextWeight(top, begin);
      multiplier := multiplier / 10;
      begin := begin + 1;
    }
    assert run[..|run|] == run;
  }

  lemma AddsWeighted(sum: nat, num: nat, digit: nat, multiplier: nat, modulus: nat)
    requires modulus > 0 && num == sum % modulus
    ensures digit * multiplier >= 0
    ensures AddScaled(num, digit, multiplier, modulus) == (sum + digit * multiplier) % modulus
  {
    PartialSum(0, digit, multiplier);
    ModAdd(sum, digit * multiplier, modulus);
  }

  /** Reads a decimal number from NUL-terminated text.  SIZE_MAX (modulus - 1) when there is none;
      otherwise what the digits parse to, which is their value if the first one's weight is a size_t. */
  method ConsumeUint(text: seq<char>, at: nat, modulus: nat) returns (num: nat, next: nat)
    requires at < |text| && text[|text| - 1] == NUL && modulus > 1
    ensures !IsDigit(text[at]) ==> num == modulus - 1 && next == at
    ensures IsDigit(text[at]) ==> at < next == DigitsEnd(text, at) && num == Parsed(text[at..next], modulus)
    ensures IsDigit(text[at]) && Exp(10, next - at - 1) < modulus ==>
              0 <= ValueOf(text[at..next], 10) && num == ValueOf(text[at..next], 10) % modulus
  {
    if !IsDigit(text[at]) {
      return modulus - 1, at;
    }
    var end := at + 1;
    while IsDigit(text[end])
      invariant at < end < |text| && forall i | at <= i < end :: IsDigit(text[i])
      decreases |text| - end
    {
      end := end + 1;
    }
    DigitsEndIs(text, at, end);
    num := SumDigits(text[at..end], modulus);
    next := end;
    if Exp(10, end - at - 1) < modulus {
      FittingRunsParse(text[at..end], modulus);
    }
  }

  /** Every weighted digit and partial sum of the parser's loop is bounded by the final value, so
      a value that is a size_t is parsed without overflow. */
  lemma {:induction false} PartialSumsAreBounded(s: seq<char>, k: nat)
    requires k <= |s| && forall c | c in s :: IsDigit(c)
    ensures 0 <= ValueOf(s[..k], 10) && ValueOf(s[..k], 10) * Exp(10, |s| - k) <= ValueOf(s, 10)
    ensures k < |s| ==> 0 <= DigitValue(s[k]) * Exp(10, |s| - k - 1) <= ValueOf(s, 10)
    decreases |s| - k
  {
    NonNegative(s[..k]);
    if k == |s| {
      assert s[..k] == s;
    } else {
      PartialSumsAreBounded(s, k + 1);
      assert s[..k + 1][..k] == s[..k];
      assert Exp(10, |s| - k) == 10 * Exp(10, |s| - k - 1);
      PartialSum(ValueOf(s[..k], 10), DigitValue(s[k]), Exp(10, |s| - k - 1));
    }
  }

  lemma {:induction false} NonNegative(s: seq<char>)
    requires forall c | c in s :: IsDigit(c)
    ensures 0 <= ValueOf(s, 10)
  {
    if s == [] {
    } else {
      NonNegative(s[..|s| - 1]);
    }
  }

  lemma WeightedDigitsAreBounded(s: seq<char>)
    requires forall c | c in s :: IsDigit(c)
    ensures forall k | 0 <= k < |s| :: 0 <= DigitValue(s[k]) * Exp(10, |s| - k - 1) <= ValueOf(s, 10)
  {
    forall k | 0 <= k < |s|
      ensures 0 <= DigitValue(s[k]) * Exp(10, |s| - k - 1) <= ValueOf(s, 10)
    {
      PartialSumsAreBounded(s, k);
    }
  }

  /** The numeral of any size_t is parsed back without overflow. */
  lemma {:induction false} NumeralsParse(n: nat, modulus: nat)
    requires n < modulus
    ensures var s := Numeral(n, 'u');
            && s != [] && (forall c | c in s :: IsDigit(c)) && ValueOf(s, 10) == n
            && Exp(10, |s| - 1) <= (if n == 0 then 1 else n)
            && forall k | 0 <= k < |s| :: 0 <= DigitValue(s[k]) * Exp(10, |s| - k - 1) < modulus
  {
    var s := Numeral(n, 'u');
    NumeralDenotes(n, 'u');
    if n > 0 {
      DigitCount(n, 'u');
    }
    WeightedDigitsAreBounded(s);
  }

  /** Parsing what was printed gives the number back, for every size_t, and stops just after the
      last digit. */
  method PrintThenParse(n: nat, modulus: nat) returns (parsed: nat, next: nat)
    requires 1 < modulus && n < modulus
    ensures parsed == n && next == |Numeral(n, 'u')|
  {
    var size := DecimalLength(n);
    var out := new char[size + 1](_ => NUL);
    var len := UintToStr(n, out, 'u');
    ghost var numeral := Numeral(n, 'u');
    assert out[..] == numeral + [NUL];
    NumeralsParse(n, modulus);
    DigitsEndIs(out[..], 0, len);
    parsed, next := ConsumeUint(out[..], 0, modulus);
    assert out[..][0..next] == numeral;
    RemainderIs(n, modulus, 0, n);
  }

  /** The room that the decimal numeral of n needs. */
  method DecimalLength(n: nat) returns (len: nat)
    ensures len == |Numeral(n, 'u')|
  {
    var rest := n / 10;
    len := 1;
    assert n > 0 ==> |Digits(n, 'u')| == |Digits(rest, 'u')| + 1;
    while rest > 0
      invariant rest >= 0
      invariant |Numeral(n, 'u')| == len + |Digits(rest, 'u')|
    {
      rest := rest / 10;
      len := len + 1;
    }
  }
}
