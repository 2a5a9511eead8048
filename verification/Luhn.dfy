/** The check-digit validator for payment card numbers: Annex B of ISO/IEC 7812-1. */
module Luhn {
  import opened Lexical

  predicate IsSeparator(c: char) { c == ' ' || c == '-' }

  predicate WellFormed(s: string) { forall c :: c in s ==> IsDigit(c) || IsSeparator(c) }

  /** The digits of a number written with spaces and dashes. */
  function Digits(s: string): seq<int> {
    if s == [] then [] else (if IsDigit(s[0]) then [DigitValue(s[0])] else []) + Digits(s[1..])
  }

  predicate AllDigits(ds: seq<int>) { forall i :: 0 <= i < |ds| ==> 0 <= ds[i] <= 9 }

  /** Sum of the decimals of a number below twenty. */
  function DecimalSum(n: int): int { if n < 10 then n else 1 + (n - 10) }

  lemma DecimalSumIsTensPlusUnits(n: int)
    requires 0 <= n < 20
    ensures DecimalSum(n) == n / 10 + n % 10
  {
  }

  /** Contribution of one digit: a doubled digit counts by the sum of its decimals. */
  function Weigh(d: int, double: bool): int {
    if double then DecimalSum(2 * d) else d
  }

  /** Places count from the right, the check digit being the first; every second one is doubled. */
  predicate Doubled(place: nat) { if place == 0 then true else !Doubled(place - 1) }

  function LuhnSum(ds: seq<int>): int {
    if ds == [] then 0 else Weigh(ds[0], Doubled(|ds|)) + LuhnSum(ds[1..])
  }

  predicate Accepts(s: string) {
    WellFormed(s) && 13 <= |Digits(s)| <= 19 && LuhnSum(Digits(s)) % 10 == 0
  }

  lemma {:induction false} DigitsAppend(a: string, b: string)
    ensures Digits(a + b) == Digits(a) + Digits(b)
    ensures |Digits(a)| <= |a| && AllDigits(Digits(a))
  {
    if a == [] {
      assert a + b == b;
    } else {
      var h := if IsDigit(a[0]) then [DigitValue(a[0])] else [];
      assert (a + b)[0] == a[0] && (a + b)[1..] == a[1..] + b;
      DigitsAppend(a[1..], b);
      assert h + (Digits(a[1..]) + Digits(b)) == (h + Digits(a[1..])) + Digits(b);
    }
  }

  // ---------------------------------------------------------------- the validator

  method LuhnValid(s: string) returns (ok: bool)
    ensures ok == Accepts(s)
  {
    var digits := new int[19];
    var n := FillDigits(s, digits);
    if n < 13 || n > 19 {
      return false;
    }
    DigitsAppend(s, []);
    assert s + [] == s;
    var sum := WeightedSum(digits, n, Digits(s));
    ok := sum % 10 == 0;
  }

  /** Collect the digits; -1 when a foreign character or a twentieth digit turns up. */
  method FillDigits(s: string, digits: array<int>) returns (n: int)
    requires digits.Length == 19
    modifies digits
    ensures if WellFormed(s) && |Digits(s)| <= 19 then n == |Digits(s)| && digits[..n] == Digits(s) else n == -1
  {
    n := 0;
    for k := 0 to |s|
      invariant 0 <= n <= 19 && digits[..n] == Digits(s[..k])
      invariant WellFormed(s[..k])
    {
      var ch := s[k];
      DigitsSnoc(s, k);
      if IsDigit(ch) {
        if n == digits.Length {
          DigitsPrefix(s, k + 1);
          return -1;
        }
        digits[n] := DigitValue(ch);
        n := n + 1;
      } else if IsSeparator(ch) {
        continue;
      } else {
        assert ch in s;
        return -1;
      }
    }
    assert s[..|s|] == s;
  }

  lemma DigitsSnoc(s: string, k: nat)
    requires k < |s|
    ensures Digits(s[..k + 1]) == Digits(s[..k]) + if IsDigit(s[k]) then [DigitValue(s[k])] else []
    ensures WellFormed(s[..k + 1]) <==> WellFormed(s[..k]) && (IsDigit(s[k]) || IsSeparator(s[k]))
  {
    assert s[..k + 1] == s[..k] + [s[k]];
    DigitsAppend(s[..k], [s[k]]);
    assert [s[k]][1..] == [];
  }

  lemma DigitsPrefix(s: string, k: nat)
    requires k <= |s|
    ensures |Digits(s[..k])| <= |Digits(s)|
  {
    assert s == s[..k] + s[k..];
    DigitsAppend(s[..k], s[k..]);
  }

  /** Right to left, doubling every second digit and casting out nine above nine. */
  method WeightedSum(digits: array<int>, n: nat, ghost ds: seq<int>) returns (sum: int)
    requires n <= digits.Length && digits[..n] == ds && AllDigits(ds)
    ensures sum == LuhnSum(ds)
  {
    var double := false;
    sum := 0;
    var i := n - 1;
    assert ds[n..] == [];
    while i >= 0
      invariant -1 <= i < n == |ds|
      invariant double == Doubled(n - i)
      invariant sum == LuhnSum(ds[i + 1..])
    {
      WeightStep(ds, i, sum, double);
      var d := Contribution(digits[i], double);
      sum := sum + d;
      double := !double;
      i := i - 1;
    }
    assert ds[0..] == ds;
  }

  /** One round of the loop, at the i-th digit from the left. */
  lemma WeightStep(ds: seq<int>, i: nat, sum: int, double: bool)
    requires i < |ds| && AllDigits(ds) && double == Doubled(|ds| - i) && sum == LuhnSum(ds[i + 1..])
    ensures 0 <= ds[i] <= 9 && sum + Weigh(ds[i], double) == LuhnSum(ds[i..])
    ensures !double == Doubled(|ds| - i + 1)
  {
    SumCons(ds, i);
  }

  method Contribution(digit: int, double: bool) returns (d: int)
    requires 0 <= digit <= 9
    ensures d == Weigh(digit, double)
  {
    d := digit;
    if double {
      d := d * 2;
      if d > 9 {
        d := d - 9;
      }
    }
  }

  lemma SumCons(ds: seq<int>, i: nat)
    requires i < |ds|
    ensures LuhnSum(ds[i..]) == Weigh(ds[i], Doubled(|ds| - i)) + LuhnSum(ds[i + 1..])
  {
    assert ds[i..][1..] == ds[i + 1..];
  }

  lemma WeighValue(d: int)
    requires 0 <= d <= 9
    ensures Weigh(d, true) == if d < 5 then 2 * d else 2 * d - 9
    ensures Weigh(d, false) == d
  {
  }

  // ---------------------------------------------------------------- error detection

  /** Changing one digit changes the sum by the difference of two contributions. */
  lemma {:induction false} SumUpdate(ds: seq<int>, i: nat, x: int)
    requires i < |ds|
    ensures LuhnSum(ds[i := x])
         == LuhnSum(ds) - Weigh(ds[i], Doubled(|ds| - i)) + Weigh(x, Doubled(|ds| - i))
  {
    if i > 0 {
      SumUpdate(ds[1..], i - 1, x);
      assert ds[i := x][1..] == ds[1..][i - 1 := x];
    }
  }

  /** The contributions of the ten digits are all different modulo ten, doubled or not. */
  lemma WeighInjective(a: int, b: int, double: bool)
    requires 0 <= a <= 9 && 0 <= b <= 9 && a != b
    ensures Weigh(a, double) != Weigh(b, double)
    ensures 0 <= Weigh(a, double) <= 9 && 0 <= Weigh(b, double) <= 9
  {
    WeighValue(a);
    WeighValue(b);
  }

  lemma SmallDifference(x: int, y: int)
    requires -9 <= x - y <= 9 && x % 10 == 0
    ensures y % 10 == 0 <==> x == y
  {
  }

  lemma SubstitutionDetected(ds: seq<int>, i: nat, x: int)
    requires AllDigits(ds) && i < |ds| && 0 <= x <= 9 && x != ds[i] && LuhnSum(ds) % 10 == 0
    ensures LuhnSum(ds[i := x]) % 10 != 0
  {
    SumUpdate(ds, i, x);
    WeighInjective(ds[i], x, Doubled(|ds| - i));
    SmallDifference(LuhnSum(ds), LuhnSum(ds[i := x]));
  }

  function Swapped(ds: seq<int>, i: nat): seq<int>
    requires i + 1 < |ds|
  {
    ds[i := ds[i + 1]][i + 1 := ds[i]]
  }

  predicate ZeroAndNine(a: int, b: int) { (a == 0 && b == 9) || (a == 9 && b == 0) }

  /** Swapping two different neighbours goes unnoticed exactly for the pair of 0 and 9. */
  lemma TranspositionDetected(ds: seq<int>, i: nat)
    requires AllDigits(ds) && i + 1 < |ds| && LuhnSum(ds) % 10 == 0
    ensures LuhnSum(Swapped(ds, i)) % 10 == 0 <==> ds[i] == ds[i + 1] || ZeroAndNine(ds[i], ds[i + 1])
  {
    SwappedSum(ds, i);
    SmallDifference(LuhnSum(ds), LuhnSum(Swapped(ds, i)));
  }

  /** Digits below five gain their own value by doubling, the others lose what they lack to nine. */
  function Gain(d: int): int { if d < 5 then d else d - 9 }

  lemma SwappedSum(ds: seq<int>, i: nat)
    requires AllDigits(ds) && i + 1 < |ds|
    ensures var delta := Gain(ds[i + 1]) - Gain(ds[i]);
            LuhnSum(Swapped(ds, i)) == LuhnSum(ds) + if Doubled(|ds| - i) then delta else -delta
  {
    var a, b := ds[i], ds[i + 1];
    var u := ds[i := b];
    SumUpdate(ds, i, b);
    SumUpdate(u, i + 1, a);
    assert u[i + 1] == b && u[i + 1 := a] == Swapped(ds, i);
    WeighGap(a, b, Doubled(|ds| - i));
  }

  lemma WeighGap(a: int, b: int, left: bool)
    requires 0 <= a <= 9 && 0 <= b <= 9
    ensures var delta := Gain(b) - Gain(a);
            Weigh(b, left) - Weigh(a, left) + Weigh(a, !left) - Weigh(b, !left) == if left then delta else -delta
  {
  }

  lemma {:induction false} SumSnoc(ds: seq<int>, d: int)
    ensures LuhnSum(ds + [d]) == LuhnSum(ds + [0]) + d
  {
    SumUpdate(ds + [0], |ds|, d);
    assert (ds + [0])[|ds| := d] == ds + [d];
  }

  /** Every payload has exactly one check digit. */
  lemma CheckDigitUnique(ds: seq<int>)
    ensures exists d :: 0 <= d <= 9 && LuhnSum(ds + [d]) % 10 == 0
    ensures forall d, e :: 0 <= d <= 9 && 0 <= e <= 9 && LuhnSum(ds + [d]) % 10 == 0 && LuhnSum(ds + [e]) % 10 == 0
              ==> d == e
  {
    var r := LuhnSum(ds + [0]) % 10;
    var c := (10 - r) % 10;
    SumSnoc(ds, c);
    assert LuhnSum(ds + [c]) % 10 == 0;
    forall d, e | 0 <= d <= 9 && 0 <= e <= 9 && LuhnSum(ds + [d]) % 10 == 0 && LuhnSum(ds + [e]) % 10 == 0
      ensures d == e
    {
      SumSnoc(ds, d);
      SumSnoc(ds, e);
      SmallDifference(LuhnSum(ds + [d]), LuhnSum(ds + [e]));
    }
  }

  // ---------------------------------------------------------------- on written numbers

  lemma {:induction false} DigitsUpdate(s: string, i: nat, c: char)
    requires i < |s| && IsDigit(s[i]) && IsDigit(c)
    ensures var k := |Digits(s[..i])|;
            k < |Digits(s)| && Digits(s)[k] == DigitValue(s[i]) && Digits(s[i := c]) == Digits(s)[k := DigitValue(c)]
  {
    assert s == s[..i] + ([s[i]] + s[i + 1..]);
    assert s[i := c] == s[..i] + ([c] + s[i + 1..]);
    assert ([s[i]] + s[i + 1..])[1..] == s[i + 1..] == ([c] + s[i + 1..])[1..];
    DigitsAppend(s[..i], [s[i]] + s[i + 1..]);
    DigitsAppend(s[..i], [c] + s[i + 1..]);
  }

  /** A valid number in which one digit is replaced by another is rejected. */
  lemma WrongDigitRejected(s: string, i: nat, c: char)
    requires Accepts(s) && i < |s| && IsDigit(s[i]) && IsDigit(c) && c != s[i]
    ensures !Accepts(s[i := c])
  {
    DigitsUpdate(s, i, c);
    DigitsAppend(s, []);
    assert s + [] == s;
    SubstitutionDetected(Digits(s), |Digits(s[..i])|, DigitValue(c));
  }

  /** A valid number in which two neighbouring digits are swapped is accepted
      exactly when they are equal or are 0 and 9. */
  lemma SwappedDigits(s: string, i: nat)
    requires Accepts(s) && i + 1 < |s| && IsDigit(s[i]) && IsDigit(s[i + 1])
    ensures Accepts(s[i := s[i + 1]][i + 1 := s[i]])
       <==> s[i] == s[i + 1] || ZeroAndNine(DigitValue(s[i]), DigitValue(s[i + 1]))
  {
    var t := s[i := s[i + 1]];
    var u := t[i + 1 := s[i]];
    var k := |Digits(s[..i])|;
    DigitsUpdate(s, i, s[i + 1]);
    DigitsSnoc(s, i);
    DigitsSnoc(t, i);
    assert t[..i] == s[..i];
    DigitsUpdate(t, i + 1, s[i]);
    DigitsUpdate(s, i + 1, s[i + 1]);
    DigitsAppend(s, []);
    assert s + [] == s;
    TranspositionDetected(Digits(s), k);
    assert Digits(u) == Swapped(Digits(s), k);
    SwapWellFormed(s, i);
  }

  lemma SwapWellFormed(s: string, i: nat)
    requires WellFormed(s) && i + 1 < |s|
    ensures WellFormed(s[i := s[i + 1]][i + 1 := s[i]])
  {
    var u := s[i := s[i + 1]][i + 1 := s[i]];
    forall c | c in u ensures IsDigit(c) || IsSeparator(c) {
      var j :| 0 <= j < |u| && u[j] == c;
      assert s[j] in s && s[i] in s && s[i + 1] in s;
    }
  }

  // ---------------------------------------------------------------- the formula from the right

  /** Two digits at a time from the right: the last as it is, the one before it doubled, the decimals of
      the double added. */
  function PairSum(ds: seq<int>): int {
    var n := |ds|;
    if n == 0 then 0
    else if n == 1 then ds[0]
    else PairSum(ds[..n - 2]) + (2 * ds[n - 2] / 10 + 2 * ds[n - 2] % 10) + ds[n - 1]
  }

  lemma {:induction false} SumOfAppended(ds: seq<int>, a: int, b: int)
    requires 0 <= a <= 9
    ensures LuhnSum(ds + [a, b]) == LuhnSum(ds) + (2 * a / 10 + 2 * a % 10) + b
  {
    DecimalSumIsTensPlusUnits(2 * a);
    if ds == [] {
      assert [] + [a, b] == [a, b] && [a, b][1..] == [b] && [b][1..] == [];
      assert Doubled(2) && !Doubled(1);
    } else {
      assert (ds + [a, b])[1..] == ds[1..] + [a, b];
      SumOfAppended(ds[1..], a, b);
      DoubledByTwo(|ds|);
    }
  }

  lemma DoubledByTwo(n: nat)
    ensures Doubled(n + 2) == Doubled(n)
  {
    assert Doubled(n + 2) == !Doubled(n + 1);
  }

  lemma {:induction false} SumIsPairSum(ds: seq<int>)
    requires AllDigits(ds)
    ensures LuhnSum(ds) == PairSum(ds)
  {
    var n := |ds|;
    if n == 1 {
      assert !Doubled(1) && ds[1..] == [];
    } else if n > 1 {
      assert ds == ds[..n - 2] + [ds[n - 2], ds[n - 1]];
      SumIsPairSum(ds[..n - 2]);
      SumOfAppended(ds[..n - 2], ds[n - 2], ds[n - 1]);
    }
  }

  /** Where the first n characters are decimal digits. */
  ghost function DigitPlaces(s: string, n: nat): set<nat>
    requires n <= |s|
  {
    set k: nat | k < n && '0' <= s[k] <= '9'
  }

  lemma {:induction false} DigitsCounted(s: string, n: nat)
    requires n <= |s|
    ensures |Digits(s[..n])| == |DigitPlaces(s, n)|
  {
    if n == 0 {
      assert DigitPlaces(s, 0) == {};
    } else {
      DigitsCounted(s, n - 1);
      DigitsSnoc(s, n - 1);
      var before := DigitPlaces(s, n - 1);
      assert DigitPlaces(s, n) == if IsDigit(s[n - 1]) then before + {n - 1} else before;
    }
  }

  /** There are as many digits as digit characters, and each stands behind as many digits as there are digit
      characters before it. */
  lemma DigitsInPlace(s: string)
    ensures |Digits(s)| == |DigitPlaces(s, |s|)|
    ensures forall k: nat :: k in DigitPlaces(s, |s|) ==>
              && |DigitPlaces(s, k)| < |Digits(s)|
              && Digits(s)[|DigitPlaces(s, k)|] == s[k] as int - '0' as int
  {
    DigitsCounted(s, |s|);
    assert s[..|s|] == s;
    forall k: nat | k in DigitPlaces(s, |s|)
      ensures && |DigitPlaces(s, k)| < |Digits(s)|
              && Digits(s)[|DigitPlaces(s, k)|] == s[k] as int - '0' as int
    {
      DigitsCounted(s, k);
      DigitsUpdate(s, k, s[k]);
    }
  }

  /** Acceptance in plain terms: digits, spaces and dashes only, 13 to 19 digits, and a multiple of ten as the
      pairwise sum from the right. */
  lemma AcceptsIff(s: string)
    ensures Accepts(s) <==>
              && (forall k :: 0 <= k < |s| ==> '0' <= s[k] <= '9' || s[k] == ' ' || s[k] == '-')
              && 13 <= |Digits(s)| <= 19 && PairSum(Digits(s)) % 10 == 0
  {
    DigitsAppend(s, []);
    SumIsPairSum(Digits(s));
    if WellFormed(s) {
      assert forall k :: 0 <= k < |s| ==> s[k] in s;
    }
  }
}
