/** The dotted-quad validator, against a split-and-check definition, and its round trip. */
module Ipv4 {
  import opened Lexical

  /** The text between dots; there is always at least one group, possibly empty. */
  function Split(s: string): (gs: seq<string>)
    ensures gs != []
  {
    if s == [] then [""] else Extend(Split(s[..|s| - 1]), s[|s| - 1])
  }

  function Extend(gs: seq<string>, c: char): seq<string>
    requires gs != []
  {
    if c == '.' then gs + [""] else Grow(gs, [c])
  }

  /** Lengthen the last group. */
  function Grow(gs: seq<string>, t: string): seq<string>
    requires gs != []
  {
    gs[..|gs| - 1] + [gs[|gs| - 1] + t]
  }

  function JoinDots(gs: seq<string>): string { Join(gs, ".") }

  lemma JoinFront(gs: seq<string>)
    requires |gs| > 1
    ensures JoinDots(gs) == JoinDots(gs[..|gs| - 1]) + "." + gs[|gs| - 1]
  {
    assert gs == gs[..|gs| - 1] + [gs[|gs| - 1]];
    JoinSnoc(gs[..|gs| - 1], ".", gs[|gs| - 1]);
  }

  predicate Numeric(g: string) { forall i :: 0 <= i < |g| ==> IsDigit(g[i]) }

  function Decimal(g: string): nat
    requires Numeric(g)
  {
    if g == [] then 0 else 10 * Decimal(g[..|g| - 1]) + DigitValue(g[|g| - 1])
  }

  /** One to three digits of value at most 255, leading zeros allowed. */
  predicate Octet(g: string) { 1 <= |g| <= 3 && Numeric(g) && Decimal(g) <= 255 }

  predicate Accepts(s: string) {
    |Split(s)| == 4 && forall g :: g in Split(s) ==> Octet(g)
  }

  // ---------------------------------------------------------------- splitting

  lemma JoinGrow(gs: seq<string>, t: string)
    requires gs != []
    ensures JoinDots(Grow(gs, t)) == JoinDots(gs) + t
  {
    var n := |gs| - 1;
    assert Grow(gs, t)[..n] == gs[..n];
    if n > 0 {
      JoinFront(gs);
      JoinFront(Grow(gs, t));
      assert JoinDots(gs[..n]) + "." + (gs[n] + t) == JoinDots(gs[..n]) + "." + gs[n] + t;
    }
  }

  lemma JoinExtend(gs: seq<string>, c: char)
    requires gs != []
    ensures JoinDots(Extend(gs, c)) == JoinDots(gs) + [c]
  {
    if c == '.' {
      JoinSnoc(gs, ".", "");
      assert JoinDots(gs) + "." + "" == JoinDots(gs) + [c];
    } else {
      JoinGrow(gs, [c]);
    }
  }

  lemma ReadChar(s: string, i: nat)
    requires i < |s|
    ensures Split(s[..i + 1]) == Extend(Split(s[..i]), s[i])
  {
    assert s[..i + 1][..i] == s[..i];
  }

  lemma {:induction false} JoinSplitPrefix(s: string, i: nat)
    requires i <= |s|
    ensures JoinDots(Split(s[..i])) == s[..i]
  {
    if i > 0 {
      JoinSplitPrefix(s, i - 1);
      ReadChar(s, i - 1);
      JoinExtend(Split(s[..i - 1]), s[i - 1]);
      assert s[..i] == s[..i - 1] + [s[i - 1]];
    }
  }

  lemma JoinSplit(s: string)
    ensures JoinDots(Split(s)) == s
  {
    JoinSplitPrefix(s, |s|);
    assert s[..|s|] == s;
  }

  predicate DotFree(g: string) { forall i :: 0 <= i < |g| ==> g[i] != '.' }

  lemma {:induction false} SplitGrow(a: string, g: string)
    requires DotFree(g)
    ensures Split(a + g) == Grow(Split(a), g)
  {
    var p := Split(a);
    if g == [] {
      assert a + g == a;
      assert p[|p| - 1] + g == p[|p| - 1];
    } else {
      var front, c := g[..|g| - 1], g[|g| - 1];
      SplitGrow(a, front);
      assert (a + g)[..|a + g| - 1] == a + front;
      assert Split(a + g) == Grow(Grow(p, front), [c]);
      assert (p[|p| - 1] + front) + [c] == p[|p| - 1] + g;
      assert Grow(p, front)[..|p| - 1] == p[..|p| - 1];
    }
  }

  lemma {:induction false} SplitJoin(gs: seq<string>)
    requires gs != [] && forall i :: 0 <= i < |gs| ==> DotFree(gs[i])
    ensures Split(JoinDots(gs)) == gs
  {
    var n := |gs| - 1;
    if n == 0 {
      SplitGrow("", gs[0]);
      assert "" + gs[0] == gs[0];
    } else {
      var front := JoinDots(gs[..n]);
      JoinFront(gs);
      SplitJoin(gs[..n]);
      assert (front + ".")[..|front|] == front;
      SplitGrow(front + ".", gs[n]);
      assert gs == gs[..n] + [gs[n]];
      assert "" + gs[n] == gs[n];
    }
  }

  // ---------------------------------------------------------------- the validator

  /** Where the loop stands: whole groups before the last dot, and the group being read. */
  ghost predicate Reading(gs: seq<string>, octetCount: nat, value: int, digitsInOctet: int) {
    && |gs| == octetCount + 1
    && (forall k :: 0 <= k < octetCount ==> Octet(gs[k]))
    && Numeric(gs[octetCount]) && |gs[octetCount]| == digitsInOctet && Decimal(gs[octetCount]) == value
  }

  lemma DecimalSnoc(g: string, c: char)
    requires Numeric(g) && IsDigit(c)
    ensures Numeric(g + [c]) && Decimal(g + [c]) == 10 * Decimal(g) + DigitValue(c)
  {
    assert (g + [c])[..|g|] == g;
  }

  /** Groups finished in a prefix stay; the unfinished one can only be extended. */
  lemma {:induction false} PrefixGroups(s: string, i: nat)
    requires i <= |s|
    ensures var p, w := Split(s[..i]), Split(s);
            && |p| <= |w|
            && (forall k :: 0 <= k < |p| - 1 ==> w[k] == p[k])
            && p[|p| - 1] <= w[|p| - 1]
    decreases |s| - i
  {
    if i == |s| {
      assert s[..i] == s;
    } else {
      ReadChar(s, i);
      PrefixGroups(s, i + 1);
    }
  }

  lemma RejectGroup(s: string, k: nat)
    requires k < |Split(s)| && !Octet(Split(s)[k])
    ensures !Accepts(s)
  {
    assert Split(s)[k] in Split(s);
  }

  /** The step at a character other than a dot. */
  lemma ReadDigit(s: string, i: nat, octetCount: nat, value: int, digitsInOctet: nat)
    requires i < |s| && Reading(Split(s[..i]), octetCount, value, digitsInOctet) && s[i] != '.'
    ensures if IsDigit(s[i])
            then Reading(Split(s[..i + 1]), octetCount, value * 10 + DigitValue(s[i]), digitsInOctet + 1)
            else !Accepts(s)
    ensures digitsInOctet + 1 > 3 ==> !Accepts(s)
  {
    var p := Split(s[..i]);
    ReadChar(s, i);
    PrefixGroups(s, i + 1);
    var g := p[octetCount] + [s[i]];
    var w := Split(s)[octetCount];
    assert g <= w;
    if IsDigit(s[i]) {
      DecimalSnoc(p[octetCount], s[i]);
    } else {
      assert w[digitsInOctet] == s[i];
      RejectGroup(s, octetCount);
    }
    if digitsInOctet + 1 > 3 {
      RejectGroup(s, octetCount);
    }
  }

  /** The step at a dot, which closes the group being read. */
  lemma ReadDot(s: string, i: nat, octetCount: nat, value: int, digitsInOctet: nat)
    requires i < |s| && Reading(Split(s[..i]), octetCount, value, digitsInOctet) && s[i] == '.'
    requires digitsInOctet <= 3
    ensures if digitsInOctet == 0 || value > 255 || octetCount + 1 > 4 then !Accepts(s)
            else Reading(Split(s[..i + 1]), octetCount + 1, 0, 0)
  {
    ReadChar(s, i);
    PrefixGroups(s, i + 1);
    if digitsInOctet == 0 || value > 255 {
      RejectGroup(s, octetCount);
    }
  }

  lemma ReadEnd(s: string, octetCount: nat, value: int, digitsInOctet: nat)
    requires Reading(Split(s), octetCount, value, digitsInOctet) && digitsInOctet <= 3
    ensures Accepts(s) <==> octetCount == 3 && digitsInOctet > 0 && value <= 255
  {
    assert Split(s)[octetCount] in Split(s);
  }

  method Ipv4Valid(s: string) returns (ok: bool)
    ensures ok == Accepts(s)
  {
    if |s| == 0 {
      RejectGroup(s, 0);
      return false;
    }
    var octetCount, value, digitsInOctet := 0, 0, 0;
    assert s[..0] == [];
    var i := 0;
    while i <= |s|
      invariant 0 <= i <= |s| && 0 <= octetCount <= 4 && 0 <= digitsInOctet <= 3
      invariant Reading(Split(s[..i]), octetCount, value, digitsInOctet)
      decreases |s| - i
    {
      assert s[..|s|] == s;
      if i == |s| || s[i] == '.' {
        if i < |s| {
          ReadDot(s, i, octetCount, value, digitsInOctet);
        } else {
          ReadEnd(s, octetCount, value, digitsInOctet);
        }
        if digitsInOctet == 0 {
          return false;
        }
        if value < 0 || value > 255 {
          return false;
        }
        octetCount := octetCount + 1;
        if octetCount > 4 {
          return false;
        }
        if i == |s| {
          break;
        }
        value, digitsInOctet := 0, 0;
        i := i + 1;
        continue;
      }
      ReadDigit(s, i, octetCount, value, digitsInOctet);
      var ch := s[i];
      if ch < '0' || ch > '9' {
        return false;
      }
      value := value * 10 + DigitValue(ch);
      digitsInOctet := digitsInOctet + 1;
      if digitsInOctet > 3 {
        return false;
      }
      i := i + 1;
    }
    ok := octetCount == 4;
  }

  // ---------------------------------------------------------------- printing and parsing

  function Digit(n: nat): char requires n < 10 { '0' + n as char }

  /** dec-octet of section 3.2.2 of RFC 3986: decimal without leading zeros. */
  function PrintOctet(n: nat): string
    requires n <= 255
  {
    if n < 10 then [Digit(n)]
    else if n < 100 then [Digit(n / 10), Digit(n % 10)]
    else [Digit(n / 100), Digit(n / 10 % 10), Digit(n % 10)]
  }

  ghost predicate Quad(q: seq<nat>) { |q| == 4 && forall i :: 0 <= i < 4 ==> q[i] <= 255 }

  function Print(q: seq<nat>): string
    requires Quad(q)
  {
    PrintOctet(q[0]) + "." + PrintOctet(q[1]) + "." + PrintOctet(q[2]) + "." + PrintOctet(q[3])
  }

  function Parse(s: string): (q: seq<nat>)
    requires Accepts(s)
    ensures Quad(q)
  {
    var gs := Split(s);
    assert forall i :: 0 <= i < 4 ==> gs[i] in gs;
    [Decimal(gs[0]), Decimal(gs[1]), Decimal(gs[2]), Decimal(gs[3])]
  }

  /** No group has a superfluous leading zero. */
  predicate Canonical(s: string) {
    forall g :: g in Split(s) ==> |g| == 1 || (g != [] && g[0] != '0')
  }

  lemma Decimals(g: string)
    requires Numeric(g) && 1 <= |g| <= 3
    ensures Decimal(g) == if |g| == 1 then DigitValue(g[0])
                          else if |g| == 2 then 10 * DigitValue(g[0]) + DigitValue(g[1])
                          else 100 * DigitValue(g[0]) + 10 * DigitValue(g[1]) + DigitValue(g[2])
  {
    var a: string := [];
    assert Decimal(a) == 0;
    DecimalSnoc(a, g[0]);
    assert g[..1] == a + [g[0]];
    if |g| >= 2 {
      DecimalSnoc(g[..1], g[1]);
      assert g[..2] == g[..1] + [g[1]];
    }
    if |g| == 3 {
      DecimalSnoc(g[..2], g[2]);
      assert g == g[..2] + [g[2]];
    } else {
      assert g == g[..|g|];
    }
  }

  lemma DigitIs(n: nat)
    requires n < 10
    ensures IsDigit(Digit(n)) && DigitValue(Digit(n)) == n && (Digit(n) == '0' <==> n == 0)
  {
  }

  lemma PrintedDigits(n: nat)
    requires n <= 255
    ensures var g := PrintOctet(n);
            1 <= |g| <= 3 && Numeric(g) && DotFree(g) && (|g| == 1 || g[0] != '0')
  {
    DigitIs(n % 10);
    DigitIs(n / 10 % 10);
    DigitIs(n / 100);
  }

  lemma OctetPrinted(n: nat)
    requires n <= 255
    ensures var g := PrintOctet(n); Octet(g) && Decimal(g) == n && DotFree(g) && (|g| == 1 || g[0] != '0')
  {
    PrintedDigits(n);
    Decimals(PrintOctet(n));
    DigitIs(n % 10);
    DigitIs(n / 10 % 10);
    DigitIs(n / 100);
  }

  /** The number of digits can be read off the value. */
  lemma CanonicalWidth(g: string)
    requires Octet(g) && (|g| == 1 || g[0] != '0')
    ensures |g| == if Decimal(g) < 10 then 1 else if Decimal(g) < 100 then 2 else 3
  {
    Decimals(g);
  }

  lemma DigitsDetermine(p: string, g: string)
    requires Numeric(p) && Numeric(g) && 1 <= |p| == |g| <= 3 && Decimal(p) == Decimal(g)
    ensures forall i :: 0 <= i < |p| ==> DigitValue(p[i]) == DigitValue(g[i])
  {
    Decimals(p);
    Decimals(g);
  }

  /** Without leading zeros the decimal value determines the text. */
  lemma CanonicalUnique(p: string, g: string)
    requires Octet(p) && Octet(g) && Decimal(p) == Decimal(g)
    requires (|p| == 1 || p[0] != '0') && (|g| == 1 || g[0] != '0')
    ensures p == g
  {
    CanonicalWidth(p);
    CanonicalWidth(g);
    DigitsDetermine(p, g);
  }

  lemma OctetReprinted(g: string)
    requires Octet(g)
    ensures PrintOctet(Decimal(g)) == g <==> |g| == 1 || g[0] != '0'
  {
    OctetPrinted(Decimal(g));
    if |g| == 1 || g[0] != '0' {
      CanonicalUnique(PrintOctet(Decimal(g)), g);
    }
  }

  lemma SplitPrinted(q: seq<nat>)
    requires Quad(q)
    ensures Split(Print(q)) == [PrintOctet(q[0]), PrintOctet(q[1]), PrintOctet(q[2]), PrintOctet(q[3])]
  {
    var a, b, c, d := PrintOctet(q[0]), PrintOctet(q[1]), PrintOctet(q[2]), PrintOctet(q[3]);
    OctetPrinted(q[0]);
    OctetPrinted(q[1]);
    OctetPrinted(q[2]);
    OctetPrinted(q[3]);
    JoinFour(a, b, c, d);
    SplitJoin([a, b, c, d]);
  }

  lemma JoinFour(a: string, b: string, c: string, d: string)
    ensures JoinDots([a, b, c, d]) == a + "." + b + "." + c + "." + d
  {
    assert [a, b, c, d][..3] == [a, b, c] && [a, b, c][..2] == [a, b] && [a, b][..1] == [a];
    assert JoinDots([a]) == a;
    JoinFront([a, b]);
    JoinFront([a, b, c]);
    JoinFront([a, b, c, d]);
  }

  /** Every printed address is accepted and parses back to itself. */
  lemma ParsePrint(q: seq<nat>)
    requires Quad(q)
    ensures Accepts(Print(q)) && Parse(Print(q)) == q && Canonical(Print(q))
  {
    var s, gs := Print(q), Split(Print(q));
    SplitPrinted(q);
    forall i | 0 <= i < 4
      ensures Octet(gs[i]) && Decimal(gs[i]) == q[i] && (|gs[i]| == 1 || gs[i][0] != '0')
    {
      assert gs[i] == PrintOctet(q[i]);
      OctetPrinted(q[i]);
    }
    assert Accepts(s);
    assert Parse(s) == [q[0], q[1], q[2], q[3]] == q;
  }

  /** An accepted text prints back as itself exactly when it has no superfluous zeros:
      the canonical accepted texts are the printed addresses. */
  lemma PrintParse(s: string)
    requires Accepts(s)
    ensures Print(Parse(s)) == s <==> Canonical(s)
  {
    var gs, q := Split(s), Parse(s);
    assert forall i :: 0 <= i < 4 ==> gs[i] in gs;
    assert gs == [gs[0], gs[1], gs[2], gs[3]];
    SplitPrinted(q);
    if Print(q) == s {
      ParsePrint(q);
    }
    if Canonical(s) {
      OctetReprinted(gs[0]);
      OctetReprinted(gs[1]);
      OctetReprinted(gs[2]);
      OctetReprinted(gs[3]);
      assert Split(Print(q)) == gs;
      JoinSplit(s);
      JoinSplit(Print(q));
    }
  }

  /** Acceptance, stated without the splitter: four octets joined by dots. */
  lemma AcceptsIffFourOctets(s: string)
    ensures Accepts(s) <==> exists a, b, c, d ::
              Octet(a) && Octet(b) && Octet(c) && Octet(d) && s == JoinDots([a, b, c, d])
  {
    if Accepts(s) {
      var gs := Split(s);
      JoinSplit(s);
      assert forall i :: 0 <= i < 4 ==> gs[i] in gs;
      assert gs == [gs[0], gs[1], gs[2], gs[3]];
    }
    forall a, b, c, d | Octet(a) && Octet(b) && Octet(c) && Octet(d) && s == JoinDots([a, b, c, d])
      ensures Accepts(s)
    {
      var gs := [a, b, c, d];
      assert forall i :: 0 <= i < 4 ==> Octet(gs[i]) && DotFree(gs[i]);
      SplitJoin(gs);
    }
  }

  /** A group counts when it is one to three decimal digits that stand for at most 255. */
  lemma OctetIff(g: string)
    ensures Octet(g) <==>
              && 1 <= |g| <= 3 && (forall i :: 0 <= i < |g| ==> '0' <= g[i] <= '9')
              && PlaceValue(g) <= 255
  {
    if 1 <= |g| <= 3 && Numeric(g) {
      Decimals(g);
    }
  }

  function PlaceValue(g: string): int
    requires 1 <= |g| <= 3
  {
    var zero := '0' as int;
    if |g| == 1 then g[0] as int - zero
    else if |g| == 2 then 10 * (g[0] as int - zero) + (g[1] as int - zero)
    else 100 * (g[0] as int - zero) + 10 * (g[1] as int - zero) + (g[2] as int - zero)
  }
}
