/** Byte strings and their code points, as Go converts between `string` and `[]rune`.
    A Dafny `char` is a Unicode scalar value, which is what a valid rune is. */
module Utf8 {

  newtype byte = x: int | 0 <= x < 256

  type Bytes = seq<byte>

  const REPLACEMENT: char := '\U{FFFD}'

  /** Section 3 of RFC 3629. */
  function EncodeRune(c: char): (b: Bytes)
    ensures 1 <= |b| <= 4
  {
    var n := c as int;
    var q1, q2, q3 := n / 0x40, n / 0x40 / 0x40, n / 0x40 / 0x40 / 0x40;
    if n < 0x80 then [n as byte]
    else if n < 0x800 then [(0xC0 + q1) as byte, Follow(n)]
    else if n < 0x10000 then [(0xE0 + q2) as byte, Follow(q1), Follow(n)]
    else [(0xF0 + q3) as byte, Follow(q2), Follow(q1), Follow(n)]
  }

  /** A following byte carries the low six bits. */
  function Follow(n: nat): byte { (0x80 + n % 0x40) as byte }

  function Encode(rs: string): Bytes {
    if rs == [] then [] else EncodeRune(rs[0]) + Encode(rs[1..])
  }

  /** One decoding step. An ill-formed sequence yields U+FFFD and consumes a single byte. */
  datatype Unit = Unit(rune: char, width: nat, valid: bool)

  const BAD := Unit(REPLACEMENT, 1, false)

  predicate Within(b: byte, lo: byte, hi: byte) { lo <= b <= hi }

  predicate Following(b: byte) { Within(b, 0x80, 0xBF) }

  /** Least and greatest second byte allowed after a given first byte. */
  function SecondLow(b0: byte): byte {
    if b0 == 0xE0 then 0xA0 else if b0 == 0xF0 then 0x90 else 0x80
  }

  function SecondHigh(b0: byte): byte {
    if b0 == 0xED then 0x9F else if b0 == 0xF4 then 0x8F else 0xBF
  }

  function DecodeRune(text: Bytes): (u: Unit)
    requires text != []
    ensures 1 <= u.width <= |text|
    ensures !u.valid ==> u == BAD
  {
    var b0 := text[0];
    if b0 < 0x80 then Unit(b0 as int as char, 1, true)
    else if |text| < 2 || b0 < 0xC2 || b0 > 0xF4 || !Within(text[1], SecondLow(b0), SecondHigh(b0)) then BAD
    else
      var n1 := text[1] as int - 0x80;
      if b0 < 0xE0 then Unit(((b0 as int - 0xC0) * 0x40 + n1) as char, 2, true)
      else if |text| < 3 || !Following(text[2]) then BAD
      else
        var n2 := text[2] as int - 0x80;
        if b0 < 0xF0 then Unit(((b0 as int - 0xE0) * 0x1000 + n1 * 0x40 + n2) as char, 3, true)
        else if |text| < 4 || !Following(text[3]) then BAD
        else
          var n3 := text[3] as int - 0x80;
          Unit(((b0 as int - 0xF0) * 0x40000 + n1 * 0x1000 + n2 * 0x40 + n3) as char, 4, true)
  }

  function Units(text: Bytes): seq<Unit>
    decreases |text|
  {
    if text == [] then []
    else
      var u := DecodeRune(text);
      [u] + Units(text[u.width..])
  }

  function Runes(us: seq<Unit>): string {
    seq(|us|, i requires 0 <= i < |us| => us[i].rune)
  }

  /** The conversion `[]rune(text)`. */
  function Decode(text: Bytes): string { Runes(Units(text)) }

  function Width(us: seq<Unit>): nat {
    if us == [] then 0 else us[0].width + Width(us[1..])
  }

  function BadUnits(us: seq<Unit>): nat {
    if us == [] then 0 else (if us[0].valid then 0 else 1) + BadUnits(us[1..])
  }

  predicate Valid(text: Bytes) { BadUnits(Units(text)) == 0 }

  // ---------------------------------------------------------------- one rune

  lemma DecodeEncodeRune(c: char, rest: Bytes)
    ensures DecodeRune(EncodeRune(c) + rest) == Unit(c, |EncodeRune(c)|, true)
  {
    var n := c as int;
    var q1 := n / 0x40;
    var q2 := q1 / 0x40;
    var q3 := q2 / 0x40;
    assert n == q1 * 0x40 + n % 0x40 && q1 == q2 * 0x40 + q1 % 0x40 && q2 == q3 * 0x40 + q2 % 0x40;
    var e := EncodeRune(c);
    var t := e + rest;
    assert t[..|e|] == e;
    if n < 0x80 {
      assert t[0] == n as byte;
    } else if n < 0x800 {
      assert t[0] == (0xC0 + q1) as byte && t[1] == Follow(n);
    } else if n < 0x10000 {
      assert t[0] == (0xE0 + q2) as byte && t[1] == Follow(q1) && t[2] == Follow(n);
    } else {
      assert t[0] == (0xF0 + q3) as byte && t[1] == Follow(q2) && t[2] == Follow(q1) && t[3] == Follow(n);
    }
  }

  lemma TwoBytes(text: Bytes)
    requires text != [] && DecodeRune(text).valid && DecodeRune(text).width == 2
    ensures EncodeRune(DecodeRune(text).rune) == text[..2]
  {
    SixBits(text[0] as int - 0xC0, text[1]);
    assert EncodeRune(DecodeRune(text).rune) == [text[0], text[1]] == text[..2];
  }

  lemma ThreeBytes(text: Bytes)
    requires text != [] && DecodeRune(text).valid && DecodeRune(text).width == 3
    ensures EncodeRune(DecodeRune(text).rune) == text[..3]
  {
    var b0 := text[0] as int;
    SixBits((b0 - 0xE0) * 0x40 + (text[1] as int - 0x80), text[2]);
    SixBits(b0 - 0xE0, text[1]);
    assert EncodeRune(DecodeRune(text).rune) == [text[0], text[1], text[2]] == text[..3];
  }

  lemma FourBytes(text: Bytes)
    requires text != [] && DecodeRune(text).valid && DecodeRune(text).width == 4
    ensures EncodeRune(DecodeRune(text).rune) == text[..4]
  {
    var b0 := text[0] as int;
    SixBits(((b0 - 0xF0) * 0x40 + (text[1] as int - 0x80)) * 0x40 + (text[2] as int - 0x80), text[3]);
    SixBits((b0 - 0xF0) * 0x40 + (text[1] as int - 0x80), text[2]);
    SixBits(b0 - 0xF0, text[1]);
    assert EncodeRune(DecodeRune(text).rune) == [text[0], text[1], text[2], text[3]] == text[..4];
  }

  lemma EncodeDecodeRune(text: Bytes)
    requires text != []
    ensures var u := DecodeRune(text);
            if u.valid then EncodeRune(u.rune) == text[..u.width] else |EncodeRune(u.rune)| == u.width + 2
  {
    var u := DecodeRune(text);
    if u.valid {
      if u.width == 1 {
        assert EncodeRune(u.rune) == [text[0]] == text[..1];
      } else if u.width == 2 {
        TwoBytes(text);
      } else if u.width == 3 {
        ThreeBytes(text);
      } else {
        FourBytes(text);
      }
    }
  }

  lemma SixBits(high: nat, b: byte)
    requires Within(b, 0x80, 0xBF)
    ensures var n := high * 0x40 + (b as int - 0x80); n / 0x40 == high && Follow(n) == b
  {
  }

  // ---------------------------------------------------------------- whole strings

  lemma {:induction false} EncodeAppend(a: string, b: string)
    ensures Encode(a + b) == Encode(a) + Encode(b)
  {
    if a == [] {
      assert a + b == b;
    } else {
      assert (a + b)[1..] == a[1..] + b;
      EncodeAppend(a[1..], b);
    }
  }

  lemma {:induction false} WidthAppend(a: seq<Unit>, b: seq<Unit>)
    ensures Width(a + b) == Width(a) + Width(b)
    ensures BadUnits(a + b) == BadUnits(a) + BadUnits(b)
  {
    if a == [] {
      assert a + b == b;
    } else {
      assert (a + b)[1..] == a[1..] + b;
      WidthAppend(a[1..], b);
    }
  }

  /** Decoding inverts encoding, and what encoding produces is always valid. */
  lemma {:induction false} DecodeEncode(rs: string)
    ensures Decode(Encode(rs)) == rs && Valid(Encode(rs))
  {
    if rs != [] {
      DecodeEncodeRune(rs[0], Encode(rs[1..]));
      var b := Encode(rs);
      assert b[|EncodeRune(rs[0])|..] == Encode(rs[1..]);
      DecodeEncode(rs[1..]);
      var us := Units(Encode(rs[1..]));
      assert Units(b) == [Unit(rs[0], |EncodeRune(rs[0])|, true)] + us;
      assert Runes(Units(b)) == [rs[0]] + Runes(us);
    }
  }

  /** Re-encoding what was decoded lengthens the text by two bytes for each ill-formed one. */
  lemma {:induction false} EncodeDecodeLength(text: Bytes)
    ensures |Encode(Decode(text))| == |text| + 2 * BadUnits(Units(text))
    ensures Width(Units(text)) == |text|
    ensures |Units(text)| <= |text|
  {
    if text != [] {
      var u := DecodeRune(text);
      var us := Units(text[u.width..]);
      EncodeDecodeLength(text[u.width..]);
      EncodeDecodeRune(text);
      assert Runes(Units(text)) == [u.rune] + Runes(us);
    }
  }

  /** A text survives the round trip through runes exactly when it is valid UTF-8. */
  lemma {:induction false} EncodeDecode(text: Bytes)
    ensures Encode(Decode(text)) == text <==> Valid(text)
  {
    EncodeDecodeLength(text);
    if Valid(text) {
      ValidRoundTrip(text);
    }
  }

  lemma {:induction false} ValidRoundTrip(text: Bytes)
    requires Valid(text)
    ensures Encode(Decode(text)) == text
  {
    if text != [] {
      var w := DecodeRune(text).width;
      ValidTail(text);
      ValidRoundTrip(text[w..]);
      EncodeDecodeRune(text);
      DecodeTail(text);
      assert text == text[..w] + text[w..];
    }
  }

  lemma ValidTail(text: Bytes)
    requires text != []
    ensures Valid(text) <==> DecodeRune(text).valid && Valid(text[DecodeRune(text).width..])
  {
    assert Units(text)[1..] == Units(text[DecodeRune(text).width..]);
  }

  /** The units from the i-th on are the units of the text after the first i. */
  lemma {:induction false} UnitsDrop(text: Bytes, i: nat)
    requires i <= |Units(text)|
    ensures Width(Units(text)[..i]) <= |text|
    ensures Units(text[Width(Units(text)[..i])..]) == Units(text)[i..]
  {
    if i > 0 {
      var u, us := DecodeRune(text), Units(text);
      var rest := text[u.width..];
      var v := Width(Units(rest)[..i - 1]);
      UnitsDrop(rest, i - 1);
      TakeWidth(us, i);
      assert text[u.width + v..] == rest[v..];
      assert us[i..] == Units(rest)[i - 1..];
      assert Units(text[u.width + v..]) == Units(rest)[i - 1..];
    }
  }

  /** In a valid text the runes i up to j occupy the bytes between their offsets. */
  lemma Slice(text: Bytes, i: nat, j: nat)
    requires Valid(text) && i <= j <= |Units(text)|
    ensures var us := Units(text);
            Width(us[..i]) <= Width(us[..j]) <= |text| &&
            Encode(Decode(text)[i..j]) == text[Width(us[..i])..Width(us[..j])]
  {
    var us, rs := Units(text), Decode(text);
    var wi, wj := Width(us[..i]), Width(us[..j]);
    assert wi <= wj by {
      assert us[..j] == us[..i] + us[i..j];
      WidthAppend(us[..i], us[i..j]);
    }
    ValidPrefix(text, i);
    ValidPrefix(text, j);
    assert Encode(rs[..j]) == Encode(rs[..i]) + Encode(rs[i..j]) by {
      assert rs[..j] == rs[..i] + rs[i..j];
      EncodeAppend(rs[..i], rs[i..j]);
    }
    DropEqual(text[..wi], Encode(rs[i..j]), text[wi..wj], text[..wj]);
  }

  lemma DropEqual(p: Bytes, a: Bytes, b: Bytes, whole: Bytes)
    requires whole == p + a && whole == p + b
    ensures a == b
  {
    assert (p + a)[|p|..] == a && (p + b)[|p|..] == b;
  }

  lemma {:induction false} ValidPrefix(text: Bytes, i: nat)
    requires Valid(text) && i <= |Units(text)|
    ensures Width(Units(text)[..i]) <= |text|
    ensures Encode(Decode(text)[..i]) == text[..Width(Units(text)[..i])]
  {
    if i > 0 {
      var u := DecodeRune(text);
      var rest := text[u.width..];
      ValidPrefix(rest, i - 1);
      EncodeDecodeRune(text);
      DecodeTail(text);
      TakeWidth(Units(text), i);
      TakeEncode(Decode(text), i);
      TakeBytes(text, u.width, Width(Units(rest)[..i - 1]));
    }
  }

  lemma DecodeTail(text: Bytes)
    requires text != []
    ensures var u := DecodeRune(text);
            Decode(text)[0] == u.rune && Decode(text)[1..] == Decode(text[u.width..])
  {
  }

  lemma TakeWidth(us: seq<Unit>, i: nat)
    requires 0 < i <= |us|
    ensures Width(us[..i]) == us[0].width + Width(us[1..][..i - 1])
  {
    assert us[..i][1..] == us[1..][..i - 1];
  }

  lemma TakeEncode(rs: string, i: nat)
    requires 0 < i <= |rs|
    ensures Encode(rs[..i]) == EncodeRune(rs[0]) + Encode(rs[1..][..i - 1])
  {
    assert rs[..i][1..] == rs[1..][..i - 1];
  }

  lemma TakeBytes(text: Bytes, w: nat, v: nat)
    requires w + v <= |text|
    ensures text[..w + v] == text[..w] + text[w..][..v]
  {
  }

  /** The characters of the examples in section 7 of RFC 3629, and the ill-formed sequences its section 10
      warns of. */
  lemma Rfc3629Examples()
    ensures EncodeRune('A') == [0x41] && EncodeRune('\U{391}') == [0xCE, 0x91]
    ensures EncodeRune('\U{2262}') == [0xE2, 0x89, 0xA2] && EncodeRune('\U{65E5}') == [0xE6, 0x97, 0xA5]
    ensures EncodeRune('\U{233B4}') == [0xF0, 0xA3, 0x8E, 0xB4]
    ensures !DecodeRune([0xC0, 0x80]).valid && !DecodeRune([0xED, 0xA0, 0x80]).valid
    ensures !DecodeRune([0xF4, 0x90, 0x80, 0x80]).valid
  {
  }
}
