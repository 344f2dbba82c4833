/** Hexadecimal text: the `hex` crate's byte strings, `{:08x}` job numbers and
    `u32::from_str_radix(_, 16)`. */
module Hex {
  import opened Bytes

  predicate IsDigit(c: char) {
    '0' <= c <= '9' || 'a' <= c <= 'f' || 'A' <= c <= 'F'
  }

  function DigitValue(c: char): (v: nat)
    requires IsDigit(c)
    ensures v < 16
  {
    if '0' <= c <= '9' then (c - '0') as nat
    else if 'a' <= c <= 'f' then (c - 'a') as nat + 10
    else (c - 'A') as nat + 10
  }

  /** The lower-case digit of a nibble. */
  function Digit(v: nat): (c: char)
    requires v < 16
    ensures IsDigit(c) && DigitValue(c) == v
    ensures !('A' <= c <= 'F')
  {
    if v < 10 then '0' + v as char else 'a' + (v - 10) as char
  }

  predicate AllDigits(s: string) {
    forall i :: 0 <= i < |s| ==> IsDigit(s[i])
  }

  /** `hex::encode`. */
  function Encode(bs: seq<Byte>): (s: string)
    ensures |s| == 2 * |bs| && AllDigits(s)
  {
    if bs == [] then ""
    else [Digit(bs[0] / 16), Digit(bs[0] % 16)] + Encode(bs[1..])
  }

  lemma DigitsAfterTwo(s: string)
    requires |s| >= 2 && IsDigit(s[0]) && IsDigit(s[1])
    ensures AllDigits(s) <==> AllDigits(s[2..])
  {
    assert forall i :: 2 <= i < |s| ==> s[i] == s[2..][i - 2];
  }

  /** `hex::decode`: defined exactly on digit strings of even length. */
  function Decode(s: string): (r: Option<seq<Byte>>)
    ensures r.Some? <==> |s| % 2 == 0 && AllDigits(s)
    ensures r.Some? ==> |r.value| * 2 == |s|
  {
    if s == "" then Some([])
    else if |s| == 1 || !IsDigit(s[0]) || !IsDigit(s[1]) then None
    else
      var rest := Decode(s[2..]);
      DigitsAfterTwo(s);
      if rest.None? then None
      else Some([16 * DigitValue(s[0]) + DigitValue(s[1])] + rest.value)
  }

  lemma {:induction false} DecodeEncode(bs: seq<Byte>)
    ensures Decode(Encode(bs)) == Some(bs)
  {
    if bs != [] {
      DecodeEncode(bs[1..]);
      var s := Encode(bs);
      assert s[0] == Digit(bs[0] / 16) && s[1] == Digit(bs[0] % 16) && s[2..] == Encode(bs[1..]);
      var b: Byte := 16 * (bs[0] / 16) + bs[0] % 16;
      assert Decode(s) == Some([b] + bs[1..]);
      assert bs == [b] + bs[1..];
    }
  }

  lemma {:induction false} EncodeAppend(a: seq<Byte>, b: seq<Byte>)
    ensures Encode(a + b) == Encode(a) + Encode(b)
  {
    if a == [] {
      assert a + b == b;
    } else {
      assert (a + b)[1..] == a[1..] + b;
      EncodeAppend(a[1..], b);
    }
  }

  /** Base-16 value of a digit string, most significant digit first. */
  function Value(s: string): nat
    requires AllDigits(s)
  {
    if s == "" then 0 else 16 * Value(s[..|s| - 1]) + DigitValue(s[|s| - 1])
  }

  function Digits(n: nat, len: nat): (s: string)
    ensures |s| == len && AllDigits(s)
  {
    if len == 0 then "" else Digits(n / 16, len - 1) + [Digit(n % 16)]
  }

  function Pow16(n: nat): (p: nat)
    ensures p >= 1
  {
    if n == 0 then 1 else 16 * Pow16(n - 1)
  }

  /** How many digits `{:x}` prints. */
  function Width(n: nat): (w: nat)
    ensures w >= 1 && n < Pow16(w)
  {
    if n < 16 then assert Pow16(1) == 16; 1 else Width(n / 16) + 1
  }

  /** `format!("{:08x}", n)`. */
  function Format08(n: nat): (s: string)
    ensures |s| >= 8 && AllDigits(s)
  {
    Digits(n, if Width(n) < 8 then 8 else Width(n))
  }

  /** `u32::from_str_radix(s, 16).ok()`: one leading plus sign is allowed, the value must fit. */
  function ParseU32(s: string): (r: Option<nat>)
    ensures r.Some? ==> r.value < U32_LIMIT
  {
    var body := if |s| > 1 && s[0] == '+' then s[1..] else s;
    if body == "" || !AllDigits(body) || Value(body) >= U32_LIMIT then None else Some(Value(body))
  }

  lemma ValueSnoc(s: string, c: char)
    requires AllDigits(s) && IsDigit(c)
    ensures AllDigits(s + [c]) && Value(s + [c]) == 16 * Value(s) + DigitValue(c)
  {
    assert (s + [c])[..|s|] == s;
  }

  lemma {:induction false} ValueOfDigits(n: nat, len: nat)
    requires n < Pow16(len)
    ensures Value(Digits(n, len)) == n
  {
    if len > 0 {
      var q, r := n / 16, n % 16;
      assert n == 16 * q + r && q < Pow16(len - 1);
      ValueOfDigits(q, len - 1);
      ValueSnoc(Digits(q, len - 1), Digit(r));
    }
  }

  lemma {:induction false} WidthIsLeast(n: nat, w: nat)
    requires w >= 1 && n < Pow16(w)
    ensures Width(n) <= w
  {
    if n >= 16 {
      assert Pow16(1) == 16;
      WidthIsLeast(n / 16, w - 1);
    }
  }

  lemma EightDigits()
    ensures Pow16(7) == 0x1000_0000 && Pow16(8) == U32_LIMIT
  {
    assert Pow16(2) == 256;
    assert Pow16(4) == 65536 by { assert Pow16(3) == 16 * Pow16(2); }
    assert Pow16(6) == 0x100_0000 by { assert Pow16(5) == 16 * Pow16(4); }
  }

  lemma U32FitsEightDigits(n: nat)
    requires n < U32_LIMIT
    ensures n < Pow16(8) && Format08(n) == Digits(n, 8)
  {
    EightDigits();
    WidthIsLeast(n, 8);
  }

  lemma {:induction false} Pow16Monotone(a: nat, b: nat)
    requires a <= b
    ensures Pow16(a) <= Pow16(b)
  {
    if a < b { Pow16Monotone(a, b - 1); }
  }

  /** From 2^32 on a ninth digit is printed. */
  lemma NineDigits(n: nat)
    requires U32_LIMIT <= n < 16 * U32_LIMIT
    ensures Format08(n) == Digits(n / 16, 8) + [Digit(n % 16)] && n / 16 < Pow16(8)
  {
    EightDigits();
    WidthIsLeast(n, 9);
    if Width(n) < 9 { Pow16Monotone(Width(n), 8); }
  }

  /** A number printed in a notify message is the number parsed back. */
  lemma ParseFormat(n: nat)
    requires n < U32_LIMIT
    ensures ParseU32(Format08(n)) == Some(n)
  {
    U32FitsEightDigits(n);
    ValueOfDigits(n, 8);
    var s := Digits(n, 8);
    assert IsDigit(s[0]);
  }

  /** Byte-wise lexicographic order, the order of Rust strings. */
  predicate TextLess(a: string, b: string) {
    b != "" && (a == "" || a[0] < b[0] || (a[0] == b[0] && TextLess(a[1..], b[1..])))
  }

  lemma {:induction false} TextLessTransitive(a: string, b: string, c: string)
    requires TextLess(a, b) && TextLess(b, c)
    ensures TextLess(a, c)
  {
    if a != "" && a[0] == b[0] == c[0] { TextLessTransitive(a[1..], b[1..], c[1..]); }
  }

  lemma {:induction false} TextLessTotal(a: string, b: string)
    ensures a == b || TextLess(a, b) || TextLess(b, a)
    ensures !(TextLess(a, b) && TextLess(b, a))
  {
    if a != "" && b != "" && a[0] == b[0] {
      TextLessTotal(a[1..], b[1..]);
      assert a == [a[0]] + a[1..] && b == [b[0]] + b[1..];
    }
  }

  lemma {:induction false} TextLessAppend(a: string, b: string, x: char, y: char)
    requires |a| == |b|
    ensures TextLess(a + [x], b + [y]) <==> TextLess(a, b) || (a == b && x < y)
  {
    if a == "" {
      assert a + [x] == [x] && b + [y] == [y];
    } else {
      TextLessAppend(a[1..], b[1..], x, y);
      assert (a + [x])[1..] == a[1..] + [x] && (b + [y])[1..] == b[1..] + [y];
      assert a == [a[0]] + a[1..] && b == [b[0]] + b[1..];
    }
  }

  lemma {:induction false} TextLessLonger(a: string, x: char, b: string)
    requires |a| == |b|
    ensures TextLess(a + [x], b) <==> TextLess(a, b)
  {
    if a != "" {
      TextLessLonger(a[1..], x, b[1..]);
      assert (a + [x])[1..] == a[1..] + [x];
    }
  }

  lemma DigitOrder(m: nat, n: nat)
    requires m < 16 && n < 16
    ensures Digit(m) < Digit(n) <==> m < n
  {
  }

  /** Printed at one width, text order is numeric order. */
  lemma {:induction false} DigitsOrder(m: nat, n: nat, len: nat)
    requires m < Pow16(len) && n < Pow16(len)
    ensures TextLess(Digits(m, len), Digits(n, len)) <==> m < n
  {
    if len > 0 {
      assert m / 16 < Pow16(len - 1) && n / 16 < Pow16(len - 1);
      var a, b := Digits(m / 16, len - 1), Digits(n / 16, len - 1);
      DigitsOrder(m / 16, n / 16, len - 1);
      assert a == b ==> m / 16 == n / 16 by {
        ValueOfDigits(m / 16, len - 1);
        ValueOfDigits(n / 16, len - 1);
      }
      DigitOrder(m % 16, n % 16);
      TextLessAppend(a, b, Digit(m % 16), Digit(n % 16));
    }
  }

  /** Below 2^32 the text order of job ids is the order of their numbers. */
  lemma Format08Order(m: nat, n: nat)
    requires m < U32_LIMIT && n < U32_LIMIT
    ensures TextLess(Format08(m), Format08(n)) <==> m < n
    ensures Format08(m) == Format08(n) ==> m == n
  {
    U32FitsEightDigits(m);
    U32FitsEightDigits(n);
    DigitsOrder(m, n, 8);
    ValueOfDigits(m, 8);
    ValueOfDigits(n, 8);
  }

  /** A nine-digit id comes before an eight-digit one exactly when its first eight digits do. */
  lemma NineDigitOrder(n: nat, m: nat)
    requires U32_LIMIT <= n < 16 * U32_LIMIT && m < U32_LIMIT
    ensures TextLess(Format08(n), Format08(m)) <==> n / 16 < m
    ensures Format08(n) != Format08(m)
  {
    NineDigits(n);
    U32FitsEightDigits(m);
    DigitsOrder(n / 16, m, 8);
    TextLessLonger(Digits(n / 16, 8), Digit(n % 16), Digits(m, 8));
  }
}
