/** Share difficulty, compact targets and their comparison, in 64- and 128-bit arithmetic,
    against the integers they stand for. */
module Difficulty {
  import opened Arithmetic
  import opened Bytes

  const U64_MAX: nat := U64_LIMIT - 1

  /** In bytes: the shift of the difficulty-one target, and the size below which the cap applies. */
  const ONE_SHIFT: nat := 26
  const CAP_BYTES: nat := 20

  /** The difficulty-one target, 0xFFFF * 2^208. */
  function One(): (n: nat)
    ensures n > 0
  {
    0xFFFF * Pow256(ONE_SHIFT)
  }

  /** Bytes up to the most significant non-zero one. */
  function Len(h: seq<Byte>): (n: nat)
    ensures n <= |h| && (n > 0 ==> h[n - 1] != 0)
    ensures forall i :: n <= i < |h| ==> h[i] == 0
  {
    if h == [] then 0 else if h[|h| - 1] != 0 then |h| else Len(h[..|h| - 1])
  }

  /** Where the eight most significant bytes begin. */
  function Low(h: seq<Byte>): (n: nat)
    ensures n <= Len(h) && (Len(h) > 0 ==> n < Len(h))
  {
    if Len(h) <= 8 then 0 else Len(h) - 8
  }

  function Clear(bs: seq<Byte>, n: nat): (c: seq<Byte>)
    requires n <= |bs|
    ensures |c| == |bs|
  {
    Zeros(n) + bs[n..]
  }

  /** The hash as an integer with all but its eight most significant bytes cleared. */
  function Trunc8(h: seq<Byte>): nat { LeValue(Clear(h[..Len(h)], Low(h))) }

  function Mantissa(h: seq<Byte>): nat { LeValue(h[Low(h)..Len(h)]) }

  /** The cap below 2^160, else the difficulty-one target divided by the value. */
  function DifficultyOfValue(t: nat): nat {
    if t < Pow256(CAP_BYTES) then U64_MAX else One() / t
  }

  function DifficultyOf(h: Hash): nat { DifficultyOfValue(Trunc8(h)) }

  // ----- The truncated hash

  lemma {:induction false} Pow256Monotone(a: nat, b: nat)
    requires a <= b
    ensures Pow256(a) <= Pow256(b)
  {
    if a < b { Pow256Monotone(a, b - 1); }
  }

  lemma TrailingZeros(h: seq<Byte>, n: nat)
    requires n <= |h| && forall i :: n <= i < |h| ==> h[i] == 0
    ensures LeValue(h[..n]) == LeValue(h)
  {
    assert h == h[..n] + Zeros(|h| - n);
    ZerosAfter(h[..n], |h| - n);
  }

  lemma ZerosAfter(bs: seq<Byte>, n: nat)
    ensures LeValue(bs + Zeros(n)) == LeValue(bs)
  {
    LeValueZeros(n);
    LeValueConcat(bs, Zeros(n));
  }

  lemma ZerosBefore(n: nat, bs: seq<Byte>)
    ensures LeValue(Zeros(n) + bs) == Pow256(n) * LeValue(bs)
  {
    LeValueZeros(n);
    LeValueConcat(Zeros(n), bs);
  }

  lemma {:induction false} TopByte(bs: seq<Byte>)
    requires bs != [] && bs[|bs| - 1] != 0
    ensures LeValue(bs) >= Pow256(|bs| - 1)
  {
    if |bs| > 1 { TopByte(bs[1..]); }
  }

  lemma {:induction false} ClearBrackets(bs: seq<Byte>, n: nat)
    requires n <= |bs|
    ensures LeValue(Clear(bs, n)) <= LeValue(bs) < LeValue(Clear(bs, n)) + Pow256(n)
  {
    if n > 0 {
      ClearBrackets(bs[1..], n - 1);
      assert Clear(bs, n)[1..] == Clear(bs[1..], n - 1);
    } else {
      assert Clear(bs, n) == bs;
    }
  }

  lemma {:induction false} ClearMonotone(a: seq<Byte>, b: seq<Byte>, n: nat)
    requires |a| == |b| && n <= |a| && LeValue(a) <= LeValue(b)
    ensures LeValue(Clear(a, n)) <= LeValue(Clear(b, n))
  {
    if n > 0 {
      ClearMonotone(a[1..], b[1..], n - 1);
      assert Clear(a, n)[1..] == Clear(a[1..], n - 1) && Clear(b, n)[1..] == Clear(b[1..], n - 1);
    } else {
      assert Clear(a, n) == a && Clear(b, n) == b;
    }
  }

  lemma SameValue(h: seq<Byte>)
    ensures LeValue(h[..Len(h)]) == LeValue(h)
  {
    TrailingZeros(h, Len(h));
  }

  /** Truncation never raises the hash and only touches its low bytes. */
  lemma Trunc8Brackets(h: seq<Byte>)
    ensures Trunc8(h) <= LeValue(h) < Trunc8(h) + Pow256(Low(h))
  {
    SameValue(h);
    ClearBrackets(h[..Len(h)], Low(h));
  }

  /** It keeps the number of significant bytes. */
  lemma Trunc8Range(h: seq<Byte>)
    ensures LeValue(h) < Pow256(Len(h))
    ensures Len(h) > 0 ==> Pow256(Len(h) - 1) <= Trunc8(h)
  {
    SameValue(h);
    LeValueBound(h[..Len(h)]);
    if Len(h) > 0 { TopByte(Clear(h[..Len(h)], Low(h))); }
  }

  lemma LenMonotone(a: Hash, b: Hash)
    requires LeValue(a) <= LeValue(b)
    ensures Len(a) <= Len(b)
  {
    Trunc8Range(a);
    Trunc8Range(b);
    Trunc8Brackets(a);
    if Len(a) > Len(b) { Pow256Monotone(Len(b), Len(a) - 1); }
  }

  lemma Trunc8Monotone(a: Hash, b: Hash)
    requires LeValue(a) <= LeValue(b)
    ensures Trunc8(a) <= Trunc8(b)
  {
    LenMonotone(a, b);
    if Len(a) < Len(b) {
      Trunc8Range(a);
      Trunc8Range(b);
      Trunc8Brackets(a);
      Pow256Monotone(Len(a), Len(b) - 1);
    } else {
      SameValue(a);
      SameValue(b);
      ClearMonotone(a[..Len(a)], b[..Len(b)], Low(a));
    }
  }

  /** Truncation loses at most one part in 2^56. */
  lemma Trunc8Precision(h: seq<Byte>)
    ensures (LeValue(h) - Trunc8(h)) * Pow256(7) <= Trunc8(h)
  {
    Trunc8Brackets(h);
    if Low(h) > 0 {
      Trunc8Range(h);
      Pow256Add(Low(h), 7);
      SmallPart(LeValue(h) - Trunc8(h), Pow256(Low(h)), Pow256(7), Trunc8(h));
    } else {
      SmallPart(LeValue(h) - Trunc8(h), 0, Pow256(7), Trunc8(h));
    }
  }

  // ----- What the difficulty means

  lemma ValueMeets(t: nat, d: nat)
    requires d <= U64_MAX
    ensures DifficultyOfValue(t) >= d <==> t < Pow256(CAP_BYTES) || t * d <= One()
  {
    if t >= Pow256(CAP_BYTES) { Quotient(One(), t, d); }
  }

  /** Exactly which thresholds a hash meets, for every 64-bit threshold. */
  lemma MeetsThreshold(h: Hash, d: nat)
    requires d <= U64_MAX
    ensures DifficultyOf(h) >= d <==> Trunc8(h) < Pow256(CAP_BYTES) || Trunc8(h) * d <= One()
  {
    ValueMeets(Trunc8(h), d);
  }

  lemma OneIsCapTimes()
    ensures One() == (0xFFFF * Pow256(ONE_SHIFT - CAP_BYTES)) * Pow256(CAP_BYTES)
  {
    OneSplit(20);
  }

  lemma OneSplit(low: nat)
    requires low <= 26
    ensures One() == (0xFFFF * Pow256(ONE_SHIFT - low)) * Pow256(low)
  {
    Pow256Add(26 - low, low);
    MulSwap(0xFFFF, Pow256(ONE_SHIFT - low), Pow256(low));
  }

  /** Up to 0xFFFF * 2^48 the cap makes no difference. */
  lemma MeetsRealThreshold(h: Hash, d: nat)
    requires d <= 0xFFFF * Pow256(ONE_SHIFT - CAP_BYTES)
    ensures DifficultyOf(h) >= d <==> Trunc8(h) * d <= One()
  {
    CapIsLarge();
    MeetsThreshold(h, d);
    OneIsCapTimes();
    if Trunc8(h) < Pow256(CAP_BYTES) {
      SmallProduct(Trunc8(h), Pow256(CAP_BYTES), d, 0xFFFF * Pow256(ONE_SHIFT - CAP_BYTES));
    }
  }

  lemma CapIsLarge()
    ensures 0xFFFF * Pow256(ONE_SHIFT - CAP_BYTES) <= U64_MAX
  {
    Pow256Widths();
    assert Pow256(8) == 256 * Pow256(7);
  }

  /** The largest hash that is reported at the cap. */
  function LargestCapped(): Hash { Zeros(12) + AllOnes(8) + Zeros(12) }

  function AllOnes(n: nat): (bs: seq<Byte>)
    ensures |bs| == n
  {
    seq(n, _ => 255)
  }

  /** Above that bound the cap over-reports: one hash is reported at the maximum and meets none
      of the larger thresholds, so the bound is exact. */
  lemma CapOverReports(d: nat)
    requires 0xFFFF * Pow256(ONE_SHIFT - CAP_BYTES) < d <= U64_MAX
    ensures DifficultyOf(LargestCapped()) >= d && Trunc8(LargestCapped()) * d > One()
  {
    var t, bound := Trunc8(LargestCapped()), 0xFFFF * Pow256(ONE_SHIFT - CAP_BYTES);
    LargestCappedValue();
    CapReports(t);
    CapMisses(t, bound, d);
  }

  lemma CapReports(t: nat)
    requires t == U64_MAX * Pow256(12)
    ensures DifficultyOfValue(t) == U64_MAX
  {
    CapArithmetic(t, 0xFFFF * Pow256(ONE_SHIFT - CAP_BYTES));
  }

  lemma CapMisses(t: nat, bound: nat, d: nat)
    requires t == U64_MAX * Pow256(12) && bound == 0xFFFF * Pow256(ONE_SHIFT - CAP_BYTES) && d > bound
    ensures t * d > One()
  {
    CapArithmetic(t, bound);
    ProductAbove(t, bound, d, One());
  }

  lemma LargestCappedValue()
    ensures Trunc8(LargestCapped()) == U64_MAX * Pow256(12)
  {
    var h, ones := LargestCapped(), AllOnes(8);
    LenIs(h, 20);
    assert Clear(h[..20], 12) == Zeros(12) + ones;
    AllOnesValue(8);
    Pow256Widths();
    ZerosBefore(12, ones);
    Commutes(U64_MAX, Pow256(12));
  }

  /** The largest value below the cap, times the least threshold above the bound. */
  lemma CapArithmetic(t: nat, bound: nat)
    requires t == U64_MAX * Pow256(12) && bound == 0xFFFF * Pow256(ONE_SHIFT - CAP_BYTES)
    ensures t < Pow256(CAP_BYTES) && t * (bound + 1) > One()
  {
    Pow256Widths();
    Pow256Add(8, 12);
    assert t == Pow256(CAP_BYTES) - Pow256(12);
    Pow256Add(6, 12);
    assert Pow256(20) == 0x1_0000 * Pow256(18) by { assert Pow256(19) == 256 * Pow256(18); }
    assert Pow256(18) > Pow256(12) by { assert Pow256(13) == 256 * Pow256(12); Pow256Monotone(13, 18); }
    OneIsCapTimes();
    JustAbove(t, Pow256(ONE_SHIFT - CAP_BYTES), Pow256(12), Pow256(18), Pow256(CAP_BYTES));
  }

  lemma JustAbove(t: nat, six: nat, twelve: nat, eighteen: nat, cap: nat)
    requires t == cap - twelve && six * twelve == eighteen && cap == 0x1_0000 * eighteen && eighteen > twelve
    ensures t * (0xFFFF * six + 1) > (0xFFFF * six) * cap
  {
    var k := 0xFFFF * six;
    assert t * (k + 1) == cap * k - twelve * k + t;
    assert twelve * k == 0xFFFF * eighteen;
  }

  lemma {:induction false} AllOnesValue(n: nat)
    ensures LeValue(AllOnes(n)) == Pow256(n) - 1
  {
    if n > 0 {
      AllOnesValue(n - 1);
      assert AllOnes(n)[1..] == AllOnes(n - 1);
    }
  }

  /** A hash that really has difficulty `d` is never reported below it. */
  lemma NeverUnderReports(h: Hash, d: nat)
    requires d <= U64_MAX && LeValue(h) * d <= One()
    ensures DifficultyOf(h) >= d
  {
    Trunc8Brackets(h);
    Scale(Trunc8(h), LeValue(h), d);
    MeetsThreshold(h, d);
  }

  lemma ValueAntitone(s: nat, t: nat)
    requires s <= t
    ensures DifficultyOfValue(s) >= DifficultyOfValue(t)
  {
    if t >= Pow256(CAP_BYTES) {
      ValueBounded(t);
      if s >= Pow256(CAP_BYTES) {
        var d := One() / t;
        Quotient(One(), t, d);
        Scale(s, t, d);
        Quotient(One(), s, d);
      }
    }
  }

  /** A smaller hash never has a smaller difficulty. */
  lemma DifficultyMonotone(a: Hash, b: Hash)
    requires LeValue(a) <= LeValue(b)
    ensures DifficultyOf(a) >= DifficultyOf(b)
  {
    Trunc8Monotone(a, b);
    ValueAntitone(Trunc8(a), Trunc8(b));
  }

  lemma ValueBounded(t: nat)
    ensures DifficultyOfValue(t) <= U64_MAX
  {
    if t >= Pow256(CAP_BYTES) {
      CapIsLarge();
      OneIsCapTimes();
      QuotientAtMost(0xFFFF * Pow256(ONE_SHIFT - CAP_BYTES), Pow256(CAP_BYTES), t);
    }
  }

  // ----- The computation

  /** `calculate_difficulty_from_hash`. The branch for a negative exponent cannot be taken,
      the 64-bit clamp never acts, and no intermediate value leaves its machine type. */
  method DifficultyFromHash(h: Hash) returns (d: nat)
    ensures d == DifficultyOf(h) && d <= U64_MAX
  {
    var msb := 31;
    while msb >= 0 && h[msb] == 0
      invariant -1 <= msb < 32
      invariant forall i :: msb < i < 32 ==> h[i] == 0
    {
      msb := msb - 1;
    }
    LenIs(h, msb + 1);
    ValueBounded(Trunc8(h));
    if msb < 0 {
      SmallHash(h);
      return U64_MAX;
    }
    var count := if msb + 1 < 8 then msb + 1 else 8;
    var hashVal := ReadTop(h, msb, count);
    d := Scaled(h, hashVal, msb - count + 1);
  }

  /** The division, for the eight bytes `hashVal` read down to position `lsb`. */
  method Scaled(h: Hash, hashVal: nat, lsb: nat) returns (d: nat)
    requires Len(h) > 0 && hashVal == Mantissa(h) && lsb == Low(h)
    ensures d == DifficultyOf(h)
  {
    HashValFits(h);
    var exp := 208 - 8 * lsb;
    assert 16 <= exp <= 208 && 0 < hashVal < U64_LIMIT;
    if exp < 112 {
      var numerator := 0xFFFF * Pow2(exp);
      NumeratorIs(lsb, exp, numerator);
      assert numerator < U128_LIMIT;
      DivisionAgrees(h, numerator, hashVal);
      NeverSaturates(Trunc8(h));
      d := Saturate(numerator / hashVal);
    } else {
      SmallHash(h);
      d := U64_MAX;
    }
  }

  /** The shifted numerator fits 128 bits and is the difficulty-one target less its low bytes. */
  lemma NumeratorIs(low: nat, exp: nat, numerator: nat)
    requires 12 < low <= 26 && exp == 208 - 8 * low && numerator == 0xFFFF * Pow2(exp)
    ensures numerator < U128_LIMIT && One() == numerator * Pow256(low)
  {
    ExponentBytes(exp, 26 - low);
    NumeratorFits(26 - low);
    OneSplit(low);
  }

  lemma NeverSaturates(t: nat)
    ensures Saturate(DifficultyOfValue(t)) == DifficultyOfValue(t)
  {
    ValueBounded(t);
  }

  function Saturate(n: nat): nat { if n > U64_MAX then U64_MAX else n }

  method ReadTop(h: Hash, msb: nat, count: nat) returns (hashVal: nat)
    requires count <= msb + 1 <= 32
    ensures hashVal == LeValue(h[msb + 1 - count..msb + 1])
  {
    hashVal := 0;
    for i := 0 to count
      invariant hashVal == LeValue(h[msb + 1 - i..msb + 1])
    {
      hashVal := hashVal * 256 + h[msb - i];
      assert h[msb - i..msb + 1][1..] == h[msb + 1 - i..msb + 1];
    }
  }

  /** At most twenty significant bytes: below the cap. */
  lemma SmallHash(h: Hash)
    requires Low(h) <= 12
    ensures DifficultyOf(h) == U64_MAX
  {
    Trunc8Range(h);
    Trunc8Brackets(h);
    Pow256Monotone(Len(h), 20);
  }

  /** More than twenty: at or above it. */
  lemma LargeHash(h: Hash)
    requires Low(h) > 12
    ensures Trunc8(h) >= Pow256(CAP_BYTES)
  {
    Trunc8Range(h);
    Pow256Monotone(20, Len(h) - 1);
  }

  lemma HashValFits(h: Hash)
    requires Len(h) > 0
    ensures 0 < Mantissa(h) < U64_LIMIT
  {
    var m := h[Low(h)..Len(h)];
    assert m[|m| - 1] == h[Len(h) - 1];
    TopByte(m);
    LeValueBound(m);
    Pow256Monotone(|m|, 8);
    Pow256Widths();
  }

  /** Dividing the shifted numerator by the eight bytes is dividing by the truncated hash. */
  lemma DivisionAgrees(h: Hash, a: nat, m: nat)
    requires Low(h) > 12 && m == Mantissa(h) > 0 && One() == a * Pow256(Low(h))
    ensures a / m == DifficultyOf(h)
  {
    Trunc8IsProduct(h);
    LargeHash(h);
    ScaledQuotient(a, m, Pow256(Low(h)), Trunc8(h));
  }

  lemma ClearedTop(bs: seq<Byte>, low: nat, high: nat)
    requires low <= high <= |bs|
    ensures Clear(bs[..high], low) == Zeros(low) + bs[low..high]
  {
    assert bs[..high][low..] == bs[low..high];
  }

  lemma Trunc8IsProduct(h: Hash)
    ensures Trunc8(h) == Mantissa(h) * Pow256(Low(h))
  {
    ClearedTop(h, Low(h), Len(h));
    ZerosBefore(Low(h), h[Low(h)..Len(h)]);
    Commutes(Mantissa(h), Pow256(Low(h)));
  }

  lemma ScaledQuotient(a: nat, m: nat, p: nat, t: nat)
    requires m > 0 && p > 0 && One() == a * p && t == m * p && t >= Pow256(CAP_BYTES)
    ensures a / m == DifficultyOfValue(t)
  {
    DivCancel(a, m, p);
  }

  lemma {:induction false} ExponentBytes(e: nat, n: nat)
    requires e == 8 * n
    ensures Pow2(e) == Pow256(n)
  {
    if n > 0 {
      ExponentBytes(e - 8, n - 1);
      assert Pow2(e) == 4 * Pow2(e - 2) && Pow2(e - 2) == 4 * Pow2(e - 4);
      assert Pow2(e - 4) == 4 * Pow2(e - 6) && Pow2(e - 6) == 4 * Pow2(e - 8);
    }
  }

  lemma NumeratorFits(n: nat)
    requires n <= 13
    ensures 0xFFFF * Pow256(n) < U128_LIMIT
  {
    Pow256Monotone(n, 13);
    Pow256Widths();
    Pow256Add(8, 8);
    Pow256Add(13, 3);
    assert Pow256(3) == 0x100_0000 by { assert Pow256(2) == 0x1_0000; }
    assert Pow256(16) == U128_LIMIT;
  }

  lemma LenIs(h: seq<Byte>, n: nat)
    requires n <= |h| && (n > 0 ==> h[n - 1] != 0) && forall i :: n <= i < |h| ==> h[i] == 0
    ensures Len(h) == n
  {
  }

  // ----- Compact targets

  function Exponent(nbits: nat): nat { nbits / 0x100_0000 % 256 }
  function CompactMantissa(nbits: nat): nat { nbits % 0x80_0000 }

  /** The integer of a compact target: sign bit masked, bytes past the 32nd dropped. */
  function CompactValue(nbits: nat): nat {
    var (e, m) := (Exponent(nbits), CompactMantissa(nbits));
    if e >= 3 then Pow256(e - 3) * m % Pow256(32) else m / Pow256(3 - e)
  }

  /** The four-byte form read as exponent byte, sign bit and 23-bit mantissa. */
  lemma CompactOf(e: nat, sign: nat, m: nat)
    requires e < 256 && sign < 2 && m < 0x80_0000
    ensures CompactValue(0x100_0000 * e + 0x80_0000 * sign + m)
         == if e >= 3 then Pow256(e - 3) * m % Pow256(32) else m / Pow256(3 - e)
  {
    CompactParts(e, sign, m);
  }

  lemma CompactParts(e: nat, sign: nat, m: nat)
    requires e < 256 && sign < 2 && m < 0x80_0000
    ensures Exponent(0x100_0000 * e + 0x80_0000 * sign + m) == e
    ensures CompactMantissa(0x100_0000 * e + 0x80_0000 * sign + m) == m
  {
    QuotientOfSum(0x100_0000 * e + 0x80_0000 * sign + m, 0x80_0000 * sign + m, 0x100_0000, e);
    RemainderIs(0x100_0000 * e + 0x80_0000 * sign + m, 0x80_0000, 2 * e + sign, m);
  }

  /** Bitcoin's first target is the difficulty-one target, and a hash equal to it has difficulty one. */
  lemma FirstTarget(h: Hash)
    ensures CompactValue(0x1d00_ffff) == One() == 0xFFFF * Pow256(26)
    ensures LeValue(h) == One() ==> DifficultyOf(h) == 1
  {
    FirstCompact();
    if LeValue(h) == One() { ExactlyOne(h); }
  }

  lemma FirstCompact()
    ensures CompactValue(0x1d00_ffff) == One()
  {
    CompactParts(0x1d, 0, 0xffff);
    CompactProduct(0x1d00_ffff, 0x1d, 32, 0xffff);
  }

  lemma CompactProduct(nbits: nat, e: nat, k: nat, m: nat)
    requires Exponent(nbits) == e && CompactMantissa(nbits) == m && 3 <= e && e - 1 <= k == 32 && m < 0x1_0000
    ensures CompactValue(nbits) == m * Pow256(e - 3)
  {
    FitsTarget(e - 3, k, m);
  }

  lemma FitsTarget(n: nat, k: nat, m: nat)
    requires n + 2 <= k && m < 0x1_0000
    ensures Pow256(n) * m % Pow256(k) == m * Pow256(n)
  {
    Pow256Add(n, 2);
    Pow256Widths();
    Pow256Monotone(n + 2, k);
    FitsBelow(m, Pow256(n), Pow256(n + 2), Pow256(k));
  }

  lemma FitsBelow(m: nat, p: nat, q: nat, all: nat)
    requires m < 0x1_0000 && p >= 1 && q == p * 0x1_0000 && q <= all
    ensures p * m % all == m * p
  {
    Commutes(p, m);
    Scale(m + 1, 0x1_0000, p);
    RemainderIs(m * p, all, 0, m * p);
  }

  lemma ExactlyOne(h: Hash)
    requires LeValue(h) == One()
    ensures DifficultyOf(h) == 1
  {
    NeverUnderReports(h, 1);
    KeepsHalf(h, 7);
    CapBelowOne(ONE_SHIFT, CAP_BYTES);
    MeetsThreshold(h, 2);
    NotTwo(Trunc8(h), Pow256(CAP_BYTES), One(), DifficultyOf(h));
  }

  lemma KeepsHalf(h: Hash, n: nat)
    requires n == 7 && LeValue(h) > 0
    ensures 2 * Trunc8(h) > LeValue(h)
  {
    Trunc8Brackets(h);
    Trunc8Precision(h);
    Pow256Monotone(1, n);
    assert Pow256(1) == 256;
    HalfKept(LeValue(h), Trunc8(h), Pow256(n));
  }

  lemma NotTwo(t: nat, cap: nat, one: nat, d: nat)
    requires 2 * t > one && 2 * cap <= one && (d >= 2 <==> t < cap || t * 2 <= one)
    ensures d < 2
  {
  }

  lemma CapBelowOne(n: nat, k: nat)
    requires n == ONE_SHIFT && k <= n
    ensures 2 * Pow256(k) <= One()
  {
    Pow256Monotone(k, n);
  }

  lemma HalfKept(v: nat, t: nat, k: nat)
    requires (v - t) * k <= t && k >= 256 && v > 0
    ensures 2 * t > v
  {
    if v > t { Scale(256, k, v - t); Commutes(k, v - t); }
  }

  /** A byte string is its low part plus its high part shifted; the low part is a remainder. */
  lemma Split(h: seq<Byte>, n: nat)
    requires n <= |h|
    ensures LeValue(h) == LeValue(h[..n]) + Pow256(n) * LeValue(h[n..])
    ensures LeValue(h[..n]) < Pow256(n)
  {
    LeValueConcat(h[..n], h[n..]);
    assert h == h[..n] + h[n..];
    LeValueBound(h[..n]);
  }

  lemma CutIsRemainder(h: seq<Byte>, n: nat)
    requires n <= |h|
    ensures LeValue(h[..n]) == LeValue(h) % Pow256(n)
  {
    Split(h, n);
    RemainderIs(LeValue(h), Pow256(n), LeValue(h[n..]), LeValue(h[..n]));
  }

  lemma ThreeBytes(m: nat)
    requires m < 0x100_0000
    ensures Le(m, 3) == [m % 256, m / 256 % 256, m / 0x1_0000]
    ensures LeValue(Le(m, 3)) == m
  {
    assert Le(m, 3) == [m % 256] + Le(m / 256, 2);
    assert Le(m / 256, 2) == [m / 256 % 256] + Le(m / 256 / 256, 1);
    assert Le(m / 0x1_0000, 1) == [m / 0x1_0000] + Le(m / 0x100_0000, 0);
    assert Pow256(3) == 0x100_0000 by { assert Pow256(2) == 0x1_0000; }
    LeValueOfLe(m, 3);
  }

  /** Byte `k` of a mantissa; zero outside its three bytes. */
  function MantissaByte(m: nat, k: int): Byte {
    if k == 0 then m % 256 else if k == 1 then m / 256 % 256 else if k == 2 then m / 0x1_0000 % 256 else 0
  }

  /** `target_from_nbits`. */
  method TargetFromNbits(nbits: nat) returns (target: Hash)
    requires nbits < U32_LIMIT
    ensures LeValue(target) == CompactValue(nbits)
  {
    target := Zeros(32);
    var exponent, mantissa := Exponent(nbits), CompactMantissa(nbits);
    if exponent == 0 || mantissa == 0 {
      EmptyBuffer(mantissa, exponent);
    } else if exponent >= 3 {
      target := PlaceWide(mantissa, exponent - 3);
    } else {
      target := PlaceNarrow(mantissa, exponent);
    }
    BufferValue(mantissa, exponent, target);
  }

  /** The three mantissa bytes from position `pos` on, those past the buffer dropped. */
  method PlaceWide(mantissa: nat, pos: nat) returns (target: Hash)
    ensures Holds(mantissa, pos + 3, target)
  {
    target := Zeros(32);
    if pos < 32 { target := target[pos := mantissa % 256]; }
    if pos + 1 < 32 { target := target[pos + 1 := mantissa / 256 % 256]; }
    if pos + 2 < 32 { target := target[pos + 2 := mantissa / 0x1_0000 % 256]; }
  }

  /** An exponent of one or two keeps only the high mantissa bytes. */
  method PlaceNarrow(mantissa: nat, exponent: nat) returns (target: Hash)
    requires exponent == 1 || exponent == 2
    ensures Holds(mantissa, exponent, target)
  {
    target := Zeros(32);
    if exponent == 2 {
      target := target[0 := mantissa / 256 % 256];
      target := target[1 := mantissa / 0x1_0000 % 256];
    } else {
      target := target[0 := mantissa / 0x1_0000 % 256];
    }
  }

  predicate Holds(m: nat, e: nat, buffer: seq<Byte>) {
    |buffer| == 32 && forall i :: 0 <= i < 32 ==> buffer[i] == MantissaByte(m, i + 3 - e)
  }

  lemma EmptyBuffer(m: nat, e: nat)
    requires e == 0 || m == 0
    ensures Holds(m, e, Zeros(32))
  {
  }

  lemma BufferValue(m: nat, e: nat, buffer: seq<Byte>)
    requires m < 0x80_0000 && Holds(m, e, buffer)
    ensures LeValue(buffer) == (if e >= 3 then Pow256(e - 3) * m % Pow256(32) else m / Pow256(3 - e))
  {
    if e >= 3 {
      WideBuffer(m, e - 3, buffer);
      WideValue(m, e - 3, 32);
    } else {
      NarrowBuffer(m, e, buffer);
      NarrowValue(m, e);
    }
  }

  lemma NarrowValue(m: nat, e: nat)
    requires m < 0x80_0000 && e < 3
    ensures LeValue(Le(m, 3)[3 - e..] + Zeros(32 - e)) == m / Pow256(3 - e)
  {
    var bytes := Le(m, 3);
    assert LeValue(bytes) == m by { ThreeBytes(m); }
    ZerosAfter(bytes[3 - e..], 32 - e);
    HighIsQuotient(bytes, 3 - e);
  }

  lemma HighIsQuotient(h: seq<Byte>, n: nat)
    requires n <= |h|
    ensures LeValue(h[n..]) == LeValue(h) / Pow256(n)
  {
    Split(h, n);
    QuotientOfSum(LeValue(h), LeValue(h[..n]), Pow256(n), LeValue(h[n..]));
  }

  lemma WideBuffer(m: nat, pos: nat, buffer: seq<Byte>)
    requires m < 0x80_0000 && Holds(m, pos + 3, buffer)
    ensures buffer == (Zeros(pos) + (Le(m, 3) + Zeros(32)))[..32]
  {
    ThreeBytes(m);
    forall i | 0 <= i < 32 ensures buffer[i] == (Zeros(pos) + (Le(m, 3) + Zeros(32)))[i] {
      Padded(pos, Le(m, 3), i);
    }
  }

  lemma Padded(pos: nat, mid: seq<Byte>, i: nat)
    requires i < 32
    ensures (Zeros(pos) + (mid + Zeros(32)))[i] == (if pos <= i < pos + |mid| then mid[i - pos] else 0)
  {
  }

  lemma WideValue(m: nat, pos: nat, n: nat)
    requires m < 0x80_0000 && n <= pos + 35
    ensures LeValue((Zeros(pos) + (Le(m, 3) + Zeros(32)))[..n]) == Pow256(pos) * m % Pow256(n)
  {
    var bytes := Le(m, 3) + Zeros(32);
    var wide := Zeros(pos) + bytes;
    assert LeValue(bytes) == m by {
      ZerosAfter(Le(m, 3), 32);
      ThreeBytes(m);
    }
    assert LeValue(wide) == Pow256(pos) * m by { ZerosBefore(pos, bytes); }
    CutIsRemainder(wide, n);
  }

  lemma NarrowBuffer(m: nat, e: nat, buffer: seq<Byte>)
    requires m < 0x80_0000 && e < 3 && Holds(m, e, buffer)
    ensures buffer == Le(m, 3)[3 - e..] + Zeros(32 - e)
  {
    ThreeBytes(m);
  }

  /** `hash_le_target`: byte comparison from the top is comparison of the integers. */
  method HashLeTarget(h: Hash, target: Hash) returns (r: bool)
    ensures r <==> LeValue(h) <= LeValue(target)
  {
    var i := 32;
    while i > 0
      invariant 0 <= i <= 32
      invariant h[i..] == target[i..]
    {
      i := i - 1;
      if h[i] < target[i] {
        TopDecides(h, target, i);
        return true;
      }
      if h[i] > target[i] {
        TopDecides(target, h, i);
        return false;
      }
      assert h[i..] == [h[i]] + h[i + 1..] && target[i..] == [target[i]] + target[i + 1..];
    }
    assert h == h[0..] && target == target[0..];
    return true;
  }

  lemma TopDecides(a: Hash, b: Hash, i: nat)
    requires i < 32 && a[i] < b[i] && a[i + 1..] == b[i + 1..]
    ensures LeValue(a) < LeValue(b)
  {
    Split(a, i);
    Split(b, i);
    assert a[i..][1..] == a[i + 1..] && b[i..][1..] == b[i + 1..];
    Above(LeValue(a[..i]), LeValue(a[i..]), LeValue(b[i..]), Pow256(i));
  }

  /** A hash that meets the block target meets every miner difficulty up to the network's. */
  lemma BlockHashMeetsShare(h: Hash, nbits: nat, d: nat)
    requires LeValue(h) <= CompactValue(nbits)
    requires d <= U64_MAX && d * CompactValue(nbits) <= One()
    ensures DifficultyOf(h) >= d
  {
    Scale(LeValue(h), CompactValue(nbits), d);
    NeverUnderReports(h, d);
  }
}
