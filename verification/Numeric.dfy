/** register/numeric.go: the shortest encodings of unsigned and two's-complement numbers. */
module Numeric {
  import opened Bits
  import opened Bytes
  import opened Codec
  import opened MatchField
  import opened Wrappers

  // ---------------------------------------------------------------- numbers

  function SignedByte(b: byte): int {
    if b >= 128 then b - 256 else b
  }

  /** The two's-complement number of a big-endian byte string; empty stands for zero. */
  function SVal(s: seq<byte>): int {
    if s == [] then 0
    else if |s| == 1 then SignedByte(s[0])
    else SVal(s[..|s| - 1]) * 256 + s[|s| - 1]
  }

  /** The shortest two's-complement encoding of a number. */
  function SCanon(n: int): (s: seq<byte>)
    ensures 1 <= |s|
    decreases if n < 0 then -n else n
  {
    if -128 <= n < 128 then [LowByte(n)] else SCanon(HighPart(n)) + [LowByte(n)]
  }

  function LowByte(n: int): byte {
    n % 256
  }

  /** The number without its last byte, rounded down. */
  function HighPart(n: int): (h: int)
    ensures 128 <= n ==> 0 <= h < n
    ensures n < -128 ==> n < h < 0
  {
    n / 256
  }

  lemma HighLow(n: int)
    ensures n == HighPart(n) * 256 + LowByte(n)
  {
  }

  /** A byte string of the number h followed by a byte gives the parts back. */
  lemma HighLowUnique(n: int, h: int, b: byte)
    requires n == h * 256 + b
    ensures HighPart(n) == h && LowByte(n) == b
  {
  }

  lemma SingleSigned(n: int)
    requires -128 <= n < 128
    ensures SignedByte(LowByte(n)) == n
  {
  }

  /** The first byte only repeats the sign of the second. */
  predicate RedundantSign(s: seq<byte>) {
    |s| > 1 && ((s[0] == 0 && s[1] < 128) || (s[0] == 0xff && s[1] >= 128))
  }

  predicate Shortest(s: seq<byte>) {
    s != [] && !RedundantSign(s)
  }

  predicate InSigned(n: int, width: nat)
    requires 0 < width
  {
    -(Pow2(width - 1) as int) <= n < Pow2(width - 1)
  }

  lemma {:induction false} SValSnoc(s: seq<byte>, b: byte)
    requires s != []
    ensures SVal(s + [b]) == SVal(s) * 256 + b
  {
    assert (s + [b])[..|s|] == s;
  }

  /** The first byte carries the sign, the others are unsigned digits. */
  lemma {:induction false} SValSplit(s: seq<byte>)
    requires s != []
    ensures SVal(s) == SignedByte(s[0]) * Pow2(8 * (|s| - 1)) + Val(s[1..])
    ensures Val(s[1..]) < Pow2(8 * (|s| - 1))
  {
    ValBound(s[1..]);
    if |s| == 1 {
      assert s[1..] == [];
    } else {
      var n := |s| - 1;
      var front := s[..n];
      SValSplit(front);
      assert s[1..] == front[1..] + [s[n]];
      ValSnoc(front[1..], s[n]);
      Pow2Add(8 * (n - 1), 8);
      Pow2Bytes();
      TimesByteSigned(SignedByte(s[0]), Pow2(8 * (n - 1)));
    }
  }

  lemma TimesByteSigned(x: int, p: nat)
    ensures x * p * 256 == x * (p * 256)
  {
  }

  lemma {:induction false} SValCanon(n: int)
    ensures SVal(SCanon(n)) == n && Shortest(SCanon(n))
    decreases if n < 0 then -n else n
  {
    hide SVal, LowByte, HighPart, SignedByte;
    if n < -128 || 128 <= n {
      SValCanon(HighPart(n));
      SCanonStep(n, SCanon(HighPart(n)));
    } else {
      SingleSigned(n);
      SValSingle(LowByte(n));
    }
  }

  lemma SValSingle(b: byte)
    ensures SVal([b]) == SignedByte(b)
  {
  }

  /** One more byte keeps a shortest encoding shortest, unless one byte was enough. */
  lemma SCanonStep(n: int, c: seq<byte>)
    requires n < -128 || 128 <= n
    requires Shortest(c) && SVal(c) == HighPart(n)
    ensures SVal(c + [LowByte(n)]) == n && Shortest(c + [LowByte(n)])
  {
    var b := LowByte(n);
    HighLow(n);
    SValSnoc(c, b);
    assert (c + [b])[0] == c[0] && (c + [b])[1] == if |c| == 1 then b else c[1];
    if |c| == 1 {
      SValSingle(c[0]);
      assert c == [c[0]];
    }
    hide SVal, LowByte, HighPart;
  }

  /** Dropping a redundant sign byte keeps the number. */
  lemma DropSign(s: seq<byte>)
    requires RedundantSign(s)
    ensures SVal(s[1..]) == SVal(s)
  {
    var t := s[1..];
    SValSplit(s);
    SValSplit(t);
    ValCons(t);
    Pow2Add(8 * (|t| - 1), 8);
    Pow2Bytes();
    var p := Pow2(8 * (|t| - 1));
    assert Pow2(8 * |t|) == 256 * p;
    if s[0] == 0xff {
      Distribute(t[0], 256, p);
    }
  }

  /** A shortest string of two or more bytes needs them all. */
  lemma ShortestIsLarge(s: seq<byte>)
    requires Shortest(s) && |s| > 1
    ensures !InSigned(SVal(s), 8 * (|s| - 1))
  {
    var t, k := s[1..], 8 * (|s| - 2);
    SValSplit(s);
    ValCons(t);
    Pow2Add(k, 8);
    Pow2Add(k, 7);
    Pow2Bytes();
    LargeParts(SignedByte(s[0]), t[0], Val(t[1..]), Pow2(k));
  }

  lemma LargeParts(f: int, g: nat, r: nat, p: nat)
    requires r < p && g < 256 && (f == 0 ==> g >= 128) && (f == -1 ==> g < 128)
    ensures f * (p * 256) + (g * p + r) >= p * 128 || f * (p * 256) + (g * p + r) < -(p * 128)
  {
    MulStrict(f, p * 256);
    MulStrict(f + 1, p * 256);
    Distribute(f + 1, 1, p * 256);
    MulStrict(g - 127, p);
    Distribute(g, 127, p);
    MulStrict(128 - g, p);
    Distribute(128, g, p);
    MulStrict(256 - g, p);
    Distribute(256, g, p);
  }

  /** A shortest string is the only shortest string of its number. */
  lemma {:induction false} SCanonVal(s: seq<byte>)
    requires Shortest(s)
    ensures SCanon(SVal(s)) == s
  {
    var n := |s| - 1;
    if n > 0 {
      var front, b := s[..n], s[n];
      assert s == front + [b];
      SValSnoc(front, b);
      ShortestFront(s);
      SCanonVal(front);
      ShortestIsLarge(s);
      Pow2Monotone(7, 8 * n - 1);
      Pow2Bytes();
      HighLowUnique(SVal(s), SVal(front), b);
    }
  }

  lemma ShortestFront(s: seq<byte>)
    requires Shortest(s) && |s| > 1
    ensures Shortest(s[..|s| - 1])
  {
    assert |s| > 2 ==> s[..|s| - 1][1] == s[1];
  }

  // ---------------------------------------------------------------- the width test

  function BitLen(x: nat): nat {
    if x == 0 then 0 else 1 + BitLen(x / 2)
  }

  /** bits.LeadingZeros8. */
  function LeadingZeros8(x: byte): int {
    8 - BitLen(x)
  }

  lemma {:induction false} BitLenBelow(x: nat, k: nat)
    ensures BitLen(x) <= k <==> x < Pow2(k)
    decreases k
  {
    if k != 0 && x != 0 {
      BitLenBelow(x / 2, k - 1);
    }
  }

  /** The byte with its sign removed: x XOR 0xff for negative bytes, x otherwise. */
  function Magnitude(b: byte): byte {
    if b >= 128 then 255 - b else b
  }

  lemma FirstByteDecides(f: int, r: nat, p: nat, q: nat)
    requires r < p
    ensures -(q * p) <= f * p + r < q * p <==> -(q as int) <= f < q
  {
    MulStrict(f - q, p);
    Distribute(f, q, p);
    MulStrict(f + q, p);
    Distribute(f, -(q as int), p);
    NegateProduct(q, p);
  }

  lemma NegateProduct(q: nat, p: nat)
    ensures (-(q as int)) * p == -((q * p) as int)
  {
  }

  lemma MagnitudeTest(b: byte, q: nat)
    ensures -(q as int) <= SignedByte(b) < q <==> Magnitude(b) < q
  {
  }

  /** No more bytes than the width has: the first byte decides. */
  lemma FirstByteRange(s: seq<byte>, width: nat, n: nat, j: nat)
    requires s != [] && 0 < width && n == |s| - 1 && width - 1 == j + 8 * n
    ensures InSigned(SVal(s), width) <==> Magnitude(s[0]) < Pow2(j)
  {
    SValSplit(s);
    Pow2Add(j, 8 * n);
    MagnitudeTest(s[0], Pow2(j));
    hide SVal, Val, Pow2, SignedByte, Magnitude;
    FirstByteDecides(SignedByte(s[0]), Val(s[1..]), Pow2(8 * n), Pow2(j));
  }

  /** More bytes than the width has: a shortest string needs them all. */
  lemma TooManyBytes(s: seq<byte>, width: nat)
    requires Shortest(s) && 0 < width && |s| - 1 > (width - 1) / 8
    ensures !InSigned(SVal(s), width)
  {
    hide SVal, Pow2, Shortest;
    var n := |s| - 1;
    ShortestIsLarge(s);
    Pow2Monotone(width - 1, 8 * n - 1);
  }

  /** The test of signedBytes on a shortest string is the test of the number against the signed range. */
  lemma WidthTest(s: seq<byte>, width: nat)
    requires Shortest(s) && 0 < width
    ensures InSigned(SVal(s), width) <==>
            |s| - 1 <= (width - 1) / 8 && 9 - LeadingZeros8(Magnitude(s[0])) <= width - (|s| - 1) * 8
  {
    hide InSigned, SVal, Pow2, Magnitude, BitLen;
    var n := |s| - 1;
    if n <= (width - 1) / 8 {
      var j := width - 1 - 8 * n;
      FirstByteRange(s, width, n, j);
      BitLenBelow(Magnitude(s[0]), j);
    } else {
      TooManyBytes(s, width);
    }
  }

  // ---------------------------------------------------------------- results and methods

  /** What unsignedBytes promises. */
  function Unsigned(value: seq<byte>, width: int32): Option<seq<byte>> {
    if 0 <= width && Val(value) < Pow2(width) then Some(Canon(Val(value))) else None
  }

  /** What signedBytes promises. */
  function Signed(value: seq<byte>, width: int32): Option<seq<byte>> {
    if 0 < width && InSigned(SVal(value), width) then Some(SCanon(SVal(value))) else None
  }

  method UnsignedBytes(value: seq<byte>, width: int32) returns (r: Option<seq<byte>>)
    ensures r == Unsigned(value, width)
  {
    if width < 0 {
      return None;
    }
    if width == 0 {
      for i := 0 to |value|
        invariant forall k :: 0 <= k < i ==> value[k] == 0
      {
        if value[i] != 0 {
          if Val(value) == 0 {
            ValZeroOnly(value);
          }
          return None;
        }
      }
      ValZeros(value);
      return Some([0]);
    }
    var e := EncodeBytes(value, width);
    return if e.Ok? then Some(e.value) else None;
  }

  method SignedBytes(value: seq<byte>, width: int32) returns (r: Option<seq<byte>>)
    ensures r == Signed(value, width)
  {
    if width <= 0 {
      return None;
    }
    if |value| == 0 {
      return Some([0]);
    }
    var v := value;
    while |v| > 1 && RedundantSign(v)
      invariant v != [] && SVal(v) == SVal(value)
      decreases |v|
    {
      DropSign(v);
      v := v[1..];
    }
    WidthTest(v, width);
    SCanonVal(v);
    if |v| - 1 > (width - 1) / 8 {
      return None;
    }
    var remaining := width - (|v| - 1) * 8;
    if 9 - LeadingZeros8(Magnitude(v[0])) > remaining {
      return None;
    }
    return Some(v);
  }

  /** The signed encoding keeps the number and no shorter string has it. */
  lemma SignedIsShortest(value: seq<byte>, width: int32)
    requires Signed(value, width).Some?
    ensures SVal(Signed(value, width).value) == SVal(value)
    ensures forall s :: s != [] && SVal(s) == SVal(value) ==>
              |Signed(value, width).value| < |s| || s == Signed(value, width).value
  {
    var c := Signed(value, width).value;
    SValCanon(SVal(value));
    forall s | s != [] && SVal(s) == SVal(value) ensures |c| < |s| || s == c {
      LongerUnlessCanon(s);
    }
  }

  lemma {:induction false} LongerUnlessCanon(s: seq<byte>)
    requires s != []
    ensures |SCanon(SVal(s))| < |s| || s == SCanon(SVal(s))
    decreases |s|
  {
    if RedundantSign(s) {
      DropSign(s);
      LongerUnlessCanon(s[1..]);
    } else {
      SCanonVal(s);
    }
  }
}
