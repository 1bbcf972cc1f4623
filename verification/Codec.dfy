/** internal/codec: canonical byte strings at a declared bit width. */
module Codec {
  import opened Bits
  import opened Bytes
  import opened Wrappers

  const MAX_INT64: int := 0x7fff_ffff_ffff_ffff
  type int64 = x: int | -0x8000_0000_0000_0000 <= x <= 0x7fff_ffff_ffff_ffff
  type uint64 = x: int | 0 <= x < 0x1_0000_0000_0000_0000

  datatype Error = BadWidth | BadPrefix | OutOfRange | LowAboveHigh | TooLong | BadDigit | NegativeSize

  /** Two's-complement wrap-around of a 64-bit signed result. */
  function Wrap64(x: int): (r: int64)
    ensures -0x8000_0000_0000_0000 <= x <= MAX_INT64 ==> r == x
  {
    (x + 0x8000_0000_0000_0000) % 0x1_0000_0000_0000_0000 - 0x8000_0000_0000_0000
  }

  /** Division truncating toward zero by a positive constant. */
  function TruncDiv(x: int, d: int): int
    requires 0 < d
  {
    if 0 <= x then x / d else -(-x / d)
  }

  /** The byte count of a width; the addition wraps on the widest widths. */
  function ByteLen(bitwidth: int64): int {
    TruncDiv(Wrap64(bitwidth + 7), 8)
  }

  /** Whether a number is encodable: below 2^bitwidth, or zero at any width. */
  predicate Fits(n: nat, bitwidth: int64)
    requires 0 < bitwidth
  {
    n == 0 || (bitwidth <= MAX_INT64 - 7 && n < Pow2(bitwidth))
  }

  /** What EncodeBytes promises. */
  function Encode(value: seq<byte>, bitwidth: int64): Result<seq<byte>, Error> {
    if bitwidth <= 0 then Err(BadWidth)
    else if Fits(Val(value), bitwidth) then Ok(Canon(Val(value)))
    else Err(OutOfRange)
  }

  /** What LPMMask promises: the value rounded down to its first prefixLen bits. */
  function Lpm(value: seq<byte>, prefixLen: int64, bitwidth: int64): Result<seq<byte>, Error> {
    if bitwidth <= 0 then Err(BadWidth)
    else if prefixLen < 0 || prefixLen > bitwidth then Err(BadPrefix)
    else if Fits(Val(value), bitwidth) then Ok(Canon(Floor(Val(value), bitwidth - prefixLen)))
    else Err(OutOfRange)
  }

  /** What TernaryMask promises: ones in the first prefixLen bits of the field. */
  function Prefix(prefixLen: int64, bitwidth: int64): Result<seq<byte>, Error> {
    if bitwidth <= 0 then Err(BadWidth)
    else if prefixLen < 0 || prefixLen > bitwidth then Err(BadPrefix)
    else if prefixLen > 0 && bitwidth > MAX_INT64 - 7 then Err(NegativeSize)
    else Ok(Canon(HighMask(bitwidth, bitwidth - prefixLen)))
  }

  /** What TernaryApply promises: the bitwise AND of the two numbers. */
  function Masked(value: seq<byte>, mask: seq<byte>, bitwidth: int64): Result<seq<byte>, Error> {
    if bitwidth <= 0 then Err(BadWidth)
    else if Fits(Val(value), bitwidth) && Fits(Val(mask), bitwidth) then Ok(Canon(And(Val(value), Val(mask))))
    else Err(OutOfRange)
  }

  /** What ValidateRange promises: None when both ends fit and are in order. */
  function RangeError(low: seq<byte>, high: seq<byte>, bitwidth: int64): Option<Error> {
    if bitwidth <= 0 then Some(BadWidth)
    else if !Fits(Val(low), bitwidth) || !Fits(Val(high), bitwidth) then Some(OutOfRange)
    else if Val(low) > Val(high) then Some(LowAboveHigh)
    else None
  }

  /** What EncodeUint promises. */
  function Uint(v: uint64, bitwidth: int64): Result<seq<byte>, Error> {
    if !(1 <= bitwidth <= 64) then Err(BadWidth)
    else if v < Pow2(bitwidth) then Ok(Canon(v))
    else Err(OutOfRange)
  }

  /** What DecodeUint promises. */
  function DecodedUint(b: seq<byte>): (r: Result<nat, Error>) {
    if |b| > 8 then Err(TooLong) else Ok(Val(b))
  }

  // ---------------------------------------------------------------- encoding

  method StripLeadingZeros(b: seq<byte>) returns (out: seq<byte>)
    ensures out == Canon(Val(b))
  {
    var i := 0;
    while i < |b| && b[i] == 0
      invariant 0 <= i <= |b|
      invariant forall k :: 0 <= k < i ==> b[k] == 0
    {
      i := i + 1;
    }
    ValDropZeros(b, i);
    if i == |b| {
      return [0];
    }
    out := b[i..];
    CanonVal(out);
  }

  lemma ByteLenBounds(bitwidth: int64)
    requires 0 < bitwidth <= MAX_INT64 - 7
    ensures 8 * (ByteLen(bitwidth) - 1) < bitwidth <= 8 * ByteLen(bitwidth)
    ensures bitwidth % 8 == 0 ==> bitwidth == 8 * ByteLen(bitwidth)
    ensures bitwidth % 8 != 0 ==> bitwidth == bitwidth % 8 + 8 * (ByteLen(bitwidth) - 1)
  {
  }

  /** The width test on the first significant byte is the test against 2^bitwidth. */
  lemma TopByteTest(s: seq<byte>, bitwidth: int64)
    requires s != [] && s[0] != 0 && 0 < bitwidth <= MAX_INT64 - 7
    ensures |s| > ByteLen(bitwidth) ==> Val(s) >= Pow2(bitwidth)
    ensures |s| < ByteLen(bitwidth) ==> Val(s) < Pow2(bitwidth)
    ensures |s| == ByteLen(bitwidth) && bitwidth % 8 == 0 ==> Val(s) < Pow2(bitwidth)
    ensures |s| == ByteLen(bitwidth) && bitwidth % 8 != 0 ==>
              (Val(s) < Pow2(bitwidth) <==> s[0] < Pow2(bitwidth % 8))
  {
    ByteLenBounds(bitwidth);
    if |s| > ByteLen(bitwidth) {
      ValLower(s);
      Pow2Monotone(bitwidth, 8 * (|s| - 1));
    } else if |s| < ByteLen(bitwidth) {
      ValBound(s);
      Pow2Monotone(8 * |s|, bitwidth);
    } else if bitwidth % 8 == 0 {
      ValBound(s);
    } else {
      FirstByteTest(s, bitwidth % 8);
    }
  }

  lemma FirstByteTest(s: seq<byte>, k: nat)
    requires s != []
    ensures Val(s) < Pow2(k + 8 * (|s| - 1)) <==> s[0] < Pow2(k)
  {
    Pow2Add(k, 8 * (|s| - 1));
    ValCons(s);
    FirstDigit(s[0], Val(s[1..]), Pow2(k), Pow2(8 * (|s| - 1)));
  }

  lemma FirstDigit(a: nat, r: nat, b: nat, p: nat)
    requires r < p
    ensures a * p + r < b * p <==> a < b
  {
    MulStrict(a - b, p);
    Distribute(a, b, p);
  }

  /** The byte with its low k bits set. */
  function LowOnes(k: nat): byte
    requires k <= 8
  {
    Pow2Bytes();
    Pow2Monotone(k, 8);
    Pow2(k) - 1
  }

  /** x & m on bytes. */
  function AndByte(x: byte, m: byte): byte {
    And(x, m)
  }

  /** x &^ m on bytes. */
  function AndNot(x: byte, m: byte): byte {
    AndByte(x, 255 - m)
  }

  /** x AND NOT (2^k - 1) vanishes exactly when x has no bit at k or above. */
  lemma ClearMaskTest(x: byte, k: nat)
    requires k < 8
    ensures AndNot(x, LowOnes(k)) == 0 <==> x < Pow2(k)
  {
    Pow2Bytes();
    AndHighMask(x, 8, k);
    assert 255 - LowOnes(k) == HighMask(8, k);
    FloorZeroTest(x, k);
  }

  method EncodeBytes(value: seq<byte>, bitwidth: int64) returns (r: Result<seq<byte>, Error>)
    ensures r == Encode(value, bitwidth)
  {
    if bitwidth <= 0 {
      return Err(BadWidth);
    }
    var maxBytes := ByteLen(bitwidth);
    var leadingBits := bitwidth % 8;
    var idx := 0;
    while idx < |value| && value[idx] == 0
      invariant 0 <= idx <= |value|
      invariant forall k :: 0 <= k < idx ==> value[k] == 0
    {
      idx := idx + 1;
    }
    ValDropZeros(value, idx);
    if idx == |value| {
      return Ok([0]);
    }
    var significant := value[idx..];
    ValLower(significant);
    CanonVal(significant);
    if bitwidth <= MAX_INT64 - 7 {
      TopByteTest(significant, bitwidth);
    }
    if |significant| > maxBytes {
      return Err(OutOfRange);
    }
    if |significant| == maxBytes && leadingBits != 0 {
      ClearMaskTest(significant[0], leadingBits);
      if AndNot(significant[0], LowOnes(leadingBits)) != 0 {
        return Err(OutOfRange);
      }
    }
    return Ok(significant);
  }

  // ---------------------------------------------------------------- masks

  /** byte(0xff) << k, keeping eight bits. */
  function ShiftedOnes(k: nat): byte {
    0xff * Pow2(k) % 256
  }

  lemma ShiftedOnesIsHighMask(k: nat)
    requires k < 8
    ensures ShiftedOnes(k) == HighMask(8, k)
  {
    Pow2Bytes();
  }

  lemma FloorByte(p: nat, b: byte, k: nat)
    requires k < 8
    ensures Floor(p * 256 + b, k) == p * 256 + AndByte(b, ShiftedOnes(k))
  {
    Pow2Bytes();
    ShiftedOnesIsHighMask(k);
    AndHighMask(b, 8, k);
    FloorAdd(p, 8, b, k);
  }

  /** The byte c bits of which are to be cleared. */
  function ClearedByte(b: byte, c: int): byte {
    if c >= 8 then 0 else if c <= 0 then b else AndByte(b, ShiftedOnes(c))
  }

  /** The bytes after clearing count bits from the least significant end. */
  function Cleared(s: seq<byte>, count: int): (r: seq<byte>)
    ensures |r| == |s|
    ensures forall k :: 0 <= k < |s| ==> r[k] == ClearedByte(s[k], count - 8 * (|s| - 1 - k))
  {
    seq(|s|, k requires 0 <= k < |s| => ClearedByte(s[k], count - 8 * (|s| - 1 - k)))
  }

  lemma ClearedSnoc(s: seq<byte>, b: byte, count: int)
    ensures Cleared(s + [b], count) == Cleared(s, count - 8) + [ClearedByte(b, count)]
  {
    hide ClearedByte;
  }

  /** Clearing low bits rounds the number down. */
  lemma {:induction false} ClearedIsFloor(s: seq<byte>, count: nat)
    ensures Val(Cleared(s, count)) == Floor(Val(s), count)
  {
    hide Floor, And, Cleared;
    if s == [] || count == 0 {
      ClearedTrivial(s, count);
    } else {
      var front, last := s[..|s| - 1], s[|s| - 1];
      assert s == front + [last];
      ClearedSnoc(front, last, count);
      ValSnoc(front, last);
      ValSnoc(Cleared(front, count - 8), ClearedByte(last, count));
      hide Val, AndByte;
      if count >= 8 {
        ClearedIsFloor(front, count - 8);
        FloorWholeByte(Val(s), Val(front), last, count);
      } else {
        ClearedNothing(front, count - 8);
        FloorByte(Val(front), last, count);
      }
    }
  }

  lemma ClearedTrivial(s: seq<byte>, count: nat)
    requires s == [] || count == 0
    ensures Val(Cleared(s, count)) == Floor(Val(s), count)
  {
    if s == [] {
      FloorZeroTest(0, count);
    } else {
      ClearedNothing(s, 0);
    }
  }

  lemma ClearedNothing(s: seq<byte>, count: int)
    requires count <= 0
    ensures Cleared(s, count) == s
  {
  }

  lemma FloorWholeByte(v: nat, p: nat, b: byte, k: nat)
    requires v == p * 256 + b && 8 <= k
    ensures Floor(v, k) == Floor(p, k - 8) * 256
  {
    Pow2Bytes();
    FloorSplit(p, b, 8, k - 8);
  }

  method ClearLowBits(value: array<byte>, count: int64)
    modifies value
    ensures value[..] == Cleared(old(value[..]), count)
  {
    hide AndByte, ShiftedOnes;
    var rest := count;
    var i := value.Length - 1;
    while i >= 0 && rest > 0
      invariant -1 <= i < value.Length
      invariant rest == count - 8 * (value.Length - 1 - i)
      invariant forall k :: 0 <= k <= i ==> value[k] == old(value[k])
      invariant forall k :: i < k < value.Length ==>
          value[k] == ClearedByte(old(value[k]), count - 8 * (value.Length - 1 - k))
    {
      if rest >= 8 {
        value[i] := 0;
        rest := rest - 8;
        i := i - 1;
      } else {
        value[i] := AndByte(value[i], ShiftedOnes(rest));
        return;
      }
    }
  }

  method LPMMask(value: seq<byte>, prefixLen: int64, bitwidth: int64) returns (r: Result<seq<byte>, Error>)
    ensures r == Lpm(value, prefixLen, bitwidth)
  {
    if bitwidth <= 0 {
      return Err(BadWidth);
    }
    if prefixLen < 0 || prefixLen > bitwidth {
      return Err(BadPrefix);
    }
    var encoded := EncodeBytes(value, bitwidth);
    if encoded.Err? {
      return Err(encoded.error);
    }
    var masked := CopyToArray(encoded.value);
    ValCanon(Val(value));
    ClearLowBits(masked, bitwidth - prefixLen);
    ClearedIsFloor(encoded.value, bitwidth - prefixLen);
    var stripped := StripLeadingZeros(masked[..]);
    return Ok(stripped);
  }

  method CopyToArray(s: seq<byte>) returns (a: array<byte>)
    ensures fresh(a) && a[..] == s
  {
    a := new byte[|s|](i requires 0 <= i < |s| => s[i]);
  }

  lemma ValAllOnes(s: seq<byte>)
    requires forall i :: 0 <= i < |s| ==> s[i] == 0xff
    ensures Val(s) == Pow2(8 * |s|) - 1
  {
    if s != [] {
      ValAllOnes(s[..|s| - 1]);
      Pow2Add(8 * (|s| - 1), 8);
      Pow2Bytes();
    }
  }

  /** A partial first byte of ones followed by whole bytes of ones. */
  lemma ValFieldOnes(s: seq<byte>, k: nat, w: nat)
    requires s != [] && k <= 8 && s[0] == LowOnes(k) && w == k + 8 * (|s| - 1)
    requires forall i :: 0 < i < |s| ==> s[i] == 0xff
    ensures Val(s) == Pow2(w) - 1
  {
    hide Pow2, Val;
    var p, q := Pow2(k), Pow2(8 * (|s| - 1));
    ValCons(s);
    ValAllOnes(s[1..]);
    Pow2Add(k, 8 * (|s| - 1));
    Distribute(p, 1, q);
  }

  /** The first half of TernaryMask: a buffer with every bit of the field set. */
  method FieldOnes(bitwidth: int64) returns (mask: array<byte>)
    requires 0 < bitwidth <= MAX_INT64 - 7
    ensures fresh(mask) && Val(mask[..]) == Pow2(bitwidth) - 1
  {
    ByteLenBounds(bitwidth);
    mask := new byte[ByteLen(bitwidth)];
    for i := 0 to mask.Length
      invariant forall k :: 0 <= k < i ==> mask[k] == 0xff
    {
      mask[i] := 0xff;
    }
    var leadingBits := bitwidth % 8;
    if leadingBits != 0 {
      mask[0] := LowOnes(leadingBits);
      ValFieldOnes(mask[..], leadingBits, bitwidth);
    } else {
      ValAllOnes(mask[..]);
    }
  }

  lemma NoPrefix(bitwidth: nat)
    ensures Canon(HighMask(bitwidth, bitwidth)) == [0]
  {
  }

  method TernaryMask(prefixLen: int64, bitwidth: int64) returns (r: Result<seq<byte>, Error>)
    ensures r == Prefix(prefixLen, bitwidth)
  {
    hide Pow2, Floor, HighMask, Cleared, Canon, Val;
    if bitwidth <= 0 {
      return Err(BadWidth);
    }
    if prefixLen < 0 || prefixLen > bitwidth {
      return Err(BadPrefix);
    }
    if prefixLen == 0 {
      NoPrefix(bitwidth);
      return Ok([0x00]);
    }
    var maxBytes := ByteLen(bitwidth);
    if maxBytes < 0 {
      return Err(NegativeSize);
    }
    var mask := FieldOnes(bitwidth);
    ClearedIsFloor(mask[..], bitwidth - prefixLen);
    FloorAllOnes(bitwidth, bitwidth - prefixLen);
    ClearLowBits(mask, bitwidth - prefixLen);
    var stripped := StripLeadingZeros(mask[..]);
    return Ok(stripped);
  }

  lemma AndBytes(a: nat, b: byte, c: nat, d: byte)
    ensures And(a * 256 + b, c * 256 + d) == And(a, c) * 256 + AndByte(b, d)
  {
    Pow2Bytes();
    AndSplit(8, a, b, c, d);
  }

  /** AndBytes on numbers given by their last byte and the rest. */
  lemma AndOfSplit(v: nat, a: nat, b: byte, w: nat, c: nat, d: byte)
    requires v == a * 256 + b && w == c * 256 + d
    ensures And(v, w) == And(a, c) * 256 + AndByte(b, d)
  {
    hide And;
    AndBytes(a, b, c, d);
  }

  method TernaryApply(value: seq<byte>, mask: seq<byte>, bitwidth: int64) returns (r: Result<seq<byte>, Error>)
    ensures r == Masked(value, mask, bitwidth)
  {
    var ve := EncodeBytes(value, bitwidth);
    if ve.Err? {
      return Err(ve.error);
    }
    var me := EncodeBytes(mask, bitwidth);
    if me.Err? {
      return Err(me.error);
    }
    ValCanon(Val(value));
    ValCanon(Val(mask));
    var v := CopyToArray(ve.value);
    var m := me.value;
    AndAligned(v, ve.value, m);
    var stripped := StripLeadingZeros(v[..]);
    return Ok(stripped);
  }

  /** One step of the loop of TernaryApply. */
  lemma AndSnoc(r: seq<byte>, p: seq<byte>, x: byte, q: seq<byte>, y: byte, z: byte)
    requires Val(r) == And(Val(p), Val(q)) && z == AndByte(x, y)
    ensures Val(r + [z]) == And(Val(p + [x]), Val(q + [y]))
  {
    ValSnoc(r, z);
    ValSnoc(p, x);
    ValSnoc(q, y);
    AndOfSplit(Val(p + [x]), Val(p), x, Val(q + [y]), Val(q), y);
  }

  lemma AndEmpty(m: seq<byte>)
    ensures forall j :: 0 <= j <= |m| ==> Val([]) == And(Val([]), Val(m[..j]))
    ensures forall p: seq<byte> :: And(Val(p), Val([])) == 0
    ensures forall r: seq<byte> :: Val(r) == 0 ==> Val(r + [0]) == 0
  {
    forall r: seq<byte> | Val(r) == 0 ensures Val(r + [0]) == 0 {
      ValSnoc(r, 0);
    }
  }

  /** The loop of TernaryApply: v becomes v AND m, aligned at the last byte. */
  method AndAligned(v: array<byte>, ghost s: seq<byte>, m: seq<byte>)
    requires v[..] == s
    modifies v
    ensures Val(v[..]) == And(Val(s), Val(m))
  {
    hide Val, And;
    AndEmpty(m);
    for i := 0 to v.Length
      invariant forall k :: i <= k < v.Length ==> v[k] == s[k]
      invariant Val(v[..i]) == And(Val(s[..i]), Val(m[..Aligned(i, |s|, |m|)]))
    {
      var j := i + |m| - v.Length;
      ghost var before := v[..i];
      assert s[..i + 1] == s[..i] + [s[i]];
      if j < 0 {
        v[i] := 0;
      } else {
        v[i] := AndByte(v[i], m[j]);
        AndSnoc(before, s[..i], s[i], m[..j], m[j], v[i]);
        assert m[..j + 1] == m[..j] + [m[j]];
      }
      assert v[..i + 1] == before + [v[i]];
    }
    assert v[..v.Length] == v[..] && s[..|s|] == s && m[..|m|] == m;
  }

  /** How many bytes of a mask of length m line up with the first i of length n. */
  function Aligned(i: nat, n: nat, m: nat): (j: nat)
    requires i <= n
    ensures j <= m
  {
    if i + m < n then 0 else i + m - n
  }

  method ValidateRange(low: seq<byte>, high: seq<byte>, bitwidth: int64) returns (error: Option<Error>)
    ensures error == RangeError(low, high, bitwidth)
  {
    var l := EncodeBytes(low, bitwidth);
    if l.Err? {
      return Some(l.error);
    }
    var h := EncodeBytes(high, bitwidth);
    if h.Err? {
      return Some(h.error);
    }
    ValCanon(Val(low));
    ValCanon(Val(high));
    LengthLexIsNumeric(l.value, h.value);
    if |l.value| > |h.value| || (|l.value| == |h.value| && Compare(l.value, h.value) > 0) {
      return Some(LowAboveHigh);
    }
    return None;
  }

  // ---------------------------------------------------------------- 64-bit integers

  /** binary.BigEndian.PutUint64: the last n base-256 digits of v. */
  function Digits(v: nat, n: nat): (s: seq<byte>)
    ensures |s| == n
  {
    if n == 0 then [] else Digits(v / 256, n - 1) + [v % 256]
  }

  lemma {:induction false} ValDigits(v: nat, n: nat)
    requires v < Pow2(8 * n)
    ensures Val(Digits(v, n)) == v
    decreases n
  {
    if n == 0 {
    } else {
      Pow2Add(8 * (n - 1), 8);
      Pow2Bytes();
      ValDigits(v / 256, n - 1);
      ValSnoc(Digits(v / 256, n - 1), v % 256);
    }
  }

  lemma Pow2Of64()
    ensures Pow2(64) == 0x1_0000_0000_0000_0000
  {
    Pow2Bytes();
    Pow2Add(8, 8);
    Pow2Add(16, 16);
    Pow2Add(32, 32);
  }

  /** 1 << bitwidth does not wrap below 64 bits. */
  lemma ShiftedOne(bitwidth: nat)
    requires bitwidth < 64
    ensures Pow2(bitwidth) % 0x1_0000_0000_0000_0000 == Pow2(bitwidth)
  {
    Pow2Of64();
    Pow2Monotone(bitwidth, 63);
  }

  method EncodeUint(v: uint64, bitwidth: int64) returns (r: Result<seq<byte>, Error>)
    ensures r == Uint(v, bitwidth)
  {
    if bitwidth <= 0 || bitwidth > 64 {
      return Err(BadWidth);
    }
    hide Pow2, Digits, Val, Canon;
    Pow2Of64();
    if bitwidth < 64 {
      ShiftedOne(bitwidth);
      if v >= Pow2(bitwidth) % 0x1_0000_0000_0000_0000 {
        return Err(OutOfRange);
      }
    }
    if v == 0 {
      return Ok([0x00]);
    }
    ValDigits(v, 8);
    var stripped := StripLeadingZeros(Digits(v, 8));
    return Ok(stripped);
  }

  /** The shift-and-or step of DecodeUint does not lose bits below 2^56. */
  lemma ShiftOr(v: nat, c: byte)
    requires v < Pow2(56)
    ensures Or(v * 256 % 0x1_0000_0000_0000_0000, c) == v * 256 + c
    ensures v * 256 + c < 0x1_0000_0000_0000_0000
  {
    hide Pow2;
    ShiftFits(v);
    AndOfSplit(v * 256, v, 0, c, 0, c);
  }

  lemma ShiftFits(v: nat)
    requires v < Pow2(56)
    ensures v * 256 + 255 < 0x1_0000_0000_0000_0000
  {
    Pow2Of64();
    Pow2Add(56, 8);
    Pow2Bytes();
  }

  method DecodeUint(b: seq<byte>) returns (r: Result<nat, Error>)
    ensures r == DecodedUint(b)
  {
    if |b| > 8 {
      return Err(TooLong);
    }
    var v: uint64 := 0;
    for i := 0 to |b|
      invariant v == Val(b[..i])
    {
      assert b[..i + 1] == b[..i] + [b[i]];
      ValSnoc(b[..i], b[i]);
      ValBound(b[..i]);
      Pow2Monotone(8 * i, 56);
      ShiftOr(v, b[i]);
      v := Or(v * 256 % 0x1_0000_0000_0000_0000, b[i]);
    }
    assert b[..|b|] == b;
    return Ok(v);
  }

  // ---------------------------------------------------------------- results

  /** The encoding is the only shortest nonempty string with the value, and fails only out of range. */
  lemma EncodeIsCanonical(value: seq<byte>, bitwidth: int64)
    requires 0 < bitwidth <= MAX_INT64 - 7
    ensures Encode(value, bitwidth).Ok? <==> Val(value) < Pow2(bitwidth)
    ensures Encode(value, bitwidth).Ok? ==>
              var out := Encode(value, bitwidth).value;
              && Val(out) == Val(value)
              && (forall s :: s != [] && Val(s) == Val(value) ==> |out| < |s| || s == out)
  {
    ValCanon(Val(value));
    forall s | s != [] && Val(s) == Val(value) ensures |Canon(Val(value))| < |s| || s == Canon(Val(value)) {
      CanonShortest(s);
      if |s| == |Canon(Val(value))| {
        SameLengthSameValue(s, Canon(Val(value)));
      }
    }
  }

  lemma {:induction false} SameLengthSameValue(a: seq<byte>, b: seq<byte>)
    requires |a| == |b| && Val(a) == Val(b)
    ensures a == b
  {
    if a == [] {
    } else {
      var n := |a| - 1;
      SameLengthSameValue(a[..n], b[..n]);
      assert a == a[..n] + [a[n]] && b == b[..n] + [b[n]];
    }
  }

  /** On the last seven widths of a 64-bit int the byte count overflows: only zero encodes there. */
  lemma EncodeWhenByteCountOverflows(value: seq<byte>, bitwidth: int64)
    requires 0 < bitwidth
    ensures Val(value) < Pow2(bitwidth) ==>
              (Encode(value, bitwidth).Ok? <==> bitwidth <= MAX_INT64 - 7 || Val(value) == 0)
  {
  }

  /** One does not encode at the widest int, although it is far below 2^width. */
  lemma OneAtTheWidestWidth()
    ensures Val([1]) == 1 && 1 < Pow2(MAX_INT64) && Encode([1], MAX_INT64) == Err(OutOfRange)
  {
    ValSingle(1);
    Pow2Monotone(1, MAX_INT64);
  }

  /** A prefix match is the ternary match under the prefix mask. */
  lemma LpmIsTernary(value: seq<byte>, prefixLen: int64, bitwidth: int64)
    requires 0 <= prefixLen <= bitwidth && 0 < bitwidth <= MAX_INT64 - 7
    ensures Prefix(prefixLen, bitwidth).Ok?
    ensures Lpm(value, prefixLen, bitwidth) == Masked(value, Prefix(prefixLen, bitwidth).value, bitwidth)
    ensures Lpm(value, prefixLen, bitwidth).Ok? ==>
              Val(Lpm(value, prefixLen, bitwidth).value)
              == Val(value) / Pow2(bitwidth - prefixLen) * Pow2(bitwidth - prefixLen)
  {
    var k := bitwidth - prefixLen;
    ValCanon(HighMask(bitwidth, k));
    if Val(value) < Pow2(bitwidth) {
      AndHighMask(Val(value), bitwidth, k);
      FloorIsQuotient(Val(value), k);
      ValCanon(Floor(Val(value), k));
    }
  }

  /** The mask has its first bits set and no others, canonically, for every prefix that the field has room for. */
  lemma PrefixExactly(prefixLen: int64, bitwidth: int64)
    requires bitwidth <= MAX_INT64 - 7
    ensures Prefix(prefixLen, bitwidth).Ok? <==> 0 < bitwidth && 0 <= prefixLen <= bitwidth
    ensures Prefix(prefixLen, bitwidth).Ok? ==>
              var m := Prefix(prefixLen, bitwidth).value;
              Canonical(m) && Val(m) == (Pow2(prefixLen) - 1) * Pow2(bitwidth - prefixLen)
  {
    if 0 < bitwidth && 0 <= prefixLen <= bitwidth {
      HighMaskIsShifted(bitwidth, bitwidth - prefixLen);
      ValCanon(HighMask(bitwidth, bitwidth - prefixLen));
    }
  }

  /** A prefix of a value is accepted exactly when both fit the field, and is the value rounded down, canonically. */
  lemma LpmExactly(value: seq<byte>, prefixLen: int64, bitwidth: int64)
    requires bitwidth <= MAX_INT64 - 7
    ensures Lpm(value, prefixLen, bitwidth).Ok? <==>
            0 < bitwidth && 0 <= prefixLen <= bitwidth && Val(value) < Pow2(bitwidth)
    ensures Lpm(value, prefixLen, bitwidth).Ok? ==>
              var r, p := Lpm(value, prefixLen, bitwidth).value, Pow2(bitwidth - prefixLen);
              Canonical(r) && Val(r) == Val(value) / p * p
  {
    if Lpm(value, prefixLen, bitwidth).Ok? {
      FloorIsQuotient(Val(value), bitwidth - prefixLen);
      ValCanon(Floor(Val(value), bitwidth - prefixLen));
    }
  }

  /** A value is masked exactly when it and the mask fit, and keeps exactly the bits that the mask has. */
  lemma MaskedExactly(value: seq<byte>, mask: seq<byte>, bitwidth: int64)
    requires bitwidth <= MAX_INT64 - 7
    ensures Masked(value, mask, bitwidth).Ok? <==>
            0 < bitwidth && Val(value) < Pow2(bitwidth) && Val(mask) < Pow2(bitwidth)
    ensures Masked(value, mask, bitwidth).Ok? ==>
              var r := Masked(value, mask, bitwidth).value;
              && Canonical(r)
              && (forall i: nat :: Nth(Val(r), i) == 1 <==> Nth(Val(value), i) == 1 && Nth(Val(mask), i) == 1)
  {
    if Masked(value, mask, bitwidth).Ok? {
      ValCanon(And(Val(value), Val(mask)));
      forall i: nat
        ensures Nth(And(Val(value), Val(mask)), i) == 1 <==> Nth(Val(value), i) == 1 && Nth(Val(mask), i) == 1
      {
        AndBits(Val(value), Val(mask), i);
      }
    }
  }

  /** A range is accepted exactly when both ends are below 2^width and in order. */
  lemma RangeExactly(low: seq<byte>, high: seq<byte>, bitwidth: int64)
    requires bitwidth <= MAX_INT64 - 7
    ensures RangeError(low, high, bitwidth).None? <==> 0 < bitwidth && Val(low) <= Val(high) < Pow2(bitwidth)
  {
  }

  /**
   A 64-bit number encodes exactly when the width has at most 64 bits and the number fits; the result is the canonical
   string of the number, the same as for its bytes in any form.
   */
  lemma UintExactly(v: uint64, bitwidth: int64)
    ensures Uint(v, bitwidth).Ok? <==> 1 <= bitwidth <= 64 && v < Pow2(bitwidth)
    ensures Uint(v, bitwidth).Ok? ==> Canonical(Uint(v, bitwidth).value) && Val(Uint(v, bitwidth).value) == v
    ensures 1 <= bitwidth <= 64 ==> forall b :: Val(b) == v ==> Uint(v, bitwidth) == Encode(b, bitwidth)
  {
    ValCanon(v);
  }

  /** Decoding undoes encoding, for every value of every width up to 64. */
  lemma UintRoundTrip(v: uint64, bitwidth: int64)
    requires 1 <= bitwidth <= 64 && v < Pow2(bitwidth)
    ensures Uint(v, bitwidth).Ok? && DecodedUint(Uint(v, bitwidth).value) == Ok(v)
  {
    ValCanon(v);
    Pow2Of64();
    ValDigits(v, 8);
    CanonShortest(Digits(v, 8));
  }
}
