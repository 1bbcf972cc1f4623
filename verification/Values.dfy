/** Textual literals: the hexadecimal forms of internal/codec and the command line's decodeValue. */
module Values {
  import opened Bytes
  import opened Codec
  import opened Numeric
  import opened Wrappers

  datatype ValueError = WidthNotPositive | EmptyLiteral | BadLiteral | TooWide

  /** What netip.ParseAddr makes of a text. */
  datatype Address = Address(zone: bool, bytes: seq<byte>)

  // ---------------------------------------------------------------- digits

  function DigitValue(c: char): Option<nat> {
    if '0' <= c <= '9' then Some(c as int - '0' as int)
    else if 'a' <= c <= 'f' then Some(c as int - 'a' as int + 10)
    else if 'A' <= c <= 'F' then Some(c as int - 'A' as int + 10)
    else None
  }

  /** The number that a text of digits stands for; None when some character is not a digit of the base. */
  function Number(s: string, base: nat): Option<nat> {
    if s == [] then Some(0)
    else Extend(Number(s[..|s| - 1], base), DigitValue(s[|s| - 1]), base)
  }

  /** A number with one more digit. */
  function Extend(front: Option<nat>, d: Option<nat>, base: nat): Option<nat> {
    if front.Some? && d.Some? && d.value < base then Some(front.value * base + d.value) else None
  }

  function Quotient(n: nat, base: nat): (q: nat)
    requires 2 <= base
    ensures base <= n ==> q < n
    ensures n < base ==> q == 0
  {
    n / base
  }

  function LastDigit(n: nat, base: nat): (d: nat)
    requires 2 <= base
    ensures d < base
  {
    n % base
  }

  lemma ExtendQuotient(n: nat, base: nat)
    requires 2 <= base
    ensures Extend(Some(Quotient(n, base)), Some(LastDigit(n, base)), base) == Some(n)
  {
  }

  /** Two hexadecimal digits make a byte. */
  lemma ExtendTwice(front: Option<nat>, high: Option<nat>, low: Option<nat>)
    requires (high.Some? ==> high.value < 16) && (low.Some? ==> low.value < 16)
    ensures Extend(Extend(front, high, 16), low, 16) ==
            if front.Some? && high.Some? && low.Some? then Some(front.value * 256 + PairByte(high.value, low.value))
                else None
  {
  }

  lemma NumberSnoc(s: string, c: char, base: nat)
    ensures Number(s + [c], base) == Extend(Number(s, base), DigitValue(c), base)
  {
    hide Extend, DigitValue;
    assert (s + [c])[..|s|] == s;
  }

  function DigitChar(d: nat): char
    requires d < 16
  {
    if d < 10 then '0' + d as char else 'a' + (d - 10) as char
  }

  /** A number in positional notation, without leading zeros. */
  function Text(n: nat, base: nat): (s: string)
    requires 2 <= base <= 16
    ensures s != []
  {
    if n < base then [DigitChar(LastDigit(n, base))]
        else Text(Quotient(n, base), base) + [DigitChar(LastDigit(n, base))]
  }

  lemma DigitCharIsDigit(d: nat)
    requires d < 16
    ensures DigitValue(DigitChar(d)) == Some(d)
  {
  }

  lemma {:induction false} NumberText(n: nat, base: nat)
    requires 2 <= base <= 16
    ensures Number(Text(n, base), base) == Some(n)
  {
    hide DigitValue, DigitChar, Extend, Quotient, LastDigit;
    var d := LastDigit(n, base);
    DigitCharIsDigit(d);
    ExtendQuotient(n, base);
    if n < base {
      NumberSnoc([], DigitChar(d), base);
      assert [] + [DigitChar(d)] == [DigitChar(d)];
    } else {
      NumberText(Quotient(n, base), base);
      NumberSnoc(Text(Quotient(n, base), base), DigitChar(d), base);
    }
  }

  /** A text with a number has digits of the base only. */
  lemma {:induction false} NumberIffDigits(s: string, base: nat)
    ensures Number(s, base).Some? <==> forall c :: c in s ==> DigitValue(c).Some? && DigitValue(c).value < base
  {
    if s == [] {
    } else {
      var n := |s| - 1;
      assert s == s[..n] + [s[n]];
      NumberIffDigits(s[..n], base);
    }
  }

  // ---------------------------------------------------------------- library functions on texts

  function LowerChar(c: char): char {
    if 'A' <= c <= 'Z' then (c as int + 32) as char else c
  }

  /** strings.ToLower. */
  function Lower(s: string): (r: string)
    ensures |r| == |s|
  {
    seq(|s|, i requires 0 <= i < |s| => LowerChar(s[i]))
  }

  predicate HasPrefix(s: string, p: string) {
    p <= s
  }

  /** strings.TrimPrefix with "0x". */
  function TrimHex(s: string): string {
    if HasPrefix(s, "0x") then s[2..] else s
  }

  /** strings.ReplaceAll of every colon by nothing. */
  function WithoutColons(s: string): string {
    if s == [] then []
    else WithoutColons(s[..|s| - 1]) + if s[|s| - 1] == ':' then [] else [s[|s| - 1]]
  }

  /** strings.Split at the colons. */
  function Split(s: string): (parts: seq<string>)
    ensures parts != []
  {
    if s == [] then [[]]
    else
      var front, c := Split(s[..|s| - 1]), s[|s| - 1];
      if c == ':' then front + [[]] else front[|front| - 1 := front[|front| - 1] + [c]]
  }

  /** strings.Join with colons. */
  function Join(parts: seq<string>): string {
    if parts == [] then []
    else if |parts| == 1 then parts[0]
    else Join(parts[..|parts| - 1]) + ":" + parts[|parts| - 1]
  }

  /** hex.DecodeString on a text of even length. */
  function DecodePairs(s: string): Option<seq<byte>>
    requires |s| % 2 == 0
  {
    if s == [] then Some([])
    else
      var n := |s| - 2;
      var front, high, low := DecodePairs(s[..n]), DigitValue(s[n]), DigitValue(s[n + 1]);
      if front.Some? && high.Some? && low.Some? then Some(front.value + [PairByte(high.value, low.value)]) else None
  }

  function PairByte(high: nat, low: nat): byte {
    (high * 16 + low) % 256
  }

  lemma DecodePairsStep(s: string)
    requires |s| % 2 == 0 && s != []
    ensures DecodePairs(s) ==
            var n := |s| - 2;
            var front, high, low := DecodePairs(s[..n]), DigitValue(s[n]), DigitValue(s[n + 1]);
            if front.Some? && high.Some? && low.Some? then Some(front.value + [PairByte(high.value, low.value)])
                else None
  {
  }

  lemma DigitBelow16(c: char)
    ensures DigitValue(c).Some? ==> DigitValue(c).value < 16
  {
  }

  /** Decoding pairs of hexadecimal digits keeps the number. */
  lemma {:induction false} DecodePairsIsNumber(s: string)
    requires |s| % 2 == 0
    ensures DecodePairs(s).Some? <==> Number(s, 16).Some?
    ensures DecodePairs(s).Some? ==> Val(DecodePairs(s).value) == Number(s, 16).value
    decreases |s|
  {
    if s == [] {
    } else {
      var n := |s| - 2;
      DecodePairsIsNumber(s[..n]);
      assert s[..n + 1] == s[..n] + [s[n]] && s == s[..n + 1] + [s[n + 1]];
      NumberSnoc(s[..n], s[n], 16);
      NumberSnoc(s[..n + 1], s[n + 1], 16);
      DigitBelow16(s[n]);
      DigitBelow16(s[n + 1]);
      DecodePairsStep(s);
      hide Number, DecodePairs, DigitValue, Val, Extend;
      ExtendTwice(Number(s[..n], 16), DigitValue(s[n]), DigitValue(s[n + 1]));
      if DecodePairs(s[..n]).Some? && DigitValue(s[n]).Some? && DigitValue(s[n + 1]).Some? {
        ValSnoc(DecodePairs(s[..n]).value, PairByte(DigitValue(s[n]).value, DigitValue(s[n + 1]).value));
      }
    }
  }

  /** A leading zero digit changes nothing. */
  lemma {:induction false} LeadingZero(s: string)
    ensures Number("0" + s, 16) == Number(s, 16)
  {
    if s == [] {
      NumberNone();
      assert "0" + s == "0";
    } else {
      hide Extend, DigitValue;
      var n := |s| - 1;
      LeadingZero(s[..n]);
      assert "0" + s == ("0" + s[..n]) + [s[n]];
      NumberSnoc("0" + s[..n], s[n], 16);
    }
  }

  /** Changing the case of digits does not change the number. */
  lemma {:induction false} NumberLower(s: string)
    ensures Number(Lower(s), 16) == Number(s, 16)
  {
    if s == [] {
    } else {
      hide Extend;
      var n := |s| - 1;
      NumberLower(s[..n]);
      assert Lower(s) == Lower(s[..n]) + [LowerChar(s[n])];
      NumberSnoc(Lower(s[..n]), LowerChar(s[n]), 16);
    }
  }

  // ---------------------------------------------------------------- ParseHex and FormatHex

  /** The padding and pair decoding that ParseHex and decodeHex share. */
  method DecodeHexDigits(digits: string) returns (r: Option<seq<byte>>)
    ensures r.Some? <==> Number(digits, 16).Some?
    ensures r.Some? ==> Val(r.value) == Number(digits, 16).value
  {
    var cleaned := digits;
    if |cleaned| % 2 != 0 {
      LeadingZero(cleaned);
      cleaned := "0" + cleaned;
    }
    DecodePairsIsNumber(cleaned);
    return DecodePairs(cleaned);
  }

  /** What ParseHex promises: the canonical bytes of the number, None on a bad digit. */
  function ParsedHex(s: string): Option<seq<byte>> {
    var n := Number(WithoutColons(TrimHex(Lower(s))), 16);
    if n.Some? then Some(Canon(n.value)) else None
  }

  method ParseHex(s: string) returns (r: Option<seq<byte>>)
    ensures r == ParsedHex(s)
  {
    var cleaned := Lower(TrimHex(Lower(s)));
    LowerTwice(s);
    var raw := DecodeHexDigits(WithoutColons(cleaned));
    if raw.None? {
      return None;
    }
    var out := StripLeadingZeros(raw.value);
    return Some(out);
  }

  lemma LowerTwice(s: string)
    ensures Lower(TrimHex(Lower(s))) == TrimHex(Lower(s))
  {
    var t := TrimHex(Lower(s));
    forall i | 0 <= i < |t| ensures LowerChar(t[i]) == t[i] {
      assert t[i] == Lower(s)[i + (|s| - |t|)];
    }
  }

  /** A byte as two hexadecimal digits. */
  function Hex2(b: byte): (s: string)
    ensures |s| == 2
  {
    [DigitChar(b / 16), DigitChar(b % 16)]
  }

  /** What FormatHex promises. */
  function Formatted(v: seq<byte>): string {
    if v == [] then "0"
    else if |v| == 1 then Hex2(v[0])
    else Formatted(v[..|v| - 1]) + ":" + Hex2(v[|v| - 1])
  }

  method FormatHex(v: seq<byte>) returns (s: string)
    ensures s == Formatted(v)
  {
    if |v| == 0 {
      return "0";
    }
    var parts := [];
    for i := 0 to |v|
      invariant |parts| == i && (i > 0 ==> Join(parts) == Formatted(v[..i]))
    {
      var part := Text(v[i], 16);
      if |part| == 1 {
        part := "0" + part;
      }
      TextOfByte(v[i]);
      ghost var before := parts;
      parts := parts + [part];
      assert parts[..i] == before && v[..i + 1][..i] == v[..i];
    }
    assert v[..|v|] == v;
    return Join(parts);
  }

  lemma TextOfByte(b: byte)
    ensures Hex2(b) == if b < 16 then "0" + Text(b, 16) else Text(b, 16)
  {
    assert b >= 16 ==> Text(b / 16, 16) == [DigitChar(b / 16)];
  }

  lemma HexPairIsNumber(s: string, b: byte)
    ensures Number(s + Hex2(b), 16) == if Number(s, 16).Some? then Some(Number(s, 16).value * 256 + b) else None
  {
    var h := Hex2(b);
    assert s + h == s + [h[0]] + [h[1]];
    DigitCharIsDigit(b / 16);
    DigitCharIsDigit(b % 16);
    hide Number, DigitValue, DigitChar, Extend;
    NumberSnoc(s, h[0], 16);
    NumberSnoc(s + [h[0]], h[1], 16);
    ExtendTwice(Number(s, 16), Some(b / 16), Some(b % 16));
  }

  lemma ColonFree2(b: byte)
    ensures forall c :: c in Hex2(b) ==> c != ':' && c != 'x' && LowerChar(c) == c
  {
  }

  lemma {:induction false} WithoutColonsAppend(s: string, t: string)
    ensures WithoutColons(s + t) == WithoutColons(s) + WithoutColons(t)
  {
    if t == [] {
      assert s + t == s;
    } else {
      var n := |t| - 1;
      assert s + t == (s + t[..n]) + [t[n]];
      assert (s + t)[..|s + t| - 1] == s + t[..n];
      WithoutColonsAppend(s, t[..n]);
    }
  }

  lemma {:induction false} WithoutColonsSame(s: string)
    requires ':' !in s
    ensures WithoutColons(s) == s
  {
    if s == [] {
    } else {
      WithoutColonsSame(s[..|s| - 1]);
    }
  }

  lemma WithoutOneColon(s: string)
    ensures WithoutColons(s + ":") == WithoutColons(s)
  {
    assert (s + ":")[..|s|] == s;
  }

  lemma FormattedSnoc(v: seq<byte>)
    requires |v| > 1
    ensures WithoutColons(Formatted(v)) == WithoutColons(Formatted(v[..|v| - 1])) + Hex2(v[|v| - 1])
  {
    var front, h := Formatted(v[..|v| - 1]), Hex2(v[|v| - 1]);
    assert Formatted(v) == front + ":" + h;
    ColonFree2(v[|v| - 1]);
    hide Formatted, Hex2;
    WithoutColonsSame(h);
    WithoutColonsAppend(front + ":", h);
    WithoutOneColon(front);
  }

  lemma FormattedByte(b: byte)
    ensures Number(WithoutColons(Hex2(b)), 16) == Some(b)
  {
    ColonFree2(b);
    WithoutColonsSame(Hex2(b));
    HexPairIsNumber([], b);
    assert [] + Hex2(b) == Hex2(b);
  }

  /** The digits of a formatted value spell its number. */
  lemma {:induction false} FormattedDigits(v: seq<byte>)
    requires v != []
    ensures Number(WithoutColons(Formatted(v)), 16) == Some(Val(v))
  {
    hide Number, Hex2, Val, WithoutColons;
    var n := |v| - 1;
    var front := v[..n];
    assert v == front + [v[n]];
    ValSnoc(front, v[n]);
    if n == 0 {
      FormattedByte(v[0]);
      ValSingle(v[0]);
      assert v == [v[0]];
    } else {
      hide Formatted;
      FormattedDigits(front);
      FormattedSnoc(v);
      HexPairIsNumber(WithoutColons(Formatted(front)), v[n]);
    }
  }

  lemma NumberNone()
    ensures Number([], 16) == Some(0) && Number("0", 16) == Some(0) && WithoutColons("0") == "0"
  {
    NumberSnoc([], '0', 16);
    WithoutColonsSame("0");
    assert [] + ['0'] == "0";
  }

  lemma {:induction false} FormattedIsLower(v: seq<byte>)
    ensures forall c :: c in Formatted(v) ==> c != 'x' && LowerChar(c) == c
  {
    if v == [] {
    } else {
      ColonFree2(v[|v| - 1]);
      hide Hex2;
      if |v| > 1 {
        FormattedIsLower(v[..|v| - 1]);
      }
    }
  }

  lemma FormattedNumber(v: seq<byte>)
    ensures Number(WithoutColons(Formatted(v)), 16) == Some(Val(v))
  {
    if v == [] {
      NumberNone();
    } else {
      FormattedDigits(v);
    }
  }

  /** Parsing what was formatted gives the bytes without leading zeros, the bytes themselves when canonical. */
  lemma FormatParseRoundTrip(b: seq<byte>)
    ensures ParsedHex(Formatted(b)) == Some(Canon(Val(b)))
    ensures Canonical(b) ==> ParsedHex(Formatted(b)) == Some(b)
  {
    var s := Formatted(b);
    FormattedNumber(b);
    FormattedIsLower(b);
    assert Lower(s) == s;
    assert |s| >= 2 ==> s[1] != 'x';
    assert !HasPrefix(s, "0x");
    if Canonical(b) {
      CanonVal(b);
    }
  }

  // ---------------------------------------------------------------- decodeValue

  predicate HexPrefixed(raw: string) {
    HasPrefix(raw, "0x") || HasPrefix(raw, "0X")
  }

  predicate PartsOfTwo(parts: seq<string>) {
    forall i :: 0 <= i < |parts| ==> |parts[i]| == 2
  }

  /** The number of a hexadecimal literal without its prefix; with colons, every byte has two digits. */
  function HexLiteral(s: string): Result<nat, ValueError> {
    if s == "" then Err(EmptyLiteral)
    else if ':' in s && !PartsOfTwo(Split(s)) then Err(BadLiteral)
    else
      var n := Number(WithoutColons(s), 16);
      if n.Some? then Ok(n.value) else Err(BadLiteral)
  }

  /** The number that a literal stands for, given what the address parser makes of it. */
  function Literal(raw: string, ip: Option<Address>): Result<nat, ValueError> {
    if raw == "" then Err(EmptyLiteral)
    else if HexPrefixed(raw) then HexLiteral(raw[2..])
    else if ':' in raw || '.' in raw then
      if ip.Some? then if ip.value.zone then Err(BadLiteral) else Ok(Val(ip.value.bytes))
      else if ':' in raw then HexLiteral(raw)
      else Err(BadLiteral)
    else
      var n := Number(raw, 10);
      if n.Some? then Ok(n.value) else Err(BadLiteral)
  }

  /** What decodeValue promises: the canonical bytes of the literal's number, if it fits the field. */
  function Decoded(raw: string, bitwidth: int64, ip: Option<Address>): Result<seq<byte>, ValueError> {
    if bitwidth <= 0 then Err(WidthNotPositive)
    else
      var n := Literal(raw, ip);
      if n.Err? then Err(n.error)
      else if Fits(n.value, bitwidth) then Ok(Canon(n.value))
      else Err(TooWide)
  }

  method DecodeHex(raw: string) returns (r: Result<seq<byte>, ValueError>)
    ensures if r.Ok? then HexLiteral(raw) == Ok(Val(r.value)) else HexLiteral(raw) == Err(r.error)
  {
    if raw == "" {
      return Err(EmptyLiteral);
    }
    if ':' in raw {
      var parts := Split(raw);
      for i := 0 to |parts|
        invariant PartsOfTwo(parts[..i])
      {
        if |parts[i]| != 2 {
          return Err(BadLiteral);
        }
      }
      assert parts[..|parts|] == parts;
    }
    var decoded := DecodeHexDigits(WithoutColons(raw));
    return if decoded.Some? then Ok(decoded.value) else Err(BadLiteral);
  }

  /** big.Int.Bytes. */
  function BigBytes(n: nat): seq<byte> {
    if n == 0 then [] else Canon(n)
  }

  lemma ValBigBytes(n: nat)
    ensures Val(BigBytes(n)) == n
  {
    ValCanon(n);
  }

  method DecodeValue(raw: string, bitwidth: int64, ip: Option<Address>) returns (r: Result<seq<byte>, ValueError>)
    ensures r == Decoded(raw, bitwidth, ip)
  {
    if bitwidth <= 0 {
      return Err(WidthNotPositive);
    }
    if raw == "" {
      return Err(EmptyLiteral);
    }
    var value: seq<byte>;
    if HasPrefix(raw, "0x") || HasPrefix(raw, "0X") {
      var h := DecodeHex(raw[2..]);
      if h.Err? {
        return Err(h.error);
      }
      value := h.value;
    } else if ':' in raw || '.' in raw {
      if ip.Some? {
        if ip.value.zone {
          return Err(BadLiteral);
        }
        value := ip.value.bytes;
      } else if ':' in raw {
        var h := DecodeHex(raw);
        if h.Err? {
          return Err(h.error);
        }
        value := h.value;
      } else {
        return Err(BadLiteral);
      }
    } else {
      NumberIffDigits(raw, 10);
      for i := 0 to |raw|
        invariant forall k :: 0 <= k < i ==> '0' <= raw[k] <= '9'
      {
        if raw[i] < '0' || raw[i] > '9' {
          assert raw[i] in raw;
          return Err(BadLiteral);
        }
      }
      var number := Number(raw, 10).value;
      BitLenBelow(number, bitwidth);
      if BitLen(number) > bitwidth {
        return Err(TooWide);
      }
      value := BigBytes(number);
      ValBigBytes(number);
    }
    var e := EncodeBytes(value, bitwidth);
    return if e.Ok? then Ok(e.value) else Err(TooWide);
  }

  /** The decimal and the two hexadecimal spellings of a number give its canonical bytes at every width it fits. */
  lemma SpellingsAgree(n: nat, bitwidth: int64, ip: Option<Address>)
    requires 0 < bitwidth
    ensures var r := if Fits(n, bitwidth) then Ok(Canon(n)) else Err(TooWide);
            && Decoded(Text(n, 10), bitwidth, ip) == r
            && Decoded("0x" + Text(n, 16), bitwidth, ip) == r
            && Decoded("0X" + Text(n, 16), bitwidth, ip) == r
  {
    DecimalLiteral(n, ip);
    HexadecimalLiteral(n, "0x", ip);
    HexadecimalLiteral(n, "0X", ip);
  }

  lemma DecimalLiteral(n: nat, ip: Option<Address>)
    ensures Literal(Text(n, 10), ip) == Ok(n)
  {
    hide Text, Number, HexLiteral;
    var s := Text(n, 10);
    NumberText(n, 10);
    NumberIffDigits(s, 10);
    assert !HexPrefixed(s) by {
      assert |s| >= 2 ==> s[1] in s;
    }
    assert ':' !in s && '.' !in s;
  }

  lemma HexadecimalLiteral(n: nat, prefix: string, ip: Option<Address>)
    requires prefix == "0x" || prefix == "0X"
    ensures Literal(prefix + Text(n, 16), ip) == Ok(n)
  {
    hide Text, Number, WithoutColons, Split;
    var s := Text(n, 16);
    NumberText(n, 16);
    NumberIffDigits(s, 16);
    assert (prefix + s)[2..] == s;
    assert ':' !in s;
    WithoutColonsSame(s);
  }

  lemma SplitSnoc(s: string, t: string)
    requires ':' !in t
    ensures Split(s + ":" + t) == Split(s) + [t]
  {
    if t == [] {
      assert (s + ":" + t)[..|s|] == s;
    } else {
      var n := |t| - 1;
      assert (s + ":" + t)[..|s| + 1 + n] == s + ":" + t[..n];
      SplitSnoc(s, t[..n]);
      assert t == t[..n] + [t[n]];
    }
  }

  lemma SplitWhole(t: string)
    requires ':' !in t
    ensures Split(t) == [t]
  {
    if t != [] {
      var n := |t| - 1;
      SplitWhole(t[..n]);
      assert t == t[..n] + [t[n]];
    }
  }

  lemma {:induction false} FormattedParts(v: seq<byte>)
    requires v != []
    ensures PartsOfTwo(Split(Formatted(v)))
  {
    var n := |v| - 1;
    ColonFree2(v[n]);
    if n == 0 {
      SplitWhole(Hex2(v[0]));
    } else {
      FormattedParts(v[..n]);
      SplitSnoc(Formatted(v[..n]), Hex2(v[n]));
    }
  }

  /** What FormatHex writes, decodeValue reads back behind a 0x, as EncodeBytes encodes the bytes themselves. */
  lemma FormattedValueDecodes(b: seq<byte>, bitwidth: int64, ip: Option<Address>)
    requires 0 < bitwidth
    ensures Decoded("0x" + Formatted(b), bitwidth, ip) == match Encode(b, bitwidth) case Ok(c) => Ok(c)
        case Err(_) => Err(TooWide)
  {
    FormattedNumber(b);
    assert ("0x" + Formatted(b))[2..] == Formatted(b);
    if b != [] {
      FormattedParts(b);
    }
    assert Formatted(b) != "";
  }

  // ---------------------------------------------------------------- the other forms of a literal

  /** Colon-separated bytes, such as a MAC address, stand for their number when the address parser rejects the text. */
  lemma ColonBytesDecode(b: seq<byte>, bitwidth: int64)
    requires 0 < bitwidth && |b| > 1
    ensures Decoded(Formatted(b), bitwidth, None) ==
            match Encode(b, bitwidth) case Ok(c) => Ok(c) case Err(_) => Err(TooWide)
  {
    var s := Formatted(b);
    FormattedNumber(b);
    FormattedParts(b);
    FormattedIsLower(b);
    FormattedHasColon(b);
    assert !HexPrefixed(s) by {
      FormattedSecond(b);
    }
  }

  lemma FormattedHasColon(v: seq<byte>)
    requires |v| > 1
    ensures ':' in Formatted(v)
  {
    var n := |v| - 1;
    var front := Formatted(v[..n]);
    assert Formatted(v) == front + ":" + Hex2(v[n]);
    assert Formatted(v)[|front|] == ':';
  }

  /** The second character of formatted bytes is a digit. */
  lemma {:induction false} FormattedSecond(v: seq<byte>)
    requires v != []
    ensures |Formatted(v)| >= 2 && Formatted(v)[1] != 'x' && Formatted(v)[1] != 'X'
  {
    if |v| == 1 {
    } else {
      FormattedSecond(v[..|v| - 1]);
    }
  }

  /** An address stands for its bytes, whatever the text looks like, unless it has a zone or a 0x in front. */
  lemma AddressDecodes(raw: string, bitwidth: int64, ip: Address)
    requires 0 < bitwidth && !HexPrefixed(raw) && (':' in raw || '.' in raw)
    ensures Decoded(raw, bitwidth, Some(ip)) ==
            if ip.zone then Err(BadLiteral)
            else match Encode(ip.bytes, bitwidth) case Ok(c) => Ok(c) case Err(_) => Err(TooWide)
  {
  }

  /** What is neither hexadecimal, an address nor colon-separated must be all decimal digits. */
  lemma DecimalOrNothing(raw: string, bitwidth: int64, ip: Option<Address>)
    requires !HexPrefixed(raw) && ':' !in raw && '.' !in raw
    ensures Decoded(raw, bitwidth, ip).Ok? ==> raw != "" && forall c :: c in raw ==> '0' <= c <= '9'
  {
    NumberIffDigits(raw, 10);
  }

  /** Hexadecimal digits parse to their number, with or without a 0x of either case, in either case themselves. */
  lemma ParsesWithAndWithoutPrefix(s: string)
    requires forall c :: c in s ==> DigitValue(c).Some?
    ensures Number(s, 16).Some?
    ensures ParsedHex(s) == Some(Canon(Number(s, 16).value))
    ensures ParsedHex("0x" + s) == ParsedHex(s) && ParsedHex("0X" + s) == ParsedHex(s)
  {
    NumberIffDigits(s, 16);
    hide Number, WithoutColons, DigitValue, Canon, Lower, TrimHex;
    NumberLower(s);
    LowerDigits(s);
    LowerPrefixed(s);
    TrimPrefixed(Lower(s));
    WithoutColonsSame(Lower(s));
  }

  lemma LowerPrefixed(s: string)
    ensures Lower("0x" + s) == "0x" + Lower(s) && Lower("0X" + s) == "0x" + Lower(s)
  {
  }

  lemma TrimPrefixed(t: string)
    requires 'x' !in t
    ensures TrimHex("0x" + t) == t && TrimHex(t) == t
  {
    assert ("0x" + t)[2..] == t;
    assert |t| >= 2 ==> t[1] in t;
  }

  lemma LowerDigits(s: string)
    requires forall c :: c in s ==> DigitValue(c).Some?
    ensures ':' !in Lower(s) && 'x' !in Lower(s)
  {
    var t := Lower(s);
    forall c | c in t ensures c != ':' && c != 'x' {
      var i :| 0 <= i < |t| && t[i] == c;
      assert s[i] in s;
    }
  }
}
