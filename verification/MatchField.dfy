/** tableentry: compiling one match specification into its wire form. */
module MatchField {
  import opened Bits
  import opened Bytes
  import opened Codec
  import opened Wrappers

  type int32 = x: int | -0x8000_0000 <= x < 0x8000_0000
  type uint32 = x: int | 0 <= x < 0x1_0000_0000

  datatype MatchType = UNSPECIFIED | EXACT | LPM | TERNARY | RANGE | OPTIONAL

  datatype FieldDef = FieldDef(id: uint32, name: string, bitwidth: int32, matchType: MatchType)

  /** What the caller asks for. Foreign stands for any other implementation of the interface, or nil. */
  datatype MatchValue =
    | ExactMatch(value: seq<byte>)
    | LPMMatch(value: seq<byte>, prefixLen: int32)
    | TernaryMatch(value: seq<byte>, mask: seq<byte>)
    | RangeMatch(low: seq<byte>, high: seq<byte>)
    | OptionalMatch(optional: Option<seq<byte>>)
    | Foreign

  /** The wire message p4v1.FieldMatch. */
  datatype FieldMatch = FieldMatch(id: uint32, kind: WireKind)
  datatype WireKind =
    | WireExact(value: seq<byte>)
    | WireLpm(value: seq<byte>, prefixLen: int32)
    | WireTernary(value: seq<byte>, mask: seq<byte>)
    | WireRange(low: seq<byte>, high: seq<byte>)
    | WireOptional(value: seq<byte>)

  datatype EntryError =
    | NilPipeline | UnknownTable | MissingExact | UnknownField | WrongKind | Unrecognized | Encoding(error: Error)
    | PriorityRequired | PriorityForbidden | NegativeTimeout | TimeoutOnDefault | TimeoutUnsupported
    | NoAction | ConstantTable | Indirect | UnknownAction | WrongScope | MissingParam | UnknownParam

  // ---------------------------------------------------------------- meaning

  /** The field values that the caller's specification asks to match. */
  predicate Means(mv: MatchValue, x: nat, w: nat) {
    match mv
    case ExactMatch(v) => x == Val(v)
    case LPMMatch(v, p) => p == 0 || (0 < p <= w && x / Pow2(w - p) == Val(v) / Pow2(w - p))
    case TernaryMatch(v, m) => And(x, Val(m)) == And(Val(v), Val(m))
    case RangeMatch(l, h) => Val(l) <= x <= Val(h)
    case OptionalMatch(None) => true
    case OptionalMatch(Some(v)) => x == Val(v)
    case Foreign => false
  }

  /** The field values matched by a wire form, as section 9.1.1 of the P4Runtime Specification 1.3.0 defines them. */
  predicate WireMatches(k: WireKind, x: nat, w: nat) {
    match k
    case WireExact(v) => x == Val(v)
    case WireLpm(v, p) => 0 <= p <= w && And(x, HighMask(w, w - p)) == Val(v)
    case WireTernary(v, m) => And(x, Val(m)) == Val(v)
    case WireRange(l, h) => Val(l) <= x <= Val(h)
    case WireOptional(v) => x == Val(v)
  }

  /** An omitted field matches everything. */
  predicate Matches(fm: Option<FieldMatch>, x: nat, w: nat) {
    fm.None? || WireMatches(fm.value.kind, x, w)
  }

  // ---------------------------------------------------------------- the compiler

  /** The wire form of one specification, or None for a wildcard. */
  function FieldKey(mf: FieldDef, mv: MatchValue): Result<Option<FieldMatch>, EntryError> {
    var w := mf.bitwidth;
    match mv
    case ExactMatch(v) =>
      var e := Encode(v, w);
      if e.Err? then Err(Encoding(e.error))
      else if mf.matchType != EXACT then Err(WrongKind)
      else Ok(Some(FieldMatch(mf.id, WireExact(e.value))))
    case LPMMatch(v, p) =>
      if mf.matchType != LPM then Err(WrongKind)
      else if p == 0 then Ok(None)
      else
        var e := Lpm(v, p, w);
        if e.Err? then Err(Encoding(e.error)) else Ok(Some(FieldMatch(mf.id, WireLpm(e.value, p))))
    case TernaryMatch(v, m) =>
      if mf.matchType != TERNARY then Err(WrongKind)
      else if Val(m) == 0 then Ok(None)
      else
        var e := Masked(v, m, w);
        if e.Err? then Err(Encoding(e.error))
        else Ok(Some(FieldMatch(mf.id, WireTernary(e.value, Canon(Val(m))))))
    case RangeMatch(l, h) =>
      if mf.matchType != RANGE then Err(WrongKind)
      else
        var e := RangeError(l, h, w);
        if e.Some? then Err(Encoding(e.value))
        else if Val(l) == 0 && Val(h) == Pow2(w) - 1 then Ok(None)
        else Ok(Some(FieldMatch(mf.id, WireRange(Canon(Val(l)), Canon(Val(h))))))
    case OptionalMatch(o) =>
      if mf.matchType != OPTIONAL then Err(WrongKind)
      else if o.None? then Ok(None)
      else
        var e := Encode(o.value, w);
        if e.Err? then Err(Encoding(e.error)) else Ok(Some(FieldMatch(mf.id, WireOptional(e.value))))
    case Foreign => Err(Unrecognized)
  }

  method AllZero(b: seq<byte>) returns (r: bool)
    ensures r <==> Val(b) == 0
  {
    for i := 0 to |b|
      invariant forall k :: 0 <= k < i ==> b[k] == 0
    {
      if b[i] != 0 {
        if Val(b) == 0 {
          ValZeroOnly(b);
        }
        return false;
      }
    }
    ValZeros(b);
    return true;
  }

  /** The all-ones value of a width: a partial first byte, then whole bytes. */
  function Ones(w: int64): (s: seq<byte>)
    requires 0 < w
    ensures |s| == (w - 1) / 8 + 1
    ensures s[0] == if w % 8 != 0 then LowOnes(w % 8) else 0xff
    ensures forall i :: 0 < i < |s| ==> s[i] == 0xff
  {
    seq((w - 1) / 8 + 1, i => if i == 0 && w % 8 != 0 then LowOnes(w % 8) else 0xff)
  }

  lemma OnesValue(w: int64)
    requires 0 < w
    ensures Val(Ones(w)) == Pow2(w) - 1 && Canonical(Ones(w))
  {
    hide Val, Pow2, Ones, LowOnes;
    var k := if w % 8 != 0 then w % 8 else 8;
    LowOnesBounds(k);
    ValFieldOnes(Ones(w), k, w);
  }

  lemma LowOnesBounds(k: nat)
    requires 1 <= k <= 8
    ensures 1 <= LowOnes(k) && LowOnes(8) == 0xff
  {
    Pow2Bytes();
    Pow2Monotone(1, k);
  }

  /** Among canonical strings only Ones(w) has the largest value of the width. */
  lemma OnesOnly(s: seq<byte>, w: int64)
    requires 0 < w && Canonical(s)
    ensures Val(s) == Pow2(w) - 1 <==> s == Ones(w)
  {
    OnesValue(w);
    CanonVal(Ones(w));
    CanonVal(s);
  }

  method IsFullRange(low: seq<byte>, high: seq<byte>, bitwidth: int32) returns (r: bool)
    requires 0 < bitwidth && Canonical(high) && Val(high) < Pow2(bitwidth)
    ensures r <==> Val(low) == 0 && Val(high) == Pow2(bitwidth) - 1
  {
    OnesOnly(high, bitwidth);
    var zero := AllZero(low);
    if !zero || |high| != (bitwidth - 1) / 8 + 1 {
      return false;
    }
    var first: byte := 0xff;
    var bits := bitwidth % 8;
    if bits != 0 {
      first := LowOnes(bits);
    }
    if high[0] != first {
      return false;
    }
    for i := 1 to |high|
      invariant forall k :: 0 < k < i ==> high[k] == 0xff
    {
      if high[i] != 0xff {
        return false;
      }
    }
    assert high == Ones(bitwidth);
    return true;
  }

  method EncodeField(mf: FieldDef, mv: MatchValue) returns (r: Result<Option<FieldMatch>, EntryError>)
    ensures r == FieldKey(mf, mv)
  {
    match mv
    case ExactMatch(v) =>
      var e := EncodeBytes(v, mf.bitwidth);
      if e.Err? {
        return Err(Encoding(e.error));
      }
      if mf.matchType != EXACT {
        return Err(WrongKind);
      }
      return Ok(Some(FieldMatch(mf.id, WireExact(e.value))));
    case LPMMatch(v, p) =>
      if mf.matchType != LPM {
        return Err(WrongKind);
      }
      if p == 0 {
        return Ok(None);
      }
      var e := LPMMask(v, p, mf.bitwidth);
      if e.Err? {
        return Err(Encoding(e.error));
      }
      return Ok(Some(FieldMatch(mf.id, WireLpm(e.value, p))));
    case TernaryMatch(v, m) =>
      if mf.matchType != TERNARY {
        return Err(WrongKind);
      }
      var zero := AllZero(m);
      if zero {
        return Ok(None);
      }
      var applied := TernaryApply(v, m, mf.bitwidth);
      if applied.Err? {
        return Err(Encoding(applied.error));
      }
      var mask := EncodeBytes(m, mf.bitwidth);
      assert mask.Ok?;  // TernaryApply has already encoded the mask
      return Ok(Some(FieldMatch(mf.id, WireTernary(applied.value, mask.value))));
    case RangeMatch(l, h) =>
      if mf.matchType != RANGE {
        return Err(WrongKind);
      }
      var e := ValidateRange(l, h, mf.bitwidth);
      if e.Some? {
        return Err(Encoding(e.value));
      }
      var low := EncodeBytes(l, mf.bitwidth);
      assert low.Ok?;  // ValidateRange has already encoded both ends
      var high := EncodeBytes(h, mf.bitwidth);
      assert high.Ok?;
      ValCanon(Val(l));
      ValCanon(Val(h));
      var full := IsFullRange(low.value, high.value, mf.bitwidth);
      if full {
        return Ok(None);
      }
      return Ok(Some(FieldMatch(mf.id, WireRange(low.value, high.value))));
    case OptionalMatch(o) =>
      if mf.matchType != OPTIONAL {
        return Err(WrongKind);
      }
      if o.None? {
        return Ok(None);
      }
      var e := EncodeBytes(o.value, mf.bitwidth);
      if e.Err? {
        return Err(Encoding(e.error));
      }
      return Ok(Some(FieldMatch(mf.id, WireOptional(e.value))));
    case Foreign =>
      return Err(Unrecognized);
  }
}
