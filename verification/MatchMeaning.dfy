/** What one compiled match field means: nothing lost, nothing added, one form for each set. */
module MatchMeaning {
  import opened Bits
  import opened Bytes
  import opened MatchField
  import opened Wrappers

  /** A specification that EncodeField accepts, said in terms of numbers alone. */
  predicate Acceptable(mf: FieldDef, mv: MatchValue)
    requires 0 < mf.bitwidth
  {
    var top := Pow2(mf.bitwidth);
    match mv
    case ExactMatch(v) => mf.matchType == EXACT && Val(v) < top
    case LPMMatch(v, p) => mf.matchType == LPM && (p == 0 || (0 < p <= mf.bitwidth && Val(v) < top))
    case TernaryMatch(v, m) => mf.matchType == TERNARY && (Val(m) == 0 || (Val(v) < top && Val(m) < top))
    case RangeMatch(l, h) => mf.matchType == RANGE && Val(l) <= Val(h) < top
    case OptionalMatch(o) => mf.matchType == OPTIONAL && (o.None? || Val(o.value) < top)
    case Foreign => false
  }

  lemma AcceptedExactly(mf: FieldDef, mv: MatchValue)
    requires 0 < mf.bitwidth
    ensures FieldKey(mf, mv).Ok? <==> Acceptable(mf, mv)
  {
  }

  /** The normal forms among the wire forms of a field: what a target must accept as canonical. */
  predicate Normal(mf: FieldDef, fm: Option<FieldMatch>)
    requires 0 < mf.bitwidth
  {
    var w: nat := mf.bitwidth;
    match fm
    case None => mf.matchType != EXACT
    case Some(FieldMatch(id, kind)) =>
      && id == mf.id
      && match kind
         case WireExact(v) => mf.matchType == EXACT && Canonical(v) && Val(v) < Pow2(w)
         case WireLpm(v, p) =>
           mf.matchType == LPM && Canonical(v) && 0 < p <= w && Val(v) < Pow2(w) && Floor(Val(v), w - p) == Val(v)
         case WireTernary(v, m) =>
           && mf.matchType == TERNARY && Canonical(v) && Canonical(m)
           && 0 < Val(m) < Pow2(w) && And(Val(v), Val(m)) == Val(v)
         case WireRange(l, h) =>
           && mf.matchType == RANGE && Canonical(l) && Canonical(h)
           && Val(l) <= Val(h) < Pow2(w) && !(Val(l) == 0 && Val(h) == Pow2(w) - 1)
         case WireOptional(v) => mf.matchType == OPTIONAL && Canonical(v) && Val(v) < Pow2(w)
  }

  lemma KeyIsNormal(mf: FieldDef, mv: MatchValue)
    requires 0 < mf.bitwidth && FieldKey(mf, mv).Ok?
    ensures Normal(mf, FieldKey(mf, mv).value)
  {
    match mv
    case ExactMatch(v) => ValCanon(Val(v));
    case LPMMatch(v, p) =>
      if p != 0 {
        ValCanon(Floor(Val(v), mf.bitwidth - p));
        FloorIdempotent(Val(v), mf.bitwidth - p);
      }
    case TernaryMatch(v, m) =>
      ValCanon(Val(m));
      ValCanon(And(Val(v), Val(m)));
      AndIdempotent(Val(v), Val(m));
    case RangeMatch(l, h) =>
      ValCanon(Val(l));
      ValCanon(Val(h));
    case OptionalMatch(o) =>
      if o.Some? {
        ValCanon(Val(o.value));
      }
    case Foreign =>
  }

  lemma {:induction false} FloorIdempotent(x: nat, k: nat)
    ensures Floor(Floor(x, k), k) == Floor(x, k)
    decreases k
  {
    if k == 0 {
    } else {
      FloorIdempotent(x / 2, k - 1);
      FloorDouble(Floor(x, k), Floor(x / 2, k - 1), k);
    }
  }

  lemma FloorDouble(v: nat, half: nat, k: nat)
    requires v == 2 * half && 0 < k
    ensures Floor(v, k) == 2 * Floor(half, k - 1)
  {
    assert v / 2 == half;
  }

  /** Same first bits, by division and by rounding. */
  lemma SamePrefix(x: nat, y: nat, k: nat)
    ensures x / Pow2(k) == y / Pow2(k) <==> Floor(x, k) == Floor(y, k)
  {
    FloorIsQuotient(x, k);
    FloorIsQuotient(y, k);
    var d := x / Pow2(k) - y / Pow2(k);
    MulStrict(d, Pow2(k));
    Distribute(x / Pow2(k), y / Pow2(k), Pow2(k));
  }

  lemma LpmMeaning(v: seq<byte>, p: nat, w: nat, x: nat)
    requires 0 < p <= w && x < Pow2(w)
    ensures And(x, HighMask(w, w - p)) == Val(Canon(Floor(Val(v), w - p)))
            <==> x / Pow2(w - p) == Val(v) / Pow2(w - p)
  {
    hide And, Floor, Val, Canon;
    ValCanon(Floor(Val(v), w - p));
    AndHighMask(x, w, w - p);
    SamePrefix(x, Val(v), w - p);
  }

  lemma TernaryMeaning(v: seq<byte>, m: seq<byte>, x: nat)
    ensures And(x, Val(Canon(Val(m)))) == Val(Canon(And(Val(v), Val(m)))) <==> And(x, Val(m)) == And(Val(v), Val(m))
  {
    hide And, Val, Canon;
    ValCanon(Val(m));
    ValCanon(And(Val(v), Val(m)));
  }

  /** The emitted field, or its omission, matches exactly the values that the caller meant. */
  lemma MeaningPreserved(mf: FieldDef, mv: MatchValue, x: nat)
    requires 0 < mf.bitwidth && x < Pow2(mf.bitwidth) && FieldKey(mf, mv).Ok?
    ensures Matches(FieldKey(mf, mv).value, x, mf.bitwidth) <==> Means(mv, x, mf.bitwidth)
  {
    hide And, Floor, Val, Canon, Pow2;
    match mv
    case ExactMatch(v) => ValCanon(Val(v));
    case LPMMatch(v, p) =>
      if p != 0 {
        LpmMeaning(v, p, mf.bitwidth, x);
      }
    case TernaryMatch(v, m) =>
      TernaryMeaning(v, m, x);
      if Val(m) == 0 {
        AndZero(x);
        AndZero(Val(v));
      }
    case RangeMatch(l, h) =>
      ValCanon(Val(l));
      ValCanon(Val(h));
    case OptionalMatch(o) =>
      if o.Some? {
        ValCanon(Val(o.value));
      }
    case Foreign =>
  }

  lemma AndZero(x: nat)
    ensures And(x, 0) == 0
  {
  }

  /** Every normal form matches some value of the field. */
  lemma Inhabited(mf: FieldDef, fm: Option<FieldMatch>) returns (x: nat)
    requires 0 < mf.bitwidth && Normal(mf, fm)
    ensures x < Pow2(mf.bitwidth) && Matches(fm, x, mf.bitwidth)
  {
    match fm
    case None => x := 0;
    case Some(FieldMatch(_, WireExact(v))) => x := Val(v);
    case Some(FieldMatch(_, WireLpm(v, p))) =>
      x := Val(v);
      AndHighMask(x, mf.bitwidth, mf.bitwidth - p);
    case Some(FieldMatch(_, WireTernary(v, m))) => x := Val(v);
    case Some(FieldMatch(_, WireRange(l, h))) => x := Val(l);
    case Some(FieldMatch(_, WireOptional(v))) => x := Val(v);
  }

  /** Two masked bits are told apart by a bit, when they differ. */
  function BitApart(d: nat, c: nat, d': nat, c': nat): (b: nat)
    requires d <= c <= 1 && d' <= c' <= 1 && (d != d' || c != c')
    ensures b <= 1 && (Bit(b, c) == d) != (Bit(b, c') == d')
  {
    if c == 1 && c' == 1 then d else if c == 1 then 1 - d else 1 - d'
  }

  lemma MaskedHalves(v: nat, m: nat)
    requires And(v, m) == v
    ensures And(v / 2, m / 2) == v / 2 && v % 2 <= m % 2
  {
    AndStep(v, m);
  }

  /** Matching bit by bit: the last bit, and all the others. */
  lemma MatchSplits(y: nat, b: nat, v: nat, m: nat)
    requires b <= 1 && And(v, m) == v
    ensures And(2 * y + b, m) == v <==> And(y, m / 2) == v / 2 && Bit(b, m % 2) == v % 2
  {
    hide And;
    AndDigits(2 * y + b, y, b, m, m / 2, m % 2);
  }

  /** A number that tells the upper bits apart extends by a last bit. */
  lemma ApartAbove(y: nat, v: nat, m: nat, v': nat, m': nat) returns (b: nat)
    requires And(v, m) == v && And(v', m') == v'
    requires (And(y, m / 2) == v / 2) != (And(y, m' / 2) == v' / 2)
    ensures b <= 1 && (And(2 * y + b, m) == v) != (And(2 * y + b, m') == v')
  {
    hide And;
    MaskedHalves(v, m);
    MaskedHalves(v', m');
    b := if And(y, m / 2) == v / 2 then v % 2 else v' % 2;
    MatchSplits(y, b, v, m);
    MatchSplits(y, b, v', m');
  }

  /** When only the last bits differ, a last bit tells them apart. */
  lemma ApartLast(v: nat, m: nat, v': nat, m': nat) returns (b: nat)
    requires And(v, m) == v && And(v', m') == v'
    requires v / 2 == v' / 2 && m / 2 == m' / 2 && (v != v' || m != m')
    ensures b <= 1 && (And(2 * (v / 2) + b, m) == v) != (And(2 * (v / 2) + b, m') == v')
  {
    hide And;
    MaskedHalves(v, m);
    MaskedHalves(v', m');
    b := BitApart(v % 2, m % 2, v' % 2, m' % 2);
    MatchSplits(v / 2, b, v, m);
    MatchSplits(v / 2, b, v', m');
  }

  /** Two different masked values are told apart by some number of the width. */
  lemma {:induction false} TernaryApart(v: nat, m: nat, v': nat, m': nat, w: nat) returns (x: nat)
    requires And(v, m) == v && And(v', m') == v' && m < Pow2(w) && m' < Pow2(w)
    requires v != v' || m != m'
    ensures x < Pow2(w) && (And(x, m) == v) != (And(x, m') == v')
    decreases w
  {
    if w == 0 {
      assert false;
    } else if v / 2 == v' / 2 && m / 2 == m' / 2 {
      var b := ApartLast(v, m, v', m');
      x := 2 * (v / 2) + b;
      MaskedBelow(v, m, w);
    } else {
      MaskedHalves(v, m);
      MaskedHalves(v', m');
      hide And;
      var y := TernaryApart(v / 2, m / 2, v' / 2, m' / 2, w - 1);
      var b := ApartAbove(y, v, m, v', m');
      x := 2 * y + b;
    }
  }

  lemma MaskedBelow(v: nat, m: nat, w: nat)
    requires And(v, m) == v && m < Pow2(w) && 0 < w
    ensures 2 * (v / 2) + 1 < Pow2(w)
  {
    AndCommutes(v, m);
  }

  lemma {:induction false} FloorApart(v: nat, k: nat, v': nat, k': nat, w: nat) returns (x: nat)
    requires Floor(v, k) == v && Floor(v', k') == v' && v < Pow2(w) && v' < Pow2(w) && k <= w && k' <= w
    requires v != v' || k != k'
    ensures x < Pow2(w) && (Floor(x, k) == v) != (Floor(x, k') == v')
  {
    hide And, Floor, HighMask;
    AndHighMask(v, w, k);
    AndHighMask(v', w, k');
    HighMaskBelow(w, k);
    HighMaskBelow(w, k');
    HighMaskApart(w, k, k');
    x := TernaryApart(v, HighMask(w, k), v', HighMask(w, k'), w);
    AndHighMask(x, w, k);
    AndHighMask(x, w, k');
  }

  lemma HighMaskBelow(w: nat, k: nat)
    requires k <= w
    ensures HighMask(w, k) < Pow2(w)
  {
  }

  lemma HighMaskApart(w: nat, k: nat, k': nat)
    requires k <= w && k' <= w
    ensures HighMask(w, k) == HighMask(w, k') <==> k == k'
  {
    if k < k' {
      Pow2Monotone(k, k');
    } else if k' < k {
      Pow2Monotone(k', k);
    }
  }

  /** Different normal forms of one field match different sets of values. */
  lemma Apart(mf: FieldDef, a: Option<FieldMatch>, b: Option<FieldMatch>) returns (x: nat)
    requires 0 < mf.bitwidth && Normal(mf, a) && Normal(mf, b) && a != b
    ensures x < Pow2(mf.bitwidth) && Matches(a, x, mf.bitwidth) != Matches(b, x, mf.bitwidth)
  {
    if b.None? {
      x := NotEverything(mf, a);
    } else if a.None? {
      x := NotEverything(mf, b);
    } else {
      x := ApartKinds(mf, a.value.kind, b.value.kind);
    }
  }

  /** Only the omitted field matches every value. */
  lemma NotEverything(mf: FieldDef, a: Option<FieldMatch>) returns (x: nat)
    requires 0 < mf.bitwidth && Normal(mf, a) && a.Some?
    ensures x < Pow2(mf.bitwidth) && !Matches(a, x, mf.bitwidth)
  {
    var w: nat := mf.bitwidth;
    match a.value.kind
    case WireExact(v) => x := if Val(v) == 0 then 1 else 0;
    case WireLpm(v, p) =>
      FloorZeroTest(0, w);
      x := FloorApart(Val(v), w - p, 0, w, w);
      FloorZeroTest(x, w);
      AndHighMask(x, w, w - p);
    case WireTernary(v, m) => x := TernaryApart(Val(v), Val(m), 0, 0, w);
    case WireRange(l, h) => x := if Val(l) == 0 then Pow2(w) - 1 else 0;
    case WireOptional(v) => x := if Val(v) == 0 then 1 else 0;
  }

  lemma ApartKinds(mf: FieldDef, a: WireKind, b: WireKind) returns (x: nat)
    requires 0 < mf.bitwidth && a != b
    requires Normal(mf, Some(FieldMatch(mf.id, a))) && Normal(mf, Some(FieldMatch(mf.id, b)))
    ensures x < Pow2(mf.bitwidth) && WireMatches(a, x, mf.bitwidth) != WireMatches(b, x, mf.bitwidth)
  {
    var w: nat := mf.bitwidth;
    match a
    case WireExact(v) => SameBytes(v, b.value); x := Val(v);
    case WireLpm(v, p) =>
      SameBytes(v, b.value);
      x := FloorApart(Val(v), w - p, Val(b.value), w - b.prefixLen, w);
      AndHighMask(x, w, w - p);
      AndHighMask(x, w, w - b.prefixLen);
    case WireTernary(v, m) =>
      SameBytes(v, b.value);
      SameBytes(m, b.mask);
      x := TernaryApart(Val(v), Val(m), Val(b.value), Val(b.mask), w);
    case WireRange(l, h) =>
      SameBytes(l, b.low);
      SameBytes(h, b.high);
      x := if Val(l) < Val(b.low) then Val(l)
           else if Val(b.low) < Val(l) then Val(b.low)
           else if Val(h) < Val(b.high) then Val(b.high) else Val(h);
    case WireOptional(v) => SameBytes(v, b.value); x := Val(v);
  }

  lemma SameBytes(a: seq<byte>, b: seq<byte>)
    requires Canonical(a) && Canonical(b)
    ensures Val(a) == Val(b) <==> a == b
  {
    CanonVal(a);
    CanonVal(b);
  }

  /** A field is left out of the key exactly when the caller's specification matches every value. */
  lemma OmittedIffWildcard(mf: FieldDef, mv: MatchValue)
    requires 0 < mf.bitwidth && FieldKey(mf, mv).Ok?
    ensures FieldKey(mf, mv).value.None? <==> forall x: nat :: x < Pow2(mf.bitwidth) ==> Means(mv, x, mf.bitwidth)
  {
    KeyIsNormal(mf, mv);
    forall x: nat | x < Pow2(mf.bitwidth)
      ensures Matches(FieldKey(mf, mv).value, x, mf.bitwidth) <==> Means(mv, x, mf.bitwidth)
    {
      MeaningPreserved(mf, mv, x);
    }
    if FieldKey(mf, mv).value.Some? {
      var x := NotEverything(mf, FieldKey(mf, mv).value);
    }
  }
}
