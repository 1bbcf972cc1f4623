/**
 What the values accepted by the normalizer denote.

 Everything here is stated on types unfolded into finite trees, without a set of active specifications, without an
 order of evaluation and without error values: which tree a specification stands for, which data a tree accepts,
 what accepted data denotes and when data is in its normal form.
 */
module RegisterMeaning {
  import opened Bits
  import opened Bytes
  import Codec
  import opened Numeric
  import opened Register
  import opened Wrappers

  datatype NumberType = UnsignedType(width: nat) | SignedType(width: nat)

  /** The fields of a header; None for one that no value can have. */
  type HeaderType = seq<Option<NumberType>>

  datatype Ty =
    | TNumber(number: NumberType)
    | TVarbit(maximum: int)
    | TText
    | TBool
    | TProduct(isTuple: bool, members: seq<Ty>)
    | TNew(base: Ty)
    | THeader(fields: HeaderType)
    | TUnion(alternatives: map<string, HeaderType>)
    | TStack(size: nat, fields: HeaderType)
    | TUnionStack(size: nat, alternatives: map<string, HeaderType>)
    | TEnum(names: seq<string>)
    | TError(names: seq<string>)
    | TSerializable(width: nat)

  datatype HeaderMeaning = Invalid | Fields(numbers: seq<int>)

  datatype UnionMeaning = NoneValid | Chosen(name: string, header: HeaderMeaning)

  datatype Den =
    | Number(n: int)
    | Varbit(width: int, n: int)
    | Text(bytes: seq<byte>)
    | Truth(value: bool)
    | Product(members: seq<Den>)
    | Header(header: HeaderMeaning)
    | Union(union: UnionMeaning)
    | Headers(headers: seq<HeaderMeaning>)
    | Unions(unions: seq<UnionMeaning>)
    | Symbol(name: string)

  // ---------------------------------------------------------------- the tree of a specification

  function BitsType(spec: BitSpec): Option<NumberType> {
    if spec.BitType? && spec.bit.Some? && spec.bit.value >= 0 then Some(UnsignedType(spec.bit.value))
    else if spec.IntType? && spec.int_.Some? && spec.int_.value > 0 then Some(SignedType(spec.int_.value))
    else None
  }

  function HeaderFieldTypes(specs: seq<BitSpec>): HeaderType {
    seq(|specs|, i requires 0 <= i < |specs| => BitsType(specs[i]))
  }

  /** The declared alternatives of a union by name; the first of several members with one name counts. */
  function Alternatives(t: Types, members: seq<UnionMember>): map<string, HeaderType> {
    if members == [] then map[]
    else
      var rest := Alternatives(t, members[1..]);
      var m := members[0];
      if m.header != "" && m.header in t.headers then rest[m.name := HeaderFieldTypes(t.headers[m.header])]
      else rest - {m.name}
  }

  /** The type tree ty is what the specification stands for: a finite unfolding of the type graph from the node. */
  ghost predicate HasType(t: Types, spec: Option<Node>, ty: Ty)
    decreases ty
  {
    spec.Some? && spec.value in t.nodes &&
    match t.nodes[spec.value]
    case NewTypeSpec(name) =>
      name != "" && name in t.newTypes && NewTypeHas(t, t.newTypes[name], ty)
    case BitstringSpec(bits) =>
      if bits.VarbitType? then bits.maximum.Some? && ty == TVarbit(bits.maximum.value)
      else ty.TNumber? && BitsType(bits) == Some(ty.number)
    case BoolSpec(declared) => declared && ty.TBool?
    case TupleSpec(members) => members.Some? && ty.TProduct? && ty.isTuple && MembersHave(t, members.value, ty.members)
    case StructSpec(name) =>
      name != "" && name in t.structs && ty.TProduct? && !ty.isTuple && MembersHave(t, t.structs[name], ty.members)
    case HeaderSpec(name) => name != "" && name in t.headers && ty == THeader(HeaderFieldTypes(t.headers[name]))
    case UnionSpec(name) => name != "" && name in t.unions && ty == TUnion(Alternatives(t, t.unions[name]))
    case StackSpec(stack) =>
      stack.Some? && stack.value.size >= 0 && stack.value.name != "" && stack.value.name in t.headers &&
      ty == TStack(stack.value.size, HeaderFieldTypes(t.headers[stack.value.name]))
    case UnionStackSpec(stack) =>
      stack.Some? && stack.value.size >= 0 && stack.value.name != "" && stack.value.name in t.unions &&
      ty == TUnionStack(stack.value.size, Alternatives(t, t.unions[stack.value.name]))
    case EnumSpec(name) => name != "" && name in t.enums && ty == TEnum(t.enums[name])
    case ErrorSpec(declared) => declared && t.errors.Some? && ty == TError(t.errors.value)
    case SerializableSpec(name) =>
      name != "" && name in t.serializable && t.serializable[name].Some? && t.serializable[name].value >= 0 &&
      ty == TSerializable(t.serializable[name].value)
    case MissingSpec => false
    case OtherSpec => false
  }

  ghost predicate MembersHave(t: Types, specs: seq<Option<Node>>, tys: seq<Ty>)
    decreases tys, 0
  {
    |specs| == |tys| && forall i :: 0 <= i < |tys| ==> HasType(t, specs[i], tys[i])
  }

  ghost predicate NewTypeHas(t: Types, decl: NewType, ty: Ty)
    decreases ty, 0
  {
    match decl
    case Original(spec) => ty.TNew? && HasType(t, spec, ty.base)
    case SdnString(declared) => declared && ty.TText?
    case SdnBitwidth(width) => width > 0 && ty == TNumber(UnsignedType(width))
    case MissingRepresentation => false
    case MissingTranslation => false
  }

  // ---------------------------------------------------------------- accepted data and its meaning

  predicate NumberFits(ty: NumberType, s: seq<byte>) {
    match ty
    case UnsignedType(width) => Val(s) < Pow2(width)
    case SignedType(width) => 0 < width && InSigned(SVal(s), width)
  }

  function NumberMeaning(ty: NumberType, s: seq<byte>): int {
    if ty.UnsignedType? then Val(s) else SVal(s)
  }

  /** No shorter byte string stands for the number. */
  predicate NumberShortest(ty: NumberType, s: seq<byte>) {
    if ty.UnsignedType? then Canonical(s) else Shortest(s)
  }

  predicate HeaderFits(h: HeaderType, v: Option<HeaderData>) {
    v.Some? &&
    if !v.value.valid then v.value.fields == []
    else
      |v.value.fields| == |h| &&
      forall i :: 0 <= i < |h| ==> h[i].Some? && NumberFits(h[i].value, v.value.fields[i])
  }

  function MeaningOfHeader(h: HeaderType, v: Option<HeaderData>): HeaderMeaning
    requires HeaderFits(h, v)
  {
    if !v.value.valid then Invalid
    else Fields(seq(|h|, i requires 0 <= i < |h| => NumberMeaning(h[i].value, v.value.fields[i])))
  }

  predicate HeaderShortest(h: HeaderType, v: Option<HeaderData>)
    requires HeaderFits(h, v)
  {
    v.value.valid ==> forall i :: 0 <= i < |h| ==> NumberShortest(h[i].value, v.value.fields[i])
  }

  predicate UnionFits(alternatives: map<string, HeaderType>, v: Option<UnionData>) {
    v.Some? &&
    if v.value.validName == "" then v.value.header.None?
    else
      v.value.validName in alternatives && v.value.header.Some? && v.value.header.value.valid &&
      HeaderFits(alternatives[v.value.validName], v.value.header)
  }

  function MeaningOfUnion(alternatives: map<string, HeaderType>, v: Option<UnionData>): UnionMeaning
    requires UnionFits(alternatives, v)
  {
    if v.value.validName == "" then NoneValid
    else Chosen(v.value.validName, MeaningOfHeader(alternatives[v.value.validName], v.value.header))
  }

  predicate UnionShortest(alternatives: map<string, HeaderType>, v: Option<UnionData>)
    requires UnionFits(alternatives, v)
  {
    v.value.validName != "" ==> HeaderShortest(alternatives[v.value.validName], v.value.header)
  }

  function Parts(isTuple: bool, v: Data): Option<seq<Data>> {
    if isTuple then if v.TupleOf? then v.members else None
    else if v.StructOf? then v.members else None
  }

  /** The data is a value of the type. */
  predicate Fits(ty: Ty, v: Data)
    decreases ty
  {
    match ty
    case TNumber(number) => v.BitstringData? && NumberFits(number, v.bytes)
    case TVarbit(maximum) =>
      v.VarbitOf? && v.varbit.Some? &&
      var b := v.varbit.value;
      0 <= b.bitwidth <= maximum && |b.bytes| == (b.bitwidth + 7) / 8 && Val(b.bytes) < Pow2(b.bitwidth)
    case TText => v.BitstringData?
    case TBool => v.BoolOf?
    case TProduct(isTuple, members) =>
      var parts := Parts(isTuple, v);
      parts.Some? && |parts.value| == |members| && forall i :: 0 <= i < |members| ==> Fits(members[i], parts.value[i])
    case TNew(base) => Fits(base, v)
    case THeader(fields) => v.HeaderOf? && HeaderFits(fields, v.header)
    case TUnion(alternatives) => v.UnionOf? && UnionFits(alternatives, v.union)
    case TStack(size, fields) =>
      v.StackOf? && v.entries.Some? && |v.entries.value| == size &&
      forall i :: 0 <= i < size ==> HeaderFits(fields, v.entries.value[i])
    case TUnionStack(size, alternatives) =>
      v.UnionStackOf? && v.unions.Some? && |v.unions.value| == size &&
      forall i :: 0 <= i < size ==> UnionFits(alternatives, v.unions.value[i])
    case TEnum(names) => v.EnumOf? && v.name != "" && v.name in names
    case TError(names) => v.ErrorOf? && v.name != "" && v.name in names
    case TSerializable(width) => v.EnumValueOf? && Val(v.bytes) < Pow2(width)
  }

  /** What a value of the type denotes. */
  function Meaning(ty: Ty, v: Data): Den
    requires Fits(ty, v)
    decreases ty
  {
    match ty
    case TNumber(number) => Number(NumberMeaning(number, v.bytes))
    case TVarbit(maximum) => Varbit(v.varbit.value.bitwidth, Val(v.varbit.value.bytes))
    case TText => Text(v.bytes)
    case TBool => Truth(v.value)
    case TProduct(isTuple, members) =>
      var parts := Parts(isTuple, v).value;
      Product(seq(|members|, i requires 0 <= i < |members| => Meaning(members[i], parts[i])))
    case TNew(base) => Meaning(base, v)
    case THeader(fields) => Header(MeaningOfHeader(fields, v.header))
    case TUnion(alternatives) => Union(MeaningOfUnion(alternatives, v.union))
    case TStack(size, fields) =>
      Headers(seq(size, i requires 0 <= i < size => MeaningOfHeader(fields, v.entries.value[i])))
    case TUnionStack(size, alternatives) =>
      Unions(seq(size, i requires 0 <= i < size => MeaningOfUnion(alternatives, v.unions.value[i])))
    case TEnum(names) => Symbol(v.name)
    case TError(names) => Symbol(v.name)
    case TSerializable(width) => Number(Val(v.bytes))
  }

  /** Every number in the value has its shortest encoding. */
  predicate Short(ty: Ty, v: Data)
    requires Fits(ty, v)
    decreases ty
  {
    match ty
    case TNumber(number) => NumberShortest(number, v.bytes)
    case TProduct(isTuple, members) =>
      var parts := Parts(isTuple, v).value;
      forall i :: 0 <= i < |members| ==> Short(members[i], parts[i])
    case TNew(base) => Short(base, v)
    case THeader(fields) => HeaderShortest(fields, v.header)
    case TUnion(alternatives) => UnionShortest(alternatives, v.union)
    case TStack(size, fields) => forall i :: 0 <= i < size ==> HeaderShortest(fields, v.entries.value[i])
    case TUnionStack(size, alternatives) => forall i :: 0 <= i < size ==> UnionShortest(alternatives, v.unions.value[i])
    case TSerializable(width) => Canonical(v.bytes)
    case TVarbit(maximum) => true
    case TText => true
    case TBool => true
    case TEnum(names) => true
    case TError(names) => true
  }

  // ---------------------------------------------------------------- one normal form per meaning

  lemma NumberFormUnique(ty: NumberType, a: seq<byte>, b: seq<byte>)
    requires NumberShortest(ty, a) && NumberShortest(ty, b) && NumberMeaning(ty, a) == NumberMeaning(ty, b)
    ensures a == b
  {
    if ty.UnsignedType? {
      CanonVal(a);
      CanonVal(b);
    } else {
      SCanonVal(a);
      SCanonVal(b);
    }
  }

  lemma HeaderFormUnique(h: HeaderType, a: Option<HeaderData>, b: Option<HeaderData>)
    requires HeaderFits(h, a) && HeaderFits(h, b) && HeaderShortest(h, a) && HeaderShortest(h, b)
    requires MeaningOfHeader(h, a) == MeaningOfHeader(h, b)
    ensures a == b
  {
    if a.value.valid {
      var x, y := a.value.fields, b.value.fields;
      forall i | 0 <= i < |h| ensures x[i] == y[i] {
        assert MeaningOfHeader(h, a).numbers[i] == MeaningOfHeader(h, b).numbers[i];
        NumberFormUnique(h[i].value, x[i], y[i]);
      }
      assert x == y;
    }
  }

  lemma UnionFormUnique(alternatives: map<string, HeaderType>, a: Option<UnionData>, b: Option<UnionData>)
    requires UnionFits(alternatives, a) && UnionFits(alternatives, b)
    requires UnionShortest(alternatives, a) && UnionShortest(alternatives, b)
    requires MeaningOfUnion(alternatives, a) == MeaningOfUnion(alternatives, b)
    ensures a == b
  {
    if a.value.validName != "" {
      HeaderFormUnique(alternatives[a.value.validName], a.value.header, b.value.header);
    }
  }

  lemma HeadersFormUnique(h: HeaderType, a: seq<Option<HeaderData>>, b: seq<Option<HeaderData>>)
    requires |a| == |b|
    requires forall i :: 0 <= i < |a| ==>
               HeaderFits(h, a[i]) && HeaderFits(h, b[i]) && HeaderShortest(h, a[i]) && HeaderShortest(h, b[i]) &&
               MeaningOfHeader(h, a[i]) == MeaningOfHeader(h, b[i])
    ensures a == b
  {
    forall i | 0 <= i < |a| ensures a[i] == b[i] {
      HeaderFormUnique(h, a[i], b[i]);
    }
  }

  lemma UnionsFormUnique(alternatives: map<string, HeaderType>, a: seq<Option<UnionData>>, b: seq<Option<UnionData>>)
    requires |a| == |b|
    requires forall i :: 0 <= i < |a| ==>
               UnionFits(alternatives, a[i]) && UnionFits(alternatives, b[i]) &&
               UnionShortest(alternatives, a[i]) && UnionShortest(alternatives, b[i]) &&
               MeaningOfUnion(alternatives, a[i]) == MeaningOfUnion(alternatives, b[i])
    ensures a == b
  {
    forall i | 0 <= i < |a| ensures a[i] == b[i] {
      UnionFormUnique(alternatives, a[i], b[i]);
    }
  }

  /** Two values in normal form with one meaning are the same value. */
  lemma {:induction false} FormUnique(ty: Ty, a: Data, b: Data)
    requires Fits(ty, a) && Fits(ty, b) && Short(ty, a) && Short(ty, b) && Meaning(ty, a) == Meaning(ty, b)
    ensures a == b
    decreases ty
  {
    if ty.TProduct? {
      var x, y := Parts(ty.isTuple, a).value, Parts(ty.isTuple, b).value;
      forall i | 0 <= i < |ty.members| ensures x[i] == y[i] {
        assert Meaning(ty, a).members[i] == Meaning(ty, b).members[i];
        FormUnique(ty.members[i], x[i], y[i]);
      }
      assert x == y;
    } else if ty.TNew? {
      FormUnique(ty.base, a, b);
    } else {
      LeafFormUnique(ty, a, b);
    }
  }

  lemma LeafFormUnique(ty: Ty, a: Data, b: Data)
    requires !ty.TProduct? && !ty.TNew?
    requires Fits(ty, a) && Fits(ty, b) && Short(ty, a) && Short(ty, b) && Meaning(ty, a) == Meaning(ty, b)
    ensures a == b
  {
    if ty.TNumber? {
      NumberFormUnique(ty.number, a.bytes, b.bytes);
    } else if ty.TVarbit? {
      Codec.SameLengthSameValue(a.varbit.value.bytes, b.varbit.value.bytes);
    } else if ty.THeader? {
      HeaderFormUnique(ty.fields, a.header, b.header);
    } else if ty.TUnion? {
      UnionFormUnique(ty.alternatives, a.union, b.union);
    } else if ty.TStack? {
      var x, y := a.entries.value, b.entries.value;
      forall i | 0 <= i < ty.size ensures MeaningOfHeader(ty.fields, x[i]) == MeaningOfHeader(ty.fields, y[i]) {
        assert Meaning(ty, a).headers[i] == Meaning(ty, b).headers[i];
      }
      HeadersFormUnique(ty.fields, x, y);
    } else if ty.TUnionStack? {
      var x, y := a.unions.value, b.unions.value;
      forall i | 0 <= i < ty.size
          ensures MeaningOfUnion(ty.alternatives, x[i]) == MeaningOfUnion(ty.alternatives, y[i])
      {
        assert Meaning(ty, a).unions[i] == Meaning(ty, b).unions[i];
      }
      UnionsFormUnique(ty.alternatives, x, y);
    } else if ty.TSerializable? {
      NumberFormUnique(UnsignedType(ty.width), a.bytes, b.bytes);
    }
  }
}
