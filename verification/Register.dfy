/**
 register: normalizing a typed P4Data value against P4Info.

 Type specifications are a graph: a node stands for one P4DataTypeSpec message, and named types lead to further
 nodes through the tables, possibly in a cycle. Where the messages hold a pointer that may be nil, or a oneof
 that may be unset, the datatypes below have an Option or a Missing constructor.
 */
module Register {
  import opened Bytes
  import opened MatchField
  import opened Numeric
  import opened Wrappers

  type Node = int

  datatype BitSpec = MissingBits | BitType(bit: Option<int32>) | IntType(int_: Option<int32>)
      | VarbitType(maximum: Option<int32>) | OtherBits

  datatype Stack = Stack(name: string, size: int32)

  datatype Spec =
    | MissingSpec | OtherSpec
    | NewTypeSpec(name: string)
    | BitstringSpec(bits: BitSpec)
    | BoolSpec(declared: bool)
    | TupleSpec(members: Option<seq<Option<Node>>>)
    | StructSpec(name: string)
    | HeaderSpec(name: string)
    | UnionSpec(name: string)
    | StackSpec(stack: Option<Stack>)
    | UnionStackSpec(stack: Option<Stack>)
    | EnumSpec(name: string)
    | ErrorSpec(declared: bool)
    | SerializableSpec(name: string)

  datatype NewType =
    | MissingRepresentation
    | Original(spec: Option<Node>)
    | MissingTranslation
    | SdnString(declared: bool)
    | SdnBitwidth(width: int32)

  datatype UnionMember = UnionMember(name: string, header: string)

  /** P4TypeInfo, with the nodes of all type specifications. */
  datatype Types = Types(
    nodes: map<Node, Spec>,
    structs: map<string, seq<Option<Node>>>,
    headers: map<string, seq<BitSpec>>,
    unions: map<string, seq<UnionMember>>,
    enums: map<string, seq<string>>,
    errors: Option<seq<string>>,
    serializable: map<string, Option<int32>>,
    newTypes: map<string, NewType>)

  datatype HeaderData = HeaderData(valid: bool, fields: seq<seq<byte>>)
  datatype UnionData = UnionData(validName: string, header: Option<HeaderData>)
  datatype VarbitData = VarbitData(bitwidth: int32, bytes: seq<byte>)

  datatype Data =
    | Missing
    | BitstringData(bytes: seq<byte>)
    | VarbitOf(varbit: Option<VarbitData>)
    | BoolOf(value: bool)
    | TupleOf(members: Option<seq<Data>>)
    | StructOf(members: Option<seq<Data>>)
    | HeaderOf(header: Option<HeaderData>)
    | UnionOf(union: Option<UnionData>)
    | StackOf(entries: Option<seq<Option<HeaderData>>>)
    | UnionStackOf(unions: Option<seq<Option<UnionData>>>)
    | EnumOf(name: string)
    | ErrorOf(name: string)
    | EnumValueOf(bytes: seq<byte>)

  datatype DataError = NoType | NoValue | Recursive | IntegersOnly | Undeclared | Mismatch | Width

  type Normal = Result<Data, DataError>

  // ---------------------------------------------------------------- bitstrings and headers

  function FromBytes(o: Option<seq<byte>>): Normal {
    if o.Some? then Ok(BitstringData(o.value)) else Err(Width)
  }

  /** What bitstring promises. */
  function BitstringResult(spec: BitSpec, value: Data, integerOnly: bool): Normal {
    match spec
    case MissingBits => Err(NoType)
    case VarbitType(maximum) =>
      if integerOnly then Err(IntegersOnly)
      else if !value.VarbitOf? || value.varbit.None? || maximum.None? then Err(Mismatch)
      else
        var v := value.varbit.value;
        if v.bitwidth < 0 || v.bitwidth > maximum.value || |v.bytes| != (v.bitwidth + 7) / 8 then Err(Mismatch)
        else if Unsigned(v.bytes, v.bitwidth).None? then Err(Width)
        else Ok(value)
    case BitType(width) =>
      if !value.BitstringData? then Err(Mismatch)
      else if width.None? then Err(NoType)
      else FromBytes(Unsigned(value.bytes, width.value))
    case IntType(width) =>
      if !value.BitstringData? then Err(Mismatch)
      else if width.None? then Err(NoType)
      else FromBytes(Signed(value.bytes, width.value))
    case OtherBits => if !value.BitstringData? then Err(Mismatch) else Err(NoType)
  }

  /** One field of a valid header; a varbit has no width of its own there. */
  function HeaderField(spec: BitSpec, field: seq<byte>): Result<seq<byte>, DataError> {
    if spec.VarbitType? then Err(Mismatch)
    else
      var r := BitstringResult(spec, BitstringData(field), true);
      if r.Err? then Err(r.error) else Ok(r.value.bytes)
  }

  function HeaderFields(specs: seq<BitSpec>, fields: seq<seq<byte>>): Result<seq<seq<byte>>, DataError>
    requires |specs| == |fields|
  {
    if specs == [] then Ok([])
    else
      var n := |specs| - 1;
      var front := HeaderFields(specs[..n], fields[..n]);
      if front.Err? then front
      else
        var last := HeaderField(specs[n], fields[n]);
        if last.Err? then Err(last.error) else Ok(front.value + [last.value])
  }

  /** What header promises. */
  function HeaderResult(t: Types, name: string, value: Option<HeaderData>): Result<HeaderData, DataError> {
    if name == "" || name !in t.headers then Err(Undeclared)
    else if value.None? then Err(NoValue)
    else if !value.value.valid then if value.value.fields != [] then Err(Mismatch) else Ok(HeaderData(false, []))
    else if |value.value.fields| != |t.headers[name]| then Err(Mismatch)
    else
      var fields := HeaderFields(t.headers[name], value.value.fields);
      if fields.Err? then Err(fields.error) else Ok(HeaderData(true, fields.value))
  }

  /** The header type of the first union member with the name, or "" without one. */
  function MemberHeader(members: seq<UnionMember>, name: string): string {
    if members == [] then "" else if members[0].name == name then members[0].header
        else MemberHeader(members[1..], name)
  }

  /** What headerUnion promises. */
  function UnionResult(t: Types, name: string, value: Option<UnionData>): Result<UnionData, DataError> {
    if name == "" || name !in t.unions then Err(Undeclared)
    else if value.None? then Err(NoValue)
    else
      var u := value.value;
      if u.validName == "" then if u.header.Some? then Err(Mismatch) else Ok(UnionData("", None))
      else
        var h := MemberHeader(t.unions[name], u.validName);
        if h == "" || u.header.None? || !u.header.value.valid then Err(Mismatch)
        else
          var r := HeaderResult(t, h, u.header);
          if r.Err? then Err(r.error) else Ok(UnionData(u.validName, Some(r.value)))
  }

  function HeaderEntries(t: Types, name: string, entries: seq<Option<HeaderData>>)
      : Result<seq<Option<HeaderData>>, DataError>
  {
    if entries == [] then Ok([])
    else
      var n := |entries| - 1;
      var front := HeaderEntries(t, name, entries[..n]);
      if front.Err? then front
      else
        var last := HeaderResult(t, name, entries[n]);
        if last.Err? then Err(last.error) else Ok(front.value + [Some(last.value)])
  }

  function UnionEntries(t: Types, name: string, entries: seq<Option<UnionData>>)
      : Result<seq<Option<UnionData>>, DataError>
  {
    if entries == [] then Ok([])
    else
      var n := |entries| - 1;
      var front := UnionEntries(t, name, entries[..n]);
      if front.Err? then front
      else
        var last := UnionResult(t, name, entries[n]);
        if last.Err? then Err(last.error) else Ok(front.value + [Some(last.value)])
  }

  /** A stack type with a nonnegative size and a declared element type. */
  predicate StackDeclared(stack: Option<Stack>, declared: set<string>) {
    stack.Some? && stack.value.size >= 0 && stack.value.name != "" && stack.value.name in declared
  }

  function StackResult(t: Types, stack: Option<Stack>, value: Data): Normal {
    if stack.None? || !value.StackOf? || value.entries.None? || stack.value.size < 0 ||
        |value.entries.value| != stack.value.size
    then Err(Mismatch)
    else if !StackDeclared(stack, t.headers.Keys) then Err(Undeclared)
    else
      var r := HeaderEntries(t, stack.value.name, value.entries.value);
      if r.Err? then Err(r.error) else Ok(StackOf(Some(r.value)))
  }

  function UnionStackResult(t: Types, stack: Option<Stack>, value: Data): Normal {
    if stack.None? || !value.UnionStackOf? || value.unions.None? || stack.value.size < 0 ||
        |value.unions.value| != stack.value.size
    then Err(Mismatch)
    else if !StackDeclared(stack, t.unions.Keys) then Err(Undeclared)
    else
      var r := UnionEntries(t, stack.value.name, value.unions.value);
      if r.Err? then Err(r.error) else Ok(UnionStackOf(Some(r.value)))
  }

  // ---------------------------------------------------------------- the recursion

  /** How many nodes are not on the current path. */
  function Unvisited(t: Types, active: set<Node>): nat {
    |t.nodes.Keys - active|
  }

  lemma VisitingShrinks(t: Types, active: set<Node>, node: Node)
    requires node in t.nodes && node !in active
    ensures Unvisited(t, active + {node}) < Unvisited(t, active)
  {
    assert t.nodes.Keys - (active + {node}) == (t.nodes.Keys - active) - {node};
  }

  /**
   What normalize promises. The measure counts the type nodes off the path and never mentions the value: the
   depth of the recursion is bounded by the type table alone.
   */
  function Norm(t: Types, active: set<Node>, spec: Option<Node>, value: Data, integerOnly: bool): Normal
    decreases Unvisited(t, active), 1, 0
  {
    if spec.None? || spec.value !in t.nodes || t.nodes[spec.value].MissingSpec? then Err(NoType)
    else if value.Missing? then Err(NoValue)
    else if spec.value in active then Err(Recursive)
    else
      VisitingShrinks(t, active, spec.value);
      NodeNorm(t, active + {spec.value}, t.nodes[spec.value], value, integerOnly)
  }

  /** One node, with itself on the path. */
  function NodeNorm(t: Types, path: set<Node>, spec: Spec, value: Data, integerOnly: bool): Normal
    decreases Unvisited(t, path), 3, 0
  {
    if spec.NewTypeSpec? then NewTypeNorm(t, path, spec.name, value, integerOnly)
    else if spec.BitstringSpec? then BitstringResult(spec.bits, value, integerOnly)
    else if integerOnly then Err(IntegersOnly)
    else if spec.TupleSpec? then
      if spec.members.None? then Err(NoType)
      else TupleResult(MembersNorm(t, path, spec.members.value, if value.TupleOf? then value.members else None))
    else if spec.StructSpec? then
      if spec.name == "" || spec.name !in t.structs then Err(Undeclared)
      else StructResult(MembersNorm(t, path, t.structs[spec.name], if value.StructOf? then value.members else None))
    else FlatNorm(t, spec, value)
  }

  function TupleResult(m: Result<seq<Data>, DataError>): Normal {
    if m.Err? then Err(m.error) else Ok(TupleOf(Some(m.value)))
  }

  function StructResult(m: Result<seq<Data>, DataError>): Normal {
    if m.Err? then Err(m.error) else Ok(StructOf(Some(m.value)))
  }

  /** The types without nested type specifications, other than bitstrings. */
  function FlatNorm(t: Types, spec: Spec, value: Data): Normal {
    match spec
    case BoolSpec(declared) => if !declared then Err(NoType) else if value.BoolOf? then Ok(value) else Err(Mismatch)
    case HeaderSpec(name) =>
      var r := HeaderResult(t, name, if value.HeaderOf? then value.header else None);
      if r.Err? then Err(r.error) else Ok(HeaderOf(Some(r.value)))
    case UnionSpec(name) =>
      var r := UnionResult(t, name, if value.UnionOf? then value.union else None);
      if r.Err? then Err(r.error) else Ok(UnionOf(Some(r.value)))
    case StackSpec(stack) => StackResult(t, stack, value)
    case UnionStackSpec(stack) => UnionStackResult(t, stack, value)
    case EnumSpec(name) =>
      if name == "" || name !in t.enums then Err(Undeclared)
      else if value.EnumOf? && value.name != "" && value.name in t.enums[name] then Ok(value)
      else Err(Mismatch)
    case ErrorSpec(declared) =>
      if declared && t.errors.Some? && value.ErrorOf? && value.name != "" && value.name in t.errors.value then Ok(value)
      else Err(Mismatch)
    case SerializableSpec(name) =>
      if name == "" || name !in t.serializable || t.serializable[name].None? then Err(Undeclared)
      else if !value.EnumValueOf? then Err(Mismatch)
      else
        var r := Unsigned(value.bytes, t.serializable[name].value);
        if r.Some? then Ok(EnumValueOf(r.value)) else Err(Width)
    case _ => Err(NoType)
  }

  function MembersNorm(t: Types, path: set<Node>, specs: seq<Option<Node>>, value: Option<seq<Data>>)
      : Result<seq<Data>, DataError>
    decreases Unvisited(t, path), 2, |specs|
  {
    if value.None? || |value.value| != |specs| then Err(Mismatch)
    else if specs == [] then Ok([])
    else
      var n := |specs| - 1;
      var front := MembersNorm(t, path, specs[..n], Some(value.value[..n]));
      if front.Err? then front
      else
        var last := Norm(t, path, specs[n], value.value[n], false);
        if last.Err? then Err(last.error) else Ok(front.value + [last.value])
  }

  function NewTypeNorm(t: Types, path: set<Node>, name: string, value: Data, integerOnly: bool): Normal
    decreases Unvisited(t, path), 2, 0
  {
    if name == "" || name !in t.newTypes then Err(Undeclared)
    else match t.newTypes[name]
      case MissingRepresentation => Err(Undeclared)
      case Original(spec) => Norm(t, path, spec, value, integerOnly)
      case MissingTranslation => Err(Undeclared)
      case SdnString(declared) =>
        if !value.BitstringData? then Err(Mismatch)
        else if !declared || integerOnly then Err(IntegersOnly)
        else Ok(value)
      case SdnBitwidth(width) =>
        if !value.BitstringData? then Err(Mismatch)
        else if width <= 0 then Err(Width)
        else FromBytes(Unsigned(value.bytes, width))
  }

  // ---------------------------------------------------------------- the normalizer

  class DataNormalizer {
    const types: Types
    var active: set<Node>

    constructor (types: Types)
      ensures this.types == types && active == {}
    {
      this.types := types;
      active := {};
    }

    method Normalize(spec: Option<Node>, value: Data, integerOnly: bool) returns (r: Normal)
      modifies this
      ensures active == old(active)
      ensures r == Norm(types, old(active), spec, value, integerOnly)
      decreases Unvisited(types, active), 1, 0
    {
      if spec.None? || spec.value !in types.nodes || types.nodes[spec.value].MissingSpec? {
        return Err(NoType);
      }
      if value.Missing? {
        return Err(NoValue);
      }
      if spec.value in active {
        return Err(Recursive);
      }
      VisitingShrinks(types, active, spec.value);
      ghost var before := active;
      active := active + {spec.value};
      r := NormalizeNode(types.nodes[spec.value], value, integerOnly);
      active := active - {spec.value};
      assert active == before;
    }

    /** The body of normalize between entering the node and its deferred removal from active. */
    method NormalizeNode(spec: Spec, value: Data, integerOnly: bool) returns (r: Normal)
      requires !spec.MissingSpec? && !value.Missing?
      modifies this
      ensures active == old(active)
      ensures r == NodeNorm(types, active, spec, value, integerOnly)
      decreases Unvisited(types, active), 4, 0
    {
      if spec.NewTypeSpec? {
        r := NewType(spec.name, value, integerOnly);
        return;
      }
      if integerOnly && !spec.BitstringSpec? {
        return Err(IntegersOnly);
      }
      if spec.BitstringSpec? {
        r := Bitstring(spec.bits, value, integerOnly);
      } else if spec.TupleSpec? {
        if spec.members.None? {
          return Err(NoType);
        }
        var m := Members(spec.members.value, if value.TupleOf? then value.members else None);
        return TupleResult(m);
      } else if spec.StructSpec? {
        if spec.name == "" || spec.name !in types.structs {
          return Err(Undeclared);
        }
        var m := Members(types.structs[spec.name], if value.StructOf? then value.members else None);
        return StructResult(m);
      } else {
        r := Flat(spec, value);
      }
    }

    method Members(specs: seq<Option<Node>>, value: Option<seq<Data>>) returns (r: Result<seq<Data>, DataError>)
      modifies this
      ensures active == old(active)
      ensures r == MembersNorm(types, active, specs, value)
      decreases Unvisited(types, active), 3, 0
    {
      if value.None? || |value.value| != |specs| {
        return Err(Mismatch);
      }
      var out := [];
      for i := 0 to |specs|
        invariant active == old(active)
        invariant MembersNorm(types, active, specs[..i], Some(value.value[..i])) == Ok(out)
      {
        var data := Normalize(specs[i], value.value[i], false);
        assert specs[..i + 1][..i] == specs[..i] && value.value[..i + 1][..i] == value.value[..i];
        if data.Err? {
          MembersFail(types, active, specs, value.value, i + 1);
          return Err(data.error);
        }
        out := out + [data.value];
      }
      assert specs[..|specs|] == specs && value.value[..|specs|] == value.value;
      return Ok(out);
    }

    method NewType(name: string, value: Data, integerOnly: bool) returns (r: Normal)
      modifies this
      ensures active == old(active)
      ensures r == NewTypeNorm(types, active, name, value, integerOnly)
      decreases Unvisited(types, active), 2, 0
    {
      if name == "" || name !in types.newTypes {
        return Err(Undeclared);
      }
      match types.newTypes[name] {
        case MissingRepresentation => return Err(Undeclared);
        case Original(spec) => r := Normalize(spec, value, integerOnly);
        case MissingTranslation => return Err(Undeclared);
        case SdnString(declared) =>
          if !value.BitstringData? {
            return Err(Mismatch);
          }
          if !declared || integerOnly {
            return Err(IntegersOnly);
          }
          return Ok(value);
        case SdnBitwidth(width) =>
          if !value.BitstringData? {
            return Err(Mismatch);
          }
          if width <= 0 {
            return Err(Width);
          }
          var e := UnsignedBytes(value.bytes, width);
          return FromBytes(e);
      }
    }

    method Bitstring(spec: BitSpec, value: Data, integerOnly: bool) returns (r: Normal)
      ensures r == BitstringResult(spec, value, integerOnly)
    {
      if spec.MissingBits? {
        return Err(NoType);
      }
      if spec.VarbitType? {
        if integerOnly {
          return Err(IntegersOnly);
        }
        if !value.VarbitOf? || value.varbit.None? || spec.maximum.None? {
          return Err(Mismatch);
        }
        var v := value.varbit.value;
        if v.bitwidth < 0 || v.bitwidth > spec.maximum.value || |v.bytes| != (v.bitwidth + 7) / 8 {
          return Err(Mismatch);
        }
        var e := UnsignedBytes(v.bytes, v.bitwidth);
        if e.None? {
          return Err(Width);
        }
        return Ok(VarbitOf(Some(VarbitData(v.bitwidth, v.bytes))));
      }
      if !value.BitstringData? {
        return Err(Mismatch);
      }
      var encoded: Option<seq<byte>>;
      if spec.BitType? {
        if spec.bit.None? {
          return Err(NoType);
        }
        encoded := UnsignedBytes(value.bytes, spec.bit.value);
      } else if spec.IntType? {
        if spec.int_.None? {
          return Err(NoType);
        }
        encoded := SignedBytes(value.bytes, spec.int_.value);
      } else {
        return Err(NoType);
      }
      return FromBytes(encoded);
    }

    method Flat(spec: Spec, value: Data) returns (r: Normal)
      ensures r == FlatNorm(types, spec, value)
    {
      if spec.BoolSpec? {
        if !spec.declared {
          return Err(NoType);
        }
        if !value.BoolOf? {
          return Err(Mismatch);
        }
        return Ok(BoolOf(value.value));
      }
      if spec.HeaderSpec? {
        var h := Header(spec.name, if value.HeaderOf? then value.header else None);
        return if h.Err? then Err(h.error) else Ok(HeaderOf(Some(h.value)));
      }
      if spec.UnionSpec? {
        var u := HeaderUnion(spec.name, if value.UnionOf? then value.union else None);
        return if u.Err? then Err(u.error) else Ok(UnionOf(Some(u.value)));
      }
      if spec.StackSpec? {
        r := HeaderStack(spec.stack, value);
        return;
      }
      if spec.UnionStackSpec? {
        r := HeaderUnionStack(spec.stack, value);
        return;
      }
      if spec.EnumSpec? {
        if spec.name == "" || spec.name !in types.enums {
          return Err(Undeclared);
        }
        if !value.EnumOf? || value.name == "" || value.name !in types.enums[spec.name] {
          return Err(Mismatch);
        }
        return Ok(EnumOf(value.name));
      }
      if spec.ErrorSpec? {
        if !spec.declared || types.errors.None? || !value.ErrorOf? || value.name == "" ||
            value.name !in types.errors.value
        {
          return Err(Mismatch);
        }
        return Ok(ErrorOf(value.name));
      }
      if spec.SerializableSpec? {
        if spec.name == "" || spec.name !in types.serializable || types.serializable[spec.name].None? {
          return Err(Undeclared);
        }
        if !value.EnumValueOf? {
          return Err(Mismatch);
        }
        var e := UnsignedBytes(value.bytes, types.serializable[spec.name].value);
        return if e.Some? then Ok(EnumValueOf(e.value)) else Err(Width);
      }
      return Err(NoType);
    }

    method Header(name: string, value: Option<HeaderData>) returns (r: Result<HeaderData, DataError>)
      ensures r == HeaderResult(types, name, value)
    {
      if name == "" || name !in types.headers {
        return Err(Undeclared);
      }
      if value.None? {
        return Err(NoValue);
      }
      if !value.value.valid {
        if |value.value.fields| != 0 {
          return Err(Mismatch);
        }
        return Ok(HeaderData(false, []));
      }
      var decl, fields := types.headers[name], value.value.fields;
      if |fields| != |decl| {
        return Err(Mismatch);
      }
      var out := [];
      for i := 0 to |decl|
        invariant HeaderFields(decl[..i], fields[..i]) == Ok(out)
      {
        assert decl[..i + 1][..i] == decl[..i] && fields[..i + 1][..i] == fields[..i];
        if decl[i].VarbitType? {
          FieldsFail(decl, fields, i + 1);
          return Err(Mismatch);
        }
        var data := Bitstring(decl[i], BitstringData(fields[i]), true);
        if data.Err? {
          FieldsFail(decl, fields, i + 1);
          return Err(data.error);
        }
        out := out + [data.value.bytes];
      }
      assert decl[..|decl|] == decl && fields[..|decl|] == fields;
      return Ok(HeaderData(true, out));
    }

    method HeaderUnion(name: string, value: Option<UnionData>) returns (r: Result<UnionData, DataError>)
      ensures r == UnionResult(types, name, value)
    {
      if name == "" || name !in types.unions {
        return Err(Undeclared);
      }
      if value.None? {
        return Err(NoValue);
      }
      var u := value.value;
      if u.validName == "" {
        if u.header.Some? {
          return Err(Mismatch);
        }
        return Ok(UnionData("", None));
      }
      var members := types.unions[name];
      var headerName := "";
      var i := 0;
      while i < |members|
        invariant i <= |members|
        invariant headerName == "" && MemberHeader(members, u.validName) == MemberHeader(members[i..], u.validName)
      {
        if members[i].name == u.validName {
          headerName := members[i].header;
          break;
        }
        assert members[i..][1..] == members[i + 1..];
        i := i + 1;
      }
      assert headerName == MemberHeader(members, u.validName);
      if headerName == "" || u.header.None? || !u.header.value.valid {
        return Err(Mismatch);
      }
      var h := Header(headerName, u.header);
      return if h.Err? then Err(h.error) else Ok(UnionData(u.validName, Some(h.value)));
    }

    method HeaderStack(stack: Option<Stack>, value: Data) returns (r: Normal)
      ensures r == StackResult(types, stack, value)
    {
      if stack.None? || !value.StackOf? || value.entries.None? || stack.value.size < 0 ||
          |value.entries.value| != stack.value.size
      {
        return Err(Mismatch);
      }
      var name, entries := stack.value.name, value.entries.value;
      if name == "" || name !in types.headers {
        return Err(Undeclared);
      }
      var out := [];
      for i := 0 to |entries|
        invariant HeaderEntries(types, name, entries[..i]) == Ok(out)
      {
        assert entries[..i + 1][..i] == entries[..i];
        var header := Header(name, entries[i]);
        if header.Err? {
          EntriesFail(types, name, entries, i + 1);
          return Err(header.error);
        }
        out := out + [Some(header.value)];
      }
      assert entries[..|entries|] == entries;
      return Ok(StackOf(Some(out)));
    }

    method HeaderUnionStack(stack: Option<Stack>, value: Data) returns (r: Normal)
      ensures r == UnionStackResult(types, stack, value)
    {
      if stack.None? || !value.UnionStackOf? || value.unions.None? || stack.value.size < 0 ||
          |value.unions.value| != stack.value.size
      {
        return Err(Mismatch);
      }
      var name, entries := stack.value.name, value.unions.value;
      if name == "" || name !in types.unions {
        return Err(Undeclared);
      }
      var out := [];
      for i := 0 to |entries|
        invariant UnionEntries(types, name, entries[..i]) == Ok(out)
      {
        assert entries[..i + 1][..i] == entries[..i];
        var union := HeaderUnion(name, entries[i]);
        if union.Err? {
          UnionsFail(types, name, entries, i + 1);
          return Err(union.error);
        }
        out := out + [Some(union.value)];
      }
      assert entries[..|entries|] == entries;
      return Ok(UnionStackOf(Some(out)));
    }
  }

  // The first failure decides the result of each of the loops.

  lemma {:induction false} MembersFail(t: Types, path: set<Node>, specs: seq<Option<Node>>, values: seq<Data>, k: nat)
    requires |specs| == |values| && k <= |specs| && MembersNorm(t, path, specs[..k], Some(values[..k])).Err?
    ensures MembersNorm(t, path, specs, Some(values)) == MembersNorm(t, path, specs[..k], Some(values[..k]))
    decreases |specs|
  {
    var n := |specs|;
    if k == n {
      assert specs[..k] == specs && values[..k] == values;
    } else {
      assert specs[..n - 1][..k] == specs[..k] && values[..n - 1][..k] == values[..k];
      MembersFail(t, path, specs[..n - 1], values[..n - 1], k);
    }
  }

  lemma {:induction false} FieldsFail(specs: seq<BitSpec>, fields: seq<seq<byte>>, k: nat)
    requires |specs| == |fields| && k <= |specs| && HeaderFields(specs[..k], fields[..k]).Err?
    ensures HeaderFields(specs, fields) == HeaderFields(specs[..k], fields[..k])
    decreases |specs|
  {
    var n := |specs|;
    if k == n {
      assert specs[..k] == specs && fields[..k] == fields;
    } else {
      assert specs[..n - 1][..k] == specs[..k] && fields[..n - 1][..k] == fields[..k];
      FieldsFail(specs[..n - 1], fields[..n - 1], k);
    }
  }

  lemma {:induction false} EntriesFail(t: Types, name: string, entries: seq<Option<HeaderData>>, k: nat)
    requires k <= |entries| && HeaderEntries(t, name, entries[..k]).Err?
    ensures HeaderEntries(t, name, entries) == HeaderEntries(t, name, entries[..k])
    decreases |entries|
  {
    var n := |entries|;
    if k == n {
      assert entries[..k] == entries;
    } else {
      assert entries[..n - 1][..k] == entries[..k];
      EntriesFail(t, name, entries[..n - 1], k);
    }
  }

  lemma {:induction false} UnionsFail(t: Types, name: string, entries: seq<Option<UnionData>>, k: nat)
    requires k <= |entries| && UnionEntries(t, name, entries[..k]).Err?
    ensures UnionEntries(t, name, entries) == UnionEntries(t, name, entries[..k])
    decreases |entries|
  {
    var n := |entries|;
    if k == n {
      assert entries[..k] == entries;
    } else {
      assert entries[..n - 1][..k] == entries[..k];
      UnionsFail(t, name, entries[..n - 1], k);
    }
  }
}
