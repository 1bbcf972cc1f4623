/**
 The normalizer against the meaning of types and values: it accepts exactly the values of the type, keeps what they
 denote and returns the one normal form of it, for every type table, cyclic or not.
 */
module RegisterResults {
  import opened Bytes
  import opened Numeric
  import opened Register
  import opened RegisterMeaning
  import opened Wrappers

  // ---------------------------------------------------------------- numbers, headers and unions

  /** The normal form of a denotation. */
  predicate NormalForm(ty: Ty, a: Data, d: Den) {
    Fits(ty, a) && Short(ty, a) && Meaning(ty, a) == d
  }

  /** The value w is the normal form of the value v. */
  predicate NormalOf(ty: Ty, v: Data, w: Data)
    requires Fits(ty, v)
  {
    NormalForm(ty, w, Meaning(ty, v))
  }

  /** Success exactly on values of the type, with their normal form, and never a complaint about recursion. */
  predicate Exact(ty: Ty, v: Data, r: Normal) {
    (r.Ok? <==> Fits(ty, v)) && (r.Ok? ==> NormalOf(ty, v, r.value)) && (r.Err? ==> r.error != Recursive)
  }

  predicate NumberExact(ty: NumberType, s: seq<byte>, r: Result<seq<byte>, DataError>) {
    (r.Ok? <==> NumberFits(ty, s)) && (r.Err? ==> r.error != Recursive) &&
    (r.Ok? ==>
       NumberFits(ty, r.value) && NumberShortest(ty, r.value) &&
       NumberMeaning(ty, r.value) == NumberMeaning(ty, s))
  }

  predicate HeaderExact(h: HeaderType, v: Option<HeaderData>, r: Result<HeaderData, DataError>) {
    (r.Ok? <==> HeaderFits(h, v)) && (r.Err? ==> r.error != Recursive) &&
    (r.Ok? ==>
       HeaderFits(h, Some(r.value)) && HeaderShortest(h, Some(r.value)) &&
       MeaningOfHeader(h, Some(r.value)) == MeaningOfHeader(h, v))
  }

  predicate UnionExact(alternatives: map<string, HeaderType>, v: Option<UnionData>, r: Result<UnionData, DataError>) {
    (r.Ok? <==> UnionFits(alternatives, v)) && (r.Err? ==> r.error != Recursive) &&
    (r.Ok? ==>
       UnionFits(alternatives, Some(r.value)) && UnionShortest(alternatives, Some(r.value)) &&
       MeaningOfUnion(alternatives, Some(r.value)) == MeaningOfUnion(alternatives, v))
  }

  lemma NumberIsExact(spec: BitSpec, s: seq<byte>, integerOnly: bool)
    requires !spec.VarbitType?
    ensures BitsType(spec).None? ==> BitstringResult(spec, BitstringData(s), integerOnly).Err?
    ensures BitstringResult(spec, BitstringData(s), integerOnly) != Err(Recursive)
    ensures BitstringResult(spec, BitstringData(s), integerOnly).Ok? ==>
        BitstringResult(spec, BitstringData(s), integerOnly).value.BitstringData?
    ensures BitsType(spec).Some? ==>
              var r := BitstringResult(spec, BitstringData(s), integerOnly);
              NumberExact(BitsType(spec).value, s, if r.Err? then Err(r.error) else Ok(r.value.bytes))
  {
    ValCanon(Val(s));
    SValCanon(SVal(s));
  }

  lemma FieldIsExact(spec: BitSpec, s: seq<byte>)
    ensures BitsType(spec).None? ==> HeaderField(spec, s).Err?
    ensures HeaderField(spec, s) != Err(Recursive)
    ensures BitsType(spec).Some? ==> NumberExact(BitsType(spec).value, s, HeaderField(spec, s))
  {
    if !spec.VarbitType? {
      NumberIsExact(spec, s, true);
    }
  }

  lemma {:induction false} HeaderFieldsEach(specs: seq<BitSpec>, fields: seq<seq<byte>>)
    requires |specs| == |fields|
    ensures HeaderFields(specs, fields).Ok? <==> forall i :: 0 <= i < |specs| ==> HeaderField(specs[i], fields[i]).Ok?
    ensures HeaderFields(specs, fields).Ok? ==>
              |HeaderFields(specs, fields).value| == |specs| &&
              forall i :: 0 <= i < |specs| ==>
                  HeaderField(specs[i], fields[i]) == Ok(HeaderFields(specs, fields).value[i])
    ensures HeaderFields(specs, fields) != Err(Recursive)
    decreases |specs|
  {
    if specs == [] {
    } else {
      var n := |specs| - 1;
      HeaderFieldsEach(specs[..n], fields[..n]);
      FieldIsExact(specs[n], fields[n]);
      var front := HeaderFields(specs[..n], fields[..n]);
      forall i | 0 <= i < n ensures HeaderField(specs[i], fields[i]).Ok? <==>
          HeaderField(specs[..n][i], fields[..n][i]).Ok?
      {
      }
      if front.Err? {
        var i :| 0 <= i < n && HeaderField(specs[..n][i], fields[..n][i]).Err?;
        assert HeaderField(specs[i], fields[i]).Err?;
      }
    }
  }

  lemma HeaderIsExact(t: Types, name: string, v: Option<HeaderData>)
    requires name != "" && name in t.headers
    ensures HeaderExact(HeaderFieldTypes(t.headers[name]), v, HeaderResult(t, name, v))
  {
    var specs := t.headers[name];
    var h := HeaderFieldTypes(specs);
    if v.Some? && v.value.valid && |v.value.fields| == |specs| {
      var fields := v.value.fields;
      HeaderFieldsEach(specs, fields);
      forall i | 0 <= i < |h|
        ensures h[i].None? ==> HeaderField(specs[i], fields[i]).Err?
        ensures h[i].Some? ==> NumberExact(h[i].value, fields[i], HeaderField(specs[i], fields[i]))
      {
        FieldIsExact(specs[i], fields[i]);
      }
      var r := HeaderResult(t, name, v);
      if r.Ok? {
        assert MeaningOfHeader(h, Some(r.value)).numbers == MeaningOfHeader(h, v).numbers;
      } else {
        var i :| 0 <= i < |specs| && HeaderField(specs[i], fields[i]).Err?;
        assert !HeaderFits(h, v);
      }
    }
  }

  lemma {:induction false} AlternativesAreFirstMembers(t: Types, members: seq<UnionMember>, name: string)
    ensures name in Alternatives(t, members) <==>
            MemberHeader(members, name) != "" && MemberHeader(members, name) in t.headers
    ensures name in Alternatives(t, members) ==>
              Alternatives(t, members)[name] == HeaderFieldTypes(t.headers[MemberHeader(members, name)])
  {
    if members == [] {
    } else {
      AlternativesAreFirstMembers(t, members[1..], name);
    }
  }

  lemma UnionIsExact(t: Types, name: string, v: Option<UnionData>)
    requires name != "" && name in t.unions
    ensures UnionExact(Alternatives(t, t.unions[name]), v, UnionResult(t, name, v))
  {
    if v.Some? && v.value.validName != "" {
      var members, chosen := t.unions[name], v.value.validName;
      var h := MemberHeader(members, chosen);
      AlternativesAreFirstMembers(t, members, chosen);
      if h != "" && h in t.headers {
        HeaderIsExact(t, h, v.value.header);
      }
    }
  }

  lemma HeaderNotRecursive(t: Types, name: string, v: Option<HeaderData>)
    requires name != "" && name in t.headers
    ensures HeaderResult(t, name, v) != Err(Recursive)
  {
    hide HeaderResult;
    HeaderIsExact(t, name, v);
  }

  lemma {:induction false} HeaderEntriesEach(t: Types, name: string, entries: seq<Option<HeaderData>>)
    requires name != "" && name in t.headers
    ensures HeaderEntries(t, name, entries).Ok? <==> forall i :: 0 <= i < |entries| ==>
        HeaderResult(t, name, entries[i]).Ok?
    ensures HeaderEntries(t, name, entries).Ok? ==>
              |HeaderEntries(t, name, entries).value| == |entries| &&
              forall i :: 0 <= i < |entries| ==>
                HeaderResult(t, name, entries[i]).Ok? &&
                HeaderEntries(t, name, entries).value[i] == Some(HeaderResult(t, name, entries[i]).value)
    ensures HeaderEntries(t, name, entries) != Err(Recursive)
    decreases |entries|
  {
    if entries == [] {
    } else {
      hide HeaderResult;
      var n := |entries| - 1;
      HeaderEntriesEach(t, name, entries[..n]);
      HeaderNotRecursive(t, name, entries[n]);
      if HeaderEntries(t, name, entries[..n]).Err? {
        var i :| 0 <= i < n && HeaderResult(t, name, entries[..n][i]).Err?;
        assert HeaderResult(t, name, entries[i]).Err?;
      }
    }
  }

  lemma UnionNotRecursive(t: Types, name: string, v: Option<UnionData>)
    requires name != "" && name in t.unions
    ensures UnionResult(t, name, v) != Err(Recursive)
  {
    hide UnionResult;
    UnionIsExact(t, name, v);
  }

  lemma {:induction false} UnionEntriesEach(t: Types, name: string, entries: seq<Option<UnionData>>)
    requires name != "" && name in t.unions
    ensures UnionEntries(t, name, entries).Ok? <==> forall i :: 0 <= i < |entries| ==>
        UnionResult(t, name, entries[i]).Ok?
    ensures UnionEntries(t, name, entries).Ok? ==>
              |UnionEntries(t, name, entries).value| == |entries| &&
              forall i :: 0 <= i < |entries| ==>
                UnionResult(t, name, entries[i]).Ok? &&
                UnionEntries(t, name, entries).value[i] == Some(UnionResult(t, name, entries[i]).value)
    ensures UnionEntries(t, name, entries) != Err(Recursive)
    decreases |entries|
  {
    if entries == [] {
    } else {
      hide UnionResult;
      var n := |entries| - 1;
      UnionEntriesEach(t, name, entries[..n]);
      UnionNotRecursive(t, name, entries[n]);
      if UnionEntries(t, name, entries[..n]).Err? {
        var i :| 0 <= i < n && UnionResult(t, name, entries[..n][i]).Err?;
        assert UnionResult(t, name, entries[i]).Err?;
      }
    }
  }

  lemma StackIsExact(t: Types, stack: Option<Stack>, v: Data)
    requires StackDeclared(stack, t.headers.Keys)
    ensures Exact(TStack(stack.value.size, HeaderFieldTypes(t.headers[stack.value.name])), v, StackResult(t, stack, v))
  {
    var name, size := stack.value.name, stack.value.size;
    var h := HeaderFieldTypes(t.headers[name]);
    if v.StackOf? && v.entries.Some? && |v.entries.value| == size {
      var entries := v.entries.value;
      HeaderEntriesEach(t, name, entries);
      forall i | 0 <= i < size ensures HeaderExact(h, entries[i], HeaderResult(t, name, entries[i])) {
        HeaderIsExact(t, name, entries[i]);
      }
      var ty, r := TStack(size, h), StackResult(t, stack, v);
      if r.Ok? {
        assert Meaning(ty, r.value).headers == Meaning(ty, v).headers;
      } else {
        var i :| 0 <= i < |entries| && HeaderResult(t, name, entries[i]).Err?;
        assert !Fits(ty, v);
      }
    }
  }

  lemma UnionStackIsExact(t: Types, stack: Option<Stack>, v: Data)
    requires StackDeclared(stack, t.unions.Keys)
    ensures Exact(TUnionStack(stack.value.size, Alternatives(t, t.unions[stack.value.name])), v,
        UnionStackResult(t, stack, v))
  {
    var name, size := stack.value.name, stack.value.size;
    var a := Alternatives(t, t.unions[name]);
    if v.UnionStackOf? && v.unions.Some? && |v.unions.value| == size {
      var entries := v.unions.value;
      UnionEntriesEach(t, name, entries);
      forall i | 0 <= i < size ensures UnionExact(a, entries[i], UnionResult(t, name, entries[i])) {
        UnionIsExact(t, name, entries[i]);
      }
      var ty, r := TUnionStack(size, a), UnionStackResult(t, stack, v);
      if r.Ok? {
        assert Meaning(ty, r.value).unions == Meaning(ty, v).unions;
      } else {
        var i :| 0 <= i < |entries| && UnionResult(t, name, entries[i]).Err?;
        assert !Fits(ty, v);
      }
    }
  }

  /** The types that lead to no further specification. */
  predicate IsFlat(spec: Spec) {
    !spec.NewTypeSpec? && !spec.BitstringSpec? && !spec.TupleSpec? && !spec.StructSpec? && !spec.MissingSpec?
  }

  lemma FlatIsExact(t: Types, node: Node, ty: Ty, v: Data)
    requires HasType(t, Some(node), ty) && IsFlat(t.nodes[node])
    ensures Exact(ty, v, FlatNorm(t, t.nodes[node], v))
  {
    hide Exact;
    var spec := t.nodes[node];
    if spec.HeaderSpec? {
      HeaderValueIsExact(t, spec.name, v);
    } else if spec.UnionSpec? {
      UnionValueIsExact(t, spec.name, v);
    } else if spec.StackSpec? {
      StackIsExact(t, spec.stack, v);
    } else if spec.UnionStackSpec? {
      UnionStackIsExact(t, spec.stack, v);
    } else {
      ScalarIsExact(t, node, ty, v);
    }
  }

  lemma HeaderValueIsExact(t: Types, name: string, v: Data)
    requires name != "" && name in t.headers
    ensures Exact(THeader(HeaderFieldTypes(t.headers[name])), v, FlatNorm(t, HeaderSpec(name), v))
  {
    hide HeaderFits, HeaderShortest, MeaningOfHeader, HeaderResult;
    HeaderIsExact(t, name, if v.HeaderOf? then v.header else None);
    NothingFits(HeaderFieldTypes(t.headers[name]), map[]);
  }

  lemma UnionValueIsExact(t: Types, name: string, v: Data)
    requires name != "" && name in t.unions
    ensures Exact(TUnion(Alternatives(t, t.unions[name])), v, FlatNorm(t, UnionSpec(name), v))
  {
    hide UnionFits, UnionShortest, MeaningOfUnion, UnionResult;
    UnionIsExact(t, name, if v.UnionOf? then v.union else None);
    NothingFits([], Alternatives(t, t.unions[name]));
  }

  lemma NothingFits(h: HeaderType, alternatives: map<string, HeaderType>)
    ensures !HeaderFits(h, None) && !UnionFits(alternatives, None)
  {
  }

  /** bool, enums and error. */
  lemma ScalarIsExact(t: Types, node: Node, ty: Ty, v: Data)
    requires HasType(t, Some(node), ty) && IsFlat(t.nodes[node])
    requires var spec := t.nodes[node];
             !spec.HeaderSpec? && !spec.UnionSpec? && !spec.StackSpec? && !spec.UnionStackSpec?
    ensures Exact(ty, v, FlatNorm(t, t.nodes[node], v))
  {
    if t.nodes[node].SerializableSpec? && v.EnumValueOf? {
      ValCanon(Val(v.bytes));
    }
  }

  lemma BitsAreExact(t: Types, node: Node, ty: Ty, v: Data)
    requires HasType(t, Some(node), ty) && t.nodes[node].BitstringSpec?
    ensures Exact(ty, v, BitstringResult(t.nodes[node].bits, v, false))
  {
    var bits := t.nodes[node].bits;
    if !bits.VarbitType? && v.BitstringData? {
      NumberIsExact(bits, v.bytes, false);
    }
  }

  // ---------------------------------------------------------------- type trees

  /** A specification stands for at most one tree. */
  lemma {:induction false} TypeUnique(t: Types, spec: Option<Node>, a: Ty, b: Ty)
    requires HasType(t, spec, a) && HasType(t, spec, b)
    ensures a == b
    decreases a
  {
    var decl := t.nodes[spec.value];
    if a.TProduct? {
      assert b.TProduct? && a.isTuple == b.isTuple;
      forall i | 0 <= i < |a.members| ensures a.members[i] == b.members[i] {
        var part := if decl.TupleSpec? then decl.members.value[i] else t.structs[decl.name][i];
        TypeUnique(t, part, a.members[i], b.members[i]);
      }
      assert a.members == b.members;
    } else if a.TNew? {
      TypeUnique(t, t.newTypes[decl.name].spec, a.base, b.base);
    } else {
      LeafUnique(t, spec, a, b);
    }
  }

  lemma LeafUnique(t: Types, spec: Option<Node>, a: Ty, b: Ty)
    requires HasType(t, spec, a) && HasType(t, spec, b) && !a.TProduct? && !a.TNew?
    ensures a == b
  {
  }

  /** Each specification on the path stands for a tree, if for any, that properly contains ty. */
  ghost predicate Above(t: Types, path: set<Node>, ty: Ty) {
    forall a, u :: a in path && HasType(t, Some(a), u) ==> ty < u
  }

  lemma EnterNode(t: Types, path: set<Node>, node: Node, ty: Ty, part: Ty)
    requires Above(t, path, ty) && HasType(t, Some(node), ty) && part < ty
    ensures node !in path && Above(t, path + {node}, part)
  {
    forall a, u | a in path + {node} && HasType(t, Some(a), u) ensures part < u {
      if a == node {
        TypeUnique(t, Some(node), ty, u);
      }
    }
  }

  // ---------------------------------------------------------------- the recursion

  /** One unrolling of the recursion. */
  lemma NormStep(t: Types, path: set<Node>, node: Node, v: Data, integerOnly: bool)
    requires node in t.nodes && !t.nodes[node].MissingSpec? && !v.Missing? && node !in path
    ensures Norm(t, path, Some(node), v, integerOnly) == NodeNorm(t, path + {node}, t.nodes[node], v, integerOnly)
  {
  }

  lemma {:induction false} MembersEach(t: Types, path: set<Node>, specs: seq<Option<Node>>, vs: seq<Data>)
    requires |specs| == |vs|
    ensures MembersNorm(t, path, specs, Some(vs)).Ok? <==>
            forall i :: 0 <= i < |specs| ==> Norm(t, path, specs[i], vs[i], false).Ok?
    ensures MembersNorm(t, path, specs, Some(vs)).Ok? ==>
              |MembersNorm(t, path, specs, Some(vs)).value| == |specs| &&
              forall i :: 0 <= i < |specs| ==>
                Norm(t, path, specs[i], vs[i], false) == Ok(MembersNorm(t, path, specs, Some(vs)).value[i])
    ensures MembersNorm(t, path, specs, Some(vs)) == Err(Recursive) ==>
              exists i :: 0 <= i < |specs| && Norm(t, path, specs[i], vs[i], false) == Err(Recursive)
    decreases |specs|
  {
    if specs == [] {
    } else {
      var n := |specs| - 1;
      MembersEach(t, path, specs[..n], vs[..n]);
      var front := MembersNorm(t, path, specs[..n], Some(vs[..n]));
      if front.Err? {
        var i :| 0 <= i < n && Norm(t, path, specs[..n][i], vs[..n][i], false).Err? &&
                 (front.error == Recursive ==> Norm(t, path, specs[..n][i], vs[..n][i], false) == Err(Recursive));
        assert Norm(t, path, specs[i], vs[i], false) == Norm(t, path, specs[..n][i], vs[..n][i], false);
      }
    }
  }

  lemma {:induction false} MissingFitsNothing(ty: Ty)
    ensures !Fits(ty, Missing)
    decreases ty
  {
    if ty.TNew? {
      MissingFitsNothing(ty.base);
    }
  }

  /** The members of a tuple or struct, each exact, make it exact. */
  lemma ProductIsExact(t: Types, path: set<Node>, specs: seq<Option<Node>>, ty: Ty, v: Data)
    requires ty.TProduct? && |specs| == |ty.members| && Parts(ty.isTuple, v).Some? &&
        |Parts(ty.isTuple, v).value| == |specs|
    requires forall i :: 0 <= i < |specs| ==>
               Exact(ty.members[i], Parts(ty.isTuple, v).value[i],
                   Norm(t, path, specs[i], Parts(ty.isTuple, v).value[i], false))
    ensures var m := MembersNorm(t, path, specs, Parts(ty.isTuple, v));
            Exact(ty, v, if ty.isTuple then TupleResult(m) else StructResult(m))
  {
    var vs := Parts(ty.isTuple, v).value;
    MembersEach(t, path, specs, vs);
    var m := MembersNorm(t, path, specs, Some(vs));
    if m.Ok? {
      var w := if ty.isTuple then TupleOf(Some(m.value)) else StructOf(Some(m.value));
      forall i | 0 <= i < |specs| ensures Fits(ty.members[i], vs[i]) && NormalOf(ty.members[i], vs[i], m.value[i]) {
        assert Norm(t, path, specs[i], vs[i], false) == Ok(m.value[i]);
      }
      assert Parts(ty.isTuple, w) == Some(m.value);
      assert Meaning(ty, w).members == Meaning(ty, v).members;
    } else {
      var i :| 0 <= i < |specs| && Norm(t, path, specs[i], vs[i], false).Err?;
      assert !Fits(ty.members[i], vs[i]);
    }
  }

  /**
   On a specification that stands for a tree, normalize accepts exactly the values of the tree and returns their
   normal form, whatever set of enclosing specifications is on the path.
   */
  lemma {:induction false} NormIsExact(t: Types, path: set<Node>, spec: Option<Node>, ty: Ty, v: Data)
    requires HasType(t, spec, ty) && Above(t, path, ty)
    ensures Exact(ty, v, Norm(t, path, spec, v, false))
    decreases ty
  {
    if v.Missing? {
      MissingFitsNothing(ty);
    } else {
      var node := spec.value;
      assert node !in path;
      var decl, inner := t.nodes[node], path + {node};
      NormStep(t, path, node, v, false);
      if decl.NewTypeSpec? {
        NewTypeIsExact(t, path, node, ty, v);
      } else if decl.BitstringSpec? {
        BitsAreExact(t, node, ty, v);
      } else if decl.TupleSpec? || decl.StructSpec? {
        var specs := if decl.TupleSpec? then decl.members.value else t.structs[decl.name];
        var parts := Parts(ty.isTuple, v);
        if parts.Some? && |parts.value| == |specs| {
          forall i | 0 <= i < |specs|
            ensures Exact(ty.members[i], parts.value[i], Norm(t, inner, specs[i], parts.value[i], false))
          {
            EnterNode(t, path, node, ty, ty.members[i]);
            NormIsExact(t, inner, specs[i], ty.members[i], parts.value[i]);
          }
          ProductIsExact(t, inner, specs, ty, v);
        }
      } else {
        FlatIsExact(t, node, ty, v);
      }
    }
  }

  lemma {:induction false} NewTypeIsExact(t: Types, path: set<Node>, node: Node, ty: Ty, v: Data)
    requires HasType(t, Some(node), ty) && Above(t, path, ty) && t.nodes[node].NewTypeSpec? && !v.Missing?
    ensures Exact(ty, v, Norm(t, path, Some(node), v, false))
    decreases ty, 0
  {
    assert node !in path;
    NormStep(t, path, node, v, false);
    var decl := t.newTypes[t.nodes[node].name];
    if decl.Original? {
      EnterNode(t, path, node, ty, ty.base);
      NormIsExact(t, path + {node}, decl.spec, ty.base, v);
    } else if decl.SdnBitwidth? && v.BitstringData? {
      ValCanon(Val(v.bytes));
    }
  }

  /** What normalize accepts, it accepts with a finite tree for the specification. */
  lemma {:induction false} TypeFound(t: Types, path: set<Node>, spec: Option<Node>, v: Data, integerOnly: bool)
      returns (ty: Ty)
    requires Norm(t, path, spec, v, integerOnly).Ok?
    ensures HasType(t, spec, ty)
    decreases Unvisited(t, path), 0, 0
  {
    var node := spec.value;
    var decl, inner := t.nodes[node], path + {node};
    NormStep(t, path, node, v, integerOnly);
    VisitingShrinks(t, path, node);
    if decl.NewTypeSpec? {
      var d := t.newTypes[decl.name];
      if d.Original? {
        var base := TypeFound(t, inner, d.spec, v, integerOnly);
        ty := TNew(base);
      } else {
        ty := if d.SdnString? then TText else TNumber(UnsignedType(d.width));
      }
    } else if decl.BitstringSpec? {
      ty := if decl.bits.VarbitType? then TVarbit(decl.bits.maximum.value) else TNumber(BitsType(decl.bits).value);
    } else if decl.TupleSpec? || decl.StructSpec? {
      var specs := if decl.TupleSpec? then decl.members.value else t.structs[decl.name];
      var vs := Parts(decl.TupleSpec?, v).value;
      var tys := MembersFound(t, inner, specs, vs);
      ty := TProduct(decl.TupleSpec?, tys);
    } else {
      FlatFound(t, node, v);
      ty := FlatType(t, decl);
    }
  }

  lemma FlatFound(t: Types, node: Node, v: Data)
    requires node in t.nodes && IsFlat(t.nodes[node]) && FlatNorm(t, t.nodes[node], v).Ok?
    ensures HasType(t, Some(node), FlatType(t, t.nodes[node]))
  {
  }

  lemma {:induction false} MembersFound(t: Types, path: set<Node>, specs: seq<Option<Node>>, vs: seq<Data>)
      returns (tys: seq<Ty>)
    requires MembersNorm(t, path, specs, Some(vs)).Ok?
    ensures MembersHave(t, specs, tys)
    decreases Unvisited(t, path), 1, |specs|
  {
    tys := [];
    if specs == [] {
    } else {
      var n := |specs| - 1;
      var front := MembersFound(t, path, specs[..n], vs[..n]);
      var last := TypeFound(t, path, specs[n], vs[n], false);
      tys := front + [last];
      forall i | 0 <= i < |tys| ensures HasType(t, specs[i], tys[i]) {
        if i < n {
          assert HasType(t, specs[..n][i], front[i]);
        }
      }
    }
  }

  /** The tree of a flat specification that accepts something. */
  function FlatType(t: Types, spec: Spec): Ty {
    match spec
    case HeaderSpec(name) => THeader(if name in t.headers then HeaderFieldTypes(t.headers[name]) else [])
    case UnionSpec(name) => TUnion(if name in t.unions then Alternatives(t, t.unions[name]) else map[])
    case StackSpec(stack) =>
      if StackDeclared(stack, t.headers.Keys)
          then TStack(stack.value.size, HeaderFieldTypes(t.headers[stack.value.name])) else TBool
    case UnionStackSpec(stack) =>
      if StackDeclared(stack, t.unions.Keys)
          then TUnionStack(stack.value.size, Alternatives(t, t.unions[stack.value.name])) else TBool
    case EnumSpec(name) => TEnum(if name in t.enums then t.enums[name] else [])
    case ErrorSpec(_) => TError(if t.errors.Some? then t.errors.value else [])
    case SerializableSpec(name) =>
      if name in t.serializable && t.serializable[name].Some? && t.serializable[name].value >= 0
      then TSerializable(t.serializable[name].value) else TBool
    case _ => TBool
  }

  // ---------------------------------------------------------------- main results

  lemma EmptyPathIsBelow(t: Types, ty: Ty)
    ensures Above(t, {}, ty)
  {
  }

  /**
   Soundness and completeness: the normalizer accepts a value for a specification iff the specification unfolds to a
   finite tree and the value is one of its values; the result is the normal form of the value. The statement has
   no set of active specifications: a specification that occurs twice without containing itself is accepted.
   */
  lemma NormalizeExactly(t: Types, spec: Option<Node>, v: Data)
    ensures Norm(t, {}, spec, v, false).Ok? <==> exists ty :: HasType(t, spec, ty) && Fits(ty, v)
    ensures forall ty :: HasType(t, spec, ty) ==> Exact(ty, v, Norm(t, {}, spec, v, false))
  {
    forall ty | HasType(t, spec, ty) ensures Exact(ty, v, Norm(t, {}, spec, v, false)) {
      EmptyPathIsBelow(t, ty);
      NormIsExact(t, {}, spec, ty, v);
    }
    if Norm(t, {}, spec, v, false).Ok? {
      var ty := TypeFound(t, {}, spec, v, false);
      assert HasType(t, spec, ty) && Fits(ty, v);
    }
  }

  /** A specification rejected as recursive has no finite unfolding. */
  lemma RecursiveMeansInfinite(t: Types, spec: Option<Node>, v: Data)
    requires Norm(t, {}, spec, v, false) == Err(Recursive)
    ensures forall ty :: !HasType(t, spec, ty)
  {
    NormalizeExactly(t, spec, v);
  }

  /** A normalized value normalizes to itself. */
  lemma Idempotent(t: Types, spec: Option<Node>, v: Data)
    requires Norm(t, {}, spec, v, false).Ok?
    ensures Norm(t, {}, spec, Norm(t, {}, spec, v, false).value, false) == Norm(t, {}, spec, v, false)
  {
    var w := Norm(t, {}, spec, v, false).value;
    var ty := TypeFound(t, {}, spec, v, false);
    NormalizeExactly(t, spec, v);
    NormalizeExactly(t, spec, w);
    assert Exact(ty, v, Norm(t, {}, spec, v, false)) && Exact(ty, w, Norm(t, {}, spec, w, false));
    FormUnique(ty, w, Norm(t, {}, spec, w, false).value);
  }

  lemma FormsAgree(ty: Ty, a: Data, b: Data, d: Den, e: Den)
    requires NormalForm(ty, a, d) && NormalForm(ty, b, e)
    ensures a == b <==> d == e
  {
    if d == e {
      FormUnique(ty, a, b);
    }
  }

  /** Two accepted values normalize to the same data iff they denote the same value. */
  lemma SameNormalFormIffSameMeaning(t: Types, spec: Option<Node>, ty: Ty, v: Data, w: Data)
    requires HasType(t, spec, ty) && Fits(ty, v) && Fits(ty, w)
    ensures Norm(t, {}, spec, v, false) == Norm(t, {}, spec, w, false) <==> Meaning(ty, v) == Meaning(ty, w)
  {
    EmptyPathIsBelow(t, ty);
    NormIsExact(t, {}, spec, ty, v);
    NormIsExact(t, {}, spec, ty, w);
    FormsAgree(ty, Norm(t, {}, spec, v, false).value, Norm(t, {}, spec, w, false).value, Meaning(ty, v),
        Meaning(ty, w));
  }

  /** bit<W> and int<W>, possibly under new types, are what Write takes. */
  predicate IsInteger(ty: Ty)
    decreases ty
  {
    ty.TNumber? || (ty.TNew? && IsInteger(ty.base))
  }

  /** Write, which takes integers only, does on integer types what WriteData does, and rejects the others. */
  lemma IntegerOnlyExactly(t: Types, spec: Option<Node>, ty: Ty, v: Data)
    requires HasType(t, spec, ty)
    ensures Norm(t, {}, spec, v, true).Ok? <==> IsInteger(ty) && Fits(ty, v)
    ensures Norm(t, {}, spec, v, true).Ok? ==> Norm(t, {}, spec, v, true) == Norm(t, {}, spec, v, false)
  {
    EmptyPathIsBelow(t, ty);
    NormIsExact(t, {}, spec, ty, v);
    IntegerOnlySame(t, {}, spec, ty, v);
  }

  lemma {:induction false} IntegerOnlySame(t: Types, path: set<Node>, spec: Option<Node>, ty: Ty, v: Data)
    requires HasType(t, spec, ty) && Above(t, path, ty)
    ensures var r := Norm(t, path, spec, v, true);
            if IsInteger(ty) then r == Norm(t, path, spec, v, false) else r.Err?
    decreases ty
  {
    if !v.Missing? {
      var node := spec.value;
      assert node !in path;
      var decl := t.nodes[node];
      NormStep(t, path, node, v, true);
      NormStep(t, path, node, v, false);
      if decl.NewTypeSpec? && t.newTypes[decl.name].Original? {
        EnterNode(t, path, node, ty, ty.base);
        IntegerOnlySame(t, path + {node}, t.newTypes[decl.name].spec, ty.base, v);
      } else {
        hide Above;
        LeafInteger(t, path + {node}, node, ty, v);
      }
    }
  }

  lemma LeafInteger(t: Types, path: set<Node>, node: Node, ty: Ty, v: Data)
    requires HasType(t, Some(node), ty) && !(t.nodes[node].NewTypeSpec? && t.newTypes[t.nodes[node].name].Original?)
    ensures var r := NodeNorm(t, path, t.nodes[node], v, true);
            var q := NodeNorm(t, path, t.nodes[node], v, false);
            (IsInteger(ty) ==> r == q) && (!IsInteger(ty) ==> r.Err?)
  {
  }

  /** The outcome does not depend on the enclosing path, as long as the path has no part of the type. */
  lemma PathDoesNotMatter(t: Types, path: set<Node>, spec: Option<Node>, ty: Ty, v: Data)
    requires HasType(t, spec, ty) && Above(t, path, ty) && Fits(ty, v)
    ensures Norm(t, path, spec, v, false) == Norm(t, {}, spec, v, false)
  {
    EmptyPathIsBelow(t, ty);
    NormIsExact(t, path, spec, ty, v);
    NormIsExact(t, {}, spec, ty, v);
    FormUnique(ty, Norm(t, path, spec, v, false).value, Norm(t, {}, spec, v, false).value);
  }
}
