/** Cycles: a complaint about recursion shows one in the type table, and no value is followed deeper than the table. */
module RegisterCycles {
  import opened Register
  import opened RegisterMeaning
  import opened RegisterResults
  import opened Wrappers

  // ---------------------------------------------------------------- references between specifications

  /** Specification a mentions specification b: as a member, or as the original type of a new type. */
  predicate Refers(t: Types, a: Node, b: Node) {
    a in t.nodes &&
    match t.nodes[a]
    case TupleSpec(members) => members.Some? && Some(b) in members.value
    case StructSpec(name) => name in t.structs && Some(b) in t.structs[name]
    case NewTypeSpec(name) => name in t.newTypes && t.newTypes[name] == Original(Some(b))
    case _ => false
  }

  predicate Chain(t: Types, p: seq<Node>) {
    forall i :: 0 < i < |p| ==> Refers(t, p[i - 1], p[i])
  }

  /** A chain of references from the specification that comes back to one of its own nodes. */
  predicate Lasso(t: Types, spec: Option<Node>, p: seq<Node>) {
    p != [] && spec == Some(p[0]) && Chain(t, p) && p[|p| - 1] in p[..|p| - 1]
  }

  lemma FlatNeverRecursive(t: Types, spec: Spec, v: Data)
    ensures FlatNorm(t, spec, v) != Err(Recursive)
  {
    if spec.HeaderSpec? && spec.name != "" && spec.name in t.headers {
      HeaderIsExact(t, spec.name, if v.HeaderOf? then v.header else None);
    } else if spec.UnionSpec? && spec.name != "" && spec.name in t.unions {
      UnionIsExact(t, spec.name, if v.UnionOf? then v.union else None);
    } else if spec.StackSpec? && StackDeclared(spec.stack, t.headers.Keys) {
      StackIsExact(t, spec.stack, v);
    } else if spec.UnionStackSpec? && StackDeclared(spec.stack, t.unions.Keys) {
      UnionStackIsExact(t, spec.stack, v);
    }
  }

  /** The specification whose normalization is under way below a node, when that ends in a complaint about recursion. */
  lemma RecursiveBelow(t: Types, path: set<Node>, node: Node, v: Data, integerOnly: bool)
    returns (next: Node, part: Data, only: bool)
    requires node in t.nodes && NodeNorm(t, path, t.nodes[node], v, integerOnly) == Err(Recursive)
    ensures Refers(t, node, next) && Norm(t, path, Some(next), part, only) == Err(Recursive)
  {
    var decl := t.nodes[node];
    if decl.NewTypeSpec? {
      assert NewTypeNorm(t, path, decl.name, v, integerOnly) == Err(Recursive);
      assert Norm(t, path, t.newTypes[decl.name].spec, v, integerOnly) == Err(Recursive);
      next, part, only := t.newTypes[decl.name].spec.value, v, integerOnly;
    } else if decl.TupleSpec? || decl.StructSpec? {
      var specs := if decl.TupleSpec? then decl.members.value else t.structs[decl.name];
      var parts := Parts(decl.TupleSpec?, v);
      var vs := parts.value;
      MembersEach(t, path, specs, vs);
      var i :| 0 <= i < |specs| && Norm(t, path, specs[i], vs[i], false) == Err(Recursive);
      next, part, only := specs[i].value, vs[i], false;
    } else {
      FlatNeverRecursive(t, decl, v);
    }
  }

  lemma RecursiveInside(t: Types, path: set<Node>, node: Node, v: Data, integerOnly: bool)
    requires node !in path && Norm(t, path, Some(node), v, integerOnly) == Err(Recursive)
    ensures node in t.nodes && NodeNorm(t, path + {node}, t.nodes[node], v, integerOnly) == Err(Recursive)
  {
    NormStep(t, path, node, v, integerOnly);
  }

  lemma {:induction false} RecursiveFrom(
      t: Types, trail: seq<Node>, path: set<Node>, node: Node, v: Data, integerOnly: bool)
    returns (p: seq<Node>)
    requires forall a :: a in path <==> a in trail
    requires Chain(t, trail + [node]) && Norm(t, path, Some(node), v, integerOnly) == Err(Recursive)
    ensures trail + [node] <= p && Chain(t, p) && p[|p| - 1] in p[..|p| - 1]
    decreases Unvisited(t, path)
  {
    hide Norm, NodeNorm, Unvisited;
    var here := trail + [node];
    if node in path {
      p := here;
      assert p[..|p| - 1] == trail;
    } else {
      RecursiveInside(t, path, node, v, integerOnly);
      var next, part, only := RecursiveBelow(t, path + {node}, node, v, integerOnly);
      VisitingShrinks(t, path, node);
      ChainSnoc(t, here, next);
      hide Chain, Refers;
      p := RecursiveFrom(t, here, path + {node}, next, part, only);
      assert here <= here + [next] <= p;
    }
  }

  lemma ChainSnoc(t: Types, p: seq<Node>, b: Node)
    requires Chain(t, p) && p != [] && Refers(t, p[|p| - 1], b)
    ensures Chain(t, p + [b])
  {
    hide Refers;
    var q := p + [b];
    forall i | 0 < i < |q| ensures Refers(t, q[i - 1], q[i]) {
      assert i < |p| ==> Refers(t, p[i - 1], p[i]);
    }
  }

  /** When normalize complains about recursion, the specification leads into a cycle of references. */
  lemma RecursiveExhibitsCycle(t: Types, spec: Option<Node>, v: Data, integerOnly: bool) returns (p: seq<Node>)
    requires Norm(t, {}, spec, v, integerOnly) == Err(Recursive)
    ensures Lasso(t, spec, p)
  {
    p := RecursiveFrom(t, [], {}, spec.value, v, integerOnly);
  }

  // ---------------------------------------------------------------- cycles have no values

  lemma ReferenceShrinks(t: Types, a: Node, b: Node, ty: Ty) returns (part: Ty)
    requires Refers(t, a, b) && HasType(t, Some(a), ty)
    ensures HasType(t, Some(b), part) && part < ty
  {
    var decl := t.nodes[a];
    if decl.NewTypeSpec? {
      part := ty.base;
    } else {
      var specs := if decl.TupleSpec? then decl.members.value else t.structs[decl.name];
      var i :| 0 <= i < |specs| && specs[i] == Some(b);
      part := ty.members[i];
    }
  }

  lemma {:induction false} ChainShrinks(t: Types, p: seq<Node>, i: nat, j: nat, ty: Ty) returns (part: Ty)
    requires Chain(t, p) && i <= j < |p| && HasType(t, Some(p[i]), ty)
    ensures HasType(t, Some(p[j]), part) && (i == j ==> part == ty) && (i < j ==> part < ty)
    decreases j - i
  {
    if i == j {
      part := ty;
    } else {
      var before := ChainShrinks(t, p, i, j - 1, ty);
      part := ReferenceShrinks(t, p[j - 1], p[j], before);
    }
  }

  /** A specification that leads into a cycle stands for no finite tree, so no value at all is accepted for it. */
  lemma CycleAcceptsNothing(t: Types, spec: Option<Node>, p: seq<Node>, v: Data)
    requires Lasso(t, spec, p)
    ensures forall ty :: !HasType(t, spec, ty)
    ensures Norm(t, {}, spec, v, false).Err?
  {
    forall ty | HasType(t, spec, ty) ensures false {
      var j := |p| - 1;
      var i :| 0 <= i < j && p[i] == p[j];
      var first := ChainShrinks(t, p, 0, i, ty);
      var again := ChainShrinks(t, p, i, j, first);
      TypeUnique(t, Some(p[i]), first, again);
    }
    NormalizeExactly(t, spec, v);
  }

  // ---------------------------------------------------------------- how deep a value is followed

  /** The value without what lies n or more levels below its top. */
  function Cut(v: Data, n: nat): Data
    decreases n
  {
    if n == 0 then Missing
    else match v
      case TupleOf(members) => TupleOf(CutAll(members, n))
      case StructOf(members) => StructOf(CutAll(members, n))
      case _ => v
  }

  function CutAll(members: Option<seq<Data>>, n: nat): Option<seq<Data>>
    requires 0 < n
    decreases n, 0
  {
    if members.None? then None
    else
      var vs := members.value;
      Some(seq(|vs|, i requires 0 <= i < |vs| => Cut(vs[i], n - 1)))
  }

  /** Members that normalize alike normalize alike together. */
  lemma {:induction false} MembersAlike(t: Types, path: set<Node>, specs: seq<Option<Node>>, vs: seq<Data>,
      ws: seq<Data>)
    requires |specs| == |vs| == |ws|
    requires forall i :: 0 <= i < |specs| ==>
        Norm(t, path, specs[i], vs[i], false) == Norm(t, path, specs[i], ws[i], false)
    ensures MembersNorm(t, path, specs, Some(vs)) == MembersNorm(t, path, specs, Some(ws))
    decreases |specs|
  {
    if specs == [] {
    } else {
      var n := |specs| - 1;
      MembersAlike(t, path, specs[..n], vs[..n], ws[..n]);
    }
  }

  predicate IsOriginal(t: Types, decl: Spec) {
    decl.NewTypeSpec? && decl.name in t.newTypes && t.newTypes[decl.name].Original?
  }

  /** The types without nested specifications do not look below the top of a value. */
  lemma LeafReadsTop(t: Types, path: set<Node>, decl: Spec, v: Data, integerOnly: bool, n: nat)
    requires 0 < n && !decl.TupleSpec? && !decl.StructSpec? && !IsOriginal(t, decl)
    ensures NodeNorm(t, path, decl, Cut(v, n), integerOnly) == NodeNorm(t, path, decl, v, integerOnly)
  {
  }

  lemma OriginalStep(t: Types, path: set<Node>, decl: Spec, v: Data, integerOnly: bool)
    requires IsOriginal(t, decl)
    ensures NodeNorm(t, path, decl, v, integerOnly) ==
            if decl.name == "" then Err(Undeclared) else Norm(t, path, t.newTypes[decl.name].spec, v, integerOnly)
  {
    hide Norm;
  }

  /**
   The recursion follows a value no deeper than there are specifications off the path: what lies below that depth,
   were it to go on for ever, changes neither the result nor the error.
   */
  lemma {:induction false} DepthIsBounded(
      t: Types, path: set<Node>, spec: Option<Node>, v: Data, integerOnly: bool, n: nat)
    requires n > Unvisited(t, path)
    ensures Norm(t, path, spec, Cut(v, n), integerOnly) == Norm(t, path, spec, v, integerOnly)
    decreases Unvisited(t, path), 0
  {
    if spec.Some? && spec.value in t.nodes && !t.nodes[spec.value].MissingSpec? && !v.Missing? && spec.value !in path {
      var node, w := spec.value, Cut(v, n);
      assert !w.Missing?;
      NormStep(t, path, node, v, integerOnly);
      NormStep(t, path, node, w, integerOnly);
      VisitingShrinks(t, path, node);
      var decl, inner := t.nodes[node], path + {node};
      hide Norm, NodeNorm, Cut, Unvisited;
      if decl.TupleSpec? || decl.StructSpec? {
        DepthOfMembers(t, inner, decl, v, integerOnly, n);
      } else if IsOriginal(t, decl) {
        DepthIsBounded(t, inner, t.newTypes[decl.name].spec, v, integerOnly, n);
        OriginalStep(t, inner, decl, v, integerOnly);
        OriginalStep(t, inner, decl, w, integerOnly);
      } else {
        LeafReadsTop(t, inner, decl, v, integerOnly, n);
      }
    }
  }

  /** Cutting keeps the number of parts and cuts each. */
  lemma CutParts(isTuple: bool, v: Data, n: nat)
    requires 1 < n
    ensures Parts(isTuple, v).None? <==> Parts(isTuple, Cut(v, n)).None?
    ensures Parts(isTuple, v).Some? ==>
              var vs, ws := Parts(isTuple, v).value, Parts(isTuple, Cut(v, n)).value;
              |ws| == |vs| && forall i :: 0 <= i < |vs| ==> ws[i] == Cut(vs[i], n - 1)
  {
  }

  lemma MembersMismatch(t: Types, path: set<Node>, specs: seq<Option<Node>>, parts: Option<seq<Data>>)
    requires parts.None? || |parts.value| != |specs|
    ensures MembersNorm(t, path, specs, parts) == Err(Mismatch)
  {
  }

  /** The members that a tuple or struct declares. */
  function Declared(t: Types, decl: Spec): Option<seq<Option<Node>>>
    requires decl.TupleSpec? || decl.StructSpec?
  {
    if decl.TupleSpec? then decl.members else if decl.name in t.structs then Some(t.structs[decl.name]) else None
  }

  /** A tuple or struct reads a value only through its parts. */
  lemma NodeReadsParts(t: Types, path: set<Node>, decl: Spec, v: Data, w: Data, integerOnly: bool)
    requires decl.TupleSpec? || decl.StructSpec?
    requires var declared := Declared(t, decl);
             declared.Some? ==>
               MembersNorm(t, path, declared.value, Parts(decl.TupleSpec?, v)) ==
               MembersNorm(t, path, declared.value, Parts(decl.TupleSpec?, w))
    ensures NodeNorm(t, path, decl, v, integerOnly) == NodeNorm(t, path, decl, w, integerOnly)
  {
    hide MembersNorm;
  }

  lemma {:induction false} DepthOfMembers(t: Types, path: set<Node>, decl: Spec, v: Data, integerOnly: bool, n: nat)
    requires n > Unvisited(t, path) + 1 && (decl.TupleSpec? || decl.StructSpec?)
    ensures NodeNorm(t, path, decl, Cut(v, n), integerOnly) == NodeNorm(t, path, decl, v, integerOnly)
    decreases Unvisited(t, path), 1
  {
    hide Norm, NodeNorm, MembersNorm, Cut, Unvisited;
    var declared := Declared(t, decl);
    var parts, cut := Parts(decl.TupleSpec?, v), Parts(decl.TupleSpec?, Cut(v, n));
    CutParts(decl.TupleSpec?, v, n);
    if declared.Some? {
      var specs := declared.value;
      if parts.Some? && |parts.value| == |specs| {
        var vs, ws := parts.value, cut.value;
        forall i | 0 <= i < |specs|
            ensures Norm(t, path, specs[i], vs[i], false) == Norm(t, path, specs[i], ws[i], false)
        {
          DepthIsBounded(t, path, specs[i], vs[i], false, n - 1);
        }
        MembersAlike(t, path, specs, vs, ws);
      } else {
        MembersMismatch(t, path, specs, parts);
        MembersMismatch(t, path, specs, cut);
      }
    }
    NodeReadsParts(t, path, decl, v, Cut(v, n), integerOnly);
  }
}
