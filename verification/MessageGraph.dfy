/**
 pipeline/message.go: the three-colour depth-first search that a P4Info message graph must pass before it is copied.

 A node is one message by address. A reference is a pointer to a message; it is invalid when it is nil. The order of
 the fields is the order in which the search enumerates them.
 */
module MessageGraph {
  import opened Wrappers

  type Node = int

  type Ref = Option<Node>

  datatype Field = Plain | MapOf(values: seq<Ref>) | ListOf(items: seq<Ref>) | Single(child: Ref, inOneof: bool)

  /** A message; typedNil says that a oneof holds a typed nil wrapper, which the enumeration of fields skips. */
  datatype Message = Message(typedNil: bool, fields: seq<Field>)

  type Graph = map<Node, Message>

  datatype GraphError = MissingMessage | RecursiveMessage

  predicate IsValid(g: Graph, ref: Ref) {
    ref.Some? && ref.value in g
  }

  function Refs(f: Field): seq<Ref> {
    match f
    case Plain => []
    case MapOf(values) => values
    case ListOf(items) => items
    case Single(child, _) => [child]
  }

  function Children(fields: seq<Field>): seq<Ref> {
    if fields == [] then [] else Children(fields[..|fields| - 1]) + Refs(fields[|fields| - 1])
  }

  lemma {:induction false} RefsAreChildren(fields: seq<Field>, i: nat, ref: Ref)
    requires i < |fields| && ref in Refs(fields[i])
    ensures ref in Children(fields)
    decreases |fields|
  {
    if i < |fields| - 1 {
      RefsAreChildren(fields[..|fields| - 1], i, ref);
    }
  }

  // ---------------------------------------------------------------- what the search decides

  predicate Edge(g: Graph, a: Node, b: Node) {
    a in g && b in g && Some(b) in Children(g[a].fields)
  }

  /** The message has a typed nil oneof or refers to a nil message. */
  predicate Malformed(g: Graph, n: Node) {
    n in g && (g[n].typedNil || exists ref :: ref in Children(g[n].fields) && !IsValid(g, ref))
  }

  /** A reference in a field is an edge or a defect. */
  lemma FieldLeads(g: Graph, key: Node, i: nat, ref: Ref)
    requires key in g && i < |g[key].fields| && ref in Refs(g[key].fields[i])
    ensures if IsValid(g, ref) then Edge(g, key, ref.value) else Malformed(g, key)
  {
    RefsAreChildren(g[key].fields, i, ref);
  }

  predicate IsPath(g: Graph, p: seq<Node>) {
    (forall i :: 0 <= i < |p| ==> p[i] in g) && forall i :: 0 < i < |p| ==> Edge(g, p[i - 1], p[i])
  }

  predicate Distinct(s: seq<Node>) {
    forall i, j :: 0 <= i < j < |s| ==> s[i] != s[j]
  }

  predicate PathFrom(g: Graph, root: Ref, p: seq<Node>) {
    p != [] && IsPath(g, p) && root == Some(p[0])
  }

  ghost predicate MalformedReachable(g: Graph, root: Ref) {
    exists p :: PathFrom(g, root, p) && Malformed(g, p[|p| - 1])
  }

  /** A path from the root that comes back to one of its own nodes. */
  ghost predicate CycleReachable(g: Graph, root: Ref) {
    exists p :: PathFrom(g, root, p) && !Distinct(p)
  }

  /** All messages of the order are well formed and come after the messages they refer to. */
  predicate Topological(g: Graph, order: seq<Node>) {
    Distinct(order) && forall k :: 0 <= k < |order| ==> Settled(g, order, k)
  }

  predicate Settled(g: Graph, order: seq<Node>, k: nat)
    requires k < |order|
  {
    !Malformed(g, order[k]) && forall b :: b in g.Keys && Edge(g, order[k], b) ==> b in order[..k]
  }

  // ---------------------------------------------------------------- the search

  class Validator {
    const graph: Graph
    var seen: map<Node, bool>
    ghost var stack: seq<Node>
    ghost var order: seq<Node>
    ghost var expanded: seq<Node>

    /** The grey nodes are the current path, the black ones are in topological order, no node was entered twice. */
    ghost predicate Valid()
      reads this
    {
      && seen.Keys <= graph.Keys
      && IsPath(graph, stack) && Distinct(stack)
      && (forall n :: n in stack <==> n in seen && !seen[n])
      && (forall n :: n in order <==> n in seen && seen[n])
      && Topological(graph, order)
      && Distinct(expanded) && (forall n :: n in expanded <==> n in seen)
    }

    constructor (graph: Graph)
      ensures this.graph == graph && Valid() && stack == [] && expanded == []
    {
      this.graph := graph;
      seen, stack, order, expanded := map[], [], [], [];
    }

    /** The error names a defect at the end of the path: the path was not shortened since. */
    ghost predicate Explains(e: GraphError, ref: Ref, before: seq<Node>)
      reads this
    {
      before <= stack &&
      match e
      case MissingMessage =>
        (stack == before && !IsValid(graph, ref)) || (|before| < |stack| && Malformed(graph, stack[|stack| - 1]))
      case RecursiveMessage =>
        (stack == before && IsValid(graph, ref) && ref.value in stack) ||
        (|before| < |stack| && exists n :: n in stack && Edge(graph, stack[|stack| - 1], n))
    }

    method Visit(ref: Ref) returns (r: Option<GraphError>)
      requires Valid()
      requires stack != [] && IsValid(graph, ref) ==> Edge(graph, stack[|stack| - 1], ref.value)
      modifies this
      ensures Valid()
      ensures old(seen).Keys <= seen.Keys && old(order) <= order
      ensures r.None? ==> stack == old(stack) && ref.Some? && ref.value in order
      ensures r.Some? ==> Explains(r.value, ref, old(stack))
      ensures r.Some? && |old(stack)| < |stack| ==> ref == Some(stack[|old(stack)|])
      decreases graph.Keys - seen.Keys, 0
    {
      if !IsValid(graph, ref) {
        return Some(MissingMessage);
      }
      var key := ref.value;
      if key in seen {
        if seen[key] {
          return None;
        }
        return Some(RecursiveMessage);
      }
      seen := seen[key := false];
      stack, expanded := stack + [key], expanded + [key];
      assert Valid();
      if graph[key].typedNil {
        return Some(MissingMessage);
      }
      r := VisitFields(key);
      if r.Some? {
        return;
      }
      Finish(key);
    }

    /** The last lines of visit: the node is black. */
    method Finish(key: Node)
      requires Valid() && stack != [] && stack[|stack| - 1] == key && !graph[key].typedNil
      requires forall ref :: ref in Children(graph[key].fields) ==> ref.Some? && ref.value in order
      modifies this
      ensures Valid() && stack == old(stack)[..|old(stack)| - 1] && order == old(order) + [key]
      ensures seen.Keys == old(seen).Keys
    {
      assert key in stack && key !in order;
      seen := seen[key := true];
      stack := stack[..|stack| - 1];
      order := order + [key];
      forall k | 0 <= k < |order| ensures Settled(graph, order, k) {
        if k < |order| - 1 {
          assert order[..k] == old(order)[..k];
          assert Settled(graph, old(order), k);
        } else {
          assert order[..k] == old(order);
          forall ref | ref in Children(graph[key].fields) ensures IsValid(graph, ref) {
          }
        }
      }
    }

    /** The enumeration of the fields of one message. */
    method VisitFields(key: Node) returns (r: Option<GraphError>)
      requires Valid() && stack != [] && stack[|stack| - 1] == key && !graph[key].typedNil
      modifies this
      ensures Valid()
      ensures old(seen).Keys <= seen.Keys && old(order) <= order
      ensures r.None? ==> stack == old(stack) && forall ref :: ref in Children(graph[key].fields) ==>
          ref.Some? && ref.value in order
      ensures r.Some? ==> ExplainsInside(r.value, old(stack))
      decreases graph.Keys - seen.Keys, 2
    {
      hide Topological, Distinct, IsPath, Malformed, Edge;
      var fields := graph[key].fields;
      for i := 0 to |fields|
        invariant Valid() && stack == old(stack)
        invariant old(seen).Keys <= seen.Keys && old(order) <= order
        invariant forall ref :: ref in Children(fields[..i]) ==> ref.Some? && ref.value in order
      {
        var f := fields[i];
        assert fields[..i + 1][..i] == fields[..i];
        match f
        case Plain =>
        case MapOf(values) =>
          r := VisitEach(key, i, values);
          if r.Some? {
            return;
          }
        case ListOf(items) =>
          r := VisitEach(key, i, items);
          if r.Some? {
            return;
          }
        case Single(child, inOneof) =>
          FieldLeads(graph, key, i, child);
          if !IsValid(graph, child) && inOneof {
            return Some(MissingMessage);
          }
          r := Visit(child);
          if r.Some? {
            return;
          }
      }
      assert fields[..|fields|] == fields;
      return None;
    }

    /** An error below a message that is on the path. */
    ghost predicate ExplainsInside(e: GraphError, before: seq<Node>)
      reads this
    {
      before <= stack && stack != [] &&
      match e
      case MissingMessage => Malformed(graph, stack[|stack| - 1])
      case RecursiveMessage => exists n :: n in stack && Edge(graph, stack[|stack| - 1], n)
    }

    /** The loop over the entries of one map or list field. */
    method VisitEach(key: Node, i: nat, refs: seq<Ref>) returns (r: Option<GraphError>)
      requires Valid() && stack != [] && stack[|stack| - 1] == key
      requires i < |graph[key].fields| && refs == Refs(graph[key].fields[i])
      modifies this
      ensures Valid()
      ensures old(seen).Keys <= seen.Keys && old(order) <= order
      ensures r.None? ==> stack == old(stack) && forall ref :: ref in refs ==> ref.Some? && ref.value in order
      ensures r.Some? ==> ExplainsInside(r.value, old(stack))
      decreases graph.Keys - seen.Keys, 1
    {
      hide Topological, Distinct, IsPath, Malformed, Edge;
      for j := 0 to |refs|
        invariant Valid() && stack == old(stack)
        invariant old(seen).Keys <= seen.Keys && old(order) <= order
        invariant forall ref :: ref in refs[..j] ==> ref.Some? && ref.value in order
      {
        FieldLeads(graph, key, i, refs[j]);
        r := Visit(refs[j]);
        if r.Some? {
          return;
        }
      }
      return None;
    }
  }

  // ---------------------------------------------------------------- results

  /** Along a path the positions in a topological order strictly decrease. */
  lemma {:induction false} PathDescends(g: Graph, order: seq<Node>, p: seq<Node>) returns (ks: seq<nat>)
    requires Topological(g, order) && p != [] && IsPath(g, p) && p[0] in order
    ensures |ks| == |p|
    ensures forall i :: 0 <= i < |p| ==> ks[i] < |order| && order[ks[i]] == p[i]
    ensures forall i, j :: 0 <= i < j < |p| ==> ks[i] > ks[j]
    decreases |p|
  {
    var n := |p| - 1;
    if n == 0 {
      var k :| 0 <= k < |order| && order[k] == p[0];
      ks := [k];
    } else {
      var front := PathDescends(g, order, p[..n]);
      assert Edge(g, p[n - 1], p[n]) && Settled(g, order, front[n - 1]);
      var k :| 0 <= k < front[n - 1] && order[..front[n - 1]][k] == p[n];
      ks := front + [k];
    }
  }

  /** A topological order with the root in it rules out defects anywhere below the root. */
  lemma TopologicalIsSafe(g: Graph, order: seq<Node>, root: Ref)
    requires Topological(g, order) && root.Some? && root.value in order
    ensures !MalformedReachable(g, root) && !CycleReachable(g, root)
  {
    forall p | PathFrom(g, root, p) ensures !Malformed(g, p[|p| - 1]) && Distinct(p) {
      var ks := PathDescends(g, order, p);
      assert Settled(g, order, ks[|p| - 1]);
      forall i, j | 0 <= i < j < |p| ensures p[i] != p[j] {
        assert order[ks[j]] != order[ks[i]];
      }
    }
  }

  lemma RepeatIsCycle(g: Graph, root: Ref, p: seq<Node>, n: Node)
    requires PathFrom(g, root, p) && n in p && Edge(g, p[|p| - 1], n)
    ensures CycleReachable(g, root)
  {
    var q := p + [n];
    var i :| 0 <= i < |p| && p[i] == n;
    assert PathFrom(g, root, q) && q[i] == q[|p|];
  }

  /**
   validateMessageGraph accepts exactly the graphs with a root and without a defect below it. On success there is a
   topological order of the messages, the errors tell the truth, and every message is expanded at most once.
   */
  method ValidateMessageGraph(graph: Graph, root: Ref)
      returns (r: Option<GraphError>, ghost order: seq<Node>, ghost expanded: seq<Node>)
    ensures r.None? <==> IsValid(graph, root) && !MalformedReachable(graph, root) && !CycleReachable(graph, root)
    ensures r == Some(MissingMessage) ==> !IsValid(graph, root) || MalformedReachable(graph, root)
    ensures r == Some(RecursiveMessage) ==> CycleReachable(graph, root)
    ensures r.None? ==> Topological(graph, order) && root.value in order
    ensures Distinct(expanded) && (forall n :: n in expanded ==> n in graph) && |expanded| <= |graph.Keys|
  {
    var v := new Validator(graph);
    r := v.Visit(root);
    order, expanded := v.order, v.expanded;
    DistinctIsBounded(graph, expanded);
    if r.None? {
      TopologicalIsSafe(graph, order, root);
    } else if v.stack != [] {
      assert PathFrom(graph, root, v.stack);
      if r.value.RecursiveMessage? {
        var n :| n in v.stack && Edge(graph, v.stack[|v.stack| - 1], n);
        RepeatIsCycle(graph, root, v.stack, n);
      }
    }
  }

  /** Nodes of the graph without repetition are no more than the graph has. */
  lemma DistinctIsBounded(g: Graph, p: seq<Node>)
    requires Distinct(p) && forall n :: n in p ==> n in g
    ensures |p| <= |g.Keys|
  {
    DistinctCount(p);
    var nodes := set n | n in p;
    SubsetCount(nodes, g.Keys);
  }

  lemma {:induction false} DistinctCount(p: seq<Node>)
    requires Distinct(p)
    ensures |set n | n in p| == |p|
  {
    if p == [] {
    } else {
      var front := p[..|p| - 1];
      DistinctCount(front);
      assert (set n | n in p) == (set n | n in front) + {p[|p| - 1]};
    }
  }

  lemma SubsetCount(a: set<Node>, b: set<Node>)
    requires a <= b
    ensures |a| <= |b|
  {
    assert b == a + (b - a);
  }
}
