/** tableentry: the builder of table entries and of the keys that identify them. */
module TableEntry {
  import opened Bytes
  import opened Codec
  import opened MatchField
  import opened Wrappers

  datatype Scope = TABLE_AND_DEFAULT | TABLE_ONLY | DEFAULT_ONLY | UNKNOWN_SCOPE
  datatype ActionRef = ActionRef(id: uint32, scope: Scope)
  datatype ParamDef = ParamDef(id: uint32, name: string, bitwidth: int32)
  datatype ActionDef = ActionDef(id: uint32, params: seq<ParamDef>)
  datatype Table = Table(
    id: uint32, fields: seq<FieldDef>, actionRefs: seq<ActionRef>, isConst: bool,
    constDefaultActionId: uint32, implementationId: uint32, notifies: bool)
  datatype Pipeline = Pipeline(tables: map<string, Table>, actions: map<string, ActionDef>)

  datatype ActionParam = ActionParam(name: string, value: seq<byte>)
  datatype ActionSpec = ActionSpec(name: string, params: map<string, seq<byte>>)

  datatype WireParam = WireParam(id: uint32, value: seq<byte>)
  datatype WireAction = WireAction(id: uint32, params: seq<WireParam>)
  datatype Entry = Entry(
    tableId: uint32, matches: seq<FieldMatch>, priority: int32, isDefault: bool,
    timeout: int64, metadata: seq<byte>, action: Option<WireAction>)

  // ---------------------------------------------------------------- key

  /** A stable sort by field ID. */
  function SortById(fields: seq<FieldDef>): (r: seq<FieldDef>)
    ensures |r| == |fields|
  {
    if fields == [] then [] else Insert(fields[0], SortById(fields[1..]))
  }

  function Insert(f: FieldDef, s: seq<FieldDef>): (r: seq<FieldDef>)
    ensures |r| == |s| + 1
  {
    if s == [] || f.id <= s[0].id then [f] + s else [s[0]] + Insert(f, s[1..])
  }

  /** What the entry says about one field of the table. */
  function PerField(f: FieldDef, matches: map<string, MatchValue>): Result<Option<FieldMatch>, EntryError> {
    if f.name in matches then FieldKey(f, matches[f.name])
    else if f.matchType == EXACT then Err(MissingExact)
    else Ok(None)
  }

  /** The match list over fields in a given order. */
  function MatchList(order: seq<FieldDef>, matches: map<string, MatchValue>): Result<seq<FieldMatch>, EntryError> {
    if order == [] then Ok([])
    else
      var first := PerField(order[0], matches);
      if first.Err? then Err(first.error)
      else Prepend(if first.value.Some? then [first.value.value] else [], MatchList(order[1..], matches))
  }

  function Prepend(front: seq<FieldMatch>, r: Result<seq<FieldMatch>, EntryError>)
      : Result<seq<FieldMatch>, EntryError>
  {
    if r.Err? then r else Ok(front + r.value)
  }

  lemma PrependNothing(r: Result<seq<FieldMatch>, EntryError>)
    ensures Prepend([], r) == r
  {
    assert r.Ok? ==> [] + r.value == r.value;
  }

  lemma PrependTwice(
      a: seq<FieldMatch>, b: Result<Option<FieldMatch>, EntryError>, r: Result<seq<FieldMatch>, EntryError>)
    ensures b.Ok? && b.value.Some? ==> Prepend(a, Prepend([b.value.value], r)) == Prepend(a + [b.value.value], r)
    ensures Prepend(a, Prepend([], r)) == Prepend(a, r)
  {
    PrependNothing(r);
    if b.Ok? && b.value.Some? && r.Ok? {
      assert a + ([b.value.value] + r.value) == a + [b.value.value] + r.value;
    }
  }

  predicate Declared(table: Table, name: string) {
    exists f :: f in table.fields && f.name == name
  }

  function Matching(table: Table, matches: map<string, MatchValue>): Result<seq<FieldMatch>, EntryError> {
    var list := MatchList(SortById(table.fields), matches);
    if list.Ok? && exists name :: name in matches && !Declared(table, name) then Err(UnknownField) else list
  }

  predicate NeedsPriority(table: Table) {
    exists f :: f in table.fields && f.matchType in {TERNARY, RANGE, OPTIONAL}
  }

  /** What BuildKey promises. */
  function Key(table: Table, matches: map<string, MatchValue>, priority: int32, isDefault: bool)
    : Result<Entry, EntryError>
  {
    if isDefault then Ok(Entry(table.id, [], 0, true, 0, [], None))
    else
      var list := Matching(table, matches);
      if list.Err? then Err(list.error)
      else if NeedsPriority(table) && priority <= 0 then Err(PriorityRequired)
      else if !NeedsPriority(table) && priority != 0 then Err(PriorityForbidden)
      else Ok(Entry(table.id, list.value, priority, false, 0, [], None))
  }

  // ---------------------------------------------------------------- action

  function ParamMap(params: seq<ActionParam>): map<string, seq<byte>> {
    if params == [] then map[]
    else ParamMap(params[..|params| - 1])[params[|params| - 1].name := params[|params| - 1].value]
  }

  /** A parameter name stands for the value of its last occurrence, and for nothing when it does not occur. */
  lemma {:induction false} LastParamCounts(params: seq<ActionParam>, name: string, value: seq<byte>)
    ensures name in ParamMap(params) && ParamMap(params)[name] == value <==>
            exists i :: 0 <= i < |params| && params[i] == ActionParam(name, value) &&
                        forall j :: i < j < |params| ==> params[j].name != name
    decreases |params|
  {
    if params == [] {
    } else {
      var n := |params| - 1;
      var front := params[..n];
      LastParamCounts(front, name, value);
      if params[n].name != name && name in ParamMap(front) && ParamMap(front)[name] == value {
        var i :| 0 <= i < n && front[i] == ActionParam(name, value) && forall j :: i < j < n ==> front[j].name != name;
        assert params[i] == ActionParam(name, value);
        forall j | i < j < |params| ensures params[j].name != name {
          assert j < n ==> params[j] == front[j];
        }
      }
    }
  }

  /** The first reference to an action on the table. */
  function FindRef(refs: seq<ActionRef>, id: uint32): Option<ActionRef> {
    if refs == [] then None else if refs[0].id == id then Some(refs[0]) else FindRef(refs[1..], id)
  }

  function EncodedParams(defs: seq<ParamDef>, params: map<string, seq<byte>>): Result<seq<WireParam>, EntryError> {
    if defs == [] then Ok([])
    else
      var n := |defs| - 1;
      var front := EncodedParams(defs[..n], params);
      if front.Err? then front
      else if defs[n].name !in params then Err(MissingParam)
      else
        var e := Encode(params[defs[n].name], defs[n].bitwidth);
        if e.Err? then Err(Encoding(e.error)) else Ok(front.value + [WireParam(defs[n].id, e.value)])
  }

  predicate DeclaredParam(action: ActionDef, name: string) {
    exists p :: p in action.params && p.name == name
  }

  /** Whether a scope allows the action on an ordinary or on the default entry. */
  predicate InScope(scope: Scope, isDefault: bool) {
    scope == TABLE_AND_DEFAULT || scope == if isDefault then DEFAULT_ONLY else TABLE_ONLY
  }

  /** What encodeAction promises. */
  function DirectAction(pipeline: Pipeline, table: Table, isDefault: bool, spec: ActionSpec)
      : Result<WireAction, EntryError>
  {
    if isDefault && table.constDefaultActionId != 0 then Err(ConstantTable)
    else if !isDefault && table.isConst then Err(ConstantTable)
    else if table.implementationId != 0 then Err(Indirect)
    else if spec.name !in pipeline.actions then Err(UnknownAction)
    else
      var act := pipeline.actions[spec.name];
      var ref := FindRef(table.actionRefs, act.id);
      if ref.None? then Err(UnknownAction)
      else if !InScope(ref.value.scope, isDefault) then Err(WrongScope)
      else
        var params := EncodedParams(act.params, spec.params);
        if params.Err? then Err(params.error)
        else if exists name :: name in spec.params && !DeclaredParam(act, name) then Err(UnknownParam)
        else Ok(WireAction(act.id, params.value))
  }

  function TimeoutError(table: Table, timeout: int64, isDefault: bool): Option<EntryError> {
    if timeout < 0 then Some(NegativeTimeout)
    else if timeout == 0 then None
    else if isDefault then Some(TimeoutOnDefault)
    else if !table.notifies then Some(TimeoutUnsupported)
    else None
  }

  // ---------------------------------------------------------------- builder

  class Builder {
    const pipeline: Option<Pipeline>
    const table: Option<Table>
    var matches: map<string, MatchValue>
    var action: Option<ActionSpec>
    var priority: int32
    var timeout: int64
    var isDefault: bool
    var metadata: seq<byte>

    /** A builder has a table only if its pipeline does. */
    predicate Bound() {
      table.Some? ==> pipeline.Some?
    }

    constructor (p: Option<Pipeline>, name: string)
      ensures Bound() && pipeline == p
      ensures table == if p.Some? && name in p.value.tables then Some(p.value.tables[name]) else None
      ensures matches == map[] && action == None && priority == 0 && timeout == 0 && !isDefault && metadata == []
    {
      pipeline := p;
      table := if p.Some? && name in p.value.tables then Some(p.value.tables[name]) else None;
      matches, action, priority, timeout, isDefault, metadata := map[], None, 0, 0, false, [];
    }

    method Match(field: string, v: MatchValue)
      modifies this`matches
      ensures matches == old(matches)[field := v]
    {
      matches := matches[field := v];
    }

    method Action(name: string, params: seq<ActionParam>)
      modifies this`action
      ensures action == Some(ActionSpec(name, ParamMap(params)))
    {
      var spec: map<string, seq<byte>> := map[];
      for i := 0 to |params|
        invariant spec == ParamMap(params[..i])
      {
        assert params[..i + 1][..i] == params[..i];
        spec := spec[params[i].name := params[i].value];
      }
      assert params[..|params|] == params;
      action := Some(ActionSpec(name, spec));
    }

    method Priority(p: int32)
      modifies this`priority
      ensures priority == p
    {
      priority := p;
    }

    method IdleTimeout(ns: int64)
      modifies this`timeout
      ensures timeout == ns
    {
      timeout := ns;
    }

    method AsDefault()
      modifies this`isDefault
      ensures isDefault
    {
      isDefault := true;
    }

    method Metadata(m: seq<byte>)
      modifies this`metadata
      ensures metadata == m
    {
      metadata := m;
    }

    method EncodeMatches() returns (r: Result<seq<FieldMatch>, EntryError>)
      requires table.Some?
      ensures r == Matching(table.value, matches)
    {
      var order := SortById(table.value.fields);
      var list := [];
      assert order[0..] == order;
      PrependNothing(MatchList(order, matches));
      for i := 0 to |order|
        invariant MatchList(order, matches) == Prepend(list, MatchList(order[i..], matches))
      {
        assert order[i..][0] == order[i] && order[i..][1..] == order[i + 1..];
        PrependTwice(list, PerField(order[i], matches), MatchList(order[i + 1..], matches));
        if order[i].name !in matches {
          if order[i].matchType == EXACT {
            return Err(MissingExact);
          }
        } else {
          var fm := EncodeField(order[i], matches[order[i].name]);
          if fm.Err? {
            return Err(fm.error);
          }
          if fm.value.Some? {
            list := list + [fm.value.value];
          }
        }
      }
      assert order[|order|..] == [] && list + [] == list;
      var names := matches.Keys;
      while names != {}
        invariant names <= matches.Keys
        invariant forall name :: name in matches && name !in names ==> Declared(table.value, name)
        decreases names
      {
        var name :| name in names;
        if !Declared(table.value, name) {
          return Err(UnknownField);
        }
        names := names - {name};
      }
      return Ok(list);
    }

    method BuildKey() returns (r: Result<Entry, EntryError>)
      requires Bound()
      ensures table.None? ==> r == Err(if pipeline.None? then NilPipeline else UnknownTable)
      ensures table.Some? ==> r == Key(table.value, matches, priority, isDefault)
    {
      if table.None? {
        return Err(if pipeline.None? then NilPipeline else UnknownTable);
      }
      if isDefault {
        return Ok(Entry(table.value.id, [], 0, true, 0, [], None));
      }
      var list := EncodeMatches();
      if list.Err? {
        return Err(list.error);
      }
      var needsPriority := false;
      for i := 0 to |table.value.fields|
        invariant needsPriority <==>
            exists k :: 0 <= k < i && table.value.fields[k].matchType in {TERNARY, RANGE, OPTIONAL}
      {
        if table.value.fields[i].matchType in {TERNARY, RANGE, OPTIONAL} {
          needsPriority := true;
        }
      }
      if needsPriority {
        if priority <= 0 {
          return Err(PriorityRequired);
        }
      } else if priority != 0 {
        return Err(PriorityForbidden);
      }
      return Ok(Entry(table.value.id, list.value, priority, false, 0, [], None));
    }

    method EncodeAction(spec: ActionSpec) returns (r: Result<WireAction, EntryError>)
      requires table.Some? && pipeline.Some?
      ensures r == DirectAction(pipeline.value, table.value, isDefault, spec)
    {
      var t := table.value;
      if isDefault {
        if t.constDefaultActionId != 0 {
          return Err(ConstantTable);
        }
      } else if t.isConst {
        return Err(ConstantTable);
      }
      if t.implementationId != 0 {
        return Err(Indirect);
      }
      if spec.name !in pipeline.value.actions {
        return Err(UnknownAction);
      }
      var act := pipeline.value.actions[spec.name];
      var ref: Option<ActionRef> := None;
      var j := 0;
      while j < |t.actionRefs| && ref.None?
        invariant j <= |t.actionRefs|
        invariant FindRef(t.actionRefs, act.id) == if ref.Some? then ref else FindRef(t.actionRefs[j..], act.id)
      {
        assert t.actionRefs[j..][0] == t.actionRefs[j] && t.actionRefs[j..][1..] == t.actionRefs[j + 1..];
        if t.actionRefs[j].id == act.id {
          ref := Some(t.actionRefs[j]);
        }
        j := j + 1;
      }
      if ref.None? {
        return Err(UnknownAction);
      }
      match ref.value.scope {
        case TABLE_AND_DEFAULT =>
        case TABLE_ONLY =>
          if isDefault {
            return Err(WrongScope);
          }
        case DEFAULT_ONLY =>
          if !isDefault {
            return Err(WrongScope);
          }
        case UNKNOWN_SCOPE =>
          return Err(WrongScope);
      }
      var params := EncodeParams(act.params, spec.params);
      if params.Err? {
        return Err(params.error);
      }
      var names := spec.params.Keys;
      while names != {}
        invariant names <= spec.params.Keys
        invariant forall name :: name in spec.params && name !in names ==> DeclaredParam(act, name)
        decreases names
      {
        var name :| name in names;
        if !DeclaredParam(act, name) {
          return Err(UnknownParam);
        }
        names := names - {name};
      }
      return Ok(WireAction(act.id, params.value));
    }

    /** The parameter loop of encodeAction. */
    static method EncodeParams(defs: seq<ParamDef>, params: map<string, seq<byte>>)
      returns (r: Result<seq<WireParam>, EntryError>)
      ensures r == EncodedParams(defs, params)
    {
      var out := [];
      for i := 0 to |defs|
        invariant EncodedParams(defs[..i], params) == Ok(out)
      {
        assert defs[..i + 1][..i] == defs[..i];
        if defs[i].name !in params {
          ParamsFail(defs, i + 1, params);
          return Err(MissingParam);
        }
        var e := EncodeBytes(params[defs[i].name], defs[i].bitwidth);
        if e.Err? {
          ParamsFail(defs, i + 1, params);
          return Err(Encoding(e.error));
        }
        out := out + [WireParam(defs[i].id, e.value)];
      }
      assert defs[..|defs|] == defs;
      return Ok(out);
    }

    method Build() returns (r: Result<Entry, EntryError>)
      requires Bound()
      ensures table.None? ==> r.Err?
      ensures r.Ok? <==>
                && table.Some? && Key(table.value, matches, priority, isDefault).Ok?
                && (timeout == 0 || (0 < timeout && !isDefault && table.value.notifies))
                && action.Some? && DirectAction(pipeline.value, table.value, isDefault, action.value).Ok?
      ensures r.Ok? ==>
                r.value == Key(table.value, matches, priority, isDefault).value.(
                  timeout := timeout, metadata := metadata,
                  action := Some(DirectAction(pipeline.value, table.value, isDefault, action.value).value))
    {
      var key := BuildKey();
      if key.Err? {
        return key;
      }
      var bad := TimeoutError(table.value, timeout, isDefault);
      if bad.Some? {
        return Err(bad.value);
      }
      var entry := key.value.(timeout := timeout, metadata := metadata);
      if action.None? {
        return Err(NoAction);
      }
      var act := EncodeAction(action.value);
      if act.Err? {
        return Err(act.error);
      }
      return Ok(entry.(action := Some(act.value)));
    }
  }

  /** The first parameter that fails decides the result. */
  lemma {:induction false} ParamsFail(defs: seq<ParamDef>, k: nat, params: map<string, seq<byte>>)
    requires k <= |defs| && EncodedParams(defs[..k], params).Err?
    ensures EncodedParams(defs, params) == EncodedParams(defs[..k], params)
    decreases |defs|
  {
    if k == |defs| {
      assert defs[..k] == defs;
    } else {
      assert defs[..|defs| - 1][..k] == defs[..k];
      ParamsFail(defs[..|defs| - 1], k, params);
    }
  }
}
