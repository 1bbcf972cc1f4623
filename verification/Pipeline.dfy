/**
 pipeline: the table index of a P4Info and the copies that its queries hand out.

 The protobuf messages are values here; the definitions that the pipeline builds from them, keeps in maps and copies
 for its callers are objects, since what is promised is which of them are shared.
 */
module Pipeline {
  import opened MatchField
  import opened Wrappers

  datatype FieldInfo = FieldInfo(id: uint32, name: string, bitwidth: int32, matchType: int, otherMatchType: string)

  datatype RefInfo = RefInfo(id: uint32, scope: int)

  datatype TableInfo = TableInfo(
    id: uint32,
    name: string,
    alias: string,
    size: int,
    isConst: bool,
    matchFields: seq<FieldInfo>,
    actionRefs: seq<RefInfo>)

  // ---------------------------------------------------------------- the scan that the indexes stand for

  /** The last element that goes by the key, where keys gives what an element goes by. */
  function Last<T, K>(s: seq<T>, keys: T -> set<K>, k: K): (r: Option<nat>)
    ensures r.Some? ==> r.value < |s|
  {
    if s == [] then None
    else if k in keys(s[|s| - 1]) then Some(|s| - 1)
    else Last(s[..|s| - 1], keys, k)
  }

  lemma {:induction false} LastExactly<T, K>(s: seq<T>, keys: T -> set<K>, k: K, i: nat)
    ensures Last(s, keys, k) == Some(i) <==> i < |s| && k in keys(s[i]) && forall j :: i < j < |s| ==> k !in keys(s[j])
    ensures Last(s, keys, k).None? ==> forall j :: 0 <= j < |s| ==> k !in keys(s[j])
    decreases |s|
  {
    if s == [] {
    } else {
      LastExactly(s[..|s| - 1], keys, k, i);
    }
  }

  function TableNames(t: TableInfo): set<string> {
    {t.name} + if t.alias != "" then {t.alias} else {}
  }

  function TableIds(t: TableInfo): set<uint32> {
    {t.id}
  }

  function FieldNames(f: FieldInfo): set<string> {
    {f.name}
  }

  function FieldIds(f: FieldInfo): set<uint32> {
    {f.id}
  }

  // ---------------------------------------------------------------- definitions

  class MatchFieldDef {
    var id: uint32
    var name: string
    var bitwidth: int32
    var matchType: int
    var otherMatchType: string

    constructor (f: FieldInfo)
      ensures Value() == f
    {
      id, name, bitwidth, matchType, otherMatchType := f.id, f.name, f.bitwidth, f.matchType, f.otherMatchType;
    }

    function Value(): FieldInfo
      reads this
    {
      FieldInfo(id, name, bitwidth, matchType, otherMatchType)
    }
  }

  class ActionRef {
    var id: uint32
    var scope: int

    constructor (r: RefInfo)
      ensures Value() == r
    {
      id, scope := r.id, r.scope;
    }

    function Value(): RefInfo
      reads this
    {
      RefInfo(id, scope)
    }
  }

  class TableDef {
    var id: uint32
    var name: string
    var alias: string
    var size: int
    var isConst: bool
    var matchFields: seq<MatchFieldDef>
    var actionRefs: seq<ActionRef>
    var matchByName: map<string, MatchFieldDef>
    var matchByID: map<uint32, MatchFieldDef>

    /** Everything that a caller with this definition can reach and change. */
    ghost function Footprint(): set<object>
      reads `matchFields, `actionRefs
    {
      {this as object} + (set f: object | f in matchFields) + (set r: object | r in actionRefs)
    }

    /** The definition has the contents of the table, and its maps lead to the objects of its own field list. */
    ghost predicate Is(t: TableInfo)
      reads this, matchFields, actionRefs
    {
      && id == t.id && name == t.name && alias == t.alias && size == t.size && isConst == t.isConst
      && FieldsAre(t.matchFields)
      && RefsAre(t.actionRefs)
      && MapsAre(t.matchFields)
    }

    ghost predicate FieldsAre(fields: seq<FieldInfo>)
      reads `matchFields, matchFields
    {
      |matchFields| == |fields| && forall i :: 0 <= i < |fields| ==> matchFields[i].Value() == fields[i]
    }

    ghost predicate RefsAre(refs: seq<RefInfo>)
      reads `actionRefs, actionRefs
    {
      |actionRefs| == |refs| && forall i :: 0 <= i < |refs| ==> actionRefs[i].Value() == refs[i]
    }

    /** The maps lead to the last field of the list with the name or ID. */
    ghost predicate MapsAre(fields: seq<FieldInfo>)
      reads `matchFields, `matchByName, `matchByID
    {
      && |fields| <= |matchFields|
      && (forall n :: n in matchByName <==> Last(fields, FieldNames, n).Some?)
      && (forall n :: n in matchByName ==> matchByName[n] == matchFields[Last(fields, FieldNames, n).value])
      && (forall n :: n in matchByID <==> Last(fields, FieldIds, n).Some?)
      && (forall n :: n in matchByID ==> matchByID[n] == matchFields[Last(fields, FieldIds, n).value])
    }

    /** Entering one more field into the maps. */
    method Enter(md: MatchFieldDef, ghost fields: seq<FieldInfo>)
      requires |matchFields| > |fields| && md == matchFields[|fields|] && MapsAre(fields)
      modifies `matchByName, `matchByID
      ensures MapsAre(fields + [md.Value()])
    {
      matchByName := matchByName[md.name := md];
      matchByID := matchByID[md.id := md];
      ghost var f := md.Value();
      assert (fields + [f])[..|fields|] == fields;
      LastSnoc(fields, FieldNames, f);
      LastSnoc(fields, FieldIds, f);
    }

    method AddMatchFields(fields: seq<FieldInfo>)
      requires matchFields == [] && matchByName == map[] && matchByID == map[]
      modifies `matchFields, `matchByName, `matchByID
      ensures FieldsAre(fields) && MapsAre(fields)
      ensures forall k :: 0 <= k < |matchFields| ==> fresh(matchFields[k])
    {
      for i := 0 to |fields|
        invariant FieldsAre(fields[..i]) && MapsAre(fields[..i])
        invariant forall k :: 0 <= k < |matchFields| ==> fresh(matchFields[k])
      {
        hide MapsAre, Last;
        AddMatchField(fields[i], fields[..i]);
        assert fields[..i] + [fields[i]] == fields[..i + 1];
      }
      assert fields[..|fields|] == fields;
    }

    /** One turn of the loop over the match fields. */
    method AddMatchField(f: FieldInfo, ghost fields: seq<FieldInfo>)
      requires FieldsAre(fields) && MapsAre(fields)
      modifies `matchFields, `matchByName, `matchByID
      ensures FieldsAre(fields + [f]) && MapsAre(fields + [f])
      ensures matchFields[..|fields|] == old(matchFields) && fresh(matchFields[|fields|])
    {
      var md := new MatchFieldDef(f);
      matchFields := matchFields + [md];
      Enter(md, fields);
    }

    method AddActionRefs(refs: seq<RefInfo>)
      requires actionRefs == []
      modifies `actionRefs
      ensures RefsAre(refs)
      ensures forall k :: 0 <= k < |actionRefs| ==> fresh(actionRefs[k])
    {
      for i := 0 to |refs|
        invariant RefsAre(refs[..i])
        invariant forall k :: 0 <= k < |actionRefs| ==> fresh(actionRefs[k])
      {
        var ar := new ActionRef(refs[i]);
        ghost var was := actionRefs;
        actionRefs := actionRefs + [ar];
        assert forall k :: 0 <= k < i ==> actionRefs[k] == was[k];
      }
      assert refs[..|refs|] == refs;
    }

    /** The table case of index. */
    constructor (t: TableInfo)
      ensures Is(t) && fresh(Footprint())
    {
      id, name, alias, size, isConst := t.id, t.name, t.alias, t.size, t.isConst;
      matchFields, actionRefs, matchByName, matchByID := [], [], map[], map[];
      new;
      AddMatchFields(t.matchFields);
      AddActionRefs(t.actionRefs);
    }

    /** copyValue: all fields are copied, the lists and maps are shared. */
    constructor CopyValue(t: TableDef)
      ensures id == t.id && name == t.name && alias == t.alias && size == t.size && isConst == t.isConst
      ensures matchFields == t.matchFields && actionRefs == t.actionRefs
      ensures matchByName == t.matchByName && matchByID == t.matchByID
    {
      id, name, alias, size, isConst := t.id, t.name, t.alias, t.size, t.isConst;
      matchFields, actionRefs, matchByName, matchByID := t.matchFields, t.actionRefs, t.matchByName, t.matchByID;
    }

    /** A deep copy whose maps lead to its own fields. */
    method Clone(ghost t: TableInfo) returns (out: TableDef)
      requires Is(t)
      ensures out.Is(t) && fresh(out.Footprint())
    {
      out := new TableDef.CopyValue(this);
      var fields := CopyFields(matchFields);
      var refs := CopyRefs(actionRefs);
      out.matchFields, out.actionRefs := fields, refs;
      out.Reindex(t.matchFields);
    }

    /** The last lines of clone. */
    method Reindex(ghost fields: seq<FieldInfo>)
      requires FieldsAre(fields)
      modifies `matchByName, `matchByID
      ensures MapsAre(fields)
    {
      matchByName, matchByID := map[], map[];
      assert MapsAre(fields[..0]);
      for i := 0 to |matchFields|
        invariant MapsAre(fields[..i])
      {
        Enter(matchFields[i], fields[..i]);
        assert fields[..i] + [fields[i]] == fields[..i + 1];
      }
      assert fields[..|fields|] == fields;
    }
  }

  method CopyFields(values: seq<MatchFieldDef>) returns (out: seq<MatchFieldDef>)
    ensures |out| == |values|
    ensures forall i :: 0 <= i < |out| ==> fresh(out[i]) && out[i].Value() == values[i].Value()
  {
    out := [];
    for i := 0 to |values|
      invariant |out| == i
      invariant forall k :: 0 <= k < i ==> fresh(out[k]) && out[k].Value() == values[k].Value()
    {
      var field := new MatchFieldDef(values[i].Value());
      out := out + [field];
    }
  }

  method CopyRefs(values: seq<ActionRef>) returns (out: seq<ActionRef>)
    ensures |out| == |values|
    ensures forall i :: 0 <= i < |out| ==> fresh(out[i]) && out[i].Value() == values[i].Value()
  {
    out := [];
    for i := 0 to |values|
      invariant |out| == i
      invariant forall k :: 0 <= k < i ==> fresh(out[k]) && out[k].Value() == values[k].Value()
    {
      var ref := new ActionRef(values[i].Value());
      out := out + [ref];
    }
  }

  // ---------------------------------------------------------------- the pipeline

  class Pipeline {
    const tables: seq<TableInfo>
    var tablesByName: map<string, TableDef>
    var tablesByID: map<uint32, TableDef>
    /** The definition built for each table, whether or not a map still leads to it, and all objects in them. */
    ghost var defs: seq<TableDef>
    ghost var Repr: set<object>

    ghost predicate Valid()
      reads this, Repr
    {
      |defs| == |tables| && Indexed(|tables|)
    }

    /** The first k tables are indexed. */
    ghost predicate Indexed(k: nat)
      reads this, Repr
    {
      k <= |tables| && |defs| == k && Built() && MapsAre(tables[..k])
    }

    ghost predicate Built()
      reads `defs, `Repr, Repr
    {
      && this !in Repr
      && |defs| <= |tables|
      && forall i :: 0 <= i < |defs| ==> defs[i] in Repr && defs[i].Footprint() <= Repr && defs[i].Is(tables[i])
    }

    ghost predicate MapsAre(known: seq<TableInfo>)
      reads `defs, `tablesByName, `tablesByID
    {
      && |known| <= |defs|
      && (forall n :: n in tablesByName <==> Last(known, TableNames, n).Some?)
      && (forall n :: n in tablesByName ==> tablesByName[n] == defs[Last(known, TableNames, n).value])
      && (forall n :: n in tablesByID <==> Last(known, TableIds, n).Some?)
      && (forall n :: n in tablesByID ==> tablesByID[n] == defs[Last(known, TableIds, n).value])
    }

    constructor (tables: seq<TableInfo>)
      ensures Valid() && this.tables == tables && fresh(Repr)
    {
      this.tables := tables;
      tablesByName, tablesByID, defs, Repr := map[], map[], [], {};
      new;
      for i := 0 to |tables|
        invariant this.tables == tables && Indexed(i) && fresh(Repr)
      {
        IndexTable(i);
      }
      assert tables[..|tables|] == tables;
    }

    /** One turn of the loop over the tables in index. */
    method IndexTable(i: nat)
      requires i < |tables| && Indexed(i)
      modifies this
      ensures Indexed(i + 1) && fresh(Repr - old(Repr))
    {
      hide MapsAre, Built, TableDef.Is;
      var t := new TableDef(tables[i]);
      Append(t, tables[..i]);
      Enter(t, tables[..i], tables[i]);
      assert tables[..i + 1] == tables[..i] + [tables[i]];
    }

    ghost method Append(t: TableDef, known: seq<TableInfo>)
      requires MapsAre(known) && Built() && |defs| < |tables| && t.Is(tables[|defs|]) && this !in t.Footprint()
      modifies `defs, `Repr
      ensures MapsAre(known) && Built() && defs == old(defs) + [t] && Repr == old(Repr) + t.Footprint()
    {
      defs := defs + [t];
      Repr := Repr + t.Footprint();
      assert forall k :: 0 <= k < |old(defs)| ==> defs[k] == old(defs)[k];
    }

    method Enter(t: TableDef, ghost known: seq<TableInfo>, ghost raw: TableInfo)
      requires MapsAre(known) && |defs| == |known| + 1 && t == defs[|known|]
      requires t.Is(raw)
      modifies `tablesByName, `tablesByID
      ensures MapsAre(known + [raw])
    {
      tablesByName := tablesByName[t.name := t];
      if t.alias != "" {
        tablesByName := tablesByName[t.alias := t];
      }
      tablesByID := tablesByID[t.id := t];
      LastSnoc(known, TableNames, raw);
      LastSnoc(known, TableIds, raw);
    }

    /** A copy of the table that a scan finds for the name or alias: the last one that goes by it. */
    method Table(name: string) returns (t: TableDef?, ok: bool)
      requires Valid()
      ensures ok <==> Last(tables, TableNames, name).Some?
      ensures ok ==> t != null && t.Is(tables[Last(tables, TableNames, name).value]) && fresh(t.Footprint())
      ensures !ok ==> t == null
    {
      assert tables[..|tables|] == tables;
      if name !in tablesByName {
        return null, false;
      }
      t := tablesByName[name].Clone(tables[Last(tables, TableNames, name).value]);
      ok := true;
    }

    method TableByID(id: uint32) returns (t: TableDef?, ok: bool)
      requires Valid()
      ensures ok <==> Last(tables, TableIds, id).Some?
      ensures ok ==> t != null && t.Is(tables[Last(tables, TableIds, id).value]) && fresh(t.Footprint())
      ensures !ok ==> t == null
    {
      assert tables[..|tables|] == tables;
      if id !in tablesByID {
        return null, false;
      }
      t := tablesByID[id].Clone(tables[Last(tables, TableIds, id).value]);
      ok := true;
    }

    /** For every table, in order, a copy of the last table with its ID; the copies share nothing. */
    method Tables() returns (out: seq<TableDef>)
      requires Valid()
      ensures |out| == |tables|
      ensures forall i :: 0 <= i < |out| ==> IsLastWithId(out[i], tables, i) && fresh(out[i].Footprint())
      ensures Apart(out)
    {
      hide Valid, TableDef.Is, TableDef.Footprint, Last, Apart;
      out := [];
      ghost var used: set<object> := {};
      assert Apart(out) by {
        NoneApart();
      }
      for i := 0 to |tables|
        invariant |out| == i
        invariant forall k :: 0 <= k < i ==> IsLastWithId(out[k], tables, k) && fresh(out[k].Footprint())
        invariant Within(out, used) && Apart(out)
      {
        OwnIdIsFound(tables, i);
        var t, ok := TableByID(tables[i].id);
        if ok {
          StillApart(out, t, used);
          out := out + [t];
          used := used + t.Footprint();
        }
      }
    }
  }

  /** The definition is the last table with the ID of table i. */
  ghost predicate IsLastWithId(t: TableDef, tables: seq<TableInfo>, i: nat)
    requires i < |tables|
    reads t, t.matchFields, t.actionRefs
  {
    var last := Last(tables, TableIds, tables[i].id);
    last.Some? && t.Is(tables[last.value])
  }

  /** No two of the definitions share an object. */
  ghost predicate Apart(defs: seq<TableDef>)
    reads defs
  {
    forall i, j :: 0 <= i < j < |defs| ==> defs[i].Footprint() !! defs[j].Footprint()
  }

  ghost predicate Within(defs: seq<TableDef>, used: set<object>)
    reads defs
  {
    forall i :: 0 <= i < |defs| ==> defs[i].Footprint() <= used
  }

  lemma NoneApart()
    ensures Apart([])
  {
  }

  lemma StillApart(defs: seq<TableDef>, t: TableDef, used: set<object>)
    requires Apart(defs) && Within(defs, used) && used !! t.Footprint()
    ensures Apart(defs + [t]) && Within(defs + [t], used + t.Footprint())
  {
  }

  lemma OwnIdIsFound(tables: seq<TableInfo>, i: nat)
    requires i < |tables|
    ensures Last(tables, TableIds, tables[i].id).Some?
  {
    LastExactly(tables, TableIds, tables[i].id, i);
  }

  lemma LastSnoc<T, K>(s: seq<T>, keys: T -> set<K>, x: T)
    ensures forall k :: Last(s + [x], keys, k) == if k in keys(x) then Some(|s|) else Last(s, keys, k)
  {
    assert (s + [x])[..|s|] == s;
  }

  /**
   Tables returns the tables of the P4Info themselves, in order, exactly when equal IDs mean equal tables. With two
   different tables of one ID it returns the last of them at both places.
   */
  lemma TablesAreTheTables(tables: seq<TableInfo>)
    ensures (forall i :: 0 <= i < |tables| ==>
               Last(tables, TableIds, tables[i].id).Some? &&
                   tables[Last(tables, TableIds, tables[i].id).value] == tables[i])
            <==>
            forall i, j :: 0 <= i < j < |tables| && tables[i].id == tables[j].id ==> tables[i] == tables[j]
  {
    forall i | 0 <= i < |tables|
      ensures var r := Last(tables, TableIds, tables[i].id);
              r.Some? && i <= r.value && tables[r.value].id == tables[i].id
    {
      OwnIdIsFound(tables, i);
      LastExactly(tables, TableIds, tables[i].id, Last(tables, TableIds, tables[i].id).value);
    }
    forall i, j | 0 <= i < j < |tables| && tables[i].id == tables[j].id
      ensures Last(tables, TableIds, tables[i].id) == Last(tables, TableIds, tables[j].id)
    {
    }
  }

  /** A name finds the last table that has it as its name or as its alias; an empty alias is none. */
  lemma NameFindsExactly(tables: seq<TableInfo>, name: string, i: nat)
    ensures Last(tables, TableNames, name) == Some(i) <==>
            && i < |tables| && (tables[i].name == name || (tables[i].alias != "" && tables[i].alias == name))
            && forall j :: i < j < |tables| ==>
                 tables[j].name != name && (tables[j].alias == "" || tables[j].alias != name)
    ensures Last(tables, TableNames, name).None? <==>
            forall j :: 0 <= j < |tables| ==>
                tables[j].name != name && (tables[j].alias == "" || tables[j].alias != name)
  {
    LastExactly(tables, TableNames, name, i);
    if Last(tables, TableNames, name).Some? {
      LastExactly(tables, TableNames, name, Last(tables, TableNames, name).value);
    }
    assert forall t: TableInfo :: name in TableNames(t) <==> t.name == name || (t.alias != "" && t.alias == name);
  }

  /** An ID finds the last table that has it. */
  lemma IdFindsExactly(tables: seq<TableInfo>, id: uint32, i: nat)
    ensures Last(tables, TableIds, id) == Some(i) <==>
            i < |tables| && tables[i].id == id && forall j :: i < j < |tables| ==> tables[j].id != id
  {
    LastExactly(tables, TableIds, id, i);
    assert forall t: TableInfo :: id in TableIds(t) <==> t.id == id;
  }

  /** A name, and an ID, finds the last match field of a table that has it. */
  lemma FieldFindsExactly(fields: seq<FieldInfo>, name: string, id: uint32, i: nat)
    ensures Last(fields, FieldNames, name) == Some(i) <==>
            i < |fields| && fields[i].name == name && forall j :: i < j < |fields| ==> fields[j].name != name
    ensures Last(fields, FieldIds, id) == Some(i) <==>
            i < |fields| && fields[i].id == id && forall j :: i < j < |fields| ==> fields[j].id != id
  {
    LastExactly(fields, FieldNames, name, i);
    LastExactly(fields, FieldIds, id, i);
    assert forall f: FieldInfo :: (name in FieldNames(f) <==> f.name == name) && (id in FieldIds(f) <==> f.id == id);
  }

  /** Two different tables of one ID: the second stands at both places. */
  lemma SecondTableTwice()
    ensures var a, b := TableInfo(1, "first", "", 0, false, [], []), TableInfo(1, "second", "", 0, false, [], []);
            a != b && Last([a, b], TableIds, a.id) == Some(1) && Last([a, b], TableIds, b.id) == Some(1)
  {
    var a, b := TableInfo(1, "first", "", 0, false, [], []), TableInfo(1, "second", "", 0, false, [], []);
    LastExactly([a, b], TableIds, 1, 1);
  }

  // ---------------------------------------------------------------- callers

  /** A caller that changes everything it can reach from a definition. */
  method Scribble(t: TableDef, n: uint32, s: string)
    modifies t.Footprint()
  {
    for i := 0 to |t.matchFields|
      modifies t.matchFields
    {
      var f := t.matchFields[i];
      f.id, f.name, f.bitwidth, f.matchType, f.otherMatchType := n, s, 0, 0, s;
    }
    for i := 0 to |t.actionRefs|
      modifies t.actionRefs
    {
      t.actionRefs[i].id, t.actionRefs[i].scope := n, 0;
    }
    t.id, t.name, t.alias, t.size, t.isConst := n, s, s, 0, !t.isConst;
    t.matchFields, t.actionRefs := [], [];
  }

  /** Changing the returned definition in any way changes no later query. */
  method MutationIsInvisible(p: Pipeline, name: string, n: uint32, s: string) returns (t: TableDef?, ok: bool)
    requires p.Valid()
    ensures p.Valid()
    ensures ok <==> Last(p.tables, TableNames, name).Some?
    ensures ok ==> t != null && t.Is(p.tables[Last(p.tables, TableNames, name).value])
  {
    hide Pipeline.Valid, TableDef.Is, TableDef.Footprint, Last;
    var first, found := p.Table(name);
    if found {
      Scribble(first, n, s);
    }
    t, ok := p.Table(name);
  }
}
