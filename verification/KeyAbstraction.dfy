/** Table keys are fully abstract: they keep exactly the packets meant, and one key stands for one packet set. */
module KeyAbstraction {
  import opened Bits
  import opened Bytes
  import opened Codec
  import opened MatchField
  import opened MatchMeaning
  import opened TableEntry
  import opened Wrappers

  /** Unique field names and IDs, and positive widths. */
  ghost predicate WellFormed(fields: seq<FieldDef>) {
    && (forall i, j :: 0 <= i < j < |fields| ==> fields[i].id != fields[j].id && fields[i].name != fields[j].name)
    && (forall f :: f in fields ==> 0 < f.bitwidth)
  }

  /** One value for each field, by field ID, within the width of the field. */
  ghost predicate Packet(fields: seq<FieldDef>, pkt: map<uint32, nat>) {
    forall f :: f in fields ==> f.id in pkt && 0 < f.bitwidth && pkt[f.id] < Pow2(f.bitwidth)
  }

  /** The packets that the caller's specifications ask for. */
  ghost predicate Asked(fields: seq<FieldDef>, matches: map<string, MatchValue>, pkt: map<uint32, nat>)
    requires Packet(fields, pkt)
  {
    forall f :: f in fields && f.name in matches ==> Means(matches[f.name], pkt[f.id], f.bitwidth)
  }

  /** The packets that a match list on the wire matches. */
  ghost predicate OnWire(fields: seq<FieldDef>, list: seq<FieldMatch>, pkt: map<uint32, nat>)
    requires Packet(fields, pkt)
  {
    forall f, fm :: f in fields && fm in list && fm.id == f.id ==> WireMatches(fm.kind, pkt[f.id], f.bitwidth)
  }

  // ---------------------------------------------------------------- sorting

  lemma {:induction false} InsertKeeps(f: FieldDef, s: seq<FieldDef>)
    ensures multiset(Insert(f, s)) == multiset(s) + multiset{f}
  {
    if s == [] || f.id <= s[0].id {
    } else {
      InsertKeeps(f, s[1..]);
      assert s == [s[0]] + s[1..];
    }
  }

  lemma {:induction false} SortKeeps(fields: seq<FieldDef>)
    ensures multiset(SortById(fields)) == multiset(fields)
  {
    if fields == [] {
    } else {
      var first, rest := fields[0], fields[1..];
      assert fields == [first] + rest && SortById(fields) == Insert(first, SortById(rest));
      hide SortById, Insert;
      SortKeeps(rest);
      InsertKeeps(first, SortById(rest));
    }
  }

  ghost predicate Ascending(s: seq<FieldDef>) {
    forall i, j :: 0 <= i < j < |s| ==> s[i].id <= s[j].id
  }

  lemma {:induction false} InsertAscending(f: FieldDef, s: seq<FieldDef>)
    requires Ascending(s)
    ensures Ascending(Insert(f, s))
  {
    if s == [] || f.id <= s[0].id {
    } else {
      InsertAscending(f, s[1..]);
      InsertKeeps(f, s[1..]);
      var r := Insert(f, s[1..]);
      forall j | 0 <= j < |r| ensures s[0].id <= r[j].id {
        assert r[j] in multiset(r);
        assert r[j] == f || r[j] in multiset(s[1..]);
      }
    }
  }

  lemma {:induction false} SortAscending(fields: seq<FieldDef>)
    ensures Ascending(SortById(fields))
  {
    if fields == [] {
    } else {
      SortAscending(fields[1..]);
      InsertAscending(fields[0], SortById(fields[1..]));
    }
  }

  lemma SameMembers(a: seq<FieldDef>, b: seq<FieldDef>)
    requires multiset(a) == multiset(b)
    ensures forall f :: f in a <==> f in b
  {
    forall f ensures f in a <==> f in b {
      assert f in a <==> f in multiset(a);
      assert f in b <==> f in multiset(b);
    }
  }

  /** With unique IDs the order of the fields is strict, and every field still appears once. */
  lemma SortStrict(fields: seq<FieldDef>)
    requires WellFormed(fields)
    ensures forall f :: f in SortById(fields) <==> f in fields
    ensures Strict(SortById(fields))
  {
    var s := SortById(fields);
    SortKeeps(fields);
    SortAscending(fields);
    SameMembers(s, fields);
    forall i, j | 0 <= i < j < |s| ensures s[i].id < s[j].id {
      if s[i].id == s[j].id {
        SameId(fields, s[i], s[j]);
        Twice(s, i, j);
        OnceOnly(fields, s[i]);
      }
    }
  }

  lemma SameId(fields: seq<FieldDef>, f: FieldDef, g: FieldDef)
    requires WellFormed(fields) && f in fields && g in fields && f.id == g.id
    ensures f == g
  {
  }

  lemma Twice(s: seq<FieldDef>, i: nat, j: nat)
    requires i < j < |s| && s[i] == s[j]
    ensures multiset(s)[s[i]] >= 2
  {
    assert s == s[..j] + s[j..];
    assert s[i] == s[..j][i] && s[j] == s[j..][0];
    assert s[i] in multiset(s[..j]) && s[j] in multiset(s[j..]);
  }

  lemma {:induction false} OnceOnly(fields: seq<FieldDef>, f: FieldDef)
    requires WellFormed(fields)
    ensures multiset(fields)[f] <= 1
  {
    if fields == [] {
    } else {
      assert fields == [fields[0]] + fields[1..];
      OnceOnly(fields[1..], f);
      if f == fields[0] {
        assert f !in fields[1..];
        assert f !in multiset(fields[1..]);
      }
    }
  }

  ghost predicate Strict(s: seq<FieldDef>) {
    forall i, j :: 0 <= i < j < |s| ==> s[i].id < s[j].id
  }

  // ---------------------------------------------------------------- match lists

  /** The list holds the wire form of each field that is not a wildcard, and nothing else. */
  lemma {:induction false} ListMembers(order: seq<FieldDef>, matches: map<string, MatchValue>)
    requires MatchList(order, matches).Ok?
    ensures forall f :: f in order ==> PerField(f, matches).Ok?
    ensures forall fm :: fm in MatchList(order, matches).value <==>
                           exists f :: f in order && PerField(f, matches) == Ok(Some(fm))
  {
    if order == [] {
    } else {
      ListMembers(order[1..], matches);
      assert forall f :: f in order <==> f == order[0] || f in order[1..];
    }
  }

  lemma FieldKeyId(f: FieldDef, mv: MatchValue)
    ensures FieldKey(f, mv).Ok? && FieldKey(f, mv).value.Some? ==> FieldKey(f, mv).value.value.id == f.id
  {
  }

  lemma {:induction false} ListIncreasing(order: seq<FieldDef>, matches: map<string, MatchValue>)
    requires Strict(order) && MatchList(order, matches).Ok?
    ensures var list := MatchList(order, matches).value;
            forall i, j :: 0 <= i < j < |list| ==> list[i].id < list[j].id
  {
    if order == [] {
    } else {
      var rest := MatchList(order[1..], matches).value;
      ListIncreasing(order[1..], matches);
      ListMembers(order[1..], matches);
      forall fm | fm in rest ensures order[0].id < fm.id {
        var f :| f in order[1..] && PerField(f, matches) == Ok(Some(fm));
        var i :| 0 <= i < |order[1..]| && order[1..][i] == f;
        assert order[0].id < order[i + 1].id;
        FieldKeyId(f, matches[f.name]);
      }
      if order[0].name in matches {
        FieldKeyId(order[0], matches[order[0].name]);
      }
    }
  }

  /** Lists built field by field from equal parts are equal. */
  lemma {:induction false} SamePartsSameList(
      order: seq<FieldDef>, m1: map<string, MatchValue>, m2: map<string, MatchValue>)
    requires forall f :: f in order ==> PerField(f, m1) == PerField(f, m2)
    ensures MatchList(order, m1) == MatchList(order, m2)
  {
    if order == [] {
    } else {
      SamePartsSameList(order[1..], m1, m2);
    }
  }

  // ---------------------------------------------------------------- packets

  ghost predicate FieldMatches(f: FieldDef, matches: map<string, MatchValue>, x: nat) {
    PerField(f, matches).Ok? && Matches(PerField(f, matches).value, x, if 0 < f.bitwidth then f.bitwidth else 0)
  }

  lemma PerFieldMeaning(f: FieldDef, matches: map<string, MatchValue>, x: nat)
    requires 0 < f.bitwidth && x < Pow2(f.bitwidth) && PerField(f, matches).Ok?
    ensures FieldMatches(f, matches, x) <==> (f.name in matches ==> Means(matches[f.name], x, f.bitwidth))
  {
    if f.name in matches {
      MeaningPreserved(f, matches[f.name], x);
    }
  }

  lemma PerFieldNormal(f: FieldDef, matches: map<string, MatchValue>)
    requires 0 < f.bitwidth && PerField(f, matches).Ok?
    ensures Normal(f, PerField(f, matches).value)
  {
    if f.name in matches {
      KeyIsNormal(f, matches[f.name]);
    }
  }

  lemma AskedByField(fields: seq<FieldDef>, matches: map<string, MatchValue>, pkt: map<uint32, nat>)
    requires Packet(fields, pkt) && forall f :: f in fields ==> PerField(f, matches).Ok?
    ensures Asked(fields, matches, pkt) <==> forall f :: f in fields ==> FieldMatches(f, matches, pkt[f.id])
  {
    forall f | f in fields
      ensures FieldMatches(f, matches, pkt[f.id]) <==>
          (f.name in matches ==> Means(matches[f.name], pkt[f.id], f.bitwidth))
    {
      PerFieldMeaning(f, matches, pkt[f.id]);
    }
  }

  lemma OnWireByField(fields: seq<FieldDef>, matches: map<string, MatchValue>, pkt: map<uint32, nat>)
    requires WellFormed(fields) && Packet(fields, pkt) && MatchList(SortById(fields), matches).Ok?
    ensures OnWire(fields, MatchList(SortById(fields), matches).value, pkt)
            <==> forall f :: f in fields ==> FieldMatches(f, matches, pkt[f.id])
  {
    var order := SortById(fields);
    var list := MatchList(order, matches).value;
    SortStrict(fields);
    ListMembers(order, matches);
    hide SortById, MatchList, PerField;
    forall f | f in fields
      ensures FieldMatches(f, matches, pkt[f.id]) <==>
              forall fm :: fm in list && fm.id == f.id ==> WireMatches(fm.kind, pkt[f.id], f.bitwidth)
    {
      EntriesOfField(fields, order, list, matches, f, pkt[f.id]);
    }
  }

  /** The list has an entry with the field's ID exactly when the field has a wire form, and then only that one. */
  lemma EntriesOfField(
      fields: seq<FieldDef>, order: seq<FieldDef>, list: seq<FieldMatch>, matches: map<string, MatchValue>,
      f: FieldDef, x: nat)
    requires WellFormed(fields) && f in fields && forall g :: g in order <==> g in fields
    requires forall g :: g in order ==> PerField(g, matches).Ok?
    requires forall fm :: fm in list <==> exists g :: g in order && PerField(g, matches) == Ok(Some(fm))
    ensures FieldMatches(f, matches, x) <==> forall fm :: fm in list && fm.id == f.id ==>
        WireMatches(fm.kind, x, f.bitwidth)
  {
    var r := PerField(f, matches);
    PerFieldId(f, matches);
    hide WireMatches;
    forall fm | fm in list && fm.id == f.id ensures r == Ok(Some(fm)) {
      var g :| g in order && PerField(g, matches) == Ok(Some(fm));
      PerFieldId(g, matches);
      SameId(fields, f, g);
    }
    if r.value.Some? {
      assert r == Ok(Some(r.value.value));
      assert r.value.value in list;
    }
  }

  lemma PerFieldId(f: FieldDef, matches: map<string, MatchValue>)
    ensures PerField(f, matches).Ok? && PerField(f, matches).value.Some? ==> PerField(f, matches).value.value.id == f.id
  {
    if f.name in matches {
      FieldKeyId(f, matches[f.name]);
    }
  }

  /** A packet that matches field by field, with one field chosen freely. */
  lemma {:induction false} PacketExists(fields: seq<FieldDef>, matches: map<string, MatchValue>)
      returns (pkt: map<uint32, nat>)
    requires WellFormed(fields) && forall f :: f in fields ==> PerField(f, matches).Ok?
    ensures Packet(fields, pkt) && forall f :: f in fields ==> FieldMatches(f, matches, pkt[f.id])
  {
    if fields == [] {
      pkt := map[];
    } else {
      var f := fields[0];
      var rest := PacketExists(fields[1..], matches);
      PerFieldNormal(f, matches);
      var x := Inhabited(f, PerField(f, matches).value);
      pkt := rest[f.id := x];
    }
  }

  /** If some field compiles differently, some packet is matched by one side only. */
  lemma PacketApart(fields: seq<FieldDef>, m1: map<string, MatchValue>, m2: map<string, MatchValue>, f: FieldDef)
    returns (pkt: map<uint32, nat>)
    requires WellFormed(fields) && f in fields && PerField(f, m1) != PerField(f, m2)
    requires forall g :: g in fields ==> PerField(g, m1).Ok? && PerField(g, m2).Ok?
    ensures Packet(fields, pkt) && Asked(fields, m1, pkt) != Asked(fields, m2, pkt)
  {
    PerFieldNormal(f, m1);
    PerFieldNormal(f, m2);
    var x := Apart(f, PerField(f, m1).value, PerField(f, m2).value);
    var side := if FieldMatches(f, m1, x) then m1 else m2;
    var base := PacketExists(fields, side);
    pkt := base[f.id := x];
    assert forall g :: g in fields && g != f ==> g.id != f.id;
    AskedByField(fields, m1, pkt);
    AskedByField(fields, m2, pkt);
    assert forall g :: g in fields ==> FieldMatches(g, side, pkt[g.id]);
    assert !(FieldMatches(f, m1, pkt[f.id]) && FieldMatches(f, m2, pkt[f.id]));
  }

  // ---------------------------------------------------------------- results

  /** The key matches on the wire exactly the packets asked for, in strictly increasing field order. */
  lemma KeyKeepsPackets(table: Table, matches: map<string, MatchValue>, priority: int32)
    requires WellFormed(table.fields) && Key(table, matches, priority, false).Ok?
    ensures var list := Key(table, matches, priority, false).value.matches;
            && (forall i, j :: 0 <= i < j < |list| ==> list[i].id < list[j].id)
            && (forall pkt :: Packet(table.fields, pkt) ==>
                  (OnWire(table.fields, list, pkt) <==> Asked(table.fields, matches, pkt)))
  {
    var order := SortById(table.fields);
    SortStrict(table.fields);
    ListIncreasing(order, matches);
    ListMembers(order, matches);
    forall pkt | Packet(table.fields, pkt)
      ensures OnWire(table.fields, MatchList(order, matches).value, pkt) <==> Asked(table.fields, matches, pkt)
    {
      OnWireByField(table.fields, matches, pkt);
      AskedByField(table.fields, matches, pkt);
    }
  }

  /** A match list is decided by the packets asked for, and decides them. */
  lemma SameListSamePackets(table: Table, m1: map<string, MatchValue>, m2: map<string, MatchValue>, p: int32)
    requires WellFormed(table.fields)
    requires Key(table, m1, p, false).Ok? && Key(table, m2, p, false).Ok?
    ensures Key(table, m1, p, false).value.matches == Key(table, m2, p, false).value.matches <==>
            forall pkt :: Packet(table.fields, pkt) ==>
              (Asked(table.fields, m1, pkt) <==> Asked(table.fields, m2, pkt))
  {
    var fields := table.fields;
    var order := SortById(fields);
    if Key(table, m1, p, false).value.matches == Key(table, m2, p, false).value.matches {
      KeyKeepsPackets(table, m1, p);
      KeyKeepsPackets(table, m2, p);
    } else {
      if forall f :: f in order ==> PerField(f, m1) == PerField(f, m2) {
        SamePartsSameList(order, m1, m2);
        assert false;
      }
      var f :| f in order && PerField(f, m1) != PerField(f, m2);
      SortStrict(fields);
      ListMembers(order, m1);
      ListMembers(order, m2);
      var pkt := PacketApart(fields, m1, m2, f);
    }
  }

  /**
   Two builders for one table get the same key exactly when they have the same priority and ask for the same packets.
   */
  lemma FullAbstraction(
      table: Table, m1: map<string, MatchValue>, p1: int32, m2: map<string, MatchValue>, p2: int32)
    requires WellFormed(table.fields)
    requires Key(table, m1, p1, false).Ok? && Key(table, m2, p2, false).Ok?
    ensures Key(table, m1, p1, false) == Key(table, m2, p2, false) <==>
            p1 == p2 &&
            forall pkt :: Packet(table.fields, pkt) ==>
              (Asked(table.fields, m1, pkt) <==> Asked(table.fields, m2, pkt))
  {
    KeyIdentifies(table, m1, p1, false);
    KeyIdentifies(table, m2, p2, false);
    if p1 == p2 {
      SameListSamePackets(table, m1, m2, p1);
    }
  }

  /** What identifies an entry is the caller's: the table, the flag and, unless it is the default, the priority. */
  lemma KeyIdentifies(table: Table, matches: map<string, MatchValue>, priority: int32, isDefault: bool)
    requires Key(table, matches, priority, isDefault).Ok?
    ensures var key := Key(table, matches, priority, isDefault).value;
            && key.tableId == table.id && key.isDefault == isDefault
            && (isDefault ==> key.matches == [] && key.priority == 0)
            && (!isDefault ==> key.priority == priority)
            && key.timeout == 0 && key.metadata == [] && key.action.None?
  {
  }

  /** Keys of tables with different IDs differ, and a default entry has the key of no ordinary one. */
  lemma KeysApart(
      t1: Table, m1: map<string, MatchValue>, p1: int32, d1: bool,
      t2: Table, m2: map<string, MatchValue>, p2: int32, d2: bool)
    requires Key(t1, m1, p1, d1).Ok? && Key(t2, m2, p2, d2).Ok? && Key(t1, m1, p1, d1) == Key(t2, m2, p2, d2)
    ensures t1.id == t2.id && d1 == d2 && (!d1 ==> p1 == p2)
  {
    KeyIdentifies(t1, m1, p1, d1);
    KeyIdentifies(t2, m2, p2, d2);
  }

  /** When a key can be built, in terms of the caller's numbers only. */
  lemma KeySucceedsExactly(table: Table, matches: map<string, MatchValue>, priority: int32, isDefault: bool)
    requires forall f :: f in table.fields ==> 0 < f.bitwidth
    ensures Key(table, matches, priority, isDefault).Ok? <==>
              || isDefault
              || (&& (forall name :: name in matches ==> exists f :: f in table.fields && f.name == name)
                  && (forall f :: f in table.fields ==>
                        if f.name in matches then Acceptable(f, matches[f.name]) else f.matchType != EXACT)
                  && (if exists f :: f in table.fields && f.matchType in {TERNARY, RANGE, OPTIONAL}
                      then 0 < priority else priority == 0))
  {
    var order := SortById(table.fields);
    SortKeeps(table.fields);
    SameMembers(order, table.fields);
    ListSucceedsExactly(order, matches);
    forall f | f in table.fields && f.name in matches
      ensures FieldKey(f, matches[f.name]).Ok? <==> Acceptable(f, matches[f.name])
    {
      AcceptedExactly(f, matches[f.name]);
    }
    assert forall name :: Declared(table, name) <==> exists f :: f in table.fields && f.name == name;
  }

  lemma {:induction false} ListSucceedsExactly(order: seq<FieldDef>, matches: map<string, MatchValue>)
    ensures MatchList(order, matches).Ok? <==> forall f :: f in order ==> PerField(f, matches).Ok?
  {
    if order == [] {
    } else {
      ListSucceedsExactly(order[1..], matches);
      assert forall f :: f in order <==> f == order[0] || f in order[1..];
    }
  }

  /** Every declared parameter is sent once, in order, as the canonical form of the caller's number. */
  lemma {:induction false} ParamsSent(defs: seq<ParamDef>, params: map<string, seq<byte>>)
    requires EncodedParams(defs, params).Ok?
    ensures |EncodedParams(defs, params).value| == |defs|
    ensures forall i :: 0 <= i < |defs| ==>
              && defs[i].name in params
              && EncodedParams(defs, params).value[i] == WireParam(defs[i].id, Canon(Val(params[defs[i].name])))
  {
    if defs == [] {
    } else {
      var n := |defs| - 1;
      ParamsSent(defs[..n], params);
      forall i | 0 <= i < n ensures defs[..n][i] == defs[i] {
      }
    }
  }

  /** The first reference to the action on the table allows it on this kind of entry. */
  ghost predicate Allowed(refs: seq<ActionRef>, id: uint32, isDefault: bool) {
    exists i :: 0 <= i < |refs| && refs[i].id == id && (forall j :: 0 <= j < i ==> refs[j].id != id)
                && (refs[i].scope == TABLE_AND_DEFAULT ||
                    refs[i].scope == (if isDefault then DEFAULT_ONLY else TABLE_ONLY))
  }

  lemma {:induction false} AllowedExactly(refs: seq<ActionRef>, id: uint32, isDefault: bool)
    ensures Allowed(refs, id, isDefault) <==>
        FindRef(refs, id).Some? && InScope(FindRef(refs, id).value.scope, isDefault)
  {
    if refs != [] && refs[0].id != id {
      AllowedExactly(refs[1..], id, isDefault);
      if Allowed(refs[1..], id, isDefault) {
        var i :| 0 <= i < |refs[1..]| && refs[1..][i].id == id && (forall j :: 0 <= j < i ==> refs[1..][j].id != id)
                 && InScope(refs[1..][i].scope, isDefault);
        assert refs[i + 1].id == id;
        forall j | 0 <= j < i + 1 ensures refs[j].id != id {
          assert j > 0 ==> refs[j] == refs[1..][j - 1];
        }
      }
      if Allowed(refs, id, isDefault) {
        var i :| 0 <= i < |refs| && refs[i].id == id && (forall j :: 0 <= j < i ==> refs[j].id != id)
                 && InScope(refs[i].scope, isDefault);
        assert refs[1..][i - 1].id == id;
        forall j | 0 <= j < i - 1 ensures refs[1..][j].id != id {
          assert refs[1..][j] == refs[j + 1];
        }
      }
    }
  }

  ghost predicate ParamFits(p: ParamDef, params: map<string, seq<byte>>) {
    p.name in params && 0 < p.bitwidth && Val(params[p.name]) < Pow2(p.bitwidth)
  }

  lemma {:induction false} ParamsSucceedExactly(defs: seq<ParamDef>, params: map<string, seq<byte>>)
    ensures EncodedParams(defs, params).Ok? <==> forall p :: p in defs ==> ParamFits(p, params)
    decreases |defs|
  {
    if defs == [] {
    } else {
      var n := |defs| - 1;
      ParamsSucceedExactly(defs[..n], params);
      assert forall p :: p in defs <==> p in defs[..n] || p == defs[n] by {
        assert defs == defs[..n] + [defs[n]];
      }
      assert ParamFits(defs[n], params) <==>
          defs[n].name in params && Encode(params[defs[n].name], defs[n].bitwidth).Ok?;
      hide ParamFits, Encode;
    }
  }

  /** When a direct action can be written, in terms of the table, the action and the caller's numbers only. */
  lemma ActionSucceedsExactly(pipeline: Pipeline, table: Table, isDefault: bool, spec: ActionSpec)
    ensures DirectAction(pipeline, table, isDefault, spec).Ok? <==>
              && (if isDefault then table.constDefaultActionId == 0 else !table.isConst)
              && table.implementationId == 0
              && spec.name in pipeline.actions
              && var act := pipeline.actions[spec.name];
                 && Allowed(table.actionRefs, act.id, isDefault)
                 && (forall p :: p in act.params ==> ParamFits(p, spec.params))
                 && (forall name :: name in spec.params ==> exists p :: p in act.params && p.name == name)
  {
    if spec.name in pipeline.actions {
      var act := pipeline.actions[spec.name];
      AllowedExactly(table.actionRefs, act.id, isDefault);
      ParamsSucceedExactly(act.params, spec.params);
      hide Allowed, FindRef, ParamFits, InScope;
      assert forall name :: DeclaredParam(act, name) <==> exists p :: p in act.params && p.name == name;
    }
  }

  /** What is sent is the named action with its own ID, which the table refers to, and its parameters in order. */
  lemma ActionSent(pipeline: Pipeline, table: Table, isDefault: bool, spec: ActionSpec)
    requires DirectAction(pipeline, table, isDefault, spec).Ok?
    ensures spec.name in pipeline.actions
    ensures var sent, act := DirectAction(pipeline, table, isDefault, spec).value, pipeline.actions[spec.name];
            && sent.id == act.id && (exists ref :: ref in table.actionRefs && ref.id == sent.id)
            && |sent.params| == |act.params|
            && forall i :: 0 <= i < |act.params| ==>
                 && act.params[i].name in spec.params
                 && sent.params[i] == WireParam(act.params[i].id, Canon(Val(spec.params[act.params[i].name])))
  {
    var act := pipeline.actions[spec.name];
    AllowedExactly(table.actionRefs, act.id, isDefault);
    ParamsSent(act.params, spec.params);
  }

  /** Two accepted actions are equal on the wire exactly when their IDs and all their numbers are. */
  lemma ActionsEqualExactly(
      pipeline: Pipeline, t1: Table, d1: bool, s1: ActionSpec, t2: Table, d2: bool, s2: ActionSpec)
    requires DirectAction(pipeline, t1, d1, s1).Ok? && DirectAction(pipeline, t2, d2, s2).Ok?
    ensures s1.name in pipeline.actions && s2.name in pipeline.actions
    ensures var a1, a2 := pipeline.actions[s1.name], pipeline.actions[s2.name];
            DirectAction(pipeline, t1, d1, s1) == DirectAction(pipeline, t2, d2, s2) <==>
              && a1.id == a2.id && |a1.params| == |a2.params|
              && forall i :: 0 <= i < |a1.params| ==>
                   && a1.params[i].id == a2.params[i].id
                   && a1.params[i].name in s1.params && a2.params[i].name in s2.params
                   && Val(s1.params[a1.params[i].name]) == Val(s2.params[a2.params[i].name])
  {
    ActionSent(pipeline, t1, d1, s1);
    ActionSent(pipeline, t2, d2, s2);
    hide DirectAction;
    var w1, w2 := DirectAction(pipeline, t1, d1, s1).value, DirectAction(pipeline, t2, d2, s2).value;
    var p1, p2 := pipeline.actions[s1.name].params, pipeline.actions[s2.name].params;
    if |p1| == |p2| {
      forall i | 0 <= i < |p1|
        ensures w1.params[i] == w2.params[i] <==>
                p1[i].id == p2[i].id && Val(s1.params[p1[i].name]) == Val(s2.params[p2[i].name])
      {
        ValCanon(Val(s1.params[p1[i].name]));
        ValCanon(Val(s2.params[p2[i].name]));
      }
      assert w1.params == w2.params <==> forall i :: 0 <= i < |p1| ==> w1.params[i] == w2.params[i];
    }
  }

  /** Two direct actions with one name are equal exactly when every declared parameter has the same number. */
  lemma ActionsFaithful(pipeline: Pipeline, table: Table, isDefault: bool, s1: ActionSpec, s2: ActionSpec)
    requires s1.name == s2.name
    requires DirectAction(pipeline, table, isDefault, s1).Ok? && DirectAction(pipeline, table, isDefault, s2).Ok?
    ensures s1.params.Keys == s2.params.Keys
    ensures DirectAction(pipeline, table, isDefault, s1) == DirectAction(pipeline, table, isDefault, s2) <==>
            forall name :: name in s1.params ==> Val(s1.params[name]) == Val(s2.params[name])
  {
    var defs := pipeline.actions[s1.name].params;
    ParamsSent(defs, s1.params);
    ParamsSent(defs, s2.params);
    var a, b := EncodedParams(defs, s1.params).value, EncodedParams(defs, s2.params).value;
    forall name ensures name in s1.params <==> name in s2.params {
      assert name in s1.params ==> DeclaredParam(pipeline.actions[s1.name], name);
      assert name in s2.params ==> DeclaredParam(pipeline.actions[s1.name], name);
    }
    if forall name :: name in s1.params ==> Val(s1.params[name]) == Val(s2.params[name]) {
      assert a == b;
    }
    if a == b {
      forall name | name in s1.params ensures Val(s1.params[name]) == Val(s2.params[name]) {
        var p :| p in defs && p.name == name;
        var i :| 0 <= i < |defs| && defs[i] == p;
        assert a[i] == b[i];
        CanonInjective(Val(s1.params[name]), Val(s2.params[name]));
      }
    }
  }
}
