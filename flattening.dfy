/**
 * `NodeMapBuilder` as imperative code: every `handle` step is a method that
 * updates the shared `NodeMap` object and, where the Java code does
 * `list.put`, the caller's list accumulator in place. Each method is proved
 * to leave the node map and the list exactly as the matching function of
 * module FlatteningSpec says, or to fail with the error that function names.
 * After an error the partially updated node map is not specified.
 */
module Flattening {
  import opened Results
  import opened Json
  import opened Keywords
  import opened NodeMaps
  import S = FlatteningSpec
  import P = FlatteningProps
  import Utils

  /** The `{"@list": [...]}` map of step 5.1, which nested calls append to. */
  class ListBuffer {
    var items: seq<Json>

    constructor ()
      ensures items == []
    {
      items := [];
    }

    method Add(x: Json)
      modifies this
      ensures items == old(items) + [x]
    {
      items := items + [x];
    }
  }

  function ItemsOf(list: ListBuffer?): seq<Json>
    reads list
  {
    if list == null then [] else list.items
  }

  /** The outcome, node map and list agree with a specification result. */
  ghost predicate Agrees(spec: Result<S.Out, S.Error>, r: Outcome<S.Error>, st: St, list: ListBuffer?)
    reads list
  {
    match spec
    case Err(err) => r == Fail(err)
    case Ok(o) => r == Pass && st == o.st && (list != null ==> list.items == o.list)
  }

  ghost predicate AgreesSt(spec: Result<St, S.Error>, r: Outcome<S.Error>, st: St) {
    match spec
    case Err(err) => r == Fail(err)
    case Ok(st') => r == Pass && st == st'
  }

  /** `build`: steps 1 to 6. */
  method Build(e: Json, f: S.Frame, nm: NodeMap, list: ListBuffer?) returns (r: Outcome<S.Error>)
    requires IsStructure(e) && (f.inList <==> list != null)
    modifies nm, list
    decreases e, 4, 0
    ensures Agrees(S.Build(e, f, old(nm.Value()), old(ItemsOf(list))), r, nm.Value(), list)
  {
    if e.JArray? {
      r := Handle1(e, f, nm, list);
      return;
    }
    var ws := e.members;
    if HasKey(ws, TYPE) {
      ws := Handle3(ws, nm);
    }
    if HasKey(ws, VALUE) {
      r := Handle4(e, ws, f, nm, list);
    } else if HasKey(ws, LIST) {
      r := Handle5(e, f, nm, list);
    } else if S.IsNodeObject(e.members) {
      r := Handle6(e, ws, f, nm, list);
    } else {
      r := Pass;
    }
  }

  /** Step 3: the working copy with blank-prefixed types relabelled. */
  method Handle3(ms: seq<Member>, nm: NodeMap) returns (ws: seq<Member>)
    requires HasKey(ms, TYPE)
    modifies nm
    ensures S.Prepared(ws, nm.Value()) == S.Prepare(ms, old(nm.Value()))
  {
    var items := S.TypeStream(Get(ms, TYPE).value);
    var types := [];
    var i := 0;
    while i < |items|
      invariant 0 <= i <= |items|
      invariant var t := S.RenameTypes(items[i..], nm.Value());
        S.Renamed(types + t.items, t.st) == S.RenameTypes(items, old(nm.Value()))
    {
      RenameTypesStep(items, i, nm.Value());
      var relabelled := RelabelType(items[i], nm);
      types := types + relabelled;
      i := i + 1;
    }
    assert items[i..] == [] && types + [] == types;
    assert S.RenameTypes(items, old(nm.Value())) == S.Renamed(types, nm.Value());
    ws := Put(ms, TYPE, JArray(types));
  }

  /** Step 3.1 for one type. */
  method RelabelType(item: Json, nm: NodeMap) returns (types: seq<Json>)
    modifies nm
    ensures S.Renamed(types, nm.Value()) == S.RenameType(item, old(nm.Value()))
  {
    if item.JString? && HasBlankPrefix(item.s) {
      var id := nm.CreateIdentifier(item.s);
      types := [JString(id)];
    } else {
      types := [item];
    }
  }

  lemma RenameTypesStep(items: seq<Json>, i: nat, st: St)
    requires i < |items|
    ensures var h := S.RenameType(items[i], st);
      var t := S.RenameTypes(items[i + 1..], h.st);
      S.RenameTypes(items[i..], st) == S.Renamed(h.items + t.items, t.st)
  {
    assert items[i..][0] == items[i] && items[i..][1..] == items[i + 1..];
  }

  /** Step 1: every member of the array in order, with the same frame. */
  method Handle1(e: Json, f: S.Frame, nm: NodeMap, list: ListBuffer?) returns (r: Outcome<S.Error>)
    requires e.JArray? && (f.inList <==> list != null)
    modifies nm, list
    decreases e, 3, 0
    ensures Agrees(S.BuildItems(e, 0, f, old(nm.Value()), old(ItemsOf(list))), r, nm.Value(), list)
  {
    ghost var items := ItemsOf(list);
    var i := 0;
    while i < |e.items|
      invariant 0 <= i <= |e.items|
      invariant items == ItemsOf(list)
      invariant S.BuildItems(e, i, f, nm.Value(), items) == S.BuildItems(e, 0, f, old(nm.Value()), old(ItemsOf(list)))
    {
      var item := e.items[i];
      if !IsStructure(item) {
        return Fail(S.IllegalState);
      }
      ghost var spec := S.Build(item, f, nm.Value(), items);
      if list == null {
        P.OutsideList(item, f, nm.Value(), []);
      }
      r := Build(item, f, nm, list);
      if r.Fail? {
        return;
      }
      assert spec.Ok?;
      items := spec.value.list;
      i := i + 1;
    }
    r := Pass;
  }

  /** `noneMatch`: no element of the array equals `x`. */
  method NoneMatch(arr: seq<Json>, x: Json) returns (b: bool)
    ensures b <==> x !in arr
  {
    if |arr| == 0 {
      return true;
    }
    var i := 0;
    while i < |arr|
      invariant 0 <= i <= |arr|
      invariant x !in arr[..i]
    {
      if arr[i] == x {
        return false;
      }
      i := i + 1;
    }
    assert arr[..i] == arr;
    b := true;
  }

  /** Step 4: a value object. */
  method Handle4(e: Json, ws: seq<Member>, f: S.Frame, nm: NodeMap, list: ListBuffer?) returns (r: Outcome<S.Error>)
    requires f.inList <==> list != null
    modifies nm, list
    ensures Agrees(S.HandleValue(e, ws, f, old(nm.Value()), old(ItemsOf(list))), r, nm.Value(), list)
  {
    if list != null {
      list.Add(e);
      return Pass;
    }
    if f.subject.None? || f.property.None? {
      return Fail(S.MissingKey);
    }
    var g, s, p := f.graph, f.subject.value, f.property.value;
    var v := nm.Get(g, s, p);
    if v.Some? {
      if !v.value.JArray? {
        return Fail(S.ClassCast);
      }
      var absent := NoneMatch(v.value.items, e);
      if absent {
        nm.Set(g, s, p, JArray(v.value.items + [e]));
      }
    } else {
      nm.Set(g, s, p, JArray([JObject(ws)]));
    }
    r := Pass;
  }

  /** Appends to the array at (g, id, p) as `S.Append` does. */
  method Append(nm: NodeMap, g: string, id: string, p: string, x: Json) returns (r: Outcome<S.Error>)
    modifies nm
    ensures AgreesSt(S.Append(old(nm.Value()), g, id, p, x), r, nm.Value())
  {
    var v := nm.Get(g, id, p);
    if v.Some? {
      if !v.value.JArray? {
        return Fail(S.ClassCast);
      }
      nm.Set(g, id, p, JArray(v.value.items + [x]));
    } else {
      nm.Set(g, id, p, JArray([x]));
    }
    r := Pass;
  }

  /** Appends to the array at (g, id, p) unless present, as `S.AppendUnique` does. */
  method AppendUnique(nm: NodeMap, g: string, id: string, p: string, x: Json) returns (r: Outcome<S.Error>)
    modifies nm
    ensures AgreesSt(S.AppendUnique(old(nm.Value()), g, id, p, x), r, nm.Value())
  {
    var v := nm.Get(g, id, p);
    if v.Some? {
      if !v.value.JArray? {
        return Fail(S.ClassCast);
      }
      var absent := NoneMatch(v.value.items, x);
      if absent {
        nm.Set(g, id, p, JArray(v.value.items + [x]));
      }
    } else {
      nm.Set(g, id, p, JArray([x]));
    }
    r := Pass;
  }

  /** Step 5: a list object, collected into a fresh list and then appended. */
  method Handle5(e: Json, f: S.Frame, nm: NodeMap, list: ListBuffer?) returns (r: Outcome<S.Error>)
    requires e.JObject? && HasKey(e.members, LIST) && (f.inList <==> list != null)
    modifies nm, list
    decreases e, 3, 0
    ensures Agrees(S.HandleList(e, f, old(nm.Value()), old(ItemsOf(list))), r, nm.Value(), list)
  {
    var lv := Get(e.members, LIST).value;
    if !IsStructure(lv) {
      return Fail(S.ClassCast);
    }
    var result := new ListBuffer();
    r := Build(lv, f.(inList := true), nm, result);
    if r.Fail? {
      return;
    }
    var obj := ListObject(result.items);
    if list != null {
      list.Add(obj);
      return;
    }
    if f.subject.None? || f.property.None? {
      return Fail(S.MissingKey);
    }
    r := Append(nm, f.graph, f.subject.value, f.property.value, obj);
  }

  /** Step 6: a node object. */
  method Handle6(e: Json, ws: seq<Member>, f: S.Frame, nm: NodeMap, list: ListBuffer?) returns (r: Outcome<S.Error>)
    requires e.JObject? && S.WorkingCopy(e.members, ws) && (f.inList <==> list != null)
    modifies nm, list
    decreases e, 3, 2
    ensures Agrees(S.HandleNode(e, ws, f, old(nm.Value()), old(ItemsOf(list))), r, nm.Value(), list)
  {
    if HasKey(ws, ID) && !Get(ws, ID).value.JString? {
      return Pass;
    }
    var id := NodeIdentifier(ws, nm);
    // 6.3
    var known := nm.Contains(f.graph, id);
    if !known {
      nm.Set(f.graph, id, ID, JString(id));
    }
    r := Link(id, f, nm, list);
    if r.Fail? {
      return;
    }
    r := HandleNodeBody(e, Remove(ws, ID), id, f.graph, nm);
  }

  /** Steps 6.1 and 6.2 of `handle6`: the node's identifier. */
  method NodeIdentifier(ws: seq<Member>, nm: NodeMap) returns (id: string)
    requires HasKey(ws, ID) ==> Get(ws, ID).value.JString?
    modifies nm
    ensures Issued(id, nm.Value()) == S.NodeId(ws, old(nm.Value()))
  {
    if HasKey(ws, ID) {
      id := Get(ws, ID).value.s;
      if HasBlankPrefix(id) {
        id := nm.CreateIdentifier(id);
      }
    } else {
      id := nm.CreateFreshIdentifier();
    }
  }

  /** Steps 6.5 and 6.6 of `handle6`: the referenced node wins over the active property. */
  method Link(id: string, f: S.Frame, nm: NodeMap, list: ListBuffer?) returns (r: Outcome<S.Error>)
    requires f.inList <==> list != null
    modifies nm, list
    ensures Agrees(S.Link(id, f, old(nm.Value()), old(ItemsOf(list))), r, nm.Value(), list)
  {
    if f.referenced.Some? {
      r := Handle6_5(id, f, nm);
    } else if f.property.Some? {
      r := Handle6_6(id, f, nm, list);
    } else {
      r := Pass;
    }
  }

  /** Steps 6.7 and 6.8 of `handle6`, then the embedded values. */
  method HandleNodeBody(e: Json, ws0: seq<Member>, id: string, g: string, nm: NodeMap) returns (r: Outcome<S.Error>)
    requires e.JObject? && S.WorkingCopy(e.members, ws0)
    modifies nm
    decreases e, 3, 1
    ensures AgreesSt(S.NodeBody(e, ws0, id, g, old(nm.Value())), r, nm.Value())
  {
    var ws := ws0;
    // 6.7
    if HasKey(ws, TYPE) {
      Handle6_7(Get(ws, TYPE).value, id, g, nm);
      ws := Remove(ws, TYPE);
    }
    // 6.8
    if HasKey(ws, INDEX) {
      r := Handle6_8(Get(ws, INDEX).value, id, g, nm);
      if r.Fail? {
        return;
      }
      ws := Remove(ws, INDEX);
    }
    r := HandleNodeMembers(e, ws, id, g, nm);
  }

  /** Steps 6.9 to 6.12 of `handle6`. */
  method HandleNodeMembers(e: Json, ws0: seq<Member>, id: string, g: string, nm: NodeMap) returns (r: Outcome<S.Error>)
    requires e.JObject? && S.WorkingCopy(e.members, ws0) && !HasKey(ws0, TYPE)
    modifies nm
    decreases e, 3, 0
    ensures AgreesSt(S.NodeMembers(e, ws0, id, g, old(nm.Value())), r, nm.Value())
  {
    var ws := ws0;
    // 6.9
    if HasKey(ws, REVERSE) {
      r := Handle6_9(e, ws, id, g, nm);
      if r.Fail? {
        return;
      }
      ws := Remove(ws, REVERSE);
    }
    // 6.10
    if HasKey(ws, GRAPH) {
      r := Handle6_10(e, ws, id, nm);
      if r.Fail? {
        return;
      }
      ws := Remove(ws, GRAPH);
    }
    // 6.11
    if HasKey(ws, INCLUDED) {
      r := Handle6_11(e, ws, g, nm);
      if r.Fail? {
        return;
      }
      ws := Remove(ws, INCLUDED);
    }
    // 6.12
    r := Handle6_12(e, ws, Utils.Index(KeySeq(ws)), id, g, nm);
  }

  /** Step 6.5. */
  method Handle6_5(id: string, f: S.Frame, nm: NodeMap) returns (r: Outcome<S.Error>)
    requires f.referenced.Some?
    modifies nm
    ensures AgreesSt(S.LinkReferenced(id, f, old(nm.Value())), r, nm.Value())
  {
    if f.property.None? {
      return Fail(S.MissingKey);
    }
    r := AppendUnique(nm, f.graph, id, f.property.value, IdRef(f.referenced.value));
  }

  /** Step 6.6. */
  method Handle6_6(id: string, f: S.Frame, nm: NodeMap, list: ListBuffer?) returns (r: Outcome<S.Error>)
    requires f.property.Some? && (f.inList <==> list != null)
    modifies nm, list
    ensures Agrees(S.LinkReference(id, f, old(nm.Value()), old(ItemsOf(list))), r, nm.Value(), list)
  {
    var reference := IdRef(id);
    if list != null {
      list.Add(reference);
      return Pass;
    }
    if f.subject.None? {
      return Fail(S.MissingKey);
    }
    r := AppendUnique(nm, f.graph, f.subject.value, f.property.value, reference);
  }

  /** Step 6.7: the stored types become the merged type set. */
  method Handle6_7(declared: Json, id: string, g: string, nm: NodeMap)
    modifies nm
    ensures nm.Value() == S.MergeTypes(old(nm.Value()), g, id, declared)
  {
    var nodeTypeValue := nm.Get(g, id, TYPE);
    var nodeType := MergeTypeValues(nodeTypeValue, declared);
    nm.Set(g, id, TYPE, JArray(nodeType));
  }

  /** The loops of step 6.7: the non-null stored types, then the non-null declared ones. */
  method MergeTypeValues(nodeTypeValue: Option<Json>, typeValue: Json) returns (nodeType: seq<Json>)
    ensures nodeType == S.MergedTypes(nodeTypeValue, typeValue)
  {
    nodeType := AddValues([], nodeTypeValue);
    nodeType := AddValues(nodeType, Some(typeValue));
  }

  /** Adds an array's non-null members, or a single non-null value, to the set. */
  method AddValues(acc: seq<Json>, v: Option<Json>) returns (nodeType: seq<Json>)
    ensures nodeType == S.AddAll(acc, S.Candidates(v))
  {
    nodeType := acc;
    if v.Some? && v.value.JArray? {
      var xs := v.value.items;
      var i := 0;
      while i < |xs|
        invariant 0 <= i <= |xs|
        invariant S.AddAll(nodeType, xs[i..]) == S.AddAll(acc, xs)
      {
        assert xs[i..][1..] == xs[i + 1..];
        if xs[i] != JNull {
          nodeType := OptimizedAddToSet(xs[i], nodeType);
        }
        i := i + 1;
      }
    } else if v.Some? && v.value != JNull {
      nodeType := OptimizedAddToSet(v.value, nodeType);
    }
  }

  /** `optimizedAddToSet`: whatever representation it switches to, an ordered-set insertion. */
  method OptimizedAddToSet(x: Json, nodeType: seq<Json>) returns (r: seq<Json>)
    ensures r == S.AddToSet(x, nodeType)
  {
    if |nodeType| == 0 {
      r := [x];
    } else if |nodeType| == 1 && nodeType[0] != x {
      r := [nodeType[0], x];
    } else if |nodeType| == 2 {
      r := if x in nodeType then nodeType else nodeType + [x];
    } else if |nodeType| > 2 {
      r := if x in nodeType then nodeType else nodeType + [x];
    } else {
      r := nodeType;
    }
  }

  /** Step 6.8. */
  method Handle6_8(v: Json, id: string, g: string, nm: NodeMap) returns (r: Outcome<S.Error>)
    modifies nm
    ensures AgreesSt(S.StoreIndex(old(nm.Value()), g, id, v), r, nm.Value())
  {
    var present := nm.ContainsProp(g, id, INDEX);
    if present {
      return Fail(S.ConflictingIndexes);
    }
    nm.Set(g, id, INDEX, v);
    r := Pass;
  }

  /** Step 6.9: each reverse property's values, with the node as referenced node. */
  method Handle6_9(e: Json, ws: seq<Member>, id: string, g: string, nm: NodeMap) returns (r: Outcome<S.Error>)
    requires e.JObject? && S.WorkingCopy(e.members, ws) && HasKey(ws, REVERSE)
    modifies nm
    decreases e, 2, 0
    ensures AgreesSt(S.HandleReverse(e, ws, id, g, old(nm.Value())), r, nm.Value())
  {
    var reverseMap := Get(ws, REVERSE).value;
    if !reverseMap.JObject? {
      return Fail(S.ClassCast);
    }
    var j := 0;
    while j < |reverseMap.members|
      invariant 0 <= j <= |reverseMap.members|
      invariant S.ReverseEntries(reverseMap, j, id, g, nm.Value()) == S.ReverseEntries(reverseMap, 0, id, g, old(nm.Value()))
    {
      var entry := reverseMap.members[j];
      if !entry.value.JArray? {
        return Fail(S.ClassCast);
      }
      var values := entry.value;
      ghost var st0 := nm.Value();
      var k := 0;
      while k < |values.items|
        invariant 0 <= k <= |values.items|
        invariant S.ReverseValues(values, k, entry.key, id, g, nm.Value()) == S.ReverseValues(values, 0, entry.key, id, g, st0)
      {
        var value := values.items[k];
        if !IsStructure(value) {
          return Fail(S.ClassCast);
        }
        r := Build(value, S.Frame(g, None, Some(entry.key), Some(id), false), nm, null);
        if r.Fail? {
          return;
        }
        k := k + 1;
      }
      j := j + 1;
    }
    r := Pass;
  }

  /** Step 6.10: the node's `@graph` value, in the graph the node names. */
  method Handle6_10(e: Json, ws: seq<Member>, id: string, nm: NodeMap) returns (r: Outcome<S.Error>)
    requires e.JObject? && S.WorkingCopy(e.members, ws) && HasKey(ws, GRAPH)
    modifies nm
    decreases e, 2, 0
    ensures AgreesSt(S.HandleGraph(e, ws, id, old(nm.Value())), r, nm.Value())
  {
    var v := Get(ws, GRAPH).value;
    if !IsStructure(v) {
      return Fail(S.ClassCast);
    }
    r := Build(v, S.TopFrame(id), nm, null);
  }

  /** Step 6.11: the node's `@included` value, in the active graph. */
  method Handle6_11(e: Json, ws: seq<Member>, g: string, nm: NodeMap) returns (r: Outcome<S.Error>)
    requires e.JObject? && S.WorkingCopy(e.members, ws) && HasKey(ws, INCLUDED)
    modifies nm
    decreases e, 2, 0
    ensures AgreesSt(S.HandleIncluded(e, ws, g, old(nm.Value())), r, nm.Value())
  {
    var v := Get(ws, INCLUDED).value;
    if !IsStructure(v) {
      return Fail(S.ClassCast);
    }
    r := Build(v, S.TopFrame(g), nm, null);
  }

  /** Step 6.12: the remaining properties, in sorted key order. */
  method Handle6_12(e: Json, ws: seq<Member>, keys: seq<string>, id: string, g: string, nm: NodeMap) returns (r: Outcome<S.Error>)
    requires e.JObject? && S.WorkingCopy(e.members, ws) && !HasKey(ws, TYPE)
    modifies nm
    decreases e, 2, 0
    ensures AgreesSt(S.HandleProperties(e, ws, keys, 0, id, g, old(nm.Value())), r, nm.Value())
  {
    var i := 0;
    while i < |keys|
      invariant 0 <= i <= |keys|
      invariant S.HandleProperties(e, ws, keys, i, id, g, nm.Value()) == S.HandleProperties(e, ws, keys, 0, id, g, old(nm.Value()))
    {
      r := Handle6_12Property(e, ws, keys[i], id, g, nm);
      if r.Fail? {
        return;
      }
      i := i + 1;
    }
    r := Pass;
  }

  /** The body of the loop of step 6.12, for one key. */
  method Handle6_12Property(e: Json, ws: seq<Member>, key: string, id: string, g: string, nm: NodeMap) returns (r: Outcome<S.Error>)
    requires e.JObject? && S.WorkingCopy(e.members, ws) && !HasKey(ws, TYPE)
    modifies nm
    decreases e, 1, 0
    ensures AgreesSt(S.HandleProperty(e, ws, key, id, g, old(nm.Value())), r, nm.Value())
  {
    var property := key;
    var value := Get(ws, property);
    if value.None? || !IsStructure(value.value) {
      return Pass;
    }
    // 6.12.1
    if HasBlankPrefix(property) {
      property := nm.CreateIdentifier(property);
    }
    // 6.12.2
    var present := nm.ContainsProp(g, id, property);
    if !present {
      nm.Set(g, id, property, JArray([]));
    }
    // 6.12.3
    r := Build(value.value, S.Frame(g, Some(id), Some(property), None, false), nm, null);
  }

  /** `NodeMapBuilder.with(element, nodeMap).build()`. */
  method Generate(e: Json, nm: NodeMap) returns (r: Outcome<S.Error>)
    requires IsStructure(e)
    modifies nm
    ensures AgreesSt(S.Generate(e, old(nm.Value())), r, nm.Value())
  {
    r := Build(e, S.TopFrame(DEFAULT), nm, null);
  }
}
