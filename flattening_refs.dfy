/**
 * Referential completeness of the node map. Every reference `{"@id": x}` that
 * node map generation stores, directly in a property array or inside a list
 * object at any depth, names a node that has a record in the same graph; so
 * does every reference it leaves in the list in scope. Step 6.3 creates the
 * node's record before steps 6.5 and 6.6 store a reference to it, and the
 * referenced node of step 6.9 is the node whose `@reverse` is being processed.
 *
 * The values of `@type` and `@index` are copied from the input as given, not
 * built by the steps, so they are outside the statement.
 */
module NodeMapRefs {
  import opened Results
  import opened Json
  import opened Keywords
  import opened NodeMaps
  import opened FlatteningSpec
  import opened NodeMapGrowth
  import Utils

  /** Every reference in `v`, inside arrays and list objects too, names a node of graph `g`. */
  predicate Resolved(gs: Graphs, g: string, v: Json)
    decreases v
  {
    match v
    case JArray(xs) => forall i :: 0 <= i < |xs| ==> Resolved(gs, g, xs[i])
    case JObject(ms) =>
      if |ms| == 1 && ms[0].key == ID && ms[0].value.JString? then HasNode(gs, g, ms[0].value.s)
      else if |ms| == 1 && ms[0].key == LIST then Resolved(gs, g, ms[0].value)
      else true
    case _ => true
  }

  /** The properties whose values the steps build: all but `@type` and `@index`. */
  predicate Linking(p: string) {
    p != TYPE && p != INDEX
  }

  /** Every reference stored under a linking property names a node of the same graph. */
  ghost predicate RefComplete(gs: Graphs) {
    forall g, id, p :: Linking(p) && HasProperty(gs, g, id, p) ==> Resolved(gs, g, PropertyValue(gs, g, id, p).value)
  }

  /**
   * What a call of `build` needs: a complete map, a list in scope whose
   * references resolve in the active graph, and a record for the referenced node.
   */
  ghost predicate Ready(f: Frame, st: St, lst: seq<Json>) {
    && RefComplete(st.graphs)
    && Resolved(st.graphs, f.graph, JArray(lst))
    && (f.referenced.Some? ==> HasNode(st.graphs, f.graph, f.referenced.value))
  }

  /** What a call of `build` leaves: a complete map and a list whose references resolve. */
  ghost predicate Done(f: Frame, o: Out) {
    RefComplete(o.st.graphs) && Resolved(o.st.graphs, f.graph, JArray(o.list))
  }

  /** A resolved value stays resolved when records are added. */
  lemma {:induction false} ResolvedKept(gs: Graphs, gs': Graphs, g: string, v: Json)
    requires forall g', id :: HasNode(gs, g', id) ==> HasNode(gs', g', id)
    requires Resolved(gs, g, v)
    ensures Resolved(gs', g, v)
    decreases v
  {
    match v
    case JArray(xs) =>
      forall i | 0 <= i < |xs|
        ensures Resolved(gs', g, xs[i])
      {
        ResolvedKept(gs, gs', g, xs[i]);
      }
    case JObject(ms) =>
      if |ms| == 1 && !(ms[0].key == ID && ms[0].value.JString?) && ms[0].key == LIST {
        ResolvedKept(gs, gs', g, ms[0].value);
      }
    case _ =>
  }

  /** A value object has no references of its own to resolve. */
  lemma ValueObjectResolved(gs: Graphs, g: string, ms: seq<Member>)
    requires HasKey(ms, VALUE)
    ensures Resolved(gs, g, JObject(ms))
  {
    var i :| 0 <= i < |ms| && ms[i].key == VALUE;
    if |ms| == 1 {
      assert ms[0].key == VALUE;
    }
  }

  /** A list object resolves exactly when its items do. */
  lemma ListObjectResolved(gs: Graphs, g: string, items: seq<Json>)
    ensures Resolved(gs, g, ListObject(items)) <==> Resolved(gs, g, JArray(items))
  {
    var ms := [Member(LIST, JArray(items))];
    assert ListObject(items) == JObject(ms);
    assert ms[0].key != ID;
  }

  /** A write keeps the map complete when the value written resolves, or is not under a linking property. */
  lemma CompleteSetIn(st: St, g: string, id: string, p: string, v: Json)
    requires RefComplete(st.graphs)
    requires Linking(p) ==> Resolved(st.graphs, g, v)
    ensures RefComplete(SetIn(st, g, id, p, v).graphs)
  {
    var gs, gs' := st.graphs, SetIn(st, g, id, p, v).graphs;
    forall g', id', p' | Linking(p') && HasProperty(gs', g', id', p')
      ensures Resolved(gs', g', PropertyValue(gs', g', id', p').value)
    {
      if g' == g && id' == id && p' == p {
        ResolvedKept(gs, gs', g, v);
      } else {
        ResolvedKept(gs, gs', g', PropertyValue(gs, g', id', p').value);
      }
    }
  }

  /** Appending a resolved item keeps the map complete. */
  lemma CompleteAppend(st: St, g: string, id: string, p: string, x: Json)
    requires RefComplete(st.graphs) && Resolved(st.graphs, g, x)
    requires Append(st, g, id, p, x).Ok?
    ensures RefComplete(Append(st, g, id, p, x).value.graphs)
  {
    var v := PropertyValue(st.graphs, g, id, p);
    if v.None? {
      CompleteSetIn(st, g, id, p, JArray([x]));
    } else {
      assert Linking(p) ==> Resolved(st.graphs, g, v.value);
      CompleteSetIn(st, g, id, p, JArray(v.value.items + [x]));
    }
  }

  /** Appending a resolved item unless already there keeps the map complete. */
  lemma CompleteAppendUnique(st: St, g: string, id: string, p: string, x: Json)
    requires RefComplete(st.graphs) && Resolved(st.graphs, g, x)
    requires AppendUnique(st, g, id, p, x).Ok?
    ensures RefComplete(AppendUnique(st, g, id, p, x).value.graphs)
  {
    var v := PropertyValue(st.graphs, g, id, p);
    if v.None? {
      CompleteSetIn(st, g, id, p, JArray([x]));
    } else if x !in v.value.items {
      assert Linking(p) ==> Resolved(st.graphs, g, v.value);
      CompleteSetIn(st, g, id, p, JArray(v.value.items + [x]));
    }
  }

  /** Steps 1 to 6: referential completeness holds after every call of `build`. */
  lemma {:induction false} BuildComplete(e: Json, f: Frame, st: St, lst: seq<Json>)
    requires IsStructure(e) && Build(e, f, st, lst).Ok? && Ready(f, st, lst)
    ensures Done(f, Build(e, f, st, lst).value)
    decreases e, 4, 0
  {
    match e
    case JArray(_) =>
      ItemsComplete(e, 0, f, st, lst);
    case JObject(ms) =>
      var p := Prepare(ms, st);
      if HasKey(p.ws, VALUE) {
        ValueComplete(e, p.ws, f, p.st, lst);
      } else if HasKey(p.ws, LIST) {
        ListComplete(e, f, p.st, lst);
      } else if IsNodeObject(ms) {
        NodeComplete(e, p.ws, f, p.st, lst);
      }
  }

  lemma {:induction false} ItemsComplete(e: Json, i: nat, f: Frame, st: St, lst: seq<Json>)
    requires e.JArray? && i <= |e.items| && BuildItems(e, i, f, st, lst).Ok? && Ready(f, st, lst)
    ensures Done(f, BuildItems(e, i, f, st, lst).value)
    decreases e, 1, |e.items| - i
  {
    if i < |e.items| {
      var o := Build(e.items[i], f, st, lst).value;
      BuildComplete(e.items[i], f, st, lst);
      BuildPersists(e.items[i], f, st, lst);
      ItemsComplete(e, i + 1, f, o.st, o.list);
    }
  }

  lemma ValueComplete(e: Json, ws: seq<Member>, f: Frame, st: St, lst: seq<Json>)
    requires e.JObject? && HasKey(e.members, VALUE) && HasKey(ws, VALUE)
    requires HandleValue(e, ws, f, st, lst).Ok? && Ready(f, st, lst)
    ensures Done(f, HandleValue(e, ws, f, st, lst).value)
  {
    ValueObjectResolved(st.graphs, f.graph, e.members);
    ValueObjectResolved(st.graphs, f.graph, ws);
    if !f.inList {
      var g, s, p := f.graph, f.subject.value, f.property.value;
      var v := PropertyValue(st.graphs, g, s, p);
      if v.None? {
        CompleteSetIn(st, g, s, p, JArray([JObject(ws)]));
        ResolvedKept(st.graphs, SetIn(st, g, s, p, JArray([JObject(ws)])).graphs, g, JArray(lst));
      } else if e !in v.value.items {
        CompleteAppend(st, g, s, p, e);
        ResolvedKept(st.graphs, SetIn(st, g, s, p, JArray(v.value.items + [e])).graphs, g, JArray(lst));
      }
    }
  }

  lemma {:induction false} ListComplete(e: Json, f: Frame, st: St, lst: seq<Json>)
    requires e.JObject? && HasKey(e.members, LIST) && HandleList(e, f, st, lst).Ok? && Ready(f, st, lst)
    ensures Done(f, HandleList(e, f, st, lst).value)
    decreases e, 3, 0
  {
    var lv := Get(e.members, LIST).value;
    var f' := f.(inList := true);
    var inner := Build(lv, f', st, []).value;
    BuildComplete(lv, f', st, []);
    BuildPersists(lv, f', st, []);
    var obj := ListObject(inner.list);
    ListObjectResolved(inner.st.graphs, f.graph, inner.list);
    ResolvedKept(st.graphs, inner.st.graphs, f.graph, JArray(lst));
    if !f.inList {
      var after := HandleList(e, f, st, lst).value.st;
      CompleteAppend(inner.st, f.graph, f.subject.value, f.property.value, obj);
      AppendPersists(inner.st, f.graph, f.subject.value, f.property.value, obj);
      ResolvedKept(inner.st.graphs, after.graphs, f.graph, JArray(lst));
    }
  }

  /** Steps 6.5 and 6.6 store references to the node and to the referenced node, both of which have records. */
  lemma LinkComplete(id: string, f: Frame, st: St, lst: seq<Json>)
    requires Link(id, f, st, lst).Ok? && Ready(f, st, lst) && HasNode(st.graphs, f.graph, id)
    ensures Done(f, Link(id, f, st, lst).value)
  {
    var after := Link(id, f, st, lst).value.st;
    if f.referenced.Some? {
      CompleteAppendUnique(st, f.graph, id, f.property.value, IdRef(f.referenced.value));
      AppendUniquePersists(st, f.graph, id, f.property.value, IdRef(f.referenced.value));
      ResolvedKept(st.graphs, after.graphs, f.graph, JArray(lst));
    } else if f.property.Some? && !f.inList {
      CompleteAppendUnique(st, f.graph, f.subject.value, f.property.value, IdRef(id));
      AppendUniquePersists(st, f.graph, f.subject.value, f.property.value, IdRef(id));
      ResolvedKept(st.graphs, after.graphs, f.graph, JArray(lst));
    }
  }

  /** Step 6.3 keeps the call ready and leaves a record for the node. */
  lemma EnsureNodeReady(id: string, f: Frame, st: St, lst: seq<Json>)
    requires Ready(f, st, lst)
    ensures Ready(f, EnsureNode(st, f.graph, id), lst) && HasNode(EnsureNode(st, f.graph, id).graphs, f.graph, id)
  {
    if !HasNode(st.graphs, f.graph, id) {
      CompleteSetIn(st, f.graph, id, ID, JString(id));
      ResolvedKept(st.graphs, EnsureNode(st, f.graph, id).graphs, f.graph, JArray(lst));
    }
  }

  /** Steps 6.1 to 6.6: the node gets a record before any reference to it is stored. */
  lemma NodeLinkComplete(ws: seq<Member>, f: Frame, st: St, lst: seq<Json>)
    requires (HasKey(ws, ID) ==> Get(ws, ID).value.JString?) && Ready(f, st, lst)
    requires var n := NodeId(ws, st); Link(n.id, f, EnsureNode(n.st, f.graph, n.id), lst).Ok?
    ensures var n := NodeId(ws, st);
      var o := Link(n.id, f, EnsureNode(n.st, f.graph, n.id), lst).value;
      Done(f, o) && HasNode(o.st.graphs, f.graph, n.id)
  {
    var n := NodeId(ws, st);
    var st1 := EnsureNode(n.st, f.graph, n.id);
    EnsureNodeReady(n.id, f, n.st, lst);
    LinkComplete(n.id, f, st1, lst);
    LinkPersists(n.id, f, st1, lst);
  }

  lemma {:induction false} NodeComplete(e: Json, ws: seq<Member>, f: Frame, st: St, lst: seq<Json>)
    requires e.JObject? && WorkingCopy(e.members, ws) && HandleNode(e, ws, f, st, lst).Ok? && Ready(f, st, lst)
    ensures Done(f, HandleNode(e, ws, f, st, lst).value)
    decreases e, 3, 2
  {
    if !(HasKey(ws, ID) && !Get(ws, ID).value.JString?) {
      var n := NodeId(ws, st);
      var o := Link(n.id, f, EnsureNode(n.st, f.graph, n.id), lst).value;
      NodeLinkComplete(ws, f, st, lst);
      var after := HandleNode(e, ws, f, st, lst).value.st;
      BodyComplete(e, Remove(ws, ID), n.id, f.graph, o.st);
      BodyPersists(e, Remove(ws, ID), n.id, f.graph, o.st);
      ResolvedKept(o.st.graphs, after.graphs, f.graph, JArray(o.list));
    }
  }

  lemma {:induction false} BodyComplete(e: Json, ws: seq<Member>, id: string, g: string, st: St)
    requires e.JObject? && WorkingCopy(e.members, ws) && NodeBody(e, ws, id, g, st).Ok?
    requires RefComplete(st.graphs) && HasNode(st.graphs, g, id)
    ensures RefComplete(NodeBody(e, ws, id, g, st).value.graphs)
    decreases e, 3, 1
  {
    var st1 := if HasKey(ws, TYPE) then MergeTypes(st, g, id, Get(ws, TYPE).value) else st;
    if HasKey(ws, TYPE) {
      CompleteSetIn(st, g, id, TYPE, JArray(MergedTypes(PropertyValue(st.graphs, g, id, TYPE), Get(ws, TYPE).value)));
    }
    var ws1 := Remove(ws, TYPE);
    var st2 := if HasKey(ws1, INDEX) then StoreIndex(st1, g, id, Get(ws1, INDEX).value).value else st1;
    if HasKey(ws1, INDEX) {
      CompleteSetIn(st1, g, id, INDEX, Get(ws1, INDEX).value);
    }
    MembersComplete(e, Remove(ws1, INDEX), id, g, st2);
  }

  lemma {:induction false} MembersComplete(e: Json, ws: seq<Member>, id: string, g: string, st: St)
    requires e.JObject? && WorkingCopy(e.members, ws) && !HasKey(ws, TYPE)
    requires NodeMembers(e, ws, id, g, st).Ok? && RefComplete(st.graphs) && HasNode(st.graphs, g, id)
    ensures RefComplete(NodeMembers(e, ws, id, g, st).value.graphs)
    decreases e, 3, 0
  {
    var st1 := if HasKey(ws, REVERSE) then HandleReverse(e, ws, id, g, st).value else st;
    if HasKey(ws, REVERSE) {
      ReverseComplete(e, ws, id, g, st);
    }
    var ws1 := Remove(ws, REVERSE);
    var st2 := if HasKey(ws1, GRAPH) then HandleGraph(e, ws1, id, st1).value else st1;
    if HasKey(ws1, GRAPH) {
      GraphComplete(e, ws1, id, st1);
    }
    var ws2 := Remove(ws1, GRAPH);
    var st3 := if HasKey(ws2, INCLUDED) then HandleIncluded(e, ws2, g, st2).value else st2;
    if HasKey(ws2, INCLUDED) {
      IncludedComplete(e, ws2, g, st2);
    }
    var ws3 := Remove(ws2, INCLUDED);
    PropertiesComplete(e, ws3, Utils.Index(KeySeq(ws3)), 0, id, g, st3);
  }

  /** Step 6.9: the values of reverse properties refer to the node itself, which has a record. */
  lemma {:induction false} ReverseComplete(e: Json, ws: seq<Member>, id: string, g: string, st: St)
    requires e.JObject? && WorkingCopy(e.members, ws) && HasKey(ws, REVERSE)
    requires HandleReverse(e, ws, id, g, st).Ok? && RefComplete(st.graphs) && HasNode(st.graphs, g, id)
    ensures RefComplete(HandleReverse(e, ws, id, g, st).value.graphs)
    decreases e, 2, 0
  {
    EntriesComplete(Get(ws, REVERSE).value, 0, id, g, st);
  }

  lemma {:induction false} EntriesComplete(rv: Json, j: nat, id: string, g: string, st: St)
    requires rv.JObject? && j <= |rv.members| && ReverseEntries(rv, j, id, g, st).Ok?
    requires RefComplete(st.graphs) && HasNode(st.graphs, g, id)
    ensures RefComplete(ReverseEntries(rv, j, id, g, st).value.graphs)
    decreases rv, 2, |rv.members| - j
  {
    if j < |rv.members| {
      var m := rv.members[j];
      var st' := ReverseValues(m.value, 0, m.key, id, g, st).value;
      ValuesComplete(m.value, 0, m.key, id, g, st);
      ValuesPersists(m.value, 0, m.key, id, g, st);
      EntriesComplete(rv, j + 1, id, g, st');
    }
  }

  lemma {:induction false} ValuesComplete(arr: Json, k: nat, p: string, id: string, g: string, st: St)
    requires arr.JArray? && k <= |arr.items| && ReverseValues(arr, k, p, id, g, st).Ok?
    requires RefComplete(st.graphs) && HasNode(st.graphs, g, id)
    ensures RefComplete(ReverseValues(arr, k, p, id, g, st).value.graphs)
    decreases arr, 1, |arr.items| - k
  {
    if k < |arr.items| {
      var f := Frame(g, None, Some(p), Some(id), false);
      var o := Build(arr.items[k], f, st, []).value;
      BuildComplete(arr.items[k], f, st, []);
      BuildPersists(arr.items[k], f, st, []);
      ValuesComplete(arr, k + 1, p, id, g, o.st);
    }
  }

  lemma {:induction false} GraphComplete(e: Json, ws: seq<Member>, id: string, st: St)
    requires e.JObject? && WorkingCopy(e.members, ws) && HasKey(ws, GRAPH)
    requires HandleGraph(e, ws, id, st).Ok? && RefComplete(st.graphs)
    ensures RefComplete(HandleGraph(e, ws, id, st).value.graphs)
    decreases e, 2, 0
  {
    BuildComplete(Get(ws, GRAPH).value, TopFrame(id), st, []);
  }

  lemma {:induction false} IncludedComplete(e: Json, ws: seq<Member>, g: string, st: St)
    requires e.JObject? && WorkingCopy(e.members, ws) && HasKey(ws, INCLUDED)
    requires HandleIncluded(e, ws, g, st).Ok? && RefComplete(st.graphs)
    ensures RefComplete(HandleIncluded(e, ws, g, st).value.graphs)
    decreases e, 2, 0
  {
    BuildComplete(Get(ws, INCLUDED).value, TopFrame(g), st, []);
  }

  lemma {:induction false} PropertiesComplete(e: Json, ws: seq<Member>, keys: seq<string>, i: nat, id: string, g: string, st: St)
    requires e.JObject? && WorkingCopy(e.members, ws) && !HasKey(ws, TYPE) && i <= |keys|
    requires HandleProperties(e, ws, keys, i, id, g, st).Ok? && RefComplete(st.graphs)
    ensures RefComplete(HandleProperties(e, ws, keys, i, id, g, st).value.graphs)
    decreases e, 2, |keys| - i
  {
    if i < |keys| {
      var st' := HandleProperty(e, ws, keys[i], id, g, st).value;
      PropertyComplete(e, ws, keys[i], id, g, st);
      PropertiesComplete(e, ws, keys, i + 1, id, g, st');
    }
  }

  lemma {:induction false} PropertyComplete(e: Json, ws: seq<Member>, k: string, id: string, g: string, st: St)
    requires e.JObject? && WorkingCopy(e.members, ws) && !HasKey(ws, TYPE)
    requires HandleProperty(e, ws, k, id, g, st).Ok? && RefComplete(st.graphs)
    ensures RefComplete(HandleProperty(e, ws, k, id, g, st).value.graphs)
    decreases e, 1, 0
  {
    var v := Get(ws, k);
    if v.Some? && IsStructure(v.value) {
      var n := if HasBlankPrefix(k) then Rename(st, k) else Issued(k, st);
      var st1 := if HasProperty(n.st.graphs, g, id, n.id) then n.st else SetIn(n.st, g, id, n.id, JArray([]));
      if !HasProperty(n.st.graphs, g, id, n.id) {
        CompleteSetIn(n.st, g, id, n.id, JArray([]));
      }
      BuildComplete(v.value, Frame(g, Some(id), Some(n.id), None, false), st1, []);
    }
  }

  /** `NodeMapBuilder.with(element, nodeMap).build()` keeps a complete node map complete. */
  lemma GenerateComplete(e: Json, st: St)
    requires IsStructure(e) && Generate(e, st).Ok? && RefComplete(st.graphs)
    ensures RefComplete(Generate(e, st).value.graphs)
  {
    BuildComplete(e, TopFrame(DEFAULT), st, []);
  }

  /** A node map generated from an empty one is complete: every stored reference names a record. */
  lemma GenerateFromEmptyComplete(e: Json, a: Alloc)
    requires IsStructure(e) && Generate(e, St(map[], a)).Ok?
    ensures var gs := Generate(e, St(map[], a)).value.graphs;
      forall g, id, p :: Linking(p) && HasProperty(gs, g, id, p) ==> Resolved(gs, g, PropertyValue(gs, g, id, p).value)
  {
    GenerateComplete(e, St(map[], a));
  }
}
