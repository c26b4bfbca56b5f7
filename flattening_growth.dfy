/**
 * What node map generation never takes back. A successful run keeps every
 * node record and every property it found, never changes a stored value that
 * is not an array (other than `@type`, which step 6.7 replaces by the merged
 * set), and keeps every blank node relabelling. In particular a record's
 * `@id` is never overwritten.
 */
module NodeMapGrowth {
  import opened Results
  import opened Json
  import opened Keywords
  import opened NodeMaps
  import opened FlatteningSpec
  import Utils

  /** A stored value no step appends to: it is present and not an array. */
  predicate Settled(v: Option<Json>) {
    v.Some? && !v.value.JArray?
  }

  /** `x` is a non-null item of the array stored under `p` for node `id` of graph `g`. */
  predicate Holds(gs: Graphs, g: string, id: string, p: string, x: Json) {
    var v := PropertyValue(gs, g, id, p);
    v.Some? && v.value.JArray? && x in v.value.items && x != JNull
  }

  /** Writing `v` over `before` drops no non-null item of a stored array. */
  predicate KeepsItems(before: Option<Json>, v: Json) {
    before.Some? && before.value.JArray? ==>
      v.JArray? && forall x :: x in before.value.items && x != JNull ==> x in v.items
  }

  ghost predicate Persists(st: St, st': St) {
    && (forall g, id :: HasNode(st.graphs, g, id) ==> HasNode(st'.graphs, g, id))
    && (forall g, id, p :: HasProperty(st.graphs, g, id, p) ==> HasProperty(st'.graphs, g, id, p))
    && (forall g, id, p :: p != TYPE && Settled(PropertyValue(st.graphs, g, id, p)) ==>
          PropertyValue(st'.graphs, g, id, p) == PropertyValue(st.graphs, g, id, p))
    && (forall g, id, p, x :: Holds(st.graphs, g, id, p, x) ==> Holds(st'.graphs, g, id, p, x))
    && Extends(st.alloc, st'.alloc)
  }

  lemma PersistsTrans(a: St, b: St, c: St)
    requires Persists(a, b) && Persists(b, c)
    ensures Persists(a, c)
  {
  }

  predicate NoDuplicates(s: seq<Json>) {
    forall i, j :: 0 <= i < j < |s| ==> s[i] != s[j]
  }

  /** Adding `xs` to the ordered set `acc`, as step 6.7 does. */
  lemma {:induction false} AddAllContents(acc: seq<Json>, xs: seq<Json>)
    ensures forall x :: x in AddAll(acc, xs) <==> x in acc || (x in xs && x != JNull)
    ensures NoDuplicates(acc) ==> NoDuplicates(AddAll(acc, xs))
    decreases xs
  {
    if |xs| > 0 {
      var acc' := if xs[0] == JNull then acc else AddToSet(xs[0], acc);
      AddAllContents(acc', xs[1..]);
      assert xs == [xs[0]] + xs[1..];
    }
  }

  /** The merged `@type` keeps every non-null type stored before. */
  lemma MergedKeeps(before: Option<Json>, declared: Json)
    ensures KeepsItems(before, JArray(MergedTypes(before, declared)))
  {
    AddAllContents([], Candidates(before));
    AddAllContents(AddAll([], Candidates(before)), Candidates(Some(declared)));
  }

  /** A write that does not replace a settled value, or that replaces `@type`, and drops no stored item. */
  lemma SetInPersists(st: St, g: string, id: string, p: string, v: Json)
    requires p == TYPE || !Settled(PropertyValue(st.graphs, g, id, p))
    requires KeepsItems(PropertyValue(st.graphs, g, id, p), v)
    ensures Persists(st, SetIn(st, g, id, p, v))
  {
  }

  lemma AllocPersists(st: St, st': St)
    requires st'.graphs == st.graphs && Extends(st.alloc, st'.alloc)
    ensures Persists(st, st')
  {
  }

  lemma AppendPersists(st: St, g: string, id: string, p: string, x: Json)
    requires Append(st, g, id, p, x).Ok?
    ensures Persists(st, Append(st, g, id, p, x).value)
  {
    if PropertyValue(st.graphs, g, id, p).None? {
      SetInPersists(st, g, id, p, JArray([x]));
    } else {
      SetInPersists(st, g, id, p, JArray(PropertyValue(st.graphs, g, id, p).value.items + [x]));
    }
  }

  lemma AppendUniquePersists(st: St, g: string, id: string, p: string, x: Json)
    requires AppendUnique(st, g, id, p, x).Ok?
    ensures Persists(st, AppendUnique(st, g, id, p, x).value)
  {
    var v := PropertyValue(st.graphs, g, id, p);
    if v.None? {
      SetInPersists(st, g, id, p, JArray([x]));
    } else if x !in v.value.items {
      SetInPersists(st, g, id, p, JArray(v.value.items + [x]));
    }
  }

  lemma {:induction false} BuildPersists(e: Json, f: Frame, st: St, lst: seq<Json>)
    requires IsStructure(e) && Build(e, f, st, lst).Ok?
    ensures Persists(st, Build(e, f, st, lst).value.st)
    decreases e, 4, 0
  {
    match e
    case JArray(_) =>
      ItemsPersists(e, 0, f, st, lst);
    case JObject(ms) =>
      var p := Prepare(ms, st);
      AllocPersists(st, p.st);
      if HasKey(p.ws, VALUE) {
        ValuePersists(e, p.ws, f, p.st, lst);
        PersistsTrans(st, p.st, Build(e, f, st, lst).value.st);
      } else if HasKey(p.ws, LIST) {
        ListPersists(e, f, p.st, lst);
        PersistsTrans(st, p.st, Build(e, f, st, lst).value.st);
      } else if IsNodeObject(ms) {
        NodePersists(e, p.ws, f, p.st, lst);
        PersistsTrans(st, p.st, Build(e, f, st, lst).value.st);
      }
  }

  lemma {:induction false} ItemsPersists(e: Json, i: nat, f: Frame, st: St, lst: seq<Json>)
    requires e.JArray? && i <= |e.items| && BuildItems(e, i, f, st, lst).Ok?
    ensures Persists(st, BuildItems(e, i, f, st, lst).value.st)
    decreases e, 1, |e.items| - i
  {
    if i < |e.items| {
      var o := Build(e.items[i], f, st, lst).value;
      BuildPersists(e.items[i], f, st, lst);
      ItemsPersists(e, i + 1, f, o.st, o.list);
      PersistsTrans(st, o.st, BuildItems(e, i, f, st, lst).value.st);
    }
  }

  lemma ValuePersists(e: Json, ws: seq<Member>, f: Frame, st: St, lst: seq<Json>)
    requires HandleValue(e, ws, f, st, lst).Ok?
    ensures Persists(st, HandleValue(e, ws, f, st, lst).value.st)
  {
    if !f.inList {
      var g, s, p := f.graph, f.subject.value, f.property.value;
      var v := PropertyValue(st.graphs, g, s, p);
      if v.None? {
        SetInPersists(st, g, s, p, JArray([JObject(ws)]));
      } else if e !in v.value.items {
        SetInPersists(st, g, s, p, JArray(v.value.items + [e]));
      }
    }
  }

  lemma {:induction false} ListPersists(e: Json, f: Frame, st: St, lst: seq<Json>)
    requires e.JObject? && HasKey(e.members, LIST) && HandleList(e, f, st, lst).Ok?
    ensures Persists(st, HandleList(e, f, st, lst).value.st)
    decreases e, 3, 0
  {
    var lv := Get(e.members, LIST).value;
    var inner := Build(lv, f.(inList := true), st, []).value;
    BuildPersists(lv, f.(inList := true), st, []);
    if !f.inList {
      var obj := ListObject(inner.list);
      AppendPersists(inner.st, f.graph, f.subject.value, f.property.value, obj);
      PersistsTrans(st, inner.st, HandleList(e, f, st, lst).value.st);
    }
  }

  lemma LinkPersists(id: string, f: Frame, st: St, lst: seq<Json>)
    requires Link(id, f, st, lst).Ok?
    ensures Persists(st, Link(id, f, st, lst).value.st)
  {
    if f.referenced.Some? {
      AppendUniquePersists(st, f.graph, id, f.property.value, IdRef(f.referenced.value));
    } else if f.property.Some? && !f.inList {
      AppendUniquePersists(st, f.graph, f.subject.value, f.property.value, IdRef(id));
    }
  }

  lemma {:induction false} NodePersists(e: Json, ws: seq<Member>, f: Frame, st: St, lst: seq<Json>)
    requires e.JObject? && WorkingCopy(e.members, ws) && HandleNode(e, ws, f, st, lst).Ok?
    ensures Persists(st, HandleNode(e, ws, f, st, lst).value.st)
    decreases e, 3, 2
  {
    if !(HasKey(ws, ID) && !Get(ws, ID).value.JString?) {
      var n := NodeId(ws, st);
      AllocPersists(st, n.st);
      var st1 := EnsureNode(n.st, f.graph, n.id);
      if !HasNode(n.st.graphs, f.graph, n.id) {
        SetInPersists(n.st, f.graph, n.id, ID, JString(n.id));
      }
      PersistsTrans(st, n.st, st1);
      var o := Link(n.id, f, st1, lst).value;
      LinkPersists(n.id, f, st1, lst);
      PersistsTrans(st, st1, o.st);
      BodyPersists(e, Remove(ws, ID), n.id, f.graph, o.st);
      PersistsTrans(st, o.st, HandleNode(e, ws, f, st, lst).value.st);
    }
  }

  lemma {:induction false} BodyPersists(e: Json, ws: seq<Member>, id: string, g: string, st: St)
    requires e.JObject? && WorkingCopy(e.members, ws) && NodeBody(e, ws, id, g, st).Ok?
    ensures Persists(st, NodeBody(e, ws, id, g, st).value)
    decreases e, 3, 1
  {
    var st1 := if HasKey(ws, TYPE) then MergeTypes(st, g, id, Get(ws, TYPE).value) else st;
    if HasKey(ws, TYPE) {
      MergedKeeps(PropertyValue(st.graphs, g, id, TYPE), Get(ws, TYPE).value);
      SetInPersists(st, g, id, TYPE, JArray(MergedTypes(PropertyValue(st.graphs, g, id, TYPE), Get(ws, TYPE).value)));
    }
    var ws1 := Remove(ws, TYPE);
    var st2 := if HasKey(ws1, INDEX) then StoreIndex(st1, g, id, Get(ws1, INDEX).value).value else st1;
    if HasKey(ws1, INDEX) {
      SetInPersists(st1, g, id, INDEX, Get(ws1, INDEX).value);
    }
    PersistsTrans(st, st1, st2);
    MembersPersists(e, Remove(ws1, INDEX), id, g, st2);
    PersistsTrans(st, st2, NodeBody(e, ws, id, g, st).value);
  }

  lemma {:induction false} MembersPersists(e: Json, ws: seq<Member>, id: string, g: string, st: St)
    requires e.JObject? && WorkingCopy(e.members, ws) && !HasKey(ws, TYPE)
    requires NodeMembers(e, ws, id, g, st).Ok?
    ensures Persists(st, NodeMembers(e, ws, id, g, st).value)
    decreases e, 3, 0
  {
    var st1 := if HasKey(ws, REVERSE) then HandleReverse(e, ws, id, g, st).value else st;
    if HasKey(ws, REVERSE) {
      ReversePersists(e, ws, id, g, st);
    }
    var ws1 := Remove(ws, REVERSE);
    var st2 := if HasKey(ws1, GRAPH) then HandleGraph(e, ws1, id, st1).value else st1;
    if HasKey(ws1, GRAPH) {
      GraphPersists(e, ws1, id, st1);
    }
    PersistsTrans(st, st1, st2);
    var ws2 := Remove(ws1, GRAPH);
    var st3 := if HasKey(ws2, INCLUDED) then HandleIncluded(e, ws2, g, st2).value else st2;
    if HasKey(ws2, INCLUDED) {
      IncludedPersists(e, ws2, g, st2);
    }
    PersistsTrans(st, st2, st3);
    var ws3 := Remove(ws2, INCLUDED);
    PropertiesPersists(e, ws3, Utils.Index(KeySeq(ws3)), 0, id, g, st3);
    PersistsTrans(st, st3, NodeMembers(e, ws, id, g, st).value);
  }

  lemma {:induction false} ReversePersists(e: Json, ws: seq<Member>, id: string, g: string, st: St)
    requires e.JObject? && WorkingCopy(e.members, ws) && HasKey(ws, REVERSE)
    requires HandleReverse(e, ws, id, g, st).Ok?
    ensures Persists(st, HandleReverse(e, ws, id, g, st).value)
    decreases e, 2, 0
  {
    EntriesPersists(Get(ws, REVERSE).value, 0, id, g, st);
  }

  lemma {:induction false} EntriesPersists(rv: Json, j: nat, id: string, g: string, st: St)
    requires rv.JObject? && j <= |rv.members| && ReverseEntries(rv, j, id, g, st).Ok?
    ensures Persists(st, ReverseEntries(rv, j, id, g, st).value)
    decreases rv, 2, |rv.members| - j
  {
    if j < |rv.members| {
      var m := rv.members[j];
      var st' := ReverseValues(m.value, 0, m.key, id, g, st).value;
      ValuesPersists(m.value, 0, m.key, id, g, st);
      EntriesPersists(rv, j + 1, id, g, st');
      PersistsTrans(st, st', ReverseEntries(rv, j, id, g, st).value);
    }
  }

  lemma {:induction false} ValuesPersists(arr: Json, k: nat, p: string, id: string, g: string, st: St)
    requires arr.JArray? && k <= |arr.items| && ReverseValues(arr, k, p, id, g, st).Ok?
    ensures Persists(st, ReverseValues(arr, k, p, id, g, st).value)
    decreases arr, 1, |arr.items| - k
  {
    if k < |arr.items| {
      var f := Frame(g, None, Some(p), Some(id), false);
      var o := Build(arr.items[k], f, st, []).value;
      BuildPersists(arr.items[k], f, st, []);
      ValuesPersists(arr, k + 1, p, id, g, o.st);
      PersistsTrans(st, o.st, ReverseValues(arr, k, p, id, g, st).value);
    }
  }

  lemma {:induction false} GraphPersists(e: Json, ws: seq<Member>, id: string, st: St)
    requires e.JObject? && WorkingCopy(e.members, ws) && HasKey(ws, GRAPH)
    requires HandleGraph(e, ws, id, st).Ok?
    ensures Persists(st, HandleGraph(e, ws, id, st).value)
    decreases e, 2, 0
  {
    BuildPersists(Get(ws, GRAPH).value, TopFrame(id), st, []);
  }

  lemma {:induction false} IncludedPersists(e: Json, ws: seq<Member>, g: string, st: St)
    requires e.JObject? && WorkingCopy(e.members, ws) && HasKey(ws, INCLUDED)
    requires HandleIncluded(e, ws, g, st).Ok?
    ensures Persists(st, HandleIncluded(e, ws, g, st).value)
    decreases e, 2, 0
  {
    BuildPersists(Get(ws, INCLUDED).value, TopFrame(g), st, []);
  }

  lemma {:induction false} PropertiesPersists(e: Json, ws: seq<Member>, keys: seq<string>, i: nat, id: string, g: string, st: St)
    requires e.JObject? && WorkingCopy(e.members, ws) && !HasKey(ws, TYPE) && i <= |keys|
    requires HandleProperties(e, ws, keys, i, id, g, st).Ok?
    ensures Persists(st, HandleProperties(e, ws, keys, i, id, g, st).value)
    decreases e, 2, |keys| - i
  {
    if i < |keys| {
      var st' := HandleProperty(e, ws, keys[i], id, g, st).value;
      PropertyPersists(e, ws, keys[i], id, g, st);
      PropertiesPersists(e, ws, keys, i + 1, id, g, st');
      PersistsTrans(st, st', HandleProperties(e, ws, keys, i, id, g, st).value);
    }
  }

  lemma {:induction false} PropertyPersists(e: Json, ws: seq<Member>, k: string, id: string, g: string, st: St)
    requires e.JObject? && WorkingCopy(e.members, ws) && !HasKey(ws, TYPE)
    requires HandleProperty(e, ws, k, id, g, st).Ok?
    ensures Persists(st, HandleProperty(e, ws, k, id, g, st).value)
    decreases e, 1, 0
  {
    var v := Get(ws, k);
    if v.Some? && IsStructure(v.value) {
      var n := if HasBlankPrefix(k) then Rename(st, k) else Issued(k, st);
      AllocPersists(st, n.st);
      var st1 := if HasProperty(n.st.graphs, g, id, n.id) then n.st else SetIn(n.st, g, id, n.id, JArray([]));
      if !HasProperty(n.st.graphs, g, id, n.id) {
        SetInPersists(n.st, g, id, n.id, JArray([]));
      }
      PersistsTrans(st, n.st, st1);
      var f := Frame(g, Some(id), Some(n.id), None, false);
      BuildPersists(v.value, f, st1, []);
      PersistsTrans(st, st1, HandleProperty(e, ws, k, id, g, st).value);
    }
  }

  /** `NodeMapBuilder.with(element, nodeMap).build()` never takes anything back. */
  lemma GeneratePersists(e: Json, st: St)
    requires IsStructure(e) && Generate(e, st).Ok?
    ensures Persists(st, Generate(e, st).value)
  {
    BuildPersists(e, TopFrame(DEFAULT), st, []);
  }
}
