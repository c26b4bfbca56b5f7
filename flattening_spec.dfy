/**
 * Node map generation (section 7.2 of the W3C JSON-LD 1.1 Processing
 * Algorithms and API) as `NodeMapBuilder` performs it, written as functions
 * from the node map state before a call to the state after it. Each function
 * is one of the builder's `handle` steps; the imperative model in module
 * Flattening is proved to agree with these functions step by step.
 */
module FlatteningSpec {
  import opened Results
  import opened Json
  import opened Keywords
  import opened NodeMaps
  import Utils

  /** The exceptions a run can end with. */
  datatype Error =
    | ConflictingIndexes  // JsonLdError with code CONFLICTING_INDEXES
    | IllegalState        // an array member that is neither an object nor an array
    | ClassCast           // a value cast to a shape it does not have
    | MissingKey          // a node map access with no active subject or property

  /**
   * The builder's optional fields: active graph, subject and property, the
   * referenced node (held by its id) and whether a list accumulator is in
   * scope (its contents travel beside the node map state).
   */
  datatype Frame = Frame(
    graph: string,
    subject: Option<string>,
    property: Option<string>,
    referenced: Option<string>,
    inList: bool)

  /** A builder with every optional field at its default, in graph `g`. */
  function TopFrame(g: string): Frame {
    Frame(g, None, None, None, false)
  }

  /** The node map state and the list accumulator after a call. */
  datatype Out = Out(st: St, list: seq<Json>)

  /** The working copy of an object after step 3, with the allocator state. */
  datatype Prepared = Prepared(ws: seq<Member>, st: St)

  datatype Renamed = Renamed(items: seq<Json>, st: St)

  /** `JsonUtils.toStream`: an array's members, nothing for null, else the value itself. */
  function TypeStream(v: Json): seq<Json> {
    match v
    case JNull => []
    case JArray(xs) => xs
    case _ => [v]
  }

  /** Step 3.1 for one type: a blank-prefixed string is relabelled, anything else kept. */
  function RenameType(x: Json, st: St): (r: Renamed)
    ensures |r.items| == 1
    ensures r.st.graphs == st.graphs && Extends(st.alloc, r.st.alloc)
  {
    if x.JString? && HasBlankPrefix(x.s) then
      var n := Rename(st, x.s);
      Renamed([JString(n.id)], n.st)
    else Renamed([x], st)
  }

  /** Step 3.1: every type relabelled in order, the allocator threaded through. */
  function RenameTypes(items: seq<Json>, st: St): (r: Renamed)
    ensures |r.items| == |items|
    ensures r.st.graphs == st.graphs && Extends(st.alloc, r.st.alloc)
  {
    if |items| == 0 then Renamed([], st)
    else
      var head := RenameType(items[0], st);
      var tail := RenameTypes(items[1..], head.st);
      Renamed(head.items + tail.items, tail.st)
  }

  /** Steps 2 and 3: the working copy, with `@type` rewritten to an array of relabelled types. */
  function Prepare(ms: seq<Member>, st: St): (r: Prepared)
    ensures forall k :: k != TYPE ==> Get(r.ws, k) == Get(ms, k)
    ensures forall k :: HasKey(r.ws, k) <==> HasKey(ms, k)
    ensures r.st.graphs == st.graphs && Extends(st.alloc, r.st.alloc)
  {
    if HasKey(ms, TYPE) then
      var r := RenameTypes(TypeStream(Get(ms, TYPE).value), st);
      Prepared(Put(ms, TYPE, JArray(r.items)), r.st)
    else Prepared(ms, st)
  }

  /** Every key of the working copy but `@type` is a key of the element, with the same value. */
  ghost predicate WorkingCopy(ms: seq<Member>, ws: seq<Member>) {
    forall k :: HasKey(ws, k) && k != TYPE ==> Get(ws, k) == Get(ms, k)
  }

  /** `NodeObject.isNodeObject`, on an object that is neither a value nor a list object. */
  predicate IsNodeObject(ms: seq<Member>) {
    !HasKey(ms, VALUE) && !HasKey(ms, LIST) && !HasKey(ms, SET)
  }

  function SetIn(st: St, g: string, id: string, p: string, v: Json): St {
    st.(graphs := SetProperty(st.graphs, g, id, p, v))
  }

  /** Appends `x` to the array at (g, id, p), creating it when absent. */
  function Append(st: St, g: string, id: string, p: string, x: Json): Result<St, Error> {
    match PropertyValue(st.graphs, g, id, p)
    case None => Ok(SetIn(st, g, id, p, JArray([x])))
    case Some(v) =>
      if !v.JArray? then Err(ClassCast)
      else Ok(SetIn(st, g, id, p, JArray(v.items + [x])))
  }

  /** Appends `x` to the array at (g, id, p) unless an equal element is already there. */
  function AppendUnique(st: St, g: string, id: string, p: string, x: Json): Result<St, Error> {
    match PropertyValue(st.graphs, g, id, p)
    case None => Ok(SetIn(st, g, id, p, JArray([x])))
    case Some(v) =>
      if !v.JArray? then Err(ClassCast)
      else if x in v.items then Ok(st)
      else Ok(SetIn(st, g, id, p, JArray(v.items + [x])))
  }

  /** Steps 1 to 6: the dispatch of `build`. */
  function Build(e: Json, f: Frame, st: St, lst: seq<Json>): Result<Out, Error>
    requires IsStructure(e)
    decreases e, 4, 0
  {
    match e
    case JArray(_) => BuildItems(e, 0, f, st, lst)
    case JObject(ms) =>
      var p := Prepare(ms, st);
      if HasKey(p.ws, VALUE) then HandleValue(e, p.ws, f, p.st, lst)
      else if HasKey(p.ws, LIST) then HandleList(e, f, p.st, lst)
      else if IsNodeObject(ms) then HandleNode(e, p.ws, f, p.st, lst)
      else Ok(Out(p.st, lst))
  }

  /** Step 1: the members of an array from position `i` on, with the same frame. */
  function BuildItems(e: Json, i: nat, f: Frame, st: St, lst: seq<Json>): Result<Out, Error>
    requires e.JArray? && i <= |e.items|
    decreases e, 1, |e.items| - i
  {
    if i == |e.items| then Ok(Out(st, lst))
    else if !IsStructure(e.items[i]) then Err(IllegalState)
    else
      var o :- Build(e.items[i], f, st, lst);
      BuildItems(e, i + 1, f, o.st, o.list)
  }

  /**
   * Step 4: a value object. It goes to the list in scope unconditionally;
   * otherwise it is added to the property unless already there. An existing
   * array receives the element as given, a new array the working copy with
   * its `@type` rewritten.
   */
  function HandleValue(e: Json, ws: seq<Member>, f: Frame, st: St, lst: seq<Json>): Result<Out, Error> {
    if f.inList then Ok(Out(st, lst + [e]))
    else if f.subject.None? || f.property.None? then Err(MissingKey)
    else
      var g, s, p := f.graph, f.subject.value, f.property.value;
      match PropertyValue(st.graphs, g, s, p)
      case None => Ok(Out(SetIn(st, g, s, p, JArray([JObject(ws)])), lst))
      case Some(v) =>
        if !v.JArray? then Err(ClassCast)
        else if e in v.items then Ok(Out(st, lst))
        else Ok(Out(SetIn(st, g, s, p, JArray(v.items + [e])), lst))
  }

  /**
   * Step 5: a list object. Its `@list` value is processed into a fresh list,
   * and the finished list object is appended, without de-duplication, to the
   * list in scope or to the property.
   */
  function HandleList(e: Json, f: Frame, st: St, lst: seq<Json>): Result<Out, Error>
    requires e.JObject? && HasKey(e.members, LIST)
    decreases e, 3, 0
  {
    var lv := Get(e.members, LIST).value;
    if !IsStructure(lv) then Err(ClassCast)
    else
      var inner :- Build(lv, f.(inList := true), st, []);
      var obj := ListObject(inner.list);
      if f.inList then Ok(Out(inner.st, lst + [obj]))
      else if f.subject.None? || f.property.None? then Err(MissingKey)
      else
        var st' :- Append(inner.st, f.graph, f.subject.value, f.property.value, obj);
        Ok(Out(st', lst))
  }

  /** Steps 6.1 and 6.2: the node's id, relabelled when blank, or freshly minted. */
  function NodeId(ws: seq<Member>, st: St): Issued
    requires HasKey(ws, ID) ==> Get(ws, ID).value.JString?
  {
    if HasKey(ws, ID) then
      var s := Get(ws, ID).value.s;
      if HasBlankPrefix(s) then Rename(st, s) else Issued(s, st)
    else Mint(st)
  }

  /** Step 6.3: a record whose `@id` is the id, unless the graph already has one. */
  function EnsureNode(st: St, g: string, id: string): St {
    if HasNode(st.graphs, g, id) then st else SetIn(st, g, id, ID, JString(id))
  }

  /** Step 6.5: the referenced node goes onto the node's own active property, at most once. */
  function LinkReferenced(id: string, f: Frame, st: St): Result<St, Error>
    requires f.referenced.Some?
  {
    if f.property.None? then Err(MissingKey)
    else AppendUnique(st, f.graph, id, f.property.value, IdRef(f.referenced.value))
  }

  /**
   * Step 6.6: a reference to the node goes onto the list in scope, or else
   * onto the active subject's property, at most once.
   */
  function LinkReference(id: string, f: Frame, st: St, lst: seq<Json>): Result<Out, Error>
    requires f.property.Some?
  {
    if f.inList then Ok(Out(st, lst + [IdRef(id)]))
    else if f.subject.None? then Err(MissingKey)
    else
      var st' :- AppendUnique(st, f.graph, f.subject.value, f.property.value, IdRef(id));
      Ok(Out(st', lst))
  }

  /** Steps 6.5 and 6.6: a referenced node takes precedence over the active property. */
  function Link(id: string, f: Frame, st: St, lst: seq<Json>): Result<Out, Error> {
    if f.referenced.Some? then
      var st' :- LinkReferenced(id, f, st);
      Ok(Out(st', lst))
    else if f.property.Some? then LinkReference(id, f, st, lst)
    else Ok(Out(st, lst))
  }

  /** The type values a stored or declared `@type` contributes, before null filtering. */
  function Candidates(v: Option<Json>): seq<Json> {
    match v
    case None => []
    case Some(JArray(xs)) => xs
    case Some(x) => [x]
  }

  /** `optimizedAddToSet`: insertion into an ordered set. */
  function AddToSet(x: Json, acc: seq<Json>): seq<Json> {
    if x in acc then acc else acc + [x]
  }

  /** Adds the non-null members of `xs`, in order. */
  function AddAll(acc: seq<Json>, xs: seq<Json>): seq<Json>
    decreases xs
  {
    if |xs| == 0 then acc
    else AddAll(if xs[0] == JNull then acc else AddToSet(xs[0], acc), xs[1..])
  }

  /** The merged type set of step 6.7. */
  function MergedTypes(prev: Option<Json>, declared: Json): seq<Json> {
    AddAll(AddAll([], Candidates(prev)), Candidates(Some(declared)))
  }

  /** Step 6.7: the stored `@type` becomes the union of the stored and the declared types. */
  function MergeTypes(st: St, g: string, id: string, declared: Json): St {
    SetIn(st, g, id, TYPE, JArray(MergedTypes(PropertyValue(st.graphs, g, id, TYPE), declared)))
  }

  /** Step 6.8: a second `@index` for the node is an error, whatever its value. */
  function StoreIndex(st: St, g: string, id: string, v: Json): Result<St, Error> {
    if HasProperty(st.graphs, g, id, INDEX) then Err(ConflictingIndexes)
    else Ok(SetIn(st, g, id, INDEX, v))
  }

  /** Step 6: a node object. Steps 6.1 to 6.6, then the node's own members. */
  function HandleNode(e: Json, ws: seq<Member>, f: Frame, st: St, lst: seq<Json>): Result<Out, Error>
    requires e.JObject? && WorkingCopy(e.members, ws)
    decreases e, 3, 2
  {
    if HasKey(ws, ID) && !Get(ws, ID).value.JString? then Ok(Out(st, lst))
    else
      var n := NodeId(ws, st);
      var o :- Link(n.id, f, EnsureNode(n.st, f.graph, n.id), lst);
      var st' :- NodeBody(e, Remove(ws, ID), n.id, f.graph, o.st);
      Ok(Out(st', o.list))
  }

  /** Steps 6.7 and 6.8 on the working copy without `@id`, then the embedded values. */
  function NodeBody(e: Json, ws: seq<Member>, id: string, g: string, st: St): Result<St, Error>
    requires e.JObject? && WorkingCopy(e.members, ws)
    decreases e, 3, 1
  {
    var st1 := if HasKey(ws, TYPE) then MergeTypes(st, g, id, Get(ws, TYPE).value) else st;
    var ws1 := Remove(ws, TYPE);
    var st2 :- if HasKey(ws1, INDEX) then StoreIndex(st1, g, id, Get(ws1, INDEX).value) else Ok(st1);
    NodeMembers(e, Remove(ws1, INDEX), id, g, st2)
  }

  /** Steps 6.9 to 6.12: reverse properties, `@graph`, `@included`, then the rest. */
  function NodeMembers(e: Json, ws: seq<Member>, id: string, g: string, st: St): Result<St, Error>
    requires e.JObject? && WorkingCopy(e.members, ws) && !HasKey(ws, TYPE)
    decreases e, 3, 0
  {
    var st1 :- if HasKey(ws, REVERSE) then HandleReverse(e, ws, id, g, st) else Ok(st);
    var ws1 := Remove(ws, REVERSE);
    var st2 :- if HasKey(ws1, GRAPH) then HandleGraph(e, ws1, id, st1) else Ok(st1);
    var ws2 := Remove(ws1, GRAPH);
    var st3 :- if HasKey(ws2, INCLUDED) then HandleIncluded(e, ws2, g, st2) else Ok(st2);
    var ws3 := Remove(ws2, INCLUDED);
    HandleProperties(e, ws3, Utils.Index(KeySeq(ws3)), 0, id, g, st3)
  }

  /** Step 6.9: every value of every reverse property, with the node as referenced node. */
  function HandleReverse(e: Json, ws: seq<Member>, id: string, g: string, st: St): Result<St, Error>
    requires e.JObject? && WorkingCopy(e.members, ws) && HasKey(ws, REVERSE)
    decreases e, 2, 0
  {
    var rv := Get(ws, REVERSE).value;
    if !rv.JObject? then Err(ClassCast) else ReverseEntries(rv, 0, id, g, st)
  }

  function ReverseEntries(rv: Json, j: nat, id: string, g: string, st: St): Result<St, Error>
    requires rv.JObject? && j <= |rv.members|
    decreases rv, 2, |rv.members| - j
  {
    if j == |rv.members| then Ok(st)
    else
      var m := rv.members[j];
      if !m.value.JArray? then Err(ClassCast)
      else
        var st' :- ReverseValues(m.value, 0, m.key, id, g, st);
        ReverseEntries(rv, j + 1, id, g, st')
  }

  function ReverseValues(arr: Json, k: nat, p: string, id: string, g: string, st: St): Result<St, Error>
    requires arr.JArray? && k <= |arr.items|
    decreases arr, 1, |arr.items| - k
  {
    if k == |arr.items| then Ok(st)
    else if !IsStructure(arr.items[k]) then Err(ClassCast)
    else
      var o :- Build(arr.items[k], Frame(g, None, Some(p), Some(id), false), st, []);
      ReverseValues(arr, k + 1, p, id, g, o.st)
  }

  /** Step 6.10: the `@graph` value, in the graph named by the node. */
  function HandleGraph(e: Json, ws: seq<Member>, id: string, st: St): Result<St, Error>
    requires e.JObject? && WorkingCopy(e.members, ws) && HasKey(ws, GRAPH)
    decreases e, 2, 0
  {
    var v := Get(ws, GRAPH).value;
    if !IsStructure(v) then Err(ClassCast)
    else
      var o :- Build(v, TopFrame(id), st, []);
      Ok(o.st)
  }

  /** Step 6.11: the `@included` value, in the active graph with nothing else set. */
  function HandleIncluded(e: Json, ws: seq<Member>, g: string, st: St): Result<St, Error>
    requires e.JObject? && WorkingCopy(e.members, ws) && HasKey(ws, INCLUDED)
    decreases e, 2, 0
  {
    var v := Get(ws, INCLUDED).value;
    if !IsStructure(v) then Err(ClassCast)
    else
      var o :- Build(v, TopFrame(g), st, []);
      Ok(o.st)
  }

  /** Step 6.12: the remaining properties from position `i` of the sorted keys. */
  function HandleProperties(e: Json, ws: seq<Member>, keys: seq<string>, i: nat, id: string, g: string, st: St): Result<St, Error>
    requires e.JObject? && WorkingCopy(e.members, ws) && !HasKey(ws, TYPE) && i <= |keys|
    decreases e, 2, |keys| - i
  {
    if i == |keys| then Ok(st)
    else
      var st' :- HandleProperty(e, ws, keys[i], id, g, st);
      HandleProperties(e, ws, keys, i + 1, id, g, st')
  }

  /**
   * Step 6.12 for one key: a missing or scalar value is skipped; otherwise the
   * property, relabelled when blank, gets an empty array unless present, and
   * the value is processed with the node as active subject.
   */
  function HandleProperty(e: Json, ws: seq<Member>, k: string, id: string, g: string, st: St): Result<St, Error>
    requires e.JObject? && WorkingCopy(e.members, ws) && !HasKey(ws, TYPE)
    decreases e, 1, 0
  {
    match Get(ws, k)
    case None => Ok(st)
    case Some(v) =>
      if !IsStructure(v) then Ok(st)
      else
        var n := if HasBlankPrefix(k) then Rename(st, k) else Issued(k, st);
        var p := n.id;
        var st1 := if HasProperty(n.st.graphs, g, id, p) then n.st else SetIn(n.st, g, id, p, JArray([]));
        var o :- Build(v, Frame(g, Some(id), Some(p), None, false), st1, []);
        Ok(o.st)
  }

  /** `NodeMapBuilder.with(element, nodeMap).build()`: a run in the default graph. */
  function Generate(e: Json, st: St): Result<St, Error>
    requires IsStructure(e)
  {
    var o :- Build(e, TopFrame(DEFAULT), st, []);
    Ok(o.st)
  }
}
