/**
 * Properties of node map generation as module FlatteningSpec defines it.
 */
module FlatteningProps {
  import opened Results
  import opened Json
  import opened Keywords
  import opened NodeMaps
  import opened FlatteningSpec
  import opened NodeMapGrowth
  import Utils

  /** A result with its list accumulator replaced by `lst`. */
  function WithList(r: Result<Out, Error>, lst: seq<Json>): Result<Out, Error> {
    match r
    case Err(err) => Err(err)
    case Ok(o) => Ok(Out(o.st, lst))
  }

  /**
   * Outside a list object the list accumulator is neither read nor written:
   * the run does the same whatever list is passed in, and hands it back unchanged.
   */
  lemma {:induction false} OutsideList(e: Json, f: Frame, st: St, lst: seq<Json>)
    requires IsStructure(e) && !f.inList
    ensures Build(e, f, st, lst) == WithList(Build(e, f, st, []), lst)
    decreases e, 1
  {
    if e.JArray? {
      ItemsOutsideList(e, 0, f, st, lst);
    } else {
      var p := Prepare(e.members, st);
      if HasKey(p.ws, VALUE) {
        ValueOutsideList(e, p.ws, f, p.st, lst);
      } else if HasKey(p.ws, LIST) {
        ListOutsideList(e, f, p.st, lst);
      } else if IsNodeObject(e.members) {
        NodeOutsideList(e, p.ws, f, p.st, lst);
      }
    }
  }

  lemma ValueOutsideList(e: Json, ws: seq<Member>, f: Frame, st: St, lst: seq<Json>)
    requires !f.inList
    ensures HandleValue(e, ws, f, st, lst) == WithList(HandleValue(e, ws, f, st, []), lst)
  {
  }

  lemma ListOutsideList(e: Json, f: Frame, st: St, lst: seq<Json>)
    requires e.JObject? && HasKey(e.members, LIST) && !f.inList
    ensures HandleList(e, f, st, lst) == WithList(HandleList(e, f, st, []), lst)
  {
  }

  lemma NodeOutsideList(e: Json, ws: seq<Member>, f: Frame, st: St, lst: seq<Json>)
    requires e.JObject? && WorkingCopy(e.members, ws) && !f.inList
    ensures HandleNode(e, ws, f, st, lst) == WithList(HandleNode(e, ws, f, st, []), lst)
  {
    if !(HasKey(ws, ID) && !Get(ws, ID).value.JString?) {
      var n := NodeId(ws, st);
      var st1 := EnsureNode(n.st, f.graph, n.id);
      assert Link(n.id, f, st1, lst) == WithList(Link(n.id, f, st1, []), lst);
    }
  }

  lemma {:induction false} ItemsOutsideList(e: Json, i: nat, f: Frame, st: St, lst: seq<Json>)
    requires e.JArray? && i <= |e.items| && !f.inList
    ensures BuildItems(e, i, f, st, lst) == WithList(BuildItems(e, i, f, st, []), lst)
    decreases e, 0, |e.items| - i
  {
    if i < |e.items| && IsStructure(e.items[i]) {
      OutsideList(e.items[i], f, st, lst);
      OutsideList(e.items[i], f, st, []);
      var r := Build(e.items[i], f, st, []);
      if r.Ok? {
        ItemsOutsideList(e, i + 1, f, r.value.st, lst);
        ItemsOutsideList(e, i + 1, f, r.value.st, []);
      }
    }
  }

  /** A state-returning step's result, with the list accumulator `lst` beside it. */
  function Lift(r: Result<St, Error>, lst: seq<Json>): Result<Out, Error> {
    match r
    case Err(err) => Err(err)
    case Ok(st) => Ok(Out(st, lst))
  }

  /** How often `x` occurs in a stored array; zero when nothing or a non-array is stored. */
  function Count(v: Option<Json>, x: Json): nat {
    if v.Some? && v.value.JArray? then multiset(v.value.items)[x] else 0
  }

  function AtLeastOne(c: nat): nat {
    if c == 0 then 1 else c
  }

  // ----- Step 1: arrays -----

  /** An array of one member is that member, or an `IllegalStateException` for a scalar. */
  lemma ArraySingleton(x: Json, f: Frame, st: St, lst: seq<Json>)
    ensures Build(JArray([x]), f, st, lst) == if IsStructure(x) then Build(x, f, st, lst) else Err(IllegalState)
  {
    var e := JArray([x]);
    if IsStructure(x) {
      match Build(x, f, st, lst)
      case Err(_) =>
      case Ok(o) =>
        assert BuildItems(e, 1, f, o.st, o.list) == Ok(o);
    }
  }

  /** Members are processed in order with the same frame: an array is its parts, one after the other. */
  lemma ArrayConcat(xs: seq<Json>, ys: seq<Json>, f: Frame, st: St, lst: seq<Json>)
    ensures Build(JArray(xs + ys), f, st, lst) ==
      match Build(JArray(xs), f, st, lst)
      case Err(err) => Err(err)
      case Ok(o) => Build(JArray(ys), f, o.st, o.list)
  {
    ItemsConcat(xs, ys, 0, f, st, lst);
  }

  lemma {:induction false} ItemsConcat(xs: seq<Json>, ys: seq<Json>, i: nat, f: Frame, st: St, lst: seq<Json>)
    requires i <= |xs|
    ensures BuildItems(JArray(xs + ys), i, f, st, lst) ==
      match BuildItems(JArray(xs), i, f, st, lst)
      case Err(err) => Err(err)
      case Ok(o) => BuildItems(JArray(ys), 0, f, o.st, o.list)
    decreases |xs| - i
  {
    if i == |xs| {
      ItemsShift(xs, ys, 0, f, st, lst);
    } else {
      assert (xs + ys)[i] == xs[i];
      if IsStructure(xs[i]) {
        match Build(xs[i], f, st, lst)
        case Err(_) =>
        case Ok(o) => ItemsConcat(xs, ys, i + 1, f, o.st, o.list);
      }
    }
  }

  lemma {:induction false} ItemsShift(xs: seq<Json>, ys: seq<Json>, j: nat, f: Frame, st: St, lst: seq<Json>)
    requires j <= |ys|
    ensures BuildItems(JArray(xs + ys), |xs| + j, f, st, lst) == BuildItems(JArray(ys), j, f, st, lst)
    decreases |ys| - j
  {
    if j < |ys| {
      assert (xs + ys)[|xs| + j] == ys[j];
      if IsStructure(ys[j]) {
        match Build(ys[j], f, st, lst)
        case Err(_) =>
        case Ok(o) => ItemsShift(xs, ys, j + 1, f, o.st, o.list);
      }
    }
  }

  // ----- Step 4: value objects -----

  /** In a list, a value object is appended as given, even when the list already holds it. */
  lemma ValueInList(e: Json, f: Frame, st: St, lst: seq<Json>)
    requires e.JObject? && HasKey(e.members, VALUE) && f.inList
    ensures Build(e, f, st, lst) == Ok(Out(Prepare(e.members, st).st, lst + [e]))
  {
  }

  /**
   * Outside a list, a value object lands in the property's array at most once:
   * an existing array gains the element as given unless it holds it already, a
   * missing property becomes an array of the working copy, and nothing else in
   * the node map changes.
   */
  lemma ValueAtMostOnce(e: Json, f: Frame, st: St, lst: seq<Json>)
    requires e.JObject? && HasKey(e.members, VALUE) && !f.inList
    requires f.subject.Some? && f.property.Some?
    requires Build(e, f, st, lst).Ok?
    ensures var o := Build(e, f, st, lst).value;
      var g, s, q := f.graph, f.subject.value, f.property.value;
      var before := PropertyValue(st.graphs, g, s, q);
      var after := PropertyValue(o.st.graphs, g, s, q);
      && o.list == lst
      && (before.None? ==> after == Some(JArray([JObject(Prepare(e.members, st).ws)])))
      && (before.Some? ==> Count(after, e) == AtLeastOne(Count(before, e)))
      && (before.Some? ==> forall y :: y != e ==> Count(after, y) == Count(before, y))
      && (forall g', s', q' :: (g', s', q') != (g, s, q) ==>
            PropertyValue(o.st.graphs, g', s', q') == PropertyValue(st.graphs, g', s', q'))
  {
  }

  /** Without `@type` the working copy is the element itself, so a second identical value changes nothing. */
  lemma ValueIdempotent(e: Json, f: Frame, st: St, lst: seq<Json>)
    requires e.JObject? && HasKey(e.members, VALUE) && !HasKey(e.members, TYPE) && !f.inList
    requires Build(e, f, st, lst).Ok?
    ensures Build(e, f, Build(e, f, st, lst).value.st, lst) == Build(e, f, st, lst)
  {
  }

  /**
   * With a blank-node `@type`, a fresh array receives the rewritten copy,
   * while de-duplication later compares against the element as given: the
   * same value object processed twice is stored twice.
   */
  lemma ValueWithBlankTypeStoredTwice()
    ensures var e := JObject([Member(VALUE, JNumber(1)), Member(TYPE, JString("_:t"))]);
      var copy := JObject([Member(VALUE, JNumber(1)), Member(TYPE, JArray([JString("_:b0")]))]);
      var f := Frame(DEFAULT, Some("_:s"), Some("p"), None, false);
      var st0 := St(map[], Alloc(0, map[]));
      var once := Build(e, f, st0, []);
      && once.Ok?
      && PropertyValue(once.value.st.graphs, DEFAULT, "_:s", "p") == Some(JArray([copy]))
      && var twice := Build(e, f, once.value.st, []);
         twice.Ok? && PropertyValue(twice.value.st.graphs, DEFAULT, "_:s", "p") == Some(JArray([copy, e]))
  {
    var ms := [Member(VALUE, JNumber(1)), Member(TYPE, JString("_:t"))];
    var e := JObject(ms);
    var f := Frame(DEFAULT, Some("_:s"), Some("p"), None, false);
    var st0 := St(map[], Alloc(0, map[]));
    assert NatToString(0) == "0";
    assert Label(0) == "_:b0";
    assert VALUE[1] != TYPE[1];
    assert IndexOf(ms, TYPE) == Some(1);
    assert Get(ms, TYPE) == Some(JString("_:t"));
    var r := RenameTypes([JString("_:t")], st0);
    assert r.items == [JString("_:b0")];
    var ws := Put(ms, TYPE, JArray([JString("_:b0")]));
    assert ws == [Member(VALUE, JNumber(1)), Member(TYPE, JArray([JString("_:b0")]))];
    var p1 := Prepare(ms, st0);
    assert p1.ws == ws;
    var once := Build(e, f, st0, []);
    assert once == HandleValue(e, ws, f, p1.st, []);
    var st1 := once.value.st;
    var p2 := Prepare(ms, st1);
    assert "_:t" in st1.alloc.table && st1.alloc.table["_:t"] == "_:b0";
    assert Rename(st1, "_:t") == Issued("_:b0", st1);
    assert RenameType(JString("_:t"), st1) == Renamed([JString("_:b0")], st1);
    assert RenameTypes([JString("_:t")], st1) == Renamed([JString("_:b0")], st1);
    assert p2.ws == ws && p2.st == st1;
    assert e != JObject(ws) by {
      assert ms[1] != ws[1];
    }
    assert PropertyValue(st1.graphs, DEFAULT, "_:s", "p") == Some(JArray([JObject(ws)]));
    assert e !in [JObject(ws)];
    var twice := Build(e, f, st1, []);
    assert twice == HandleValue(e, ws, f, st1, []);
    assert [JObject(ws)] + [e] == [JObject(ws), e];
  }

  // ----- Step 5: list objects -----

  /** Value objects without `@type`. */
  predicate PlainValues(vs: seq<Json>) {
    forall i :: 0 <= i < |vs| ==> vs[i].JObject? && HasKey(vs[i].members, VALUE) && !HasKey(vs[i].members, TYPE)
  }

  lemma {:induction false} ValuesIntoList(vs: seq<Json>, i: nat, f: Frame, st: St, lst: seq<Json>)
    requires PlainValues(vs) && i <= |vs| && f.inList
    ensures BuildItems(JArray(vs), i, f, st, lst) == Ok(Out(st, lst + vs[i..]))
    decreases |vs| - i
  {
    if i < |vs| {
      assert Build(vs[i], f, st, lst) == Ok(Out(st, lst + [vs[i]]));
      ValuesIntoList(vs, i + 1, f, st, lst + [vs[i]]);
      assert lst + [vs[i]] + vs[i + 1..] == lst + vs[i..];
    } else {
      assert lst + vs[i..] == lst;
    }
  }

  /**
   * A list of plain values is collected into a fresh list in order; the list
   * object is then appended, without de-duplication, to the list in scope or to
   * the property.
   */
  lemma ListOfValues(vs: seq<Json>, f: Frame, st: St, lst: seq<Json>)
    requires PlainValues(vs)
    ensures f.inList ==> Build(ListObject(vs), f, st, lst) == Ok(Out(st, lst + [ListObject(vs)]))
    ensures !f.inList && f.subject.Some? && f.property.Some? ==>
      Build(ListObject(vs), f, st, lst) == Lift(Append(st, f.graph, f.subject.value, f.property.value, ListObject(vs)), lst)
  {
    var ms := [Member(LIST, JArray(vs))];
    var e := ListObject(vs);
    assert Get(ms, LIST) == Some(JArray(vs));
    assert !HasKey(ms, TYPE) && !HasKey(ms, VALUE);
    var p := Prepare(ms, st);
    assert p.ws == ms && p.st == st;
    assert Build(e, f, st, lst) == HandleList(e, f, st, lst);
    ValuesIntoList(vs, 0, f.(inList := true), st, []);
    assert [] + vs[0..] == vs;
    assert Build(JArray(vs), f.(inList := true), st, []) == Ok(Out(st, vs));
  }

  /** `Append` adds one occurrence, whatever is already there, and changes nothing else. */
  lemma AppendCount(st: St, g: string, id: string, p: string, x: Json)
    requires Append(st, g, id, p, x).Ok?
    ensures var before := PropertyValue(st.graphs, g, id, p);
      var after := PropertyValue(Append(st, g, id, p, x).value.graphs, g, id, p);
      && Count(after, x) == Count(before, x) + 1
      && (forall y :: y != x ==> Count(after, y) == Count(before, y))
      && (forall g', id', p' :: (g', id', p') != (g, id, p) ==>
            PropertyValue(Append(st, g, id, p, x).value.graphs, g', id', p') == PropertyValue(st.graphs, g', id', p'))
  {
  }

  // ----- Steps 6.5 and 6.6: references -----

  /** `AppendUnique` leaves `x` in the array at most once more than zero times, and changes nothing else. */
  lemma AppendUniqueCount(st: St, g: string, id: string, p: string, x: Json)
    requires AppendUnique(st, g, id, p, x).Ok?
    ensures var before := PropertyValue(st.graphs, g, id, p);
      var after := PropertyValue(AppendUnique(st, g, id, p, x).value.graphs, g, id, p);
      && after.Some? && after.value.JArray?
      && Count(after, x) == AtLeastOne(Count(before, x))
      && (forall y :: y != x ==> Count(after, y) == Count(before, y))
      && (forall g', id', p' :: (g', id', p') != (g, id, p) ==>
            PropertyValue(AppendUnique(st, g, id, p, x).value.graphs, g', id', p') == PropertyValue(st.graphs, g', id', p'))
  {
  }

  /**
   * With an active property and no referenced node, the reference `{"@id": id}`
   * goes to the list in scope unconditionally, or else at most once onto the
   * active subject's property.
   */
  lemma ReferenceLink(id: string, f: Frame, st: St, lst: seq<Json>)
    requires f.referenced.None? && f.property.Some?
    ensures f.inList ==> Link(id, f, st, lst) == Ok(Out(st, lst + [IdRef(id)]))
    ensures !f.inList && f.subject.Some? && Link(id, f, st, lst).Ok? ==>
      var o := Link(id, f, st, lst).value;
      var before := PropertyValue(st.graphs, f.graph, f.subject.value, f.property.value);
      var after := PropertyValue(o.st.graphs, f.graph, f.subject.value, f.property.value);
      o.list == lst && Count(after, IdRef(id)) == AtLeastOne(Count(before, IdRef(id)))
  {
    if !f.inList && f.subject.Some? && Link(id, f, st, lst).Ok? {
      AppendUniqueCount(st, f.graph, f.subject.value, f.property.value, IdRef(id));
    }
  }

  /**
   * With a referenced node, the reference to it goes at most once onto the
   * node's own record under the active property, whatever the active subject
   * and the list state; the list in scope is passed on unchanged.
   */
  lemma ReferencedLink(id: string, f: Frame, st: St, lst: seq<Json>)
    requires f.referenced.Some? && f.property.Some?
    ensures Link(id, f, st, lst).Err? <==> AppendUnique(st, f.graph, id, f.property.value, IdRef(f.referenced.value)).Err?
    ensures Link(id, f, st, lst).Ok? ==>
      var o := Link(id, f, st, lst).value;
      var r := IdRef(f.referenced.value);
      && o.list == lst
      && Count(PropertyValue(o.st.graphs, f.graph, id, f.property.value), r)
           == AtLeastOne(Count(PropertyValue(st.graphs, f.graph, id, f.property.value), r))
      && Holds(o.st.graphs, f.graph, id, f.property.value, r)
  {
    var r := IdRef(f.referenced.value);
    if Link(id, f, st, lst).Ok? {
      AppendUniqueCount(st, f.graph, id, f.property.value, r);
      var after := PropertyValue(Link(id, f, st, lst).value.st.graphs, f.graph, id, f.property.value);
      assert r in multiset(after.value.items);
    }
  }

  /**
   * Step 6.5 for any node object met with a referenced node: once its own
   * members are processed, the record of its id still holds the reference to
   * the referenced node under the active property, and the list in scope is
   * passed on unchanged.
   */
  lemma ReverseNodeLinked(e: Json, f: Frame, st: St, lst: seq<Json>)
    requires e.JObject? && IsNodeObject(e.members)
    requires !HasKey(e.members, ID) || Get(e.members, ID).value.JString?
    requires f.referenced.Some? && f.property.Some?
    requires Build(e, f, st, lst).Ok?
    ensures var p := Prepare(e.members, st);
      var o := Build(e, f, st, lst).value;
      && o.list == lst
      && Holds(o.st.graphs, f.graph, NodeId(p.ws, p.st).id, f.property.value, IdRef(f.referenced.value))
  {
    var p := Prepare(e.members, st);
    assert Get(p.ws, ID) == Get(e.members, ID);
    var n := NodeId(p.ws, p.st);
    var st1 := EnsureNode(n.st, f.graph, n.id);
    var o := Link(n.id, f, st1, lst).value;
    ReferencedLink(n.id, f, st1, lst);
    BodyPersists(e, Remove(p.ws, ID), n.id, f.graph, o.st);
  }

  /** A node object whose `@id` is `c`, a string that is not a blank node label. */
  predicate NamedNode(v: Json, c: string) {
    v.JObject? && IsNodeObject(v.members) && Get(v.members, ID) == Some(JString(c)) && !HasBlankPrefix(c)
  }

  /** A named node object keeps its own id. */
  lemma NamedNodeId(v: Json, c: string, st: St)
    requires NamedNode(v, c)
    ensures var p := Prepare(v.members, st); NodeId(p.ws, p.st).id == c
  {
    var p := Prepare(v.members, st);
    assert Get(p.ws, ID) == Get(v.members, ID);
  }

  /** Step 6.9.3 from the `k`-th value on: every named node among them ends up referring to `id` under `p`. */
  lemma {:induction false} ReverseValuesLinked(arr: Json, k: nat, p: string, id: string, g: string, st: St)
    requires arr.JArray? && k <= |arr.items| && ReverseValues(arr, k, p, id, g, st).Ok?
    ensures forall i, c :: k <= i < |arr.items| && NamedNode(arr.items[i], c) ==>
      Holds(ReverseValues(arr, k, p, id, g, st).value.graphs, g, c, p, IdRef(id))
    decreases |arr.items| - k
  {
    if k < |arr.items| {
      var f := Frame(g, None, Some(p), Some(id), false);
      var o := Build(arr.items[k], f, st, []).value;
      var after := ReverseValues(arr, k, p, id, g, st).value;
      ReverseValuesLinked(arr, k + 1, p, id, g, o.st);
      ValuesPersists(arr, k + 1, p, id, g, o.st);
      forall c | NamedNode(arr.items[k], c)
        ensures Holds(after.graphs, g, c, p, IdRef(id))
      {
        NamedNodeId(arr.items[k], c, st);
        ReverseNodeLinked(arr.items[k], f, st, []);
      }
    }
  }

  /** The `i`-th value of the `j`-th reverse property in `rv` is the named node `c`. */
  predicate NamedReverseValue(rv: Json, j: int, i: int, c: string)
    requires rv.JObject?
  {
    && 0 <= j < |rv.members| && rv.members[j].value.JArray?
    && 0 <= i < |rv.members[j].value.items| && NamedNode(rv.members[j].value.items[i], c)
  }

  /** Step 6.9.3 from the `j`-th reverse property on. */
  lemma {:induction false} ReverseEntriesLinked(rv: Json, j: nat, id: string, g: string, st: St)
    requires rv.JObject? && j <= |rv.members| && ReverseEntries(rv, j, id, g, st).Ok?
    ensures forall j', i, c :: j <= j' && NamedReverseValue(rv, j', i, c) ==>
      Holds(ReverseEntries(rv, j, id, g, st).value.graphs, g, c, rv.members[j'].key, IdRef(id))
    decreases |rv.members| - j
  {
    if j < |rv.members| {
      var m := rv.members[j];
      var st' := ReverseValues(m.value, 0, m.key, id, g, st).value;
      var after := ReverseEntries(rv, j, id, g, st).value;
      ReverseValuesLinked(m.value, 0, m.key, id, g, st);
      ReverseEntriesLinked(rv, j + 1, id, g, st');
      EntriesPersists(rv, j + 1, id, g, st');
      forall j', i, c | j <= j' && NamedReverseValue(rv, j', i, c)
        ensures Holds(after.graphs, g, c, rv.members[j'].key, IdRef(id))
      {
        if j' == j {
          assert Holds(st'.graphs, g, c, m.key, IdRef(id));
        }
      }
    }
  }

  /**
   * Step 6.9, the inversion of a reverse property: after `@reverse` of the
   * node `id` is processed, every named node among the values of a reverse
   * property `p` holds the reference `{"@id": id}` under `p`.
   */
  lemma ReverseLinked(e: Json, ws: seq<Member>, id: string, g: string, st: St)
    requires e.JObject? && WorkingCopy(e.members, ws) && HasKey(ws, REVERSE)
    requires HandleReverse(e, ws, id, g, st).Ok?
    ensures var rv := Get(ws, REVERSE).value;
      forall j, i, c :: NamedReverseValue(rv, j, i, c) ==>
        Holds(HandleReverse(e, ws, id, g, st).value.graphs, g, c, rv.members[j].key, IdRef(id))
  {
    ReverseEntriesLinked(Get(ws, REVERSE).value, 0, id, g, st);
  }

  /**
   * A node `{"@id": c}` met with a referenced node (a value of a reverse
   * property): its record gains the reference on the active property at most
   * once, the list and the active subject are not touched, and nothing else
   * happens.
   */
  lemma ReverseChild(c: string, f: Frame, st: St, lst: seq<Json>)
    requires f.referenced.Some? && f.property.Some? && !HasBlankPrefix(c)
    ensures Build(JObject([Member(ID, JString(c))]), f, st, lst) ==
      Lift(AppendUnique(EnsureNode(st, f.graph, c), f.graph, c, f.property.value, IdRef(f.referenced.value)), lst)
    ensures f.property.value != ID && Build(JObject([Member(ID, JString(c))]), f, st, lst).Ok? ==>
      var after := Build(JObject([Member(ID, JString(c))]), f, st, lst).value.st;
      var r := IdRef(f.referenced.value);
      Count(PropertyValue(after.graphs, f.graph, c, f.property.value), r)
        == AtLeastOne(Count(PropertyValue(st.graphs, f.graph, c, f.property.value), r))
  {
    var ms := [Member(ID, JString(c))];
    var e := JObject(ms);
    assert Get(ms, ID) == Some(JString(c));
    assert !HasKey(ms, TYPE) && !HasKey(ms, VALUE) && !HasKey(ms, LIST) && !HasKey(ms, SET);
    assert Remove(ms, ID) == [];
    assert Utils.Index(KeySeq([])) == [];
    var st1 := EnsureNode(st, f.graph, c);
    var r := IdRef(f.referenced.value);
    match AppendUnique(st1, f.graph, c, f.property.value, r)
    case Err(_) =>
    case Ok(st2) =>
      var none: seq<Member> := [];
      assert Remove(none, INDEX) == [] && Remove(none, REVERSE) == [] && Remove(none, GRAPH) == [] && Remove(none, INCLUDED) == [];
      assert HandleProperties(e, none, [], 0, c, f.graph, st2) == Ok(st2);
      assert NodeMembers(e, none, c, f.graph, st2) == Ok(st2);
      assert NodeBody(e, none, c, f.graph, st2) == Ok(st2);
      AppendUniqueCount(st1, f.graph, c, f.property.value, r);
  }

  // ----- Steps 6.1 to 6.3: the node record -----

  /** A null or non-string `@id` ends the step before anything is stored. */
  lemma NonStringIdSkipped(e: Json, f: Frame, st: St, lst: seq<Json>)
    requires e.JObject? && IsNodeObject(e.members)
    requires HasKey(e.members, ID) && !Get(e.members, ID).value.JString?
    ensures Build(e, f, st, lst).Ok?
    ensures Build(e, f, st, lst).value.st.graphs == st.graphs
    ensures Build(e, f, st, lst).value.list == lst
  {
    var p := Prepare(e.members, st);
    assert Get(p.ws, ID) == Get(e.members, ID);
  }

  /**
   * After a node object, the active graph has a record for its id; a record
   * created here holds `@id` equal to the id, and a record that was already
   * there is not overwritten.
   */
  lemma NodeRecord(e: Json, ws: seq<Member>, f: Frame, st: St, lst: seq<Json>)
    requires e.JObject? && WorkingCopy(e.members, ws)
    requires !HasKey(ws, ID) || Get(ws, ID).value.JString?
    requires HandleNode(e, ws, f, st, lst).Ok?
    ensures var id := NodeId(ws, st).id;
      var after := HandleNode(e, ws, f, st, lst).value.st;
      && HasNode(after.graphs, f.graph, id)
      && (!HasNode(st.graphs, f.graph, id) ==> PropertyValue(after.graphs, f.graph, id, ID) == Some(JString(id)))
      && Persists(st, after)
  {
    NodePersists(e, ws, f, st, lst);
    var n := NodeId(ws, st);
    var st1 := EnsureNode(n.st, f.graph, n.id);
    var o := Link(n.id, f, st1, lst).value;
    LinkPersists(n.id, f, st1, lst);
    BodyPersists(e, Remove(ws, ID), n.id, f.graph, o.st);
    PersistsTrans(st1, o.st, HandleNode(e, ws, f, st, lst).value.st);
  }

  /** A node object inside a list adds one reference to it, whatever the list holds. */
  lemma NodeReferenceInList(e: Json, ws: seq<Member>, f: Frame, st: St, lst: seq<Json>)
    requires e.JObject? && WorkingCopy(e.members, ws)
    requires !HasKey(ws, ID) || Get(ws, ID).value.JString?
    requires f.inList && f.referenced.None? && f.property.Some?
    requires HandleNode(e, ws, f, st, lst).Ok?
    ensures HandleNode(e, ws, f, st, lst).value.list == lst + [IdRef(NodeId(ws, st).id)]
  {
  }

  // ----- Step 6.7: types -----

  /**
   * The stored `@type` becomes an array of exactly the non-null previously
   * stored and declared types, without duplicates.
   */
  lemma TypesMerged(st: St, g: string, id: string, declared: Json)
    ensures var before := PropertyValue(st.graphs, g, id, TYPE);
      var after := PropertyValue(MergeTypes(st, g, id, declared).graphs, g, id, TYPE);
      && after.Some? && after.value.JArray?
      && (forall x :: x in after.value.items <==>
            x != JNull && (x in Candidates(before) || x in Candidates(Some(declared))))
      && NoDuplicates(after.value.items)
  {
    var before := PropertyValue(st.graphs, g, id, TYPE);
    AddAllContents([], Candidates(before));
    AddAllContents(AddAll([], Candidates(before)), Candidates(Some(declared)));
  }

  // ----- Step 6.8: index -----

  /** A node that already has an `@index` fails on a second one, whatever its value. */
  lemma IndexConflict(e: Json, ws: seq<Member>, id: string, g: string, st: St)
    requires e.JObject? && WorkingCopy(e.members, ws) && HasKey(ws, INDEX)
    requires HasProperty(st.graphs, g, id, INDEX)
    ensures NodeBody(e, ws, id, g, st) == Err(ConflictingIndexes)
  {
    assert HasKey(Remove(ws, TYPE), INDEX);
  }

  /** Storing an index fails exactly when one is stored, and otherwise records the value. */
  lemma IndexStored(st: St, g: string, id: string, v: Json)
    ensures StoreIndex(st, g, id, v).Err? <==> HasProperty(st.graphs, g, id, INDEX)
    ensures StoreIndex(st, g, id, v).Ok? ==> PropertyValue(StoreIndex(st, g, id, v).value.graphs, g, id, INDEX) == Some(v)
  {
  }

  // ----- Step 6.12: properties -----

  /**
   * One key of the property pass: a missing or scalar value changes nothing;
   * otherwise the node ends up with the property, under its relabelled name
   * when blank.
   */
  lemma PropertyStep(e: Json, ws: seq<Member>, k: string, id: string, g: string, st: St)
    requires e.JObject? && WorkingCopy(e.members, ws) && !HasKey(ws, TYPE)
    requires HandleProperty(e, ws, k, id, g, st).Ok?
    ensures var after := HandleProperty(e, ws, k, id, g, st).value;
      var v := Get(ws, k);
      && (v.None? || !IsStructure(v.value) ==> after == st)
      && (v.Some? && IsStructure(v.value) ==>
            HasProperty(after.graphs, g, id, if HasBlankPrefix(k) then Rename(st, k).id else k))
  {
    var v := Get(ws, k);
    if v.Some? && IsStructure(v.value) {
      PropertyPersists(e, ws, k, id, g, st);
      var n := if HasBlankPrefix(k) then Rename(st, k) else Issued(k, st);
      var st1 := if HasProperty(n.st.graphs, g, id, n.id) then n.st else SetIn(n.st, g, id, n.id, JArray([]));
      BuildPersists(v.value, Frame(g, Some(id), Some(n.id), None, false), st1, []);
    }
  }
}
