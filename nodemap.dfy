/**
 * The node map that node map generation fills in: graph name -> node id ->
 * property -> value, plus the blank node identifier allocator it owns.
 * `NodeMap` itself is not part of this model's sources; its operations are
 * given the behaviour its callers in `NodeMapBuilder` rely on: lookups that
 * report absence, an overwriting `set`, and a `createIdentifier` that maps a
 * name to the same identifier every time and mints `_:b0`, `_:b1`, ...
 */
module NodeMaps {
  import opened Results
  import opened Json
  import opened Keywords

  type Record = map<string, Json>
  type Graph = map<string, Record>
  type Graphs = map<string, Graph>

  /** Counter of minted identifiers and the table of relabelled blank nodes. */
  datatype Alloc = Alloc(counter: nat, table: map<string, string>)

  /** The whole state of a node map. */
  datatype St = St(graphs: Graphs, alloc: Alloc)

  datatype Issued = Issued(id: string, st: St)

  predicate HasNode(gs: Graphs, g: string, id: string) {
    g in gs && id in gs[g]
  }

  predicate HasProperty(gs: Graphs, g: string, id: string, p: string) {
    HasNode(gs, g, id) && p in gs[g][id]
  }

  function PropertyValue(gs: Graphs, g: string, id: string, p: string): (r: Option<Json>)
    ensures r.Some? <==> HasProperty(gs, g, id, p)
  {
    if HasProperty(gs, g, id, p) then Some(gs[g][id][p]) else None
  }

  /** `set(graph, id, property, value)`: creates the graph and the record if needed. */
  function SetProperty(gs: Graphs, g: string, id: string, p: string, v: Json): (r: Graphs)
    ensures PropertyValue(r, g, id, p) == Some(v)
    ensures forall g', id' :: HasNode(r, g', id') <==> HasNode(gs, g', id') || (g' == g && id' == id)
    ensures forall g', id', p' :: HasProperty(r, g', id', p') <==>
      HasProperty(gs, g', id', p') || (g' == g && id' == id && p' == p)
    ensures forall g', id', p' :: !(g' == g && id' == id && p' == p) ==> PropertyValue(r, g', id', p') == PropertyValue(gs, g', id', p')
  {
    var graph := if g in gs then gs[g] else map[];
    var rec := if id in graph then graph[id] else map[];
    gs[g := graph[id := rec[p := v]]]
  }

  /** Decimal digits of `n`, most significant first. */
  function NatToString(n: nat): (s: string)
    ensures |s| > 0
    ensures forall i :: 0 <= i < |s| ==> '0' <= s[i] <= '9'
    decreases n
  {
    if n < 10 then [Digit(n)] else NatToString(n / 10) + [Digit(n % 10)]
  }

  function Digit(d: nat): (c: char)
    requires d < 10
    ensures '0' <= c <= '9'
  {
    "0123456789"[d]
  }

  /** Reads a string of decimal digits back as a number. */
  function ParseNat(s: string): nat
    requires forall i :: 0 <= i < |s| ==> '0' <= s[i] <= '9'
  {
    if |s| == 0 then 0 else 10 * ParseNat(s[..|s| - 1]) + (s[|s| - 1] as int - '0' as int)
  }

  lemma {:induction false} NatStringRoundTrip(n: nat)
    ensures ParseNat(NatToString(n)) == n
    decreases n
  {
    if n >= 10 {
      var s := NatToString(n);
      assert s[..|s| - 1] == NatToString(n / 10);
      NatStringRoundTrip(n / 10);
    }
  }

  /** The identifier minted for counter value `n`. */
  function Label(n: nat): string {
    "_:b" + NatToString(n)
  }

  /** Distinct counter values give distinct identifiers. */
  lemma LabelInjective(m: nat, n: nat)
    ensures Label(m) == Label(n) ==> m == n
  {
    if Label(m) == Label(n) {
      assert NatToString(m) == Label(m)[3..];
      assert NatToString(n) == Label(n)[3..];
      NatStringRoundTrip(m);
      NatStringRoundTrip(n);
    }
  }

  /** Every identifier the allocator handed out so far was minted from a smaller counter value. */
  ghost predicate AllocValid(a: Alloc) {
    forall l :: l in a.table ==> exists k :: 0 <= k < a.counter && a.table[l] == Label(k)
  }

  /** `b` keeps every relabelling `a` recorded. */
  predicate Extends(a: Alloc, b: Alloc) {
    forall l :: l in a.table ==> l in b.table && b.table[l] == a.table[l]
  }

  /** `createIdentifier()`: a new identifier from the counter. */
  function Mint(st: St): (r: Issued)
    ensures HasBlankPrefix(r.id)
    ensures r.st.graphs == st.graphs && r.st.alloc.table == st.alloc.table
    ensures r.st.alloc.counter == st.alloc.counter + 1
  {
    Issued(Label(st.alloc.counter), st.(alloc := st.alloc.(counter := st.alloc.counter + 1)))
  }

  /** `createIdentifier(name)`: the identifier already issued for `name`, or a new one recorded for it. */
  function Rename(st: St, name: string): (r: Issued)
    ensures name !in st.alloc.table ==> HasBlankPrefix(r.id)
    ensures r.st.graphs == st.graphs
    ensures name in st.alloc.table ==> r.id == st.alloc.table[name] && r.st == st
    ensures name !in st.alloc.table ==> r.st.alloc.counter == st.alloc.counter + 1
    ensures name in r.st.alloc.table && r.st.alloc.table[name] == r.id
    ensures Extends(st.alloc, r.st.alloc)
  {
    if name in st.alloc.table then Issued(st.alloc.table[name], st)
    else
      var id := Label(st.alloc.counter);
      Issued(id, St(st.graphs, Alloc(st.alloc.counter + 1, st.alloc.table[name := id])))
  }

  /** A minted identifier was never issued before, and the allocator stays consistent. */
  lemma MintIsFresh(st: St)
    requires AllocValid(st.alloc)
    ensures Mint(st).id !in st.alloc.table.Values
    ensures AllocValid(Mint(st).st.alloc)
  {
    var a := st.alloc;
    if Mint(st).id in a.table.Values {
      var l :| l in a.table && a.table[l] == Mint(st).id;
      var k :| 0 <= k < a.counter && a.table[l] == Label(k);
      LabelInjective(k, a.counter);
    }
    var a' := Mint(st).st.alloc;
    forall l | l in a'.table ensures exists k :: 0 <= k < a'.counter && a'.table[l] == Label(k) {
      var k :| 0 <= k < a.counter && a.table[l] == Label(k);
      assert 0 <= k < a'.counter;
    }
  }

  /** The same name always yields the same identifier; a new name yields a fresh one. */
  lemma RenameIsStable(st: St, name: string)
    requires AllocValid(st.alloc)
    ensures Rename(Rename(st, name).st, name) == Rename(st, name)
    ensures name !in st.alloc.table ==> Rename(st, name).id !in st.alloc.table.Values
    ensures AllocValid(Rename(st, name).st.alloc)
  {
    var a := st.alloc;
    if name !in a.table {
      if Label(a.counter) in a.table.Values {
        var l :| l in a.table && a.table[l] == Label(a.counter);
        var k :| 0 <= k < a.counter && a.table[l] == Label(k);
        LabelInjective(k, a.counter);
      }
      var a' := Rename(st, name).st.alloc;
      forall l | l in a'.table ensures exists k :: 0 <= k < a'.counter && a'.table[l] == Label(k) {
        if l == name {
          assert a'.table[l] == Label(a.counter);
        } else {
          var k :| 0 <= k < a.counter && a.table[l] == Label(k);
          assert 0 <= k < a'.counter;
        }
      }
    }
  }

  /**
   * The mutable node map object shared by every recursive call of node map
   * generation.
   */
  class NodeMap {
    var graphs: Graphs
    var counter: nat
    var table: map<string, string>

    /** The abstract value of the object. */
    function Value(): St
      reads this
    {
      St(graphs, Alloc(counter, table))
    }

    constructor ()
      ensures Value() == St(map[], Alloc(0, map[]))
      ensures AllocValid(Value().alloc)
    {
      graphs := map[];
      counter := 0;
      table := map[];
    }

    method Contains(g: string, id: string) returns (b: bool)
      ensures b <==> HasNode(graphs, g, id)
    {
      b := g in graphs && id in graphs[g];
    }

    method ContainsProp(g: string, id: string, p: string) returns (b: bool)
      ensures b <==> HasProperty(graphs, g, id, p)
    {
      b := g in graphs && id in graphs[g] && p in graphs[g][id];
    }

    method Get(g: string, id: string, p: string) returns (r: Option<Json>)
      ensures r == PropertyValue(graphs, g, id, p)
    {
      if g in graphs && id in graphs[g] && p in graphs[g][id] {
        r := Some(graphs[g][id][p]);
      } else {
        r := None;
      }
    }

    method Set(g: string, id: string, p: string, v: Json)
      modifies this
      ensures Value() == old(Value()).(graphs := SetProperty(old(graphs), g, id, p, v))
    {
      var graph := if g in graphs then graphs[g] else map[];
      var rec := if id in graph then graph[id] else map[];
      graphs := graphs[g := graph[id := rec[p := v]]];
    }

    method CreateIdentifier(name: string) returns (id: string)
      modifies this
      ensures Issued(id, Value()) == Rename(old(Value()), name)
    {
      if name in table {
        id := table[name];
      } else {
        id := "_:b" + NatToString(counter);
        table := table[name := id];
        counter := counter + 1;
      }
    }

    method CreateFreshIdentifier() returns (id: string)
      modifies this
      ensures Issued(id, Value()) == Mint(old(Value()))
    {
      id := "_:b" + NatToString(counter);
      counter := counter + 1;
    }
  }
}
