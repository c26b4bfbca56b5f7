/**
 * JSON values as the jakarta.json API presents them to the flattening code:
 * an object is an ordered sequence of members, and the `LinkedHashMap`
 * working copies taken of objects are modelled by the operations below.
 */
module Json {
  import opened Results

  datatype Json =
    | JNull
    | JBool(b: bool)
    | JNumber(n: int)
    | JString(s: string)
    | JArray(items: seq<Json>)
    | JObject(members: seq<Member>)

  datatype Member = Member(key: string, value: Json)

  /** `JsonStructure`: the values `NodeMapBuilder.build` accepts. */
  predicate IsStructure(j: Json) {
    j.JArray? || j.JObject?
  }

  /** `Map.containsKey`. */
  predicate HasKey(ms: seq<Member>, k: string) {
    exists i :: 0 <= i < |ms| && ms[i].key == k
  }

  /** Position of the first member named `k`. */
  function IndexOf(ms: seq<Member>, k: string): (r: Option<nat>)
    ensures r.Some? <==> HasKey(ms, k)
    ensures r.Some? ==> r.value < |ms| && ms[r.value].key == k
    ensures r.Some? ==> forall j :: 0 <= j < r.value ==> ms[j].key != k
    ensures r.None? ==> forall j :: 0 <= j < |ms| ==> ms[j].key != k
  {
    if |ms| == 0 then None
    else if ms[0].key == k then Some(0)
    else match IndexOf(ms[1..], k)
      case None => None
      case Some(j) => Some(j + 1)
  }

  /** `Map.get`: the value of the first member named `k`, if any. */
  function Get(ms: seq<Member>, k: string): (r: Option<Json>)
    ensures r.Some? <==> HasKey(ms, k)
    ensures r.Some? ==> exists i :: 0 <= i < |ms| && ms[i] == Member(k, r.value)
  {
    match IndexOf(ms, k)
    case None => None
    case Some(i) => Some(ms[i].value)
  }

  /** `Map.remove`: no member named `k` is left, every other member stays in order. */
  function Remove(ms: seq<Member>, k: string): (r: seq<Member>)
    ensures forall m :: m in r <==> m in ms && m.key != k
    ensures forall k' :: HasKey(r, k') <==> HasKey(ms, k') && k' != k
    ensures !HasKey(ms, k) ==> r == ms
    ensures forall k' :: k' != k ==> Get(r, k') == Get(ms, k')
  {
    if |ms| == 0 then []
    else if ms[0].key == k then
      var r := Remove(ms[1..], k);
      forall k' | k' != k ensures Get(r, k') == Get(ms, k') {
        GetCons(ms, k');
      }
      r
    else
      var r := [ms[0]] + Remove(ms[1..], k);
      assert r[0] == ms[0] && r[1..] == Remove(ms[1..], k);
      forall k' | k' != k ensures Get(r, k') == Get(ms, k') {
        GetCons(ms, k');
        GetCons(r, k');
      }
      r
  }

  lemma GetCons(ms: seq<Member>, k: string)
    requires |ms| > 0
    ensures Get(ms, k) == if ms[0].key == k then Some(ms[0].value) else Get(ms[1..], k)
  {
  }

  /** `Map.put`: replaces the value of an existing key in place, or appends. */
  function Put(ms: seq<Member>, k: string, v: Json): (r: seq<Member>)
    ensures Get(r, k) == Some(v)
    ensures forall k' :: k' != k ==> Get(r, k') == Get(ms, k')
    ensures forall k' :: HasKey(r, k') <==> HasKey(ms, k') || k' == k
  {
    match IndexOf(ms, k)
    case None =>
      var r := ms + [Member(k, v)];
      forall k' ensures IndexOf(r, k') == AppendedIndex(ms, Member(k, v), k')
        ensures HasKey(r, k') <==> HasKey(ms, k') || k' == k
      {
        IndexOfAppend(ms, Member(k, v), k');
      }
      r
    case Some(i) =>
      var r := ms[i := Member(k, v)];
      forall k' ensures IndexOf(r, k') == IndexOf(ms, k')
        ensures HasKey(r, k') <==> HasKey(ms, k') || k' == k
      {
        IndexOfSameKeys(ms, r, k');
      }
      r
  }

  function AppendedIndex(ms: seq<Member>, m: Member, k: string): Option<nat> {
    if HasKey(ms, k) then IndexOf(ms, k) else if m.key == k then Some(|ms|) else None
  }

  lemma {:induction false} IndexOfAppend(ms: seq<Member>, m: Member, k: string)
    ensures IndexOf(ms + [m], k) == AppendedIndex(ms, m, k)
  {
    if |ms| > 0 {
      assert (ms + [m])[1..] == ms[1..] + [m];
      IndexOfAppend(ms[1..], m, k);
    }
  }

  /** Two objects with the same keys in the same order find every key at the same position. */
  lemma {:induction false} IndexOfSameKeys(ms: seq<Member>, ms': seq<Member>, k: string)
    requires |ms| == |ms'|
    requires forall j :: 0 <= j < |ms| ==> ms[j].key == ms'[j].key
    ensures IndexOf(ms, k) == IndexOf(ms', k)
  {
    if |ms| > 0 {
      IndexOfSameKeys(ms[1..], ms'[1..], k);
    }
  }

  /** The keys of an object, in member order. */
  function KeySeq(ms: seq<Member>): (r: seq<string>)
    ensures |r| == |ms|
    ensures forall i :: 0 <= i < |ms| ==> r[i] == ms[i].key
  {
    if |ms| == 0 then [] else [ms[0].key] + KeySeq(ms[1..])
  }

  /** The reference object `{"@id": id}`. */
  function IdRef(id: string): Json {
    JObject([Member("@id", JString(id))])
  }

  /** The list object `{"@list": items}`. */
  function ListObject(items: seq<Json>): Json {
    JObject([Member("@list", JArray(items))])
  }
}
