/**
 * `Utils.index(keys, true)`: the keys of an object in sorted order, the order
 * in which the property pass of node map generation visits them. The order is
 * the lexicographic order of `String.compareTo`, on UTF-16 code units.
 */
module Utils {

  /**
   * The place of a character in the order of its UTF-16 encoding. Java strings
   * hold UTF-16 code units, so a character above U+FFFF, whose first unit is a
   * high surrogate (U+D800 to U+DBFF), sorts after U+D7FF and before U+E000:
   * the characters from U+E000 to U+FFFF are ranked above every code point.
   */
  function UnitRank(c: char): (r: int)
    ensures c as int < 0xD800 || c as int >= 0x10000 ==> r == c as int
    ensures 0xE000 <= c as int < 0x10000 ==> r > 0x10_FFFF
  {
    if c as int < 0xD800 || c as int >= 0x10000 then c as int else c as int + 0x11_0000
  }

  /** Strict lexicographic order on strings, compared as `String.compareTo` compares UTF-16 code units. */
  predicate Less(a: string, b: string)
    decreases |a|
  {
    if |a| == 0 then |b| > 0
    else if |b| == 0 then false
    else if a[0] != b[0] then UnitRank(a[0]) < UnitRank(b[0])
    else Less(a[1..], b[1..])
  }

  lemma {:induction false} LessIrreflexive(a: string)
    ensures !Less(a, a)
    decreases |a|
  {
    if |a| > 0 {
      LessIrreflexive(a[1..]);
    }
  }

  lemma {:induction false} LessTotal(a: string, b: string)
    ensures a == b || Less(a, b) || Less(b, a)
    decreases |a|
  {
    if |a| > 0 && |b| > 0 && a[0] == b[0] {
      LessTotal(a[1..], b[1..]);
      if a[1..] == b[1..] {
        assert a == [a[0]] + a[1..] && b == [b[0]] + b[1..];
      }
    }
  }

  lemma {:induction false} LessAsymmetric(a: string, b: string)
    ensures Less(a, b) ==> !Less(b, a)
    decreases |a|
  {
    if |a| > 0 && |b| > 0 && a[0] == b[0] {
      LessAsymmetric(a[1..], b[1..]);
    }
  }

  lemma {:induction false} LessTransitive(a: string, b: string, c: string)
    requires Less(a, b) && Less(b, c)
    ensures Less(a, c)
    decreases |a|
  {
    if |a| > 0 && a[0] == b[0] && b[0] == c[0] {
      LessTransitive(a[1..], b[1..], c[1..]);
    }
  }

  /** Strictly increasing, hence free of duplicates. */
  predicate StrictlySorted(s: seq<string>) {
    forall i, j :: 0 <= i < j < |s| ==> Less(s[i], s[j])
  }

  /** Inserts `x` into a sorted sequence, dropping it if already present. */
  function Insert(x: string, s: seq<string>): (r: seq<string>)
    requires StrictlySorted(s)
    ensures StrictlySorted(r)
    ensures forall y :: y in r <==> y == x || y in s
  {
    if |s| == 0 then [x]
    else if x == s[0] then s
    else if Less(x, s[0]) then
      forall j | 0 < j < |s| ensures Less(x, s[j]) {
        LessTransitive(x, s[0], s[j]);
      }
      [x] + s
    else
      LessTotal(x, s[0]);
      var rest := Insert(x, s[1..]);
      assert forall y :: y in rest ==> Less(s[0], y);
      [s[0]] + rest
  }

  /** `Utils.index(keys, true)`: the distinct keys, sorted. */
  function Index(keys: seq<string>): (r: seq<string>)
    ensures StrictlySorted(r)
    ensures forall y :: y in r <==> y in keys
  {
    if |keys| == 0 then [] else Insert(keys[|keys| - 1], Index(keys[..|keys| - 1]))
  }

  /** A strictly sorted sequence holds each key once. */
  lemma SortedHasNoDuplicates(s: seq<string>, i: nat, j: nat)
    requires StrictlySorted(s) && i < j < |s|
    ensures s[i] != s[j]
  {
    LessIrreflexive(s[i]);
  }
}
