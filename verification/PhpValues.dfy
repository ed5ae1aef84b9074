/** PHP values as far as cells need them: scalars, date-times and ordered hash arrays. */
module PhpValues {
  import opened Numerals

  const LONG_MAX: int := 0x7fff_ffff_ffff_ffff
  const LONG_MIN: int := -0x8000_0000_0000_0000

  datatype Key = IntKey(n: int) | StrKey(s: string)

  type Entries = seq<(Key, Value)>

  /** `Float(f)` is the float with identity f, `DateTime` a date-time object in UTC, and `Raised` no
      value at all: the engine has raised an error instead. */
  datatype Value =
    | Null
    | Bool(b: bool)
    | Long(n: int)
    | Str(s: string)
    | DateTime(sec: int, us: nat)
    | Float(f: int)
    | Raised
    | Arr(entries: seq<(Key, Value)>)

  /** How deep a value nests arrays. */
  function Rank(v: Value): nat
    decreases v, 1
  {
    if v.Arr? then 1 + RankBefore(v, |v.entries|) else 0
  }

  /** The deepest nesting among the first n entries of an array. */
  function RankBefore(v: Value, n: nat): (rank: nat)
    requires v.Arr? && n <= |v.entries|
    ensures forall i :: 0 <= i < n ==> Rank(v.entries[i].1) <= rank
    decreases v, 0, n
  {
    if n == 0 then 0
    else
      var last, rest := Rank(v.entries[n - 1].1), RankBefore(v, n - 1);
      if last < rest then rest else last
  }

  function EntryValues(es: Entries): (vs: seq<Value>)
    ensures |vs| == |es|
  {
    seq(|es|, i requires 0 <= i < |es| => es[i].1)
  }

  /** The list array [v0, v1, ...] with keys 0, 1, .... */
  function ListOf(vs: seq<Value>): Value {
    Arr(seq(|vs|, i requires 0 <= i < |vs| => (IntKey(i), vs[i])))
  }

  function KeyValue(k: Key): Value {
    match k
    case IntKey(n) => Long(n)
    case StrKey(s) => Str(s)
  }

  /** An integer-like string: what the engine's symbol-table functions turn into an int key. */
  predicate IsIntLike(s: string) {
    IsCanonicalInt(s) && LONG_MIN <= IntValue(s) <= LONG_MAX
  }

  function SymtableKey(s: string): Key {
    if IsIntLike(s) then IntKey(IntValue(s)) else StrKey(s)
  }

  /** Keys that can occur in a PHP array. */
  predicate IsArrayKey(k: Key) {
    match k
    case IntKey(n) => LONG_MIN <= n <= LONG_MAX
    case StrKey(s) => !IsIntLike(s)
  }

  /** Insert or overwrite in place, as a hash update does. */
  function Update(es: Entries, k: Key, v: Value): Entries {
    if es == [] then [(k, v)]
    else if es[0].0 == k then [(k, v)] + es[1..]
    else [es[0]] + Update(es[1..], k, v)
  }

  /** The array that results from updating with the pairs one after another. */
  function Build(pairs: Entries): Entries {
    if pairs == [] then []
    else Update(Build(pairs[..|pairs| - 1]), pairs[|pairs| - 1].0, pairs[|pairs| - 1].1)
  }

  predicate DistinctKeys(es: Entries) {
    forall i, j :: 0 <= i < j < |es| ==> es[i].0 != es[j].0
  }

  lemma {:induction false} UpdateFresh(es: Entries, k: Key, v: Value)
    ensures |es| <= |Update(es, k, v)| <= |es| + 1
    ensures |Update(es, k, v)| == |es| + 1 <==> forall i :: 0 <= i < |es| ==> es[i].0 != k
    ensures |Update(es, k, v)| == |es| + 1 ==> Update(es, k, v) == es + [(k, v)]
  {
    if es != [] {
      UpdateFresh(es[1..], k, v);
      if es[0].0 != k {
        assert forall i :: 1 <= i < |es| ==> es[i] == es[1..][i - 1];
        assert |Update(es, k, v)| == |es| + 1 ==> [es[0]] + (es[1..] + [(k, v)]) == es + [(k, v)];
      }
    }
  }

  /** A key that is there keeps its place and gets the new value; see UpdateFresh for one that is not. */
  lemma {:induction false} UpdateInPlace(es: Entries, k: Key, v: Value, j: nat)
    requires j < |es| && es[j].0 == k && forall i :: 0 <= i < j ==> es[i].0 != k
    ensures Update(es, k, v) == es[j := (k, v)]
    decreases j
  {
    if j > 0 {
      UpdateInPlace(es[1..], k, v, j - 1);
      assert [es[0]] + es[1..][j - 1 := (k, v)] == es[j := (k, v)];
    }
  }

  lemma {:induction false} UpdateKeepsDistinct(es: Entries, k: Key, v: Value)
    requires DistinctKeys(es)
    ensures DistinctKeys(Update(es, k, v)) && |es| <= |Update(es, k, v)|
    ensures exists j :: 0 <= j < |Update(es, k, v)| && Update(es, k, v)[j] == (k, v)
    ensures forall j :: 0 <= j < |Update(es, k, v)| ==>
              Update(es, k, v)[j] == (k, v) || (j < |es| && Update(es, k, v)[j] == es[j] && es[j].0 != k)
    ensures forall j :: 0 <= j < |es| ==> Update(es, k, v)[j].0 == es[j].0
  {
    UpdateFresh(es, k, v);
    if exists j :: 0 <= j < |es| && es[j].0 == k {
      var j :| 0 <= j < |es| && es[j].0 == k;
      UpdateInPlace(es, k, v, j);
      assert Update(es, k, v)[j] == (k, v);
    } else {
      assert Update(es, k, v)[|es|] == (k, v);
    }
  }

  /** No later pair has the key of pair i. */
  predicate LastOfKey(pairs: Entries, i: int) {
    0 <= i < |pairs| && forall j :: i < j < |pairs| ==> pairs[j].0 != pairs[i].0
  }

  /** e is the last of the pairs that have its key. */
  ghost predicate Latest(pairs: Entries, e: (Key, Value)) {
    exists i :: LastOfKey(pairs, i) && pairs[i] == e
  }

  lemma {:induction false} LatestOfMore(front: Entries, last: (Key, Value), e: (Key, Value))
    ensures Latest(front + [last], last)
    ensures Latest(front, e) && e.0 != last.0 ==> Latest(front + [last], e)
  {
    var pairs := front + [last];
    assert LastOfKey(pairs, |front|);
    if Latest(front, e) && e.0 != last.0 {
      var i :| LastOfKey(front, i) && front[i] == e;
      assert LastOfKey(pairs, i) && pairs[i] == e;
    }
  }

  predicate HasKey(es: Entries, k: Key) {
    exists j :: 0 <= j < |es| && es[j].0 == k
  }

  lemma {:induction false} UpdateHasKey(es: Entries, k: Key, v: Value, other: Key)
    requires DistinctKeys(es)
    ensures HasKey(Update(es, k, v), k) && (HasKey(es, other) ==> HasKey(Update(es, k, v), other))
  {
    UpdateKeepsDistinct(es, k, v);
    if HasKey(es, other) {
      var j :| 0 <= j < |es| && es[j].0 == other;
      assert Update(es, k, v)[j].0 == other;
    }
  }

  /** Building keeps each key once, at the place of its first pair, with the value of its last: all
      entries are last pairs, every key has one, and one more pair moves no key. */
  lemma {:induction false} BuildKeepsLast(pairs: Entries)
    ensures DistinctKeys(Build(pairs))
    ensures forall j :: 0 <= j < |Build(pairs)| ==> Latest(pairs, Build(pairs)[j])
    ensures forall i :: 0 <= i < |pairs| ==> HasKey(Build(pairs), pairs[i].0)
    ensures pairs != [] ==>
              var before := Build(pairs[..|pairs| - 1]);
              && |before| <= |Build(pairs)|
              && forall j :: 0 <= j < |before| ==> Build(pairs)[j].0 == before[j].0
  {
    if pairs != [] {
      var front, last := pairs[..|pairs| - 1], pairs[|pairs| - 1];
      var es, built := Build(front), Build(pairs);
      hide Build, Update, Latest, HasKey, DistinctKeys;
      BuildKeepsLast(front);
      UpdateKeepsDistinct(es, last.0, last.1);
      assert pairs == front + [last] && built == Update(es, last.0, last.1);
      forall j | 0 <= j < |built| ensures Latest(pairs, built[j]) {
        LatestOfMore(front, last, built[j]);
      }
      forall i | 0 <= i < |pairs| ensures HasKey(built, pairs[i].0) {
        UpdateHasKey(es, last.0, last.1, pairs[i].0);
        assert i < |front| ==> pairs[i] == front[i];
      }
    }
  }

  /** Building keeps every pair, in order, exactly when no key repeats. */
  lemma {:induction false} BuildKeepsAllIff(pairs: Entries)
    ensures |Build(pairs)| <= |pairs|
    ensures |Build(pairs)| == |pairs| <==> DistinctKeys(pairs)
    ensures DistinctKeys(pairs) ==> Build(pairs) == pairs
  {
    if pairs != [] {
      var front, last := pairs[..|pairs| - 1], pairs[|pairs| - 1];
      BuildKeepsAllIff(front);
      UpdateFresh(Build(front), last.0, last.1);
      assert pairs == front + [last];
      assert forall i :: 0 <= i < |front| ==> front[i] == pairs[i];
      if DistinctKeys(front) && !DistinctKeys(pairs) {
        var i, j :| 0 <= i < j < |pairs| && pairs[i].0 == pairs[j].0;
        assert j == |front| && front[i].0 == last.0;
      }
    }
  }

  /** The key an int writes and reads as a string is the int again. */
  lemma {:induction false} IntKeySurvives(n: int)
    requires LONG_MIN <= n <= LONG_MAX
    ensures SymtableKey(IntText(n)) == IntKey(n)
  {
    IntTextIsCanonical(n);
  }
}
