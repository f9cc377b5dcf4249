/** First-occurrence search: the byte search of parsing.rs and the `str` searches of catalog.rs. */
module Search {
  import opened Prelude

  predicate OccursAt<T(==)>(data: seq<T>, pattern: seq<T>, i: int) {
    0 <= i <= |data| - |pattern| && data[i..i + |pattern|] == pattern
  }

  ghost predicate Contains<T>(data: seq<T>, pattern: seq<T>) {
    exists i :: OccursAt(data, pattern, i)
  }

  function FindFrom<T(==)>(data: seq<T>, pattern: seq<T>, i: nat): (r: Option<nat>)
    requires i <= |data|
    ensures r.Some? ==> i <= r.value && OccursAt(data, pattern, r.value)
    ensures r.Some? ==> forall j :: i <= j < r.value ==> !OccursAt(data, pattern, j)
    ensures r.None? ==> forall j :: i <= j ==> !OccursAt(data, pattern, j)
    decreases |data| - i
  {
    if OccursAt(data, pattern, i) then Some(i)
    else if i == |data| then None
    else FindFrom(data, pattern, i + 1)
  }

  /** `find_pattern`: the least index at which a nonempty pattern occurs. */
  function Find<T(==)>(data: seq<T>, pattern: seq<T>): (r: Option<nat>)
    ensures r.Some? <==> pattern != [] && Contains(data, pattern)
    ensures r.Some? ==> OccursAt(data, pattern, r.value)
    ensures r.Some? ==> forall j :: 0 <= j < r.value ==> !OccursAt(data, pattern, j)
  {
    if pattern == [] then None else FindFrom(data, pattern, 0)
  }

  lemma OccursShift<T>(prefix: seq<T>, data: seq<T>, pattern: seq<T>, j: int)
    requires j >= 0
    ensures OccursAt(prefix + data, pattern, |prefix| + j) == OccursAt(data, pattern, j)
  {
    if j + |pattern| <= |data| {
      assert (prefix + data)[|prefix| + j..|prefix| + j + |pattern|] == data[j..j + |pattern|];
    }
  }

  /** Dropping a prefix in which no occurrence starts only shifts the result. */
  lemma FindShift<T>(prefix: seq<T>, data: seq<T>, pattern: seq<T>)
    requires forall j :: 0 <= j < |prefix| ==> !OccursAt(prefix + data, pattern, j)
    ensures var r := Find(data, pattern);
      Find(prefix + data, pattern) == if r.None? then None else Some(|prefix| + r.value)
  {
    var r, w := Find(data, pattern), Find(prefix + data, pattern);
    if r.Some? { OccursShift(prefix, data, pattern, r.value); }
    if w.Some? { OccursShift(prefix, data, pattern, w.value - |prefix|); }
  }
}
