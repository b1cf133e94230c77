/**
 * `get_lists_of_candidates`: the loaded contrast sets re-keyed as
 * 0, 1, ..., n-1 in iteration order. Python dicts are modelled as their
 * (key, value) pairs in insertion order.
 */
module Candidates {

  /** One contrast set as loaded from the game file: its items and its target. */
  datatype ContrastSet = ContrastSet(items: seq<string>, target: string)

  /** One value of `list_and_target`: `{'candidates': ..., 'target': ...}`. */
  datatype Entry = Entry(candidates: seq<string>, target: string)

  /** A Python dict as its (key, value) pairs in insertion order. */
  type Dict<K, V> = seq<(K, V)>

  /** The keys of a dict are pairwise different. */
  ghost predicate DistinctKeys<K, V>(d: Dict<K, V>) {
    forall i, j :: 0 <= i < j < |d| ==> d[i].0 != d[j].0
  }

  /**
   * `d[k] = v`: a present key keeps its place and takes the new value; a
   * new key goes at the end.
   */
  function Assign<K(==), V>(d: Dict<K, V>, k: K, v: V): (r: Dict<K, V>)
    requires DistinctKeys(d)
    ensures DistinctKeys(r)
    ensures (forall i :: 0 <= i < |d| ==> d[i].0 != k) ==> r == d + [(k, v)]
    ensures (exists i :: 0 <= i < |d| && d[i].0 == k) ==>
      |r| == |d| && forall i :: 0 <= i < |d| ==> r[i] == (if d[i].0 == k then (k, v) else d[i])
  {
    if d == [] then [(k, v)]
    else if d[0].0 == k then [(k, v)] + d[1..]
    else [d[0]] + Assign(d[1..], k, v)
  }

  /**
   * `get_lists_of_candidates(constrast_sets)`: one entry per contrast set,
   * keyed by its position, holding its items as candidates and its target.
   */
  method GetListsOfCandidates(contrastSets: seq<ContrastSet>) returns (listAndTarget: Dict<int, Entry>)
    ensures |listAndTarget| == |contrastSets|
    ensures forall i :: 0 <= i < |contrastSets| ==>
      listAndTarget[i] == (i, Entry(contrastSets[i].items, contrastSets[i].target))
  {
    listAndTarget := [];
    var count := 0;
    for i := 0 to |contrastSets|
      invariant count == i == |listAndTarget|
      invariant forall j :: 0 <= j < i ==>
        listAndTarget[j] == (j, Entry(contrastSets[j].items, contrastSets[j].target))
    {
      var contrastSet := contrastSets[i];
      listAndTarget := Assign(listAndTarget, count, Entry(contrastSet.items, contrastSet.target));
      count := count + 1;
    }
  }
}
