/** `getSequence` (src/runtime_core/renderer.ts:342-381): the patience-sort
    longest-increasing-subsequence routine the child-list diff uses to
    decide which matched children stay in place. */
module LongestIncreasing {

  /** The state of the forward pass once indices below `i` are processed:
      `result[k]` is the index ending the best increasing run of length
      k + 1 found so far (its values strictly increase), `depth` records the
      slot each index was given when placed, and `p` links each placed index
      at a slot above 0 to an earlier, smaller entry one slot below. */
  ghost predicate Piles(arr: seq<int>, p: array<int>, result: seq<int>, depth: map<int, nat>, i: int)
    reads p
  {
    && p.Length == |arr| > 0
    && 0 <= i <= |arr|
    && (i == 0 ==> result == [0])
    && |result| >= 1
    && 0 in depth
    && (forall k :: 0 <= k < |result| ==> result[k] in depth && depth[result[k]] == k)
    && (forall x :: x in depth ==> 0 <= x < |arr| && (x < i || x == 0))
    && (forall x :: x in depth && depth[x] > 0 ==>
          p[x] in depth && depth[p[x]] == depth[x] - 1 && p[x] < x && arr[p[x]] < arr[x])
    && (forall x :: x in depth && x != 0 ==> arr[x] != 0)
    && (forall a, b :: 0 <= a < b < |result| ==> arr[result[a]] < arr[result[b]])
  }

  /** The index of the first slot whose entry is not below `arrI`
      (src/runtime_core/renderer.ts:356-365). */
  method FirstNotBelow(arr: seq<int>, result: seq<int>, arrI: int) returns (u: nat)
    requires |result| >= 1
    requires forall k :: 0 <= k < |result| ==> 0 <= result[k] < |arr|
    requires forall a, b :: 0 <= a < b < |result| ==> arr[result[a]] < arr[result[b]]
    requires arrI <= arr[result[|result| - 1]]
    ensures u < |result|
    ensures forall k :: 0 <= k < u ==> arr[result[k]] < arrI
    ensures arrI <= arr[result[u]]
  {
    u := 0;
    var v := |result| - 1;
    while u < v
      invariant 0 <= u <= v < |result|
      invariant forall k :: 0 <= k < u ==> arr[result[k]] < arrI
      invariant arrI <= arr[result[v]]
    {
      var c := (u + v) / 2;
      if arr[result[c]] < arrI {
        u := c + 1;
      } else {
        v := c;
      }
    }
  }

  /** One step of the forward pass (src/runtime_core/renderer.ts:348-372). */
  method PlaceIndex(arr: seq<int>, p: array<int>, result: seq<int>, ghost depth: map<int, nat>, i: int)
    returns (result': seq<int>, ghost depth': map<int, nat>)
    requires Piles(arr, p, result, depth, i) && i < |arr|
    modifies p
    ensures Piles(arr, p, result', depth', i + 1)
  {
    result', depth' := result, depth;
    var arrI := arr[i];
    if arrI != 0 {
      var j := result[|result| - 1];
      if arr[j] < arrI {
        result', depth' := PushIndex(arr, p, result, depth, i);
        return;
      }
      var u := FirstNotBelow(arr, result, arrI);
      if arrI < arr[result[u]] {
        result', depth' := ReplaceIndex(arr, p, result, depth, i, u);
      }
    }
  }

  /** A value above every current run end extends the longest run. */
  method PushIndex(arr: seq<int>, p: array<int>, result: seq<int>, ghost depth: map<int, nat>, i: int)
    returns (result': seq<int>, ghost depth': map<int, nat>)
    requires Piles(arr, p, result, depth, i) && i < |arr|
    requires arr[i] != 0 && arr[result[|result| - 1]] < arr[i]
    modifies p
    ensures Piles(arr, p, result', depth', i + 1)
  {
    var j := result[|result| - 1];
    assert i > 0;
    assert i !in depth;
    p[i] := j;
    assert forall x :: x in depth ==> p[x] == old(p[x]);
    depth' := depth[i := |result|];
    result' := result + [i];
  }

  /** A value that ends a run of length u + 1 earlier than the current one
      replaces that run's end. */
  method ReplaceIndex(arr: seq<int>, p: array<int>, result: seq<int>, ghost depth: map<int, nat>, i: int, u: nat)
    returns (result': seq<int>, ghost depth': map<int, nat>)
    requires Piles(arr, p, result, depth, i) && i < |arr|
    requires arr[i] != 0 && u < |result|
    requires forall k :: 0 <= k < u ==> arr[result[k]] < arr[i]
    requires arr[i] < arr[result[u]]
    modifies p
    ensures Piles(arr, p, result', depth', i + 1)
  {
    assert i > 0;
    assert i !in depth;
    if u > 0 {
      p[i] := result[u - 1];
    }
    assert forall x :: x in depth ==> p[x] == old(p[x]);
    depth' := depth[i := u];
    result' := result[u := i];
  }

  /** What `getSequence(arr)` promises of its result: the indices are
      strictly increasing, in range, and the values of `arr` strictly
      increase along them; a zero entry (a child to be mounted fresh) can
      only appear as a leading index 0. The result always starts from
      `[0]`, so an empty `arr` yields the out-of-range index 0. */
  predicate IncreasingRun(arr: seq<int>, result: seq<int>)
  {
    && (|arr| == 0 ==> result == [0])
    && |result| >= 1
    && (|arr| > 0 ==> forall k :: 0 <= k < |result| ==> 0 <= result[k] < |arr|)
    && (forall a, b :: 0 <= a < b < |result| ==> result[a] < result[b])
    && (|arr| > 0 ==>
          forall a, b :: 0 <= a < b < |result| ==> arr[result[a]] < arr[result[b]])
    && (|arr| > 0 ==>
          forall k :: 0 <= k < |result| && arr[result[k]] == 0 ==> k == 0 && result[k] == 0)
  }

  method GetSequence(arr: seq<int>) returns (result: seq<int>)
    ensures IncreasingRun(arr, result)
  {
    var len := |arr|;
    // p = arr.slice(): a predecessor table that starts as a copy of arr
    var p := new int[len](k requires 0 <= k < len => arr[k]);
    result := [0];
    if len == 0 {
      // both loops below leave [0] as it is when arr is empty
      return;
    }
    ghost var depth: map<int, nat> := map[0 := 0];
    var i := 0;
    while i < len
      invariant Piles(arr, p, result, depth, i)
    {
      result, depth := PlaceIndex(arr, p, result, depth, i);
      i := i + 1;
    }
    result := Backtrack(arr, p, result, depth);
  }

  /** Rewrites `result` from its last entry along the predecessor chain
      (src/runtime_core/renderer.ts:374-380). */
  method Backtrack(arr: seq<int>, p: array<int>, result0: seq<int>, ghost depth: map<int, nat>)
    returns (result: seq<int>)
    requires Piles(arr, p, result0, depth, |arr|)
    ensures |result| == |result0|
    ensures forall k :: 0 <= k < |result| ==> result[k] in depth
    ensures forall k :: 0 <= k < |result| ==> 0 <= result[k] < |arr|
    ensures forall k :: 0 <= k < |result| && arr[result[k]] == 0 ==> k == 0 && result[k] == 0
    ensures forall a, b :: 0 <= a < b < |result| ==>
      result[a] < result[b] && arr[result[a]] < arr[result[b]]
  {
    result := result0;
    var u := |result|;
    var v := result[u - 1];
    ghost var n := |result|;
    while u > 0
      invariant 0 <= u <= n == |result|
      invariant u > 0 ==> v in depth && depth[v] == u - 1
      invariant forall k :: 0 <= k < n ==> result[k] in depth && depth[result[k]] == k
      invariant forall a, b :: u <= a < b < n ==>
        result[a] < result[b] && arr[result[a]] < arr[result[b]]
      invariant 0 < u < n ==> v < result[u] && arr[v] < arr[result[u]]
    {
      u := u - 1;
      result := result[u := v];
      if u > 0 {
        // the source also reads p[v] once the first slot is filled; that
        // value is never used
        v := p[v];
      }
    }
  }
}
