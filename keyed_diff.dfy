/** `patchKeyedChildren` (src/runtime_core/renderer.ts:95-218): the diff of
    two child lists. The phases are separate methods here; each takes the
    running host-node table `els` (entry n is `c2[n].el`) and returns the
    host calls it makes. The three defects of the source are kept: an append
    at the very end reads `c2[l2].el` and throws, the pure-removal case
    removes a single old child, and the final pass compares the position `i`
    with `increasingNewIndexSequence[i]`. */
module KeyedDiff {
  import opened Shared
  import opened Wrappers
  import opened Host
  import LongestIncreasing

  /** The host calls of a diff and the host node each new child ends on. */
  datatype Diff = Diff(ops: seq<HostOp>, els: seq<Option<El>>)

  // ---------------------------------------------------------------------
  // Prefix and suffix scans (src/runtime_core/renderer.ts:105-130)

  /** The length of the common prefix: the first index where the scan from
      the left stops. */
  function CommonPrefix(c1: seq<Mounted>, c2: seq<VNode>): (i: nat)
    ensures i <= |c1| && i <= |c2|
    ensures forall k {:trigger c1[k]} :: 0 <= k < i ==> IsSomeVNodeType(c1[k].node, c2[k])
    ensures i == |c1| || i == |c2| || !IsSomeVNodeType(c1[i].node, c2[i])
  {
    if c1 == [] || c2 == [] || !IsSomeVNodeType(c1[0].node, c2[0]) then 0
    else 1 + CommonPrefix(c1[1..], c2[1..])
  }

  /** The length of the common suffix left once the first `i` children of
      both lists are taken by the prefix scan. */
  function CommonSuffix(c1: seq<Mounted>, c2: seq<VNode>, i: nat): (m: nat)
    requires i <= |c1| && i <= |c2|
    ensures m <= |c1| - i && m <= |c2| - i
    ensures forall n :: |c1| - m <= n < |c1| ==> IsSomeVNodeType(c1[n].node, c2[n - |c1| + |c2|])
    ensures m == |c1| - i || m == |c2| - i
         || !IsSomeVNodeType(c1[|c1| - 1 - m].node, c2[|c2| - 1 - m])
    decreases |c1|
  {
    if i < |c1| && i < |c2| && IsSomeVNodeType(c1[|c1| - 1].node, c2[|c2| - 1]) then
      1 + CommonSuffix(c1[..|c1| - 1], c2[..|c2| - 1], i)
    else 0
  }

  /** The scan from the left patches each matching pair in place. */
  method ScanPrefix(c1: seq<Mounted>, c2: seq<VNode>, els: seq<Option<El>>)
    returns (i: nat, ops: seq<HostOp>, els': seq<Option<El>>)
    requires |els| == |c2|
    ensures i == CommonPrefix(c1, c2)
    ensures |ops| == i && forall k :: 0 <= k < i ==> ops[k] == PatchChild(k, k)
    ensures |els'| == |c2|
    ensures forall n :: 0 <= n < |c2| ==> els'[n] == if n < i then Some(c1[n].el) else els[n]
    ensures forall n :: 0 <= n < i ==> els'[n].Some?
  {
    var e1, e2 := |c1| - 1, |c2| - 1;
    i, ops, els' := 0, [], els;
    while i <= e1 && i <= e2
      invariant i <= |c1| && i <= |c2|
      invariant forall k :: 0 <= k < i ==> IsSomeVNodeType(c1[k].node, c2[k])
      invariant |ops| == i && forall k :: 0 <= k < i ==> ops[k] == PatchChild(k, k)
      invariant |els'| == |c2|
      invariant forall n :: 0 <= n < |c2| ==> els'[n] == if n < i then Some(c1[n].el) else els[n]
    {
      if IsSomeVNodeType(c1[i].node, c2[i]) {
        ops := ops + [PatchChild(i, i)];
        els' := els'[i := Some(c1[i].el)];
      } else {
        break;
      }
      i := i + 1;
    }
    assert i == |c1| || i == |c2| || !IsSomeVNodeType(c1[i].node, c2[i]);
  }

  /** The scan from the right, bounded by where the prefix scan stopped. */
  method ScanSuffix(c1: seq<Mounted>, c2: seq<VNode>, i: nat, els: seq<Option<El>>)
    returns (e1: int, e2: int, ops: seq<HostOp>, els': seq<Option<El>>)
    requires i <= |c1| && i <= |c2| && |els| == |c2|
    requires forall n :: 0 <= n < i ==> els[n].Some?
    ensures e1 == |c1| - 1 - CommonSuffix(c1, c2, i)
    ensures e2 == |c2| - 1 - CommonSuffix(c1, c2, i)
    ensures |ops| == |c1| - 1 - e1
    ensures forall d :: 0 <= d < |ops| ==> ops[d] == PatchChild(|c1| - 1 - d, |c2| - 1 - d)
    ensures |els'| == |c2|
    ensures forall n :: 0 <= n < |c2| ==>
      els'[n] == if n > e2 then Some(c1[n - |c2| + |c1|].el) else els[n]
    ensures i - 1 <= e1 && i - 1 <= e2
    ensures e2 + 1 < |c2| ==> els'[e2 + 1] == Some(c1[e1 + 1].el)
    ensures forall n :: 0 <= n < |c2| && !(i <= n <= e2) ==> els'[n].Some?
  {
    e1, e2, ops, els' := |c1| - 1, |c2| - 1, [], els;
    while i <= e1 && i <= e2
      invariant i - 1 <= e1 < |c1| && i - 1 <= e2 < |c2|
      invariant e1 - e2 == |c1| - |c2|
      invariant forall n :: e1 < n < |c1| ==> IsSomeVNodeType(c1[n].node, c2[n - |c1| + |c2|])
      invariant |ops| == |c1| - 1 - e1
      invariant forall d :: 0 <= d < |ops| ==> ops[d] == PatchChild(|c1| - 1 - d, |c2| - 1 - d)
      invariant |els'| == |c2|
      invariant forall n :: 0 <= n < |c2| ==>
        els'[n] == if n > e2 then Some(c1[n - |c2| + |c1|].el) else els[n]
    {
      if IsSomeVNodeType(c1[e1].node, c2[e2]) {
        ops := ops + [PatchChild(e1, e2)];
        els' := els'[e2 := Some(c1[e1].el)];
      } else {
        break;
      }
      e1, e2 := e1 - 1, e2 - 1;
    }
    SuffixLength(c1, c2, i, |c1| - 1 - e1);
  }

  /** The common suffix is the one length `m` whose pairs all match and
      after which the scan has to stop. */
  lemma SuffixLength(c1: seq<Mounted>, c2: seq<VNode>, i: nat, m: nat)
    requires i <= |c1| && i <= |c2| && m <= |c1| - i && m <= |c2| - i
    requires forall n :: |c1| - m <= n < |c1| ==> IsSomeVNodeType(c1[n].node, c2[n - |c1| + |c2|])
    requires m == |c1| - i || m == |c2| - i || !IsSomeVNodeType(c1[|c1| - 1 - m].node, c2[|c2| - 1 - m])
    ensures m == CommonSuffix(c1, c2, i)
  {
    var m' := CommonSuffix(c1, c2, i);
    if m < m' {
      assert false;
    } else if m' < m {
      assert false;
    }
  }

  // ---------------------------------------------------------------------
  // Old range exhausted: mount the rest (src/runtime_core/renderer.ts:132-141)

  /** Mounts `c2[i..e2]` in order before the host node of `c2[e2 + 1]`. The
      guard `nextPos > l2` never holds, so when nothing follows (`e2 + 1`
      is `l2`) the source reads `c2[l2].el` and throws. */
  method MountRemaining(els: seq<Option<El>>, i: nat, e2: nat) returns (r: Result<Diff>)
    requires i <= e2 < |els|
    ensures r.Err? <==> e2 + 1 == |els|
    ensures r.Ok? ==> |r.value.ops| == e2 - i + 1
    ensures r.Ok? ==> forall k :: 0 <= k < |r.value.ops| ==>
      r.value.ops[k] == MountChild(i + k, els[e2 + 1])
    ensures r.Ok? ==> |r.value.els| == |els| && forall n :: 0 <= n < |els| ==>
      r.value.els[n] == if i <= n <= e2 then Some(Created(n)) else els[n]
  {
    var l2 := |els|;
    var nextPos := e2 + 1;
    var anchor: Option<El>;
    if nextPos < l2 {
      anchor := els[nextPos];
    } else {
      // c2[nextPos] is undefined: reading its `el` is a TypeError
      return Err(TypeError("c2[l2] is undefined"));
    }
    var ops: seq<HostOp> := [];
    var els' := els;
    var k := i;
    while k <= e2
      invariant i <= k <= e2 + 1
      invariant |ops| == k - i
      invariant forall t :: 0 <= t < |ops| ==> ops[t] == MountChild(i + t, anchor)
      invariant |els'| == l2
      invariant forall n :: 0 <= n < l2 ==> els'[n] == if i <= n < k then Some(Created(n)) else els[n]
    {
      ops := ops + [MountChild(k, anchor)];
      els' := els'[k := Some(Created(k))];
      k := k + 1;
    }
    r := Ok(Diff(ops, els'));
  }

  // ---------------------------------------------------------------------
  // Middle diff: matching old children (src/runtime_core/renderer.ts:148-197)

  /** What `keyToNewIndexMap` holds once filled from `c2[s..e2]`: each key of
      the range maps to the last index carrying it (later `set`s win). */
  ghost predicate IsKeyIndex(keyIndex: map<Value, nat>, c2: seq<VNode>, s: nat, e2: int)
    requires e2 < |c2|
  {
    && (forall n {:trigger Listed(keyIndex, c2, n)} :: s <= n <= e2 ==> Listed(keyIndex, c2, n))
    && (forall key {:trigger LastWith(keyIndex, c2, s, e2, key)} :: key in keyIndex ==> LastWith(keyIndex, c2, s, e2, key))
  }

  /** The key of new child `n` is in the map. */
  ghost predicate Listed(keyIndex: map<Value, nat>, c2: seq<VNode>, n: int)
  {
    0 <= n < |c2| && c2[n].key in keyIndex
  }

  /** `key` maps to the last index of `c2[s..e2]` that carries it. */
  ghost predicate LastWith(keyIndex: map<Value, nat>, c2: seq<VNode>, s: nat, e2: int, key: Value)
    requires e2 < |c2|
  {
    && key in keyIndex
    && s <= keyIndex[key] <= e2
    && c2[keyIndex[key]].key == key
    && forall n :: keyIndex[key] < n <= e2 ==> c2[n].key != key
  }

  /** Fills `keyToNewIndexMap` from `c2[s..e2]` (src/runtime_core/renderer.ts:160-163). */
  method BuildKeyIndex(c2: seq<VNode>, s: nat, e2: int) returns (keyIndex: map<Value, nat>)
    requires e2 < |c2|
    ensures IsKeyIndex(keyIndex, c2, s, e2)
  {
    keyIndex := map[];
    var n := s;
    while n <= e2
      invariant s <= n <= e2 + 1 || (n == s && e2 < s)
      invariant forall m :: s <= m < n ==> c2[m].key in keyIndex
      invariant forall key {:trigger keyIndex[key]} :: key in keyIndex ==>
        s <= keyIndex[key] < n && c2[keyIndex[key]].key == key
        && forall m :: keyIndex[key] < m < n ==> c2[m].key != key
    {
      keyIndex := keyIndex[c2[n].key := n];
      n := n + 1;
    }
    forall m | s <= m <= e2
      ensures Listed(keyIndex, c2, m)
    {
    }
    forall key | key in keyIndex
      ensures LastWith(keyIndex, c2, s, e2, key)
    {
      assert keyIndex[key] == keyIndex[key];
    }
  }

  /** A key is found exactly when some new child of the range carries it,
      and then it is the last such child. */
  lemma KeyLookup(keyIndex: map<Value, nat>, c2: seq<VNode>, s: nat, e2: int, key: Value)
    requires e2 < |c2| && IsKeyIndex(keyIndex, c2, s, e2)
    ensures key in keyIndex <==> exists n :: s <= n <= e2 && c2[n].key == key
    ensures key in keyIndex ==>
      && s <= keyIndex[key] <= e2 && c2[keyIndex[key]].key == key
      && (forall n :: keyIndex[key] < n <= e2 ==> c2[n].key != key)
  {
    if key in keyIndex {
      assert LastWith(keyIndex, c2, s, e2, key);
    }
    if exists n :: s <= n <= e2 && c2[n].key == key {
      var n :| s <= n <= e2 && c2[n].key == key;
      assert Listed(keyIndex, c2, n);
    }
  }

  /** The first index in `c2[j..e2]` whose node matches `v`. */
  function FirstMatch(v: VNode, c2: seq<VNode>, j: nat, e2: int): (r: Option<nat>)
    requires e2 < |c2|
    ensures r.Some? ==> j <= r.value <= e2 && IsSomeVNodeType(v, c2[r.value])
    ensures r.Some? ==> forall n :: j <= n < r.value ==> !IsSomeVNodeType(v, c2[n])
    ensures r.None? ==> forall n :: j <= n <= e2 ==> !IsSomeVNodeType(v, c2[n])
    decreases e2 - j + 1
  {
    if j > e2 then None
    else if IsSomeVNodeType(v, c2[j]) then Some(j)
    else FirstMatch(v, c2, j + 1, e2)
  }

  /** The last index of `c2[s..e2]` whose child carries `key`, if any. */
  function LastKeyed(c2: seq<VNode>, s: nat, e2: int, key: Value): (r: Option<nat>)
    requires e2 < |c2|
    ensures r.Some? ==> s <= r.value <= e2 && c2[r.value].key == key
    ensures r.Some? ==> forall n :: r.value < n <= e2 ==> c2[n].key != key
    ensures r.None? ==> forall n :: s <= n <= e2 ==> c2[n].key != key
    decreases e2 - s + 1
  {
    if e2 < s then None
    else if c2[e2].key == key then Some(e2)
    else LastKeyed(c2, s, e2 - 1, key)
  }

  /** The new child an old child `prev` is meant to be matched to, without
      the map: the last child of the range with its key when the key is not
      `null`, else the first child of the range with its type and key. */
  function KeyedCandidate(prev: VNode, c2: seq<VNode>, s: nat, e2: int): Option<nat>
    requires e2 < |c2|
  {
    if prev.key != Null then LastKeyed(c2, s, e2, prev.key) else FirstMatch(prev, c2, s, e2)
  }

  /** The new index an old child is matched to: by key when its key is not
      `null` (an `undefined` key is looked up too), otherwise by the first
      node of the new range with the same type and key. The lookup in
      `keyToNewIndexMap` finds the last new child with the key. */
  function Candidate(prev: VNode, c2: seq<VNode>, s: nat, e2: int, keyIndex: map<Value, nat>): (r: Option<nat>)
    requires e2 < |c2| && IsKeyIndex(keyIndex, c2, s, e2)
    ensures r.Some? ==> s <= r.value <= e2 && c2[r.value].key == prev.key
    ensures r == KeyedCandidate(prev, c2, s, e2)
  {
    if prev.key != Null then
      KeyLookup(keyIndex, c2, s, e2, prev.key);
      LastKeyedUnique(c2, s, e2, prev.key);
      if prev.key in keyIndex then Some(keyIndex[prev.key]) else None
    else FirstMatch(prev, c2, s, e2)
  }

  /** `LastKeyed` is the one index of the range with the key and no later
      child carrying it, and it is missing exactly when no child carries it. */
  lemma LastKeyedUnique(c2: seq<VNode>, s: nat, e2: int, key: Value)
    requires e2 < |c2|
    ensures LastKeyed(c2, s, e2, key).None? <==> forall n :: s <= n <= e2 ==> c2[n].key != key
    ensures forall m :: s <= m <= e2 && c2[m].key == key && (forall n :: m < n <= e2 ==> c2[n].key != key) ==>
      LastKeyed(c2, s, e2, key) == Some(m)
  {
    var r := LastKeyed(c2, s, e2, key);
    if r.Some? {
      assert c2[r.value].key == key;
    }
  }

  method FindNewIndex(prev: VNode, c2: seq<VNode>, s: nat, e2: int, keyIndex: map<Value, nat>)
    returns (newIndex: Option<nat>)
    requires e2 < |c2| && IsKeyIndex(keyIndex, c2, s, e2)
    ensures newIndex == Candidate(prev, c2, s, e2, keyIndex)
  {
    newIndex := None;
    if prev.key != Null {
      if prev.key in keyIndex {
        newIndex := Some(keyIndex[prev.key]);
      }
    } else {
      var j := s;
      while j <= e2
        invariant s <= j && (j <= e2 + 1 || j == s)
        invariant forall n :: s <= n < j ==> !IsSomeVNodeType(prev, c2[n])
      {
        if IsSomeVNodeType(prev, c2[j]) {
          newIndex := Some(j);
          break;
        }
        j := j + 1;
      }
      assert newIndex == None || (newIndex == Some(j) && IsSomeVNodeType(prev, c2[j]));
    }
  }

  /** The host call made for old child `i` given how many old children were
      already patched: it is removed once `toBePatched` were patched or when
      it has no match, and patched against its match otherwise. */
  function MatchOp(c1: seq<Mounted>, i: nat, cand: Option<nat>, patched: nat, toBePatched: nat): HostOp
    requires i < |c1|
  {
    if patched >= toBePatched || cand.None? then Remove(c1[i].el) else PatchChild(i, cand.value)
  }

  /** The number of `PatchChild` calls in `ops`. */
  function Patches(ops: seq<HostOp>): nat
  {
    if ops == [] then 0 else (if ops[0].PatchChild? then 1 else 0) + Patches(ops[1..])
  }

  /** Every candidate is a new index of the range `s .. e2` whose child
      carries the old child's key. */
  ghost predicate Matches(cands: seq<Option<nat>>, c1: seq<Mounted>, c2: seq<VNode>, s: nat, e2: int)
  {
    forall k :: 0 <= k < |cands| && cands[k].Some? ==>
      k < |c1| && s <= cands[k].value <= e2 && cands[k].value < |c2| && c2[cands[k].value].key == c1[k].node.key
  }

  /** The candidate new index of every old child. The source looks one up
      only when it reaches that child and has not patched enough yet; the
      lookup is pure, so computing all of them ahead gives the same calls. */
  function Cands(c1: seq<Mounted>, c2: seq<VNode>, s: nat, e2: int): (r: seq<Option<nat>>)
    requires e2 < |c2|
    ensures |r| == |c1| && Matches(r, c1, c2, s, e2)
  {
    seq(|c1|, k requires 0 <= k < |c1| => KeyedCandidate(c1[k].node, c2, s, e2))
  }

  /** The calls made for the old children `c1[i..e1]`, one after another,
      once `patched` old children were patched: each is `MatchOp` given its
      candidate and the count of patches before it. */
  function MatchFrom(c1: seq<Mounted>, cands: seq<Option<nat>>, toBePatched: nat,
                     i: nat, e1: int, patched: nat): (ops: seq<HostOp>)
    requires e1 < |c1| == |cands|
    ensures |ops| == if i <= e1 then e1 + 1 - i else 0
    decreases e1 + 1 - i
  {
    if i > e1 then []
    else
      var op := MatchOp(c1, i, cands[i], patched, toBePatched);
      [op] + MatchFrom(c1, cands, toBePatched, i + 1, e1, patched + if op.PatchChild? then 1 else 0)
  }

  /** No more than `toBePatched` old children are patched. */
  lemma {:induction false} MatchFromPatches(c1: seq<Mounted>, cands: seq<Option<nat>>, toBePatched: nat,
                                            i: nat, e1: int, patched: nat)
    requires e1 < |c1| == |cands|
    ensures patched <= toBePatched ==>
      patched + Patches(MatchFrom(c1, cands, toBePatched, i, e1, patched)) <= toBePatched
    decreases e1 + 1 - i
  {
    if i <= e1 {
      var op := MatchOp(c1, i, cands[i], patched, toBePatched);
      var p' := patched + if op.PatchChild? then 1 else 0;
      MatchFromPatches(c1, cands, toBePatched, i + 1, e1, p');
      var rest := MatchFrom(c1, cands, toBePatched, i + 1, e1, p');
      assert ([op] + rest)[1..] == rest;
    }
  }

  /** The call for old child `i + t` patches it against a new index of
      `s .. e2`, or removes it. */
  ghost predicate PatchesOrRemoves(ops: seq<HostOp>, c1: seq<Mounted>, s: nat, e2: int, i: nat)
  {
    forall t :: 0 <= t < |ops| ==>
      if ops[t].PatchChild? then ops[t].oldIndex == i + t && s <= ops[t].newIndex <= e2
      else i + t < |c1| && ops[t] == Remove(c1[i + t].el)
  }

  /** Old child `i + t` is patched against its candidate, a new index in
      range, or removed. */
  lemma {:induction false} MatchFromShape(c1: seq<Mounted>, c2: seq<VNode>, cands: seq<Option<nat>>, s: nat, e2: nat,
                                          i: nat, e1: int, patched: nat)
    requires e1 < |c1| == |cands| && s <= e2 && Matches(cands, c1, c2, s, e2)
    ensures PatchesOrRemoves(MatchFrom(c1, cands, e2 - s + 1, i, e1, patched), c1, s, e2, i)
    decreases e1 + 1 - i
  {
    if i <= e1 {
      var op := MatchOp(c1, i, cands[i], patched, e2 - s + 1);
      var p' := patched + if op.PatchChild? then 1 else 0;
      MatchFromShape(c1, c2, cands, s, e2, i + 1, e1, p');
      var rest := MatchFrom(c1, cands, e2 - s + 1, i + 1, e1, p');
      var ops := MatchFrom(c1, cands, e2 - s + 1, i, e1, patched);
      assert ops == [op] + rest;
      forall t | 0 <= t < |ops|
        ensures if ops[t].PatchChild? then ops[t].oldIndex == i + t && s <= ops[t].newIndex <= e2
          else i + t < |c1| && ops[t] == Remove(c1[i + t].el)
      {
        if t == 0 {
          assert ops[0] == op;
        } else {
          assert ops[t] == rest[t - 1];
        }
      }
    }
  }

  /** Each patch in `ops`, made for old child `i + t`, pairs it with a new
      child carrying the same key. */
  ghost predicate PatchesKeepKeys(ops: seq<HostOp>, c1: seq<Mounted>, c2: seq<VNode>, i: nat)
  {
    forall t :: 0 <= t < |ops| && ops[t].PatchChild? ==>
      i + t < |c1| && ops[t].newIndex < |c2| && c2[ops[t].newIndex].key == c1[i + t].node.key
  }

  /** An old child is only ever patched against a new child with the same key. */
  lemma {:induction false} MatchFromKeys(c1: seq<Mounted>, c2: seq<VNode>, cands: seq<Option<nat>>, s: nat, e2: nat,
                                         i: nat, e1: int, patched: nat)
    requires e1 < |c1| == |cands| && s <= e2 && Matches(cands, c1, c2, s, e2)
    ensures PatchesKeepKeys(MatchFrom(c1, cands, e2 - s + 1, i, e1, patched), c1, c2, i)
    decreases e1 + 1 - i
  {
    if i <= e1 {
      var op := MatchOp(c1, i, cands[i], patched, e2 - s + 1);
      var p' := patched + if op.PatchChild? then 1 else 0;
      MatchFromKeys(c1, c2, cands, s, e2, i + 1, e1, p');
      var rest := MatchFrom(c1, cands, e2 - s + 1, i + 1, e1, p');
      var ops := MatchFrom(c1, cands, e2 - s + 1, i, e1, patched);
      assert ops == [op] + rest;
      forall t | 0 <= t < |ops| && ops[t].PatchChild?
        ensures i + t < |c1| && ops[t].newIndex < |c2| && c2[ops[t].newIndex].key == c1[i + t].node.key
      {
        if t > 0 {
          assert ops[t] == rest[t - 1];
          assert i + t == (i + 1) + (t - 1);
        }
      }
    }
  }

  /** `MatchFrom` for one old child followed by the rest. */
  lemma MatchFromStep(c1: seq<Mounted>, cands: seq<Option<nat>>, toBePatched: nat,
                      i: nat, e1: int, patched: nat, op: HostOp)
    requires i <= e1 < |c1| == |cands|
    requires op == MatchOp(c1, i, cands[i], patched, toBePatched)
    ensures MatchFrom(c1, cands, toBePatched, i, e1, patched)
      == [op] + MatchFrom(c1, cands, toBePatched, i + 1, e1, patched + if op.PatchChild? then 1 else 0)
  {
  }

  /** The flag `moved` after the calls `ops`, starting from the given
      `maxNewIndexSoFar` and `moved`: a patched new index not below the
      maximum raises it, one below it sets the flag. */
  predicate MovedAfter(ops: seq<HostOp>, maxNewIndexSoFar: nat, moved: bool)
  {
    if ops == [] then moved
    else MovedAfter(ops[1..], RaisedMax(ops[0], maxNewIndexSoFar),
                    moved || (ops[0].PatchChild? && ops[0].newIndex < maxNewIndexSoFar))
  }

  /** `maxNewIndexSoFar` after one more call. */
  function RaisedMax(op: HostOp, maxNewIndexSoFar: nat): nat
  {
    if op.PatchChild? && op.newIndex >= maxNewIndexSoFar then op.newIndex else maxNewIndexSoFar
  }

  /** Two old children were patched against new positions in reverse order. */
  ghost predicate Inversion(ops: seq<HostOp>)
  {
    exists a, b :: 0 <= a < b < |ops| && ops[a].PatchChild? && ops[b].PatchChild?
      && ops[b].newIndex < ops[a].newIndex
  }

  /** Some call patched a new index below `bound`. */
  ghost predicate PatchBelow(ops: seq<HostOp>, bound: nat)
  {
    exists t :: 0 <= t < |ops| && ops[t].PatchChild? && ops[t].newIndex < bound
  }

  lemma {:induction false} MovedAfterSpec(ops: seq<HostOp>, maxNewIndexSoFar: nat, moved: bool)
    ensures MovedAfter(ops, maxNewIndexSoFar, moved) <==>
      moved || Inversion(ops) || PatchBelow(ops, maxNewIndexSoFar)
  {
    if ops != [] {
      var op := ops[0];
      var m' := RaisedMax(op, maxNewIndexSoFar);
      var moved' := moved || (op.PatchChild? && op.newIndex < maxNewIndexSoFar);
      MovedAfterSpec(ops[1..], m', moved');
      MovedFromRest(ops, maxNewIndexSoFar, moved);
      MovedToRest(ops, maxNewIndexSoFar, moved);
    }
  }

  /** What the rest of the calls show, the whole list shows. */
  lemma MovedFromRest(ops: seq<HostOp>, maxNewIndexSoFar: nat, moved: bool)
    requires ops != []
    ensures var op, rest := ops[0], ops[1..];
      (moved || (op.PatchChild? && op.newIndex < maxNewIndexSoFar) || Inversion(rest)
       || PatchBelow(rest, RaisedMax(op, maxNewIndexSoFar)))
      ==> (moved || Inversion(ops) || PatchBelow(ops, maxNewIndexSoFar))
  {
    var op, rest := ops[0], ops[1..];
    if op.PatchChild? && op.newIndex < maxNewIndexSoFar {
      assert PatchBelow(ops, maxNewIndexSoFar);
    }
    if Inversion(rest) {
      var a, b :| 0 <= a < b < |rest| && rest[a].PatchChild? && rest[b].PatchChild?
        && rest[b].newIndex < rest[a].newIndex;
      assert ops[a + 1] == rest[a] && ops[b + 1] == rest[b];
    }
    if PatchBelow(rest, RaisedMax(op, maxNewIndexSoFar)) {
      var t :| 0 <= t < |rest| && rest[t].PatchChild? && rest[t].newIndex < RaisedMax(op, maxNewIndexSoFar);
      assert ops[t + 1] == rest[t];
      if !(op.PatchChild? && op.newIndex >= maxNewIndexSoFar) {
        assert PatchBelow(ops, maxNewIndexSoFar);
      } else {
        assert Inversion(ops);
      }
    }
  }

  /** What the whole list shows, the first call or the rest shows. */
  lemma MovedToRest(ops: seq<HostOp>, maxNewIndexSoFar: nat, moved: bool)
    requires ops != []
    ensures var op, rest := ops[0], ops[1..];
      (moved || Inversion(ops) || PatchBelow(ops, maxNewIndexSoFar))
      ==> (moved || (op.PatchChild? && op.newIndex < maxNewIndexSoFar) || Inversion(rest)
           || PatchBelow(rest, RaisedMax(op, maxNewIndexSoFar)))
  {
    var op, rest := ops[0], ops[1..];
    if Inversion(ops) && !Inversion(rest) {
      var a, b :| 0 <= a < b < |ops| && ops[a].PatchChild? && ops[b].PatchChild?
        && ops[b].newIndex < ops[a].newIndex;
      assert a == 0;
      assert rest[b - 1] == ops[b];
    }
    if PatchBelow(ops, maxNewIndexSoFar) {
      var t :| 0 <= t < |ops| && ops[t].PatchChild? && ops[t].newIndex < maxNewIndexSoFar;
      if t > 0 {
        assert rest[t - 1] == ops[t];
      }
    }
  }

  /** `moved` is set exactly when two old children were patched against new
      positions in reverse order. */
  lemma MovedIsInversion(ops: seq<HostOp>)
    ensures MovedAfter(ops, 0, false) <==> Inversion(ops)
  {
    MovedAfterSpec(ops, 0, false);
  }

  /** `MovedAfter` for one call followed by the rest. */
  lemma MovedAfterStep(op: HostOp, rest: seq<HostOp>, maxNewIndexSoFar: nat, moved: bool)
    ensures MovedAfter([op] + rest, maxNewIndexSoFar, moved) == MovedAfter(rest,
      RaisedMax(op, maxNewIndexSoFar), moved || (op.PatchChild? && op.newIndex < maxNewIndexSoFar))
  {
    assert ([op] + rest)[1..] == rest;
  }

  /** `m` is `newIndexToOldIndexMap` after the calls `ops`, made for the old
      children `s, s + 1, ...`: entry `k` is 0 when no old child was patched
      against new index `s + k`, and otherwise one more than the index of
      the last old child patched against it. */
  ghost predicate RecordsLastPatch(m: seq<int>, ops: seq<HostOp>, s: nat)
  {
    forall k :: 0 <= k < |m| ==> RecordsAt(m, ops, s, k)
  }

  /** Entry `k` of `m` records the last old child patched against new
      index `s + k`, or 0 when there is none. */
  ghost predicate RecordsAt(m: seq<int>, ops: seq<HostOp>, s: nat, k: nat)
    requires k < |m|
  {
    if m[k] == 0 then forall t :: 0 <= t < |ops| ==> !(ops[t].PatchChild? && ops[t].newIndex == s + k)
    else
      && s < m[k] <= s + |ops|
      && ops[m[k] - 1 - s] == PatchChild(m[k] - 1, s + k)
      && forall u :: m[k] - 1 - s < u < |ops| ==> !(ops[u].PatchChild? && ops[u].newIndex == s + k)
  }

  /** Recording one more call keeps `newIndexToOldIndexMap` faithful. */
  lemma RecordsStep(m: seq<int>, ops: seq<HostOp>, op: HostOp, s: nat)
    requires RecordsLastPatch(m, ops, s)
    requires op.PatchChild? ==> op.oldIndex == s + |ops| && s <= op.newIndex < s + |m|
    ensures RecordsLastPatch(Recorded(m, op, s), ops + [op], s)
  {
    var ops' := ops + [op];
    var m' := if op.PatchChild? then m[op.newIndex - s := op.oldIndex + 1] else m;
    forall k | 0 <= k < |m'|
      ensures RecordsAt(m', ops', s, k)
    {
      assert RecordsAt(m, ops, s, k);
      assert forall t :: 0 <= t < |ops| ==> ops'[t] == ops[t];
      if op.PatchChild? && op.newIndex == s + k {
        assert m'[k] == s + |ops| + 1;
      } else {
        assert m'[k] == m[k];
      }
    }
  }

  /** `newIndexToOldIndexMap` as created: `n` zeros. */
  function Zeros(n: nat): (r: seq<int>)
    ensures |r| == n && forall k :: 0 <= k < n ==> r[k] == 0
  {
    seq(n, _ => 0)
  }

  /** `newIndexToOldIndexMap` once the calls `ops` are recorded in `m`, the
      new range starting at `s`. */
  function Fill(m: seq<int>, ops: seq<HostOp>, s: nat): (r: seq<int>)
    ensures |r| == |m|
    decreases |ops|
  {
    if ops == [] then m else Fill(Recorded(m, ops[0], s), ops[1..], s)
  }

  /** `newIndexToOldIndexMap` once one more call is recorded. */
  function Recorded(m: seq<int>, op: HostOp, s: nat): (r: seq<int>)
    ensures |r| == |m|
  {
    if op.PatchChild? && s <= op.newIndex < s + |m| then m[op.newIndex - s := op.oldIndex + 1] else m
  }

  /** Recording calls made for old children `s + |done|, ...` keeps
      `newIndexToOldIndexMap` faithful. */
  lemma {:induction false} FillRecords(m: seq<int>, done: seq<HostOp>, ops: seq<HostOp>, s: nat)
    requires RecordsLastPatch(m, done, s)
    requires forall t :: 0 <= t < |ops| && ops[t].PatchChild? ==>
      ops[t].oldIndex == s + |done| + t && s <= ops[t].newIndex < s + |m|
    ensures RecordsLastPatch(Fill(m, ops, s), done + ops, s)
    decreases |ops|
  {
    if ops != [] {
      FillRecordsStep(m, done, ops, s);
      FillRecords(Recorded(m, ops[0], s), done + [ops[0]], ops[1..], s);
      assert done + [ops[0]] + ops[1..] == done + ops by {
        assert ops == [ops[0]] + ops[1..];
      }
      RecordsSame(Fill(Recorded(m, ops[0], s), ops[1..], s), done + [ops[0]] + ops[1..], Fill(m, ops, s), done + ops, s);
    } else {
      assert done + ops == done;
    }
  }

  /** After the first call of `ops` is recorded, the rest meet
      `FillRecords`' requirements. */
  lemma FillRecordsStep(m: seq<int>, done: seq<HostOp>, ops: seq<HostOp>, s: nat)
    requires ops != [] && RecordsLastPatch(m, done, s)
    requires forall t :: 0 <= t < |ops| && ops[t].PatchChild? ==>
      ops[t].oldIndex == s + |done| + t && s <= ops[t].newIndex < s + |m|
    ensures RecordsLastPatch(Recorded(m, ops[0], s), done + [ops[0]], s)
    ensures forall t :: 0 <= t < |ops[1..]| && ops[1..][t].PatchChild? ==>
      ops[1..][t].oldIndex == s + |done + [ops[0]]| + t && s <= ops[1..][t].newIndex < s + |Recorded(m, ops[0], s)|
  {
    RecordsStep(m, done, ops[0], s);
    PatchesAfter(done, ops, |m|, s);
  }

  /** `newIndexToOldIndexMap` filled from zeros by calls made for the old
      children `s, s + 1, ...` records the last patch of each new index. */
  lemma FillFromZeros(ops: seq<HostOp>, n: nat, s: nat)
    requires forall t :: 0 <= t < |ops| && ops[t].PatchChild? ==>
      ops[t].oldIndex == s + t && s <= ops[t].newIndex < s + n
    ensures RecordsLastPatch(Fill(Zeros(n), ops, s), ops, s)
  {
    FillRecords(Zeros(n), [], ops, s);
    RecordsSame(Fill(Zeros(n), ops, s), [] + ops, Fill(Zeros(n), ops, s), ops, s);
  }

  /** Every non-zero entry of a faithful `newIndexToOldIndexMap` is one more
      than the index of an old child the calls were made for. */
  lemma RecordsBounds(m: seq<int>, ops: seq<HostOp>, s: nat)
    requires RecordsLastPatch(m, ops, s)
    ensures forall k :: 0 <= k < |m| && m[k] != 0 ==> s < m[k] <= s + |ops|
  {
    forall k | 0 <= k < |m| && m[k] != 0
      ensures s < m[k] <= s + |ops|
    {
      assert RecordsAt(m, ops, s, k);
    }
  }

  /** `RecordsLastPatch` holds of equal arguments, however they are written. */
  lemma RecordsSame(m: seq<int>, ops: seq<HostOp>, m': seq<int>, ops': seq<HostOp>, s: nat)
    requires RecordsLastPatch(m, ops, s) && m == m' && ops == ops'
    ensures RecordsLastPatch(m', ops', s)
  {
  }

  /** The calls after the first of `ops` are made for the old children
      following it. */
  lemma PatchesAfter(done: seq<HostOp>, ops: seq<HostOp>, n: nat, s: nat)
    requires ops != []
    requires forall t :: 0 <= t < |ops| && ops[t].PatchChild? ==>
      ops[t].oldIndex == s + |done| + t && s <= ops[t].newIndex < s + n
    ensures forall t :: 0 <= t < |ops| - 1 && ops[1..][t].PatchChild? ==>
      ops[1..][t].oldIndex == s + |done + [ops[0]]| + t && s <= ops[1..][t].newIndex < s + n
  {
    forall t | 0 <= t < |ops| - 1 && ops[1..][t].PatchChild?
      ensures ops[1..][t].oldIndex == s + |done + [ops[0]]| + t && s <= ops[1..][t].newIndex < s + n
    {
      assert ops[1..][t] == ops[t + 1];
    }
  }

  /** `Fill` for one call followed by the rest. */
  lemma FillStep(m: seq<int>, op: HostOp, rest: seq<HostOp>, s: nat)
    ensures Fill(m, [op] + rest, s) == Fill(Recorded(m, op, s), rest, s)
  {
    assert ([op] + rest)[1..] == rest;
  }

  /** The host node each new child ends on after the matching pass: a
      matched new child takes over the old child's host node. */
  function PatchedEls(c1: seq<Mounted>, s: nat, m: seq<int>, els: seq<Option<El>>): (r: seq<Option<El>>)
    ensures |r| == |els|
  {
    seq(|els|, n requires 0 <= n < |els| =>
      if s <= n < s + |m| && 0 < m[n - s] <= |c1| then Some(c1[m[n - s] - 1].el) else els[n])
  }

  /** What the matching pass promises: each old child is patched against a
      new child with the same key, or removed; `newIndexToOldIndexMap`
      records for each new index the last old child patched against it;
      `moved` is set exactly when two old children were patched against new
      positions in reverse order. */
  lemma MatchMeaning(c1: seq<Mounted>, c2: seq<VNode>, cands: seq<Option<nat>>, s: nat, e1: nat, e2: nat)
    requires s <= e1 < |c1| == |cands| && s <= e2 < |c2| && Matches(cands, c1, c2, s, e2)
    ensures var ops := MatchFrom(c1, cands, e2 - s + 1, s, e1, 0);
      && |ops| == e1 - s + 1
      && Patches(ops) <= e2 - s + 1
      && (forall t :: 0 <= t < |ops| && ops[t].PatchChild? ==>
            ops[t].oldIndex == s + t && s <= ops[t].newIndex <= e2
            && c2[ops[t].newIndex].key == c1[s + t].node.key)
      && (forall t :: 0 <= t < |ops| && !ops[t].PatchChild? ==> ops[t] == Remove(c1[s + t].el))
      && RecordsLastPatch(Fill(Zeros(e2 - s + 1), ops, s), ops, s)
      && (MovedAfter(ops, 0, false) <==> Inversion(ops))
  {
    var ops := MatchFrom(c1, cands, e2 - s + 1, s, e1, 0);
    assert Patches(ops) <= e2 - s + 1 by {
      MatchFromPatches(c1, cands, e2 - s + 1, s, e1, 0);
    }
    assert forall t :: 0 <= t < |ops| && ops[t].PatchChild? ==>
      ops[t].oldIndex == s + t && s <= ops[t].newIndex <= e2
      && c2[ops[t].newIndex].key == c1[s + t].node.key by {
      MatchFromShape(c1, c2, cands, s, e2, s, e1, 0);
      MatchFromKeys(c1, c2, cands, s, e2, s, e1, 0);
    }
    assert forall t :: 0 <= t < |ops| && !ops[t].PatchChild? ==> ops[t] == Remove(c1[s + t].el) by {
      MatchFromShape(c1, c2, cands, s, e2, s, e1, 0);
    }
    assert RecordsLastPatch(Fill(Zeros(e2 - s + 1), ops, s), ops, s) by {
      MatchFromShape(c1, c2, cands, s, e2, s, e1, 0);
      FillFromZeros(ops, e2 - s + 1, s);
    }
    assert MovedAfter(ops, 0, false) <==> Inversion(ops) by {
      MovedIsInversion(ops);
    }
  }

  /** The host call for old child `i`: removed when enough were patched or
      when it has no match, else patched against its match
      (src/runtime_core/renderer.ts:166-186). */
  method MatchOne(c1: seq<Mounted>, c2: seq<VNode>, s: nat, e2: nat, keyIndex: map<Value, nat>,
                  i: nat, patched: nat)
    returns (op: HostOp)
    requires i < |c1| && s <= e2 < |c2| && IsKeyIndex(keyIndex, c2, s, e2)
    ensures op == MatchOp(c1, i, Candidate(c1[i].node, c2, s, e2, keyIndex), patched, e2 - s + 1)
    ensures op.PatchChild? ==> op.oldIndex == i && s <= op.newIndex <= e2
  {
    var prevChild := c1[i];
    if patched >= e2 - s + 1 {
      return Remove(prevChild.el);
    }
    var newIndex := FindNewIndex(prevChild.node, c2, s, e2, keyIndex);
    if newIndex.None? {
      op := Remove(prevChild.el);
    } else {
      op := PatchChild(i, newIndex.value);
    }
  }

  /** The bookkeeping after patching an old child against a new index
      (src/runtime_core/renderer.ts:188-195): `maxNewIndexSoFar` or `moved`,
      `newIndexToOldIndexMap` and the `patched` count. */
  method Record(op: HostOp, s: nat, patched: nat, maxNewIndexSoFar: nat, moved: bool, newToOld: seq<int>)
    returns (patched': nat, maxNewIndexSoFar': nat, moved': bool, newToOld': seq<int>)
    requires op.PatchChild? ==> s <= op.newIndex < s + |newToOld|
    ensures patched' == patched + if op.PatchChild? then 1 else 0
    ensures maxNewIndexSoFar' == RaisedMax(op, maxNewIndexSoFar)
    ensures moved' == (moved || (op.PatchChild? && op.newIndex < maxNewIndexSoFar))
    ensures newToOld' == Recorded(newToOld, op, s)
  {
    patched', maxNewIndexSoFar', moved', newToOld' := patched, maxNewIndexSoFar, moved, newToOld;
    if op.PatchChild? {
      var n := op.newIndex;
      if n >= maxNewIndexSoFar {
        maxNewIndexSoFar' := n;
      } else {
        moved' := true;
      }
      newToOld' := newToOld[n - s := op.oldIndex + 1];
      patched' := patched + 1;
    }
  }

  /** The counters of the matching pass: `patched`, `maxNewIndexSoFar`,
      `moved`, `newIndexToOldIndexMap`, and the calls made so far. */
  datatype Counters = Counters(patched: nat, maxNewIndexSoFar: nat, moved: bool,
                               newToOld: seq<int>, ops: seq<HostOp>)

  /** One iteration of the matching pass, for old child `i`: its call, then
      the bookkeeping after it. */
  function MatchStep(c1: seq<Mounted>, cands: seq<Option<nat>>, toBePatched: nat, s: nat,
                     i: nat, st: Counters): Counters
    requires i < |c1| == |cands|
  {
    var op := MatchOp(c1, i, cands[i], st.patched, toBePatched);
    Counters(st.patched + (if op.PatchChild? then 1 else 0), RaisedMax(op, st.maxNewIndexSoFar),
             st.moved || (op.PatchChild? && op.newIndex < st.maxNewIndexSoFar),
             Recorded(st.newToOld, op, s), st.ops + [op])
  }

  /** The iterations of the matching pass for old children `i .. e1`. */
  function MatchRun(c1: seq<Mounted>, cands: seq<Option<nat>>, toBePatched: nat, s: nat,
                    i: nat, e1: int, st: Counters): Counters
    requires e1 < |c1| == |cands|
    decreases e1 + 1 - i
  {
    if i > e1 then st else MatchRun(c1, cands, toBePatched, s, i + 1, e1, MatchStep(c1, cands, toBePatched, s, i, st))
  }

  /** Running the iterations from counters `st` appends `MatchFrom`'s calls
      to those made so far. */
  lemma {:induction false} MatchRunOps(c1: seq<Mounted>, cands: seq<Option<nat>>, toBePatched: nat, s: nat,
                                       i: nat, e1: int, st: Counters)
    requires e1 < |c1| == |cands|
    ensures MatchRun(c1, cands, toBePatched, s, i, e1, st).ops
      == st.ops + MatchFrom(c1, cands, toBePatched, i, e1, st.patched)
    decreases e1 + 1 - i
  {
    if i <= e1 {
      var op := MatchOp(c1, i, cands[i], st.patched, toBePatched);
      var st' := MatchStep(c1, cands, toBePatched, s, i, st);
      var rest := MatchFrom(c1, cands, toBePatched, i + 1, e1, st'.patched);
      MatchRunOps(c1, cands, toBePatched, s, i + 1, e1, st');
      MatchFromStep(c1, cands, toBePatched, i, e1, st.patched, op);
      assert (st.ops + [op]) + rest == st.ops + ([op] + rest);
    }
  }

  /** ... and leaves `moved` as `MovedAfter` says ... */
  lemma {:induction false} MatchRunMoved(c1: seq<Mounted>, cands: seq<Option<nat>>, toBePatched: nat, s: nat,
                                         i: nat, e1: int, st: Counters)
    requires e1 < |c1| == |cands|
    ensures MatchRun(c1, cands, toBePatched, s, i, e1, st).moved
      == MovedAfter(MatchFrom(c1, cands, toBePatched, i, e1, st.patched), st.maxNewIndexSoFar, st.moved)
    decreases e1 + 1 - i
  {
    if i <= e1 {
      var op := MatchOp(c1, i, cands[i], st.patched, toBePatched);
      var st' := MatchStep(c1, cands, toBePatched, s, i, st);
      var rest := MatchFrom(c1, cands, toBePatched, i + 1, e1, st'.patched);
      MatchRunMoved(c1, cands, toBePatched, s, i + 1, e1, st');
      MatchFromStep(c1, cands, toBePatched, i, e1, st.patched, op);
      MovedAfterStep(op, rest, st.maxNewIndexSoFar, st.moved);
    }
  }

  /** ... and `newIndexToOldIndexMap` as `Fill` says. */
  lemma {:induction false} MatchRunFill(c1: seq<Mounted>, cands: seq<Option<nat>>, toBePatched: nat, s: nat,
                                        i: nat, e1: int, st: Counters)
    requires e1 < |c1| == |cands|
    ensures MatchRun(c1, cands, toBePatched, s, i, e1, st).newToOld
      == Fill(st.newToOld, MatchFrom(c1, cands, toBePatched, i, e1, st.patched), s)
    decreases e1 + 1 - i
  {
    if i <= e1 {
      var op := MatchOp(c1, i, cands[i], st.patched, toBePatched);
      var st' := MatchStep(c1, cands, toBePatched, s, i, st);
      var rest := MatchFrom(c1, cands, toBePatched, i + 1, e1, st'.patched);
      MatchRunFill(c1, cands, toBePatched, s, i + 1, e1, st');
      MatchFromStep(c1, cands, toBePatched, i, e1, st.patched, op);
      FillStep(st.newToOld, op, rest, s);
    }
  }

  /** The iterations from the initial counters make `MatchFrom`'s calls,
      and their `moved` and `newToOld` are those of the calls. */
  lemma MatchRunStart(c1: seq<Mounted>, cands: seq<Option<nat>>, toBePatched: nat, s: nat, e1: int)
    requires e1 < |c1| == |cands|
    ensures var final := MatchRun(c1, cands, toBePatched, s, s, e1, Counters(0, 0, false, Zeros(toBePatched), []));
      && final.ops == MatchFrom(c1, cands, toBePatched, s, e1, 0)
      && final.moved == MovedAfter(final.ops, 0, false)
      && final.newToOld == Fill(Zeros(toBePatched), final.ops, s)
  {
    var start := Counters(0, 0, false, Zeros(toBePatched), []);
    var matched := MatchFrom(c1, cands, toBePatched, s, e1, 0);
    MatchRunOps(c1, cands, toBePatched, s, s, e1, start);
    assert [] + matched == matched;
    MatchRunMoved(c1, cands, toBePatched, s, s, e1, start);
    MatchRunFill(c1, cands, toBePatched, s, s, e1, start);
  }

  /** The matching pass over the old range `c1[s..e1]`
      (src/runtime_core/renderer.ts:152-197): the calls made, the filled
      `newIndexToOldIndexMap`, and `moved` (which `MovedIsInversion`
      characterises). */
  method MatchOldChildren(c1: seq<Mounted>, c2: seq<VNode>, s: nat, e1: nat, e2: nat,
                          keyIndex: map<Value, nat>, els: seq<Option<El>>)
    returns (ops: seq<HostOp>, newToOld: seq<int>, moved: bool, els': seq<Option<El>>)
    requires s <= e1 < |c1| && s <= e2 < |c2| && |els| == |c2|
    requires IsKeyIndex(keyIndex, c2, s, e2)
    ensures ops == MatchFrom(c1, Cands(c1, c2, s, e2), e2 - s + 1, s, e1, 0)
    ensures newToOld == Fill(Zeros(e2 - s + 1), ops, s)
    ensures moved == MovedAfter(ops, 0, false)
    ensures els' == PatchedEls(c1, s, newToOld, els)
  {
    var toBePatched := e2 - s + 1;
    var patched := 0;
    moved := false;
    var maxNewIndexSoFar := 0;
    newToOld := Zeros(toBePatched);
    ops := [];
    ghost var cands := Cands(c1, c2, s, e2);
    ghost var st := Counters(patched, maxNewIndexSoFar, moved, newToOld, ops);
    ghost var final := MatchRun(c1, cands, toBePatched, s, s, e1, st);
    var i := s;
    while i <= e1
      invariant s <= i <= e1 + 1 && |newToOld| == toBePatched
      invariant st == Counters(patched, maxNewIndexSoFar, moved, newToOld, ops)
      invariant MatchRun(c1, cands, toBePatched, s, i, e1, st) == final
    {
      var op := MatchOne(c1, c2, s, e2, keyIndex, i, patched);
      assert cands[i] == Candidate(c1[i].node, c2, s, e2, keyIndex);
      patched, maxNewIndexSoFar, moved, newToOld := Record(op, s, patched, maxNewIndexSoFar, moved, newToOld);
      ops := ops + [op];
      st := MatchStep(c1, cands, toBePatched, s, i, st);
      i := i + 1;
    }
    assert i == e1 + 1 && final == st;
    MatchRunStart(c1, cands, toBePatched, s, e1);
    // each patch handed the old child's host node to its new child, the
    // last patch of a new index winning, which is what `newToOld` records
    els' := PatchedEls(c1, s, newToOld, els);
  }
}
