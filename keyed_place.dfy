/** The final, back-to-front pass of the middle diff
    (src/runtime_core/renderer.ts:199-216) and `patchKeyedChildren` as a
    whole (src/runtime_core/renderer.ts:95-218). */
module KeyedPlace {
  import opened Shared
  import opened Wrappers
  import opened Host
  import opened KeyedDiff
  import LongestIncreasing

  // ---------------------------------------------------------------------
  // The final pass (src/runtime_core/renderer.ts:199-216)

  /** The host node new child `n` is on once the final pass is over: the
      children of the middle range with no old match (`newIndexToOldIndexMap`
      entry 0) are mounted fresh, every other child keeps what it had. */
  function PlacedEl(els: seq<Option<El>>, s2: nat, newToOld: seq<int>, n: nat): Option<El>
    requires n < |els|
  {
    if s2 <= n < s2 + |newToOld| && newToOld[n - s2] == 0 then Some(Created(n)) else els[n]
  }

  /** The anchor for new child `n`: the host node of `c2[n + 1]`, or none
      (append at the end) when `n` is the last child. */
  function AnchorAt(els: seq<Option<El>>, s2: nat, newToOld: seq<int>, n: nat): Option<El>
  {
    if n + 1 < |els| then PlacedEl(els, s2, newToOld, n + 1) else None
  }

  /** The test `i !== increasingNewIndexSequence[i]` fails: position `i` of
      the subsequence holds `i` itself. The subsequence is indexed by the
      position `i` of the new range, not by the cursor `j`. */
  predicate Kept(lis: seq<int>, i: nat)
  {
    i < |lis| && lis[i] == i
  }

  /** Every new child of the middle range that was matched to an old child
      is on that child's host node. */
  ghost predicate MatchedMounted(els: seq<Option<El>>, s2: nat, newToOld: seq<int>)
  {
    s2 + |newToOld| <= |els|
    && forall k :: 0 <= k < |newToOld| && newToOld[k] != 0 ==> els[s2 + k].Some?
  }

  /** The call made for position `i` of the middle range: a fresh mount
      for entry 0; otherwise, when `moved`, an `insert` unless `Kept`. */
  function PlaceOp(els: seq<Option<El>>, s2: nat, newToOld: seq<int>, moved: bool, lis: seq<int>, i: nat)
    : (ops: seq<HostOp>)
    requires MatchedMounted(els, s2, newToOld) && i < |newToOld|
    ensures |ops| <= 1
  {
    var anchor := AnchorAt(els, s2, newToOld, s2 + i);
    if newToOld[i] == 0 then [MountChild(s2 + i, anchor)]
    else if moved && !Kept(lis, i) then [Insert(els[s2 + i].value, anchor)]
    else []
  }

  /** The calls made for positions `hi - 1` down to `lo`, in that order. */
  function PlaceOps(els: seq<Option<El>>, s2: nat, newToOld: seq<int>, moved: bool, lis: seq<int>,
                    lo: nat, hi: nat): seq<HostOp>
    requires MatchedMounted(els, s2, newToOld) && hi <= |newToOld|
    decreases hi - lo
  {
    if lo >= hi then []
    else PlaceOps(els, s2, newToOld, moved, lis, lo + 1, hi) + PlaceOp(els, s2, newToOld, moved, lis, lo)
  }

  /** The number of positions in `lo .. hi - 1` where the pass decrements
      `j` instead of inserting. */
  function Skips(newToOld: seq<int>, moved: bool, lis: seq<int>, lo: nat, hi: nat): nat
    requires hi <= |newToOld|
    decreases hi - lo
  {
    if lo >= hi then 0
    else (if newToOld[lo] != 0 && moved && Kept(lis, lo) then 1 else 0) + Skips(newToOld, moved, lis, lo + 1, hi)
  }

  /** A skip at position `p` needs `p < |lis|`, so at most `|lis| - lo`
      skips happen at positions `lo` and above. */
  lemma {:induction false} SkipsBound(newToOld: seq<int>, moved: bool, lis: seq<int>, lo: nat, hi: nat)
    requires hi <= |newToOld|
    ensures Skips(newToOld, moved, lis, lo, hi) <= if lo < |lis| then |lis| - lo else 0
    decreases hi - lo
  {
    if lo < hi {
      SkipsBound(newToOld, moved, lis, lo + 1, hi);
    }
  }

  /** The final pass. `j` is kept as in the source; the test `j < 0` never
      decides anything, since `Kept(lis, i)` leaves at least `i` skips to go. */
  method PlaceMiddle(els: seq<Option<El>>, s2: nat, newToOld: seq<int>, moved: bool, lis: seq<int>)
    returns (ops: seq<HostOp>, els': seq<Option<El>>)
    requires MatchedMounted(els, s2, newToOld)
    ensures ops == PlaceOps(els, s2, newToOld, moved, lis, 0, |newToOld|)
    ensures |els'| == |els| && forall n :: 0 <= n < |els| ==> els'[n] == PlacedEl(els, s2, newToOld, n)
  {
    var toBePatched := |newToOld|;
    var l2 := |els|;
    var j := |lis| - 1;
    ops, els' := [], els;
    var i := toBePatched - 1;
    while i >= 0
      invariant -1 <= i < toBePatched
      invariant ops == PlaceOps(els, s2, newToOld, moved, lis, i + 1, toBePatched)
      invariant j == |lis| - 1 - Skips(newToOld, moved, lis, i + 1, toBePatched)
      invariant |els'| == l2
      invariant forall n :: 0 <= n < l2 ==> els'[n] == if n > s2 + i then PlacedEl(els, s2, newToOld, n) else els[n]
    {
      SkipsBound(newToOld, moved, lis, i + 1, toBePatched);
      var op;
      op, els', j := PlaceOne(els, els', s2, newToOld, moved, lis, i, j);
      ops := ops + op;
      i := i - 1;
    }
  }

  /** One step of the final pass, for position `i` of the middle range
      (the new child `s2 + i`), with `cur` the host nodes so far. */
  method PlaceOne(els: seq<Option<El>>, cur: seq<Option<El>>, s2: nat, newToOld: seq<int>, moved: bool,
                  lis: seq<int>, i: nat, j: int)
    returns (op: seq<HostOp>, cur': seq<Option<El>>, j': int)
    requires MatchedMounted(els, s2, newToOld) && i < |newToOld| && |cur| == |els|
    requires i < |lis| ==> j >= i
    requires s2 + i + 1 < |cur| ==> cur[s2 + i + 1] == PlacedEl(els, s2, newToOld, s2 + i + 1)
    requires cur[s2 + i] == els[s2 + i]
    ensures op == PlaceOp(els, s2, newToOld, moved, lis, i)
    ensures cur' == cur[s2 + i := PlacedEl(els, s2, newToOld, s2 + i)]
    ensures j' == j - if newToOld[i] != 0 && moved && Kept(lis, i) then 1 else 0
  {
    var l2 := |cur|;
    var nextIndex := i + s2;
    var anchor := if nextIndex + 1 < l2 then cur[nextIndex + 1] else None;
    op, cur', j' := [], cur, j;
    if newToOld[i] == 0 {
      op := [MountChild(nextIndex, anchor)];
      cur' := cur[nextIndex := Some(Created(nextIndex))];
    } else if moved {
      if j < 0 || i >= |lis| || i != lis[i] {
        op := [Insert(cur[nextIndex].value, anchor)];
      } else {
        j' := j - 1;
      }
    }
  }

  /** Without `moved`, the pass issues no `insert`: the matched children
      stay where they are and only the fresh ones are mounted. */
  lemma {:induction false} NoInsertUnlessMoved(els: seq<Option<El>>, s2: nat, newToOld: seq<int>, lis: seq<int>,
                                               lo: nat, hi: nat)
    requires MatchedMounted(els, s2, newToOld) && hi <= |newToOld|
    ensures forall op :: op in PlaceOps(els, s2, newToOld, false, lis, lo, hi) ==> op.MountChild?
    decreases hi - lo
  {
    if lo < hi {
      NoInsertUnlessMoved(els, s2, newToOld, lis, lo + 1, hi);
    }
  }

  /** Which calls the pass makes: a fresh child `s2 + i` (entry 0) is
      mounted before the host node of the next new child ... */
  lemma {:induction false} PlaceOpsMounts(els: seq<Option<El>>, s2: nat, newToOld: seq<int>, moved: bool,
                                          lis: seq<int>, lo: nat, hi: nat)
    requires MatchedMounted(els, s2, newToOld) && hi <= |newToOld|
    ensures forall i :: lo <= i < hi && newToOld[i] == 0 ==>
      MountChild(s2 + i, AnchorAt(els, s2, newToOld, s2 + i)) in PlaceOps(els, s2, newToOld, moved, lis, lo, hi)
    decreases hi - lo
  {
    if lo < hi {
      PlaceOpsMounts(els, s2, newToOld, moved, lis, lo + 1, hi);
      var rest := PlaceOps(els, s2, newToOld, moved, lis, lo + 1, hi);
      var here := PlaceOp(els, s2, newToOld, moved, lis, lo);
      assert PlaceOps(els, s2, newToOld, moved, lis, lo, hi) == rest + here;
    }
  }

  /** ... and a matched one is re-inserted there when `moved` holds and
      the positional test does not keep it. */
  lemma {:induction false} PlaceOpsInserts(els: seq<Option<El>>, s2: nat, newToOld: seq<int>, moved: bool,
                                           lis: seq<int>, lo: nat, hi: nat)
    requires MatchedMounted(els, s2, newToOld) && hi <= |newToOld|
    ensures forall i :: lo <= i < hi && newToOld[i] != 0 && moved && !Kept(lis, i) ==>
      Insert(els[s2 + i].value, AnchorAt(els, s2, newToOld, s2 + i)) in PlaceOps(els, s2, newToOld, moved, lis, lo, hi)
    decreases hi - lo
  {
    if lo < hi {
      PlaceOpsInserts(els, s2, newToOld, moved, lis, lo + 1, hi);
      var rest := PlaceOps(els, s2, newToOld, moved, lis, lo + 1, hi);
      var here := PlaceOp(els, s2, newToOld, moved, lis, lo);
      assert PlaceOps(els, s2, newToOld, moved, lis, lo, hi) == rest + here;
    }
  }

  /** ... and every call it makes is the call for one of the positions. */
  lemma {:induction false} PlaceOpsMembers(els: seq<Option<El>>, s2: nat, newToOld: seq<int>, moved: bool,
                                           lis: seq<int>, lo: nat, hi: nat)
    requires MatchedMounted(els, s2, newToOld) && hi <= |newToOld|
    ensures forall op :: op in PlaceOps(els, s2, newToOld, moved, lis, lo, hi) ==>
      exists i :: lo <= i < hi && op in PlaceOp(els, s2, newToOld, moved, lis, i)
    decreases hi - lo
  {
    if lo < hi {
      PlaceOpsMembers(els, s2, newToOld, moved, lis, lo + 1, hi);
      var rest := PlaceOps(els, s2, newToOld, moved, lis, lo + 1, hi);
      var here := PlaceOp(els, s2, newToOld, moved, lis, lo);
      assert PlaceOps(els, s2, newToOld, moved, lis, lo, hi) == rest + here;
      forall op | op in rest + here
        ensures exists i :: lo <= i < hi && op in PlaceOp(els, s2, newToOld, moved, lis, i)
      {
        if op in here {
          assert op in PlaceOp(els, s2, newToOld, moved, lis, lo);
        }
      }
    }
  }

  /** The number of calls the pass makes: one per fresh child, plus, when
      `moved`, one per matched child the positional test does not keep. */
  function Inserted(newToOld: seq<int>, moved: bool, lis: seq<int>, lo: nat, hi: nat): nat
    requires hi <= |newToOld|
    decreases hi - lo
  {
    if lo >= hi then 0
    else (if newToOld[lo] != 0 && moved && !Kept(lis, lo) then 1 else 0) + Inserted(newToOld, moved, lis, lo + 1, hi)
  }

  function Fresh(newToOld: seq<int>, lo: nat, hi: nat): nat
    requires hi <= |newToOld|
    decreases hi - lo
  {
    if lo >= hi then 0 else (if newToOld[lo] == 0 then 1 else 0) + Fresh(newToOld, lo + 1, hi)
  }

  lemma {:induction false} PlaceOpsCount(els: seq<Option<El>>, s2: nat, newToOld: seq<int>, moved: bool,
                                         lis: seq<int>, lo: nat, hi: nat)
    requires MatchedMounted(els, s2, newToOld) && hi <= |newToOld|
    ensures |PlaceOps(els, s2, newToOld, moved, lis, lo, hi)| == Fresh(newToOld, lo, hi) + Inserted(newToOld, moved, lis, lo, hi)
    decreases hi - lo
  {
    if lo < hi {
      PlaceOpsCount(els, s2, newToOld, moved, lis, lo + 1, hi);
    }
  }

  /** The positional test costs moves: in the reorder `[x, y, z]` to
      `[z, x, y]`, `newIndexToOldIndexMap` is `[3, 1, 2]`, whose longest
      increasing subsequence is at positions `[1, 2]`. Only `z` needs to
      move, yet since no position `i` holds `i`, all three children are
      re-inserted. */
  lemma PositionalTestMovesAll(els: seq<Option<El>>)
    requires |els| == 3 && forall n :: 0 <= n < 3 ==> els[n].Some?
    ensures var newToOld := [3, 1, 2];
      |PlaceOps(els, 0, newToOld, true, [1, 2], 0, 3)| == 3
      && forall op :: op in PlaceOps(els, 0, newToOld, true, [1, 2], 0, 3) ==> op.Insert?
  {
    var newToOld := [3, 1, 2];
    assert MatchedMounted(els, 0, newToOld);
    PlaceOpsCount(els, 0, newToOld, true, [1, 2], 0, 3);
    PlaceOpsMembers(els, 0, newToOld, true, [1, 2], 0, 3);
    forall op | op in PlaceOps(els, 0, newToOld, true, [1, 2], 0, 3)
      ensures op.Insert?
    {
      var i :| 0 <= i < 3 && op in PlaceOp(els, 0, newToOld, true, [1, 2], i);
    }
  }

  // ---------------------------------------------------------------------
  // The whole diff (src/runtime_core/renderer.ts:95-218)

  /** The number of children the prefix and suffix scans patch in place. */
  function Scanned(c1: seq<Mounted>, c2: seq<VNode>): (n: nat)
    ensures n <= |c1| && n <= |c2|
  {
    CommonPrefix(c1, c2) + CommonSuffix(c1, c2, CommonPrefix(c1, c2))
  }

  /** The calls of the scans: `PatchChild(k, k)` for the common prefix,
      then the common suffix patched from the back. */
  ghost predicate ScanOps(ops: seq<HostOp>, c1: seq<Mounted>, c2: seq<VNode>)
  {
    var i := CommonPrefix(c1, c2);
    && |ops| == Scanned(c1, c2)
    && (forall k :: 0 <= k < i ==> ops[k] == PatchChild(k, k))
    && (forall d :: i <= d < |ops| ==> ops[d] == PatchChild(|c1| - 1 - (d - i), |c2| - 1 - (d - i)))
  }

  /** The calls of the matching pass over old children `i .. e1`: each is
      removed, or patched against a new child of `i .. e2` with its key. */
  ghost predicate MatchOps(ops: seq<HostOp>, c1: seq<Mounted>, c2: seq<VNode>, i: nat, e1: nat, e2: nat)
  {
    && |ops| == e1 - i + 1 && e1 < |c1| && e2 < |c2|
    && forall t :: 0 <= t < |ops| ==>
         ops[t] == Remove(c1[i + t].el)
         || (ops[t].PatchChild? && ops[t].oldIndex == i + t && i <= ops[t].newIndex <= e2
             && c2[ops[t].newIndex].key == c1[i + t].node.key)
  }

  /** The calls of the final pass: mounts and inserts only. */
  ghost predicate PlacementOps(ops: seq<HostOp>)
  {
    forall t :: 0 <= t < |ops| ==> ops[t].MountChild? || ops[t].Insert?
  }

  /** Every new child has a host node. */
  ghost predicate AllMounted(els: seq<Option<El>>)
  {
    forall n :: 0 <= n < |els| ==> els[n].Some?
  }

  /** Every new child outside the range `i .. e2` has a host node. */
  ghost predicate MountedOutside(els: seq<Option<El>>, i: int, e2: int)
  {
    forall n :: 0 <= n < |els| && !(i <= n <= e2) ==> els[n].Some?
  }

  /** The calls of the matching pass over old children `i .. e1` against
      new children `i .. e2`. */
  function MiddleMatch(c1: seq<Mounted>, c2: seq<VNode>, i: nat, e1: nat, e2: nat): (ops: seq<HostOp>)
    requires i <= e1 < |c1| && i <= e2 < |c2|
    ensures |ops| == e1 - i + 1
  {
    MatchFrom(c1, Cands(c1, c2, i, e2), e2 - i + 1, i, e1, 0)
  }

  /** `newIndexToOldIndexMap` once the matching pass is over. */
  function MiddleMap(c1: seq<Mounted>, c2: seq<VNode>, i: nat, e1: nat, e2: nat): (m: seq<int>)
    requires i <= e1 < |c1| && i <= e2 < |c2|
    ensures |m| == e2 - i + 1
  {
    Fill(Zeros(e2 - i + 1), MiddleMatch(c1, c2, i, e1, e2), i)
  }

  /** The subsequence the final pass is given: one of the increasing runs
      `getSequence` may return when `moved`, and `[]` otherwise. */
  predicate SequenceFor(newToOld: seq<int>, moved: bool, lis: seq<int>)
  {
    if moved then LongestIncreasing.IncreasingRun(newToOld, lis) else lis == []
  }

  /** The host nodes the matching pass leaves: every matched new child of
      the middle range takes over its old child's node. */
  ghost function MiddleHanded(c1: seq<Mounted>, c2: seq<VNode>, els: seq<Option<El>>, i: nat, e1: nat, e2: nat)
    : (r: seq<Option<El>>)
    requires i <= e1 < |c1| && i <= e2 < |c2| && |els| == |c2| && MountedOutside(els, i, e2)
    ensures |r| == |els| && MatchedMounted(r, i, MiddleMap(c1, c2, i, e1, e2))
  {
    MiddleFacts(c1, c2, Cands(c1, c2, i, e2), i, e1, e2, els);
    PatchedEls(c1, i, MiddleMap(c1, c2, i, e1, e2), els)
  }

  /** The calls of the middle diff (src/runtime_core/renderer.ts:147-217)
      for old children `i .. e1` and new children `i .. e2`, `els` giving
      the host nodes the scans handed over, when `getSequence` returns
      `lis`: the matching pass's calls, then the final pass's calls for the
      map they fill and the `moved` they decide. */
  ghost function MiddleCalls(c1: seq<Mounted>, c2: seq<VNode>, els: seq<Option<El>>, i: nat, e1: nat, e2: nat,
                             lis: seq<int>): seq<HostOp>
    requires i <= e1 < |c1| && i <= e2 < |c2| && |els| == |c2| && MountedOutside(els, i, e2)
  {
    var newToOld := MiddleMap(c1, c2, i, e1, e2);
    MiddleMatch(c1, c2, i, e1, e2)
      + PlaceOps(MiddleHanded(c1, c2, els, i, e1, e2), i, newToOld, MovedAfter(MiddleMatch(c1, c2, i, e1, e2), 0, false), lis, 0, |newToOld|)
  }

  /** The host node of every new child once the middle diff is over. */
  ghost function MiddleEls(c1: seq<Mounted>, c2: seq<VNode>, els: seq<Option<El>>, i: nat, e1: nat, e2: nat)
    : (r: seq<Option<El>>)
    requires i <= e1 < |c1| && i <= e2 < |c2| && |els| == |c2| && MountedOutside(els, i, e2)
    ensures |r| == |els|
  {
    var handed := MiddleHanded(c1, c2, els, i, e1, e2);
    seq(|els|, n requires 0 <= n < |els| => PlacedEl(handed, i, MiddleMap(c1, c2, i, e1, e2), n))
  }

  /** What the middle diff does: the calls `MiddleCalls` for a subsequence
      `getSequence` may return, and the host nodes `MiddleEls`. */
  ghost predicate MiddleDiff(ops: seq<HostOp>, els': seq<Option<El>>, c1: seq<Mounted>, c2: seq<VNode>,
                             els: seq<Option<El>>, i: nat, e1: int, e2: int)
  {
    && i <= e1 < |c1| && i <= e2 < |c2| && |els| == |c2| && MountedOutside(els, i, e2)
    && els' == MiddleEls(c1, c2, els, i, e1, e2)
    && exists lis :: SequenceFor(MiddleMap(c1, c2, i, e1, e2), MovedAfter(MiddleMatch(c1, c2, i, e1, e2), 0, false), lis)
         && ops == MiddleCalls(c1, c2, els, i, e1, e2, lis)
  }

  /** The middle diff for old children `i .. e1` and new children `i .. e2`
      (src/runtime_core/renderer.ts:147-217), `els` giving the host nodes
      the scans handed over. */
  method PatchMiddle(c1: seq<Mounted>, c2: seq<VNode>, i: nat, e1: nat, e2: nat, els: seq<Option<El>>)
    returns (ops: seq<HostOp>, els': seq<Option<El>>)
    requires i <= e1 < |c1| && i <= e2 < |c2| && |els| == |c2|
    requires MountedOutside(els, i, e2)
    ensures MiddleDiff(ops, els', c1, c2, els, i, e1, e2)
  {
    var keyIndex := BuildKeyIndex(c2, i, e2);
    var ops3, newToOld, moved, els3 := MatchOldChildren(c1, c2, i, e1, e2, keyIndex, els);
    MiddleFacts(c1, c2, Cands(c1, c2, i, e2), i, e1, e2, els);
    var lis: seq<int> := [];
    if moved {
      lis := LongestIncreasing.GetSequence(newToOld);
    }
    assert SequenceFor(newToOld, moved, lis);
    var ops4;
    ops4, els' := PlaceMiddle(els3, i, newToOld, moved, lis);
    ops := ops3 + ops4;
    assert ops == MiddleCalls(c1, c2, els, i, e1, e2, lis);
    assert els' == MiddleEls(c1, c2, els, i, e1, e2);
  }

  /** What callers of the middle diff learn from it: the first `e1 - i + 1`
      calls remove or patch the old children in order, by key; the rest
      only mount and insert; every new child has a host node; and without
      `moved` nothing is inserted. */
  lemma MiddleDiffShape(ops: seq<HostOp>, els': seq<Option<El>>, c1: seq<Mounted>, c2: seq<VNode>,
                        els: seq<Option<El>>, i: nat, e1: nat, e2: nat)
    requires MiddleDiff(ops, els', c1, c2, els, i, e1, e2)
    requires MountedOutside(els, i, e2)
    ensures |ops| >= e1 - i + 1
    ensures MatchOps(ops[..e1 - i + 1], c1, c2, i, e1, e2)
    ensures PlacementOps(ops[e1 - i + 1..])
    ensures !MovedAfter(MiddleMatch(c1, c2, i, e1, e2), 0, false) ==> forall op :: op in ops[e1 - i + 1..] ==> op.MountChild?
    ensures AllMounted(els')
  {
    var matched := MiddleMatch(c1, c2, i, e1, e2);
    var newToOld := MiddleMap(c1, c2, i, e1, e2);
    var moved := MovedAfter(matched, 0, false);
    var handed := MiddleHanded(c1, c2, els, i, e1, e2);
    MiddleFacts(c1, c2, Cands(c1, c2, i, e2), i, e1, e2, els);
    var lis :| SequenceFor(newToOld, moved, lis) && ops == MiddleCalls(c1, c2, els, i, e1, e2, lis);
    var placed := PlaceOps(handed, i, newToOld, moved, lis, 0, |newToOld|);
    assert ops[..e1 - i + 1] == matched && ops[e1 - i + 1..] == placed;
    PlacementOnly(handed, i, newToOld, moved, lis);
    if !moved {
      NoInsertUnlessMoved(handed, i, newToOld, lis, 0, |newToOld|);
    }
    assert AllMounted(els') by {
      forall n | 0 <= n < |els'| ensures els'[n].Some? {
        assert els'[n] == PlacedEl(handed, i, newToOld, n);
      }
    }
  }

  /** What the final pass needs from the matching pass: its calls are
      `MatchOps`, every matched new child has a host node, and so does every
      new child outside the middle range or with an old match. */
  lemma MiddleFacts(c1: seq<Mounted>, c2: seq<VNode>, cands: seq<Option<nat>>, s: nat, e1: nat, e2: nat,
                    els: seq<Option<El>>)
    requires s <= e1 < |c1| == |cands| && s <= e2 < |c2| && |els| == |c2| && Matches(cands, c1, c2, s, e2)
    requires MountedOutside(els, s, e2)
    ensures var ops := MatchFrom(c1, cands, e2 - s + 1, s, e1, 0);
      var m := Fill(Zeros(e2 - s + 1), ops, s);
      var els' := PatchedEls(c1, s, m, els);
      && MatchOps(ops, c1, c2, s, e1, e2)
      && MatchedMounted(els', s, m)
      && forall n :: 0 <= n < |c2| ==> PlacedEl(els', s, m, n).Some?
  {
    var ops := MatchFrom(c1, cands, e2 - s + 1, s, e1, 0);
    var m := Fill(Zeros(e2 - s + 1), ops, s);
    assert MatchOps(ops, c1, c2, s, e1, e2) by {
      MatchFromShape(c1, c2, cands, s, e2, s, e1, 0);
      MatchFromKeys(c1, c2, cands, s, e2, s, e1, 0);
    }
    assert OldIndicesIn(m, s, e1 + 1) by {
      MatchFromShape(c1, c2, cands, s, e2, s, e1, 0);
      FillFromZeros(ops, e2 - s + 1, s);
      RecordsBounds(m, ops, s);
    }
    MatchedEls(c1, s, e1, m, els);
  }

  /** Every entry of `newIndexToOldIndexMap` is 0 or one more than an old
      index in `lo .. hi - 1`. */
  ghost predicate OldIndicesIn(m: seq<int>, lo: int, hi: int)
  {
    forall k :: 0 <= k < |m| && m[k] != 0 ==> lo < m[k] <= hi
  }

  /** With `newIndexToOldIndexMap` pointing at old children, every matched
      new child ends on a host node, and so does every child once the
      unmatched ones are mounted. */
  lemma MatchedEls(c1: seq<Mounted>, s: nat, e1: nat, m: seq<int>, els: seq<Option<El>>)
    requires e1 < |c1| && s + |m| <= |els| && OldIndicesIn(m, s, e1 + 1)
    requires forall n :: 0 <= n < |els| && !(s <= n < s + |m|) ==> els[n].Some?
    ensures MatchedMounted(PatchedEls(c1, s, m, els), s, m)
    ensures forall n :: 0 <= n < |els| ==> PlacedEl(PatchedEls(c1, s, m, els), s, m, n).Some?
  {
    var els' := PatchedEls(c1, s, m, els);
    forall n | 0 <= n < |els|
      ensures PlacedEl(els', s, m, n).Some?
    {
      if s <= n < s + |m| && m[n - s] != 0 {
        assert els'[n] == Some(c1[m[n - s] - 1].el);
      }
    }
  }

  /** The final pass only mounts and inserts. */
  lemma PlacementOnly(els: seq<Option<El>>, s2: nat, newToOld: seq<int>, moved: bool, lis: seq<int>)
    requires MatchedMounted(els, s2, newToOld)
    ensures PlacementOps(PlaceOps(els, s2, newToOld, moved, lis, 0, |newToOld|))
  {
    var ops := PlaceOps(els, s2, newToOld, moved, lis, 0, |newToOld|);
    PlaceOpsMembers(els, s2, newToOld, moved, lis, 0, |newToOld|);
    forall t | 0 <= t < |ops|
      ensures ops[t].MountChild? || ops[t].Insert?
    {
      var op := ops[t];
      assert op in ops;
      var k :| 0 <= k < |newToOld| && op in PlaceOp(els, s2, newToOld, moved, lis, k);
    }
  }

  /** The calls after the scans when the old children are used up: the
      remaining new children, mounted in order before the host node of the
      first child of the suffix. */
  ghost predicate AppendOps(tail: seq<HostOp>, c1: seq<Mounted>, c2: seq<VNode>)
  {
    var n, i := Scanned(c1, c2), CommonPrefix(c1, c2);
    && |tail| == |c2| - n
    && forall t :: 0 <= t < |tail| ==> i < |c1| && tail[t] == MountChild(i + t, Some(c1[i].el))
  }

  /** The host node of each new child once the scans are over: the common
      prefix and the common suffix are on their old children's host nodes,
      the children between them on none yet. */
  function ScannedEls(c1: seq<Mounted>, c2: seq<VNode>): (r: seq<Option<El>>)
    ensures |r| == |c2|
  {
    var i := CommonPrefix(c1, c2);
    var m := CommonSuffix(c1, c2, i);
    seq(|c2|, n => ScannedEl(c1, c2, i, m, n))
  }

  /** The host node new child `n` holds after the scans, if any. */
  function ScannedEl(c1: seq<Mounted>, c2: seq<VNode>, i: nat, m: nat, n: int): Option<El>
    requires i <= |c1| && i <= |c2| && m <= |c1| - i && m <= |c2| - i
  {
    if n < 0 || n >= |c2| then None
    else if n < i then Some(c1[n].el)
    else if n >= |c2| - m then Some(c1[n - |c2| + |c1|].el)
    else None
  }

  /** What `patchKeyedChildren` does once it returns: the scans' calls
      come first; then, by case, the appended mounts, the single removal,
      or the middle diff. Every new child ends with a host node, and which
      one is exact in each case: a mounted child its fresh node, a kept one
      its old child's node. */
  ghost predicate Outcome(c1: seq<Mounted>, c2: seq<VNode>, d: Diff)
  {
    var n, i := Scanned(c1, c2), CommonPrefix(c1, c2);
    var e1, e2 := |c1| - 1 - CommonSuffix(c1, c2, i), |c2| - 1 - CommonSuffix(c1, c2, i);
    var els := ScannedEls(c1, c2);
    && |d.ops| >= n && ScanOps(d.ops[..n], c1, c2)
    && |d.els| == |c2| && AllMounted(d.els)
    && (n == |c1| ==> AppendOps(d.ops[n..], c1, c2) && AppendedEls(d.els, c1, c2))
    && (n == |c2| < |c1| ==> d.ops[n..] == [Remove(c1[i].el)] && d.els == els)
    && (n < |c1| && n < |c2| ==> MiddleOf(d, c1, c2))
  }

  /** The middle case of `Outcome`: after the scans' calls, the middle
      diff of the ranges the scans leave. */
  ghost predicate MiddleOf(d: Diff, c1: seq<Mounted>, c2: seq<VNode>)
  {
    exists middle: seq<HostOp>, i: nat, e1: int, e2: int ::
      && i == CommonPrefix(c1, c2)
      && e1 == |c1| - 1 - CommonSuffix(c1, c2, i) && e2 == |c2| - 1 - CommonSuffix(c1, c2, i)
      && Scanned(c1, c2) <= |d.ops| && d.ops[Scanned(c1, c2)..] == middle
      && MiddleDiff(middle, d.els, c1, c2, ScannedEls(c1, c2), i, e1, e2)
  }

  /** The host nodes after an append: the children between the scans on
      fresh nodes, the others where the scans put them. */
  ghost predicate AppendedEls(els: seq<Option<El>>, c1: seq<Mounted>, c2: seq<VNode>)
  {
    var i := CommonPrefix(c1, c2);
    var e2 := |c2| - 1 - CommonSuffix(c1, c2, i);
    |els| == |c2| && forall k :: 0 <= k < |c2| ==> els[k] == if i <= k <= e2 then Some(Created(k)) else ScannedEls(c1, c2)[k]
  }

  /** `patchKeyedChildren(c1, c2)`, the new children starting without host
      nodes (`el` is `null`). It throws exactly when the old children are a
      matching prefix of longer new children: the append then has no
      following child and the source reads `c2[l2].el`. Otherwise its calls
      and host nodes are as `Outcome` describes. */
  method PatchKeyedChildren(c1: seq<Mounted>, c2: seq<VNode>) returns (r: Result<Diff>)
    ensures r.Err? <==> CommonPrefix(c1, c2) == |c1| < |c2|
    ensures r.Ok? ==> Outcome(c1, c2, r.value)
  {
    var i, e1, e2, scanned, els := Scan(c1, c2);
    if i > e1 {
      r := PatchAppend(c1, c2, i, e1, e2, scanned, els);
    } else if i > e2 {
      r := PatchRemoveOne(c1, c2, i, e1, e2, scanned, els);
    } else {
      r := PatchMiddleRange(c1, c2, i, e1, e2, scanned, els);
    }
  }

  /** The children left between the scans are the ones without a host
      node; the child after them is the first of the suffix. */
  lemma ScannedElsFacts(c1: seq<Mounted>, c2: seq<VNode>, i: nat, e1: int, e2: int)
    requires i == CommonPrefix(c1, c2)
    requires e1 == |c1| - 1 - CommonSuffix(c1, c2, i) && e2 == |c2| - 1 - CommonSuffix(c1, c2, i)
    ensures MountedOutside(ScannedEls(c1, c2), i, e2)
    ensures i <= e2 + 1 < |c2| ==> ScannedEls(c1, c2)[e2 + 1] == Some(c1[e1 + 1].el)
  {
    var m := CommonSuffix(c1, c2, i);
    assert MountedOutside(ScannedEls(c1, c2), i, e2) by {
      forall n | 0 <= n < |c2| && !(i <= n <= e2)
        ensures ScannedEls(c1, c2)[n].Some?
      {
        ScannedElsAt(c1, c2, i, m, n, n - |c2| + |c1|);
      }
    }
    if i <= e2 + 1 < |c2| {
      ScannedElsAt(c1, c2, i, m, e2 + 1, e1 + 1);
      assert ScannedEls(c1, c2)[e2 + 1] == Some(c1[e1 + 1].el);
    }
  }

  /** One entry of `ScannedEls`: new child `n` of the suffix sits on old
      child `k`'s node. */
  lemma ScannedElsAt(c1: seq<Mounted>, c2: seq<VNode>, i: nat, m: nat, n: nat, k: int)
    requires i == CommonPrefix(c1, c2) && m == CommonSuffix(c1, c2, i) && n < |c2| && k == n - |c2| + |c1|
    ensures ScannedEls(c1, c2)[n] == if n < i then Some(c1[n].el)
                                     else if n >= |c2| - m then Some(c1[k].el)
                                     else None
  {
    assert ScannedEls(c1, c2)[n] == ScannedEl(c1, c2, i, m, n);
  }

  /** The case where the scans used up the new children
      (src/runtime_core/renderer.ts:142-146): an `if`, not a loop, so a
      single old child is removed. */
  method PatchRemoveOne(c1: seq<Mounted>, c2: seq<VNode>, i: nat, e1: int, e2: int,
                        scanned: seq<HostOp>, els: seq<Option<El>>) returns (r: Result<Diff>)
    requires i == CommonPrefix(c1, c2)
    requires e1 == |c1| - 1 - CommonSuffix(c1, c2, i) && e2 == |c2| - 1 - CommonSuffix(c1, c2, i)
    requires i <= e1 && i - 1 == e2
    requires ScanOps(scanned, c1, c2) && els == ScannedEls(c1, c2)
    ensures r.Ok? && Outcome(c1, c2, r.value)
  {
    r := Ok(Diff(scanned + [Remove(c1[i].el)], els));
    RemoveOutcome(c1, c2, scanned);
  }

  /** The case where both ranges are left (src/runtime_core/renderer.ts:147-217). */
  method PatchMiddleRange(c1: seq<Mounted>, c2: seq<VNode>, i: nat, e1: int, e2: int,
                          scanned: seq<HostOp>, els: seq<Option<El>>) returns (r: Result<Diff>)
    requires i == CommonPrefix(c1, c2)
    requires e1 == |c1| - 1 - CommonSuffix(c1, c2, i) && e2 == |c2| - 1 - CommonSuffix(c1, c2, i)
    requires i <= e1 && i <= e2
    requires ScanOps(scanned, c1, c2) && els == ScannedEls(c1, c2)
    ensures r.Ok? && Outcome(c1, c2, r.value)
  {
    assert e1 < |c1| && e2 < |c2| by {
      assert CommonSuffix(c1, c2, i) >= 0;
    }
    ScannedElsFacts(c1, c2, i, e1, e2);
    var ops3, els3 := PatchMiddle(c1, c2, i, e1, e2, els);
    r := Ok(Diff(scanned + ops3, els3));
    MiddleOutcome(c1, c2, i, e1, e2, scanned, ops3, els3);
  }

  /** The case where the scans used up the old children
      (src/runtime_core/renderer.ts:131-141). */
  method PatchAppend(c1: seq<Mounted>, c2: seq<VNode>, i: nat, e1: int, e2: int,
                     scanned: seq<HostOp>, els: seq<Option<El>>) returns (r: Result<Diff>)
    requires i == CommonPrefix(c1, c2)
    requires e1 == |c1| - 1 - CommonSuffix(c1, c2, i) && e2 == |c2| - 1 - CommonSuffix(c1, c2, i)
    requires i - 1 == e1 && i - 1 <= e2
    requires ScanOps(scanned, c1, c2) && els == ScannedEls(c1, c2)
    ensures r.Err? <==> i == |c1| < |c2|
    ensures r.Ok? ==> Outcome(c1, c2, r.value)
  {
    ScannedElsFacts(c1, c2, i, e1, e2);
    if i <= e2 {
      var rest := MountRemaining(els, i, e2);
      if rest.Err? {
        return Err(rest.error);
      }
      r := Ok(Diff(scanned + rest.value.ops, rest.value.els));
      assert AppendOps(rest.value.ops, c1, c2) by {
        assert Scanned(c1, c2) == |c1| && e1 + 1 == i;
      }
      AppendOutcome(c1, c2, scanned, rest.value);
    } else {
      r := Ok(Diff(scanned, els));
      AppendOutcome(c1, c2, scanned, Diff([], els));
    }
  }

  lemma AppendOutcome(c1: seq<Mounted>, c2: seq<VNode>, scanned: seq<HostOp>, rest: Diff)
    requires Scanned(c1, c2) == |c1| && ScanOps(scanned, c1, c2)
    requires AppendOps(rest.ops, c1, c2)
    requires AppendedEls(rest.els, c1, c2)
    ensures Outcome(c1, c2, Diff(scanned + rest.ops, rest.els))
  {
    var ops := scanned + rest.ops;
    assert ops[..|scanned|] == scanned && ops[|scanned|..] == rest.ops;
    var i := CommonPrefix(c1, c2);
    ScannedElsFacts(c1, c2, i, |c1| - 1 - CommonSuffix(c1, c2, i), |c2| - 1 - CommonSuffix(c1, c2, i));
  }

  lemma RemoveOutcome(c1: seq<Mounted>, c2: seq<VNode>, scanned: seq<HostOp>)
    requires Scanned(c1, c2) == |c2| < |c1| && ScanOps(scanned, c1, c2)
    ensures Outcome(c1, c2, Diff(scanned + [Remove(c1[CommonPrefix(c1, c2)].el)], ScannedEls(c1, c2)))
  {
    var ops := scanned + [Remove(c1[CommonPrefix(c1, c2)].el)];
    assert ops[..|scanned|] == scanned && ops[|scanned|..] == [Remove(c1[CommonPrefix(c1, c2)].el)];
    var i := CommonPrefix(c1, c2);
    ScannedElsFacts(c1, c2, i, |c1| - 1 - CommonSuffix(c1, c2, i), |c2| - 1 - CommonSuffix(c1, c2, i));
  }

  lemma MiddleOutcome(c1: seq<Mounted>, c2: seq<VNode>, i: nat, e1: nat, e2: nat, scanned: seq<HostOp>,
                      ops3: seq<HostOp>, els: seq<Option<El>>)
    requires i == CommonPrefix(c1, c2)
    requires e1 == |c1| - 1 - CommonSuffix(c1, c2, i) && e2 == |c2| - 1 - CommonSuffix(c1, c2, i)
    requires ScanOps(scanned, c1, c2)
    requires MiddleDiff(ops3, els, c1, c2, ScannedEls(c1, c2), i, e1, e2)
    ensures Outcome(c1, c2, Diff(scanned + ops3, els))
  {
    ScannedElsFacts(c1, c2, i, e1, e2);
    MiddleDiffShape(ops3, els, c1, c2, ScannedEls(c1, c2), i, e1, e2);
    var ops := scanned + ops3;
    var n := Scanned(c1, c2);
    var m := CommonSuffix(c1, c2, i);
    assert n == i + m && ops[..n] == scanned && ops[n..] == ops3;
    assert MiddleOf(Diff(ops, els), c1, c2);
  }

  /** The prefix and suffix scans (src/runtime_core/renderer.ts:96-130):
      `i` is where the prefix stops, `e1` and `e2` where the suffix stops,
      and the scanned new children sit on the old children's host nodes. */
  method Scan(c1: seq<Mounted>, c2: seq<VNode>)
    returns (i: nat, e1: int, e2: int, ops: seq<HostOp>, els: seq<Option<El>>)
    ensures i == CommonPrefix(c1, c2)
    ensures e1 == |c1| - 1 - CommonSuffix(c1, c2, i) && e2 == |c2| - 1 - CommonSuffix(c1, c2, i)
    ensures i - 1 <= e1 && i - 1 <= e2
    ensures ScanOps(ops, c1, c2)
    ensures els == ScannedEls(c1, c2)
  {
    var ops1, ops2, els1;
    i, ops1, els1 := ScanPrefix(c1, c2, Unmounted(|c2|));
    e1, e2, ops2, els := ScanSuffix(c1, c2, i, els1);
    ops := ops1 + ops2;
    ScanJoin(c1, c2, ops1, ops2);
    assert els == ScannedEls(c1, c2) by {
      var scanned := ScannedEls(c1, c2);
      var m := CommonSuffix(c1, c2, i);
      forall n | 0 <= n < |c2|
        ensures els[n] == scanned[n]
      {
        ScannedElsAt(c1, c2, i, m, n, n - |c2| + |c1|);
        if n < i {
          assert n <= e2 && els[n] == els1[n] == Some(c1[n].el);
        } else if n > e2 {
          assert n >= |c2| - m && els[n] == Some(c1[n - |c2| + |c1|].el);
        } else {
          assert n < |c2| - m && els[n] == els1[n] == Unmounted(|c2|)[n] == None;
        }
      }
    }
  }

  /** `n` new children, none of them on a host node yet. */
  function Unmounted(n: nat): (r: seq<Option<El>>)
    ensures |r| == n && forall k :: 0 <= k < n ==> r[k].None?
  {
    if n == 0 then [] else Unmounted(n - 1) + [None]
  }

  /** The prefix scan's calls followed by the suffix scan's are `ScanOps`. */
  lemma ScanJoin(c1: seq<Mounted>, c2: seq<VNode>, ops1: seq<HostOp>, ops2: seq<HostOp>)
    requires |ops1| == CommonPrefix(c1, c2) && forall k :: 0 <= k < |ops1| ==> ops1[k] == PatchChild(k, k)
    requires |ops2| == CommonSuffix(c1, c2, |ops1|)
    requires forall d :: 0 <= d < |ops2| ==> ops2[d] == PatchChild(|c1| - 1 - d, |c2| - 1 - d)
    ensures ScanOps(ops1 + ops2, c1, c2)
  {
    var ops := ops1 + ops2;
    forall d | |ops1| <= d < |ops|
      ensures ops[d] == PatchChild(|c1| - 1 - (d - |ops1|), |c2| - 1 - (d - |ops1|))
    {
      assert ops[d] == ops2[d - |ops1|];
    }
  }

  // ---------------------------------------------------------------------
  // Scenarios

  /** A keyed `li` child and the same child mounted on host node `id`. */
  function Li(key: int): VNode { VNode(Str("li"), Num(key)) }

  function MountedLi(key: int, id: nat): Mounted { Mounted(Li(key), HostNode(id)) }

  /** Appending `c` to `[a, b]`: the old children are a prefix of the new
      ones, nothing follows the appended child, and the diff throws instead
      of mounting `c` at the end. */
  method AppendAtEnd() returns (r: Result<Diff>)
    ensures r.Err?
  {
    r := PatchKeyedChildren([MountedLi(1, 0), MountedLi(2, 1)], [Li(1), Li(2), Li(3)]);
    assert CommonPrefix([MountedLi(1, 0), MountedLi(2, 1)], [Li(1), Li(2), Li(3)]) == 2;
  }

  /** Appending in front of a kept child works: `[a, c]` to `[a, b, c]`
      patches `a` and `c` and mounts `b` before `c`'s host node. */
  method InsertBeforeLast() returns (r: Result<Diff>)
    ensures r.Ok? && r.value.ops == [PatchChild(0, 0), PatchChild(1, 2), MountChild(1, Some(HostNode(1)))]
  {
    var c1, c2 := [MountedLi(1, 0), MountedLi(3, 1)], [Li(1), Li(2), Li(3)];
    r := PatchKeyedChildren(c1, c2);
    assert CommonPrefix(c1, c2) == 1;
    assert CommonSuffix(c1, c2, 1) == 1;
    assert r.value.ops[..2] == [PatchChild(0, 0), PatchChild(1, 2)];
    assert r.value.ops[2..] == [MountChild(1, Some(HostNode(1)))];
    assert r.value.ops == r.value.ops[..2] + r.value.ops[2..];
  }

  /** Removing `b` from `[a, b, c]`: `a` and `c` are patched in place and
      `b`'s host node is removed. */
  method RemoveMiddle() returns (r: Result<Diff>)
    ensures r.Ok? && r.value.ops == [PatchChild(0, 0), PatchChild(2, 1), Remove(HostNode(1))]
  {
    var c1, c2 := [MountedLi(1, 0), MountedLi(2, 1), MountedLi(3, 2)], [Li(1), Li(3)];
    r := PatchKeyedChildren(c1, c2);
    assert CommonPrefix(c1, c2) == 1;
    assert CommonSuffix(c1, c2, 1) == 1;
    assert r.value.ops[..2] == [PatchChild(0, 0), PatchChild(2, 1)];
    assert r.value.ops == r.value.ops[..2] + r.value.ops[2..];
  }

  /** Shrinking `[a, b, c]` to `[a]`: only `b` is removed, and `c`'s host
      node stays in the container. */
  method ShrinkToFirst() returns (r: Result<Diff>)
    ensures r.Ok? && r.value.ops == [PatchChild(0, 0), Remove(HostNode(1))]
  {
    var c1, c2 := [MountedLi(1, 0), MountedLi(2, 1), MountedLi(3, 2)], [Li(1)];
    r := PatchKeyedChildren(c1, c2);
    assert CommonPrefix(c1, c2) == 1;
    assert CommonSuffix(c1, c2, 1) == 0;
    assert r.value.ops[..1] == [PatchChild(0, 0)];
    assert r.value.ops == r.value.ops[..1] + r.value.ops[1..];
  }

  /** The old children `[x, y, z]` (keys 1, 2, 3 on host nodes 0, 1, 2)
      and the new children `[z, x, y]`. */
  function RotOld(): seq<Mounted> { [MountedLi(1, 0), MountedLi(2, 1), MountedLi(3, 2)] }

  function RotNew(): seq<VNode> { [Li(3), Li(1), Li(2)] }

  /** The matching pass of `[x, y, z]` to `[z, x, y]` patches each old
      child against its new position, fills the map `[3, 1, 2]` and sets
      `moved`. */
  lemma RotateMatch()
    ensures MiddleMatch(RotOld(), RotNew(), 0, 2, 2) == [PatchChild(0, 1), PatchChild(1, 2), PatchChild(2, 0)]
    ensures MiddleMap(RotOld(), RotNew(), 0, 2, 2) == [3, 1, 2]
    ensures MovedAfter(MiddleMatch(RotOld(), RotNew(), 0, 2, 2), 0, false)
  {
    var c1, c2 := RotOld(), RotNew();
    assert LastKeyed(c2, 0, 2, Num(1)) == Some(1) by {
      assert LastKeyed(c2, 0, 1, Num(1)) == Some(1);
    }
    assert LastKeyed(c2, 0, 2, Num(2)) == Some(2);
    assert LastKeyed(c2, 0, 2, Num(3)) == Some(0) by {
      assert LastKeyed(c2, 0, 0, Num(3)) == Some(0);
      assert LastKeyed(c2, 0, 1, Num(3)) == Some(0);
    }
    var cands := Cands(c1, c2, 0, 2);
    assert cands == [Some(1), Some(2), Some(0)];
    var ops := [PatchChild(0, 1), PatchChild(1, 2), PatchChild(2, 0)];
    assert MatchFrom(c1, cands, 3, 2, 2, 2) == [PatchChild(2, 0)];
    assert MatchFrom(c1, cands, 3, 1, 2, 1) == ops[1..];
    assert MatchFrom(c1, cands, 3, 0, 2, 0) == ops;
    assert Fill(Zeros(3), ops, 0) == [3, 1, 2] by {
      assert Zeros(3) == [0, 0, 0];
      assert ops[1..][1..][1..] == [];
    }
    assert MovedAfter(ops, 0, false) by {
      assert ops[1..][1..][1..] == [];
    }
  }

  /** `getSequence([3, 1, 2])` may keep position 0 at most: no increasing
      run through the values 3, 1, 2 holds position 1 or 2 at its own index. */
  lemma RotateSequence(lis: seq<int>)
    requires LongestIncreasing.IncreasingRun([3, 1, 2], lis)
    ensures !Kept(lis, 1) && !Kept(lis, 2)
  {
    var arr := [3, 1, 2];
    assert |lis| >= 2 ==> lis[0] < lis[1] && arr[lis[0]] < arr[lis[1]];
  }

  /** Rotating `[x, y, z]` to `[z, x, y]` goes through the middle diff:
      each old child is patched against its new position, every new child
      keeps its old host node, and `z` and `x`, then `y` unless
      `getSequence` keeps position 0, are moved with `insert`. Whichever
      subsequence it returns, the container ends up holding the nodes of
      `z`, `x`, `y` in that order. */
  method RotateRight() returns (r: Result<Diff>)
    ensures r.Ok? && |r.value.ops| >= 3
    ensures r.value.ops[..3] == [PatchChild(0, 1), PatchChild(1, 2), PatchChild(2, 0)]
    ensures r.value.ops[3..] == RotateMoves(HostNode(0), HostNode(1), HostNode(2), false)
         || r.value.ops[3..] == RotateMoves(HostNode(0), HostNode(1), HostNode(2), true)
    ensures r.value.els == [Some(HostNode(2)), Some(HostNode(0)), Some(HostNode(1))]
    ensures Arrange([HostNode(0), HostNode(1), HostNode(2)], r.value.ops)
         == Some([HostNode(2), HostNode(0), HostNode(1)])
  {
    var c1, c2 := RotOld(), RotNew();
    r := PatchKeyedChildren(c1, c2);
    assert CommonPrefix(c1, c2) == 0;
    assert CommonSuffix(c1, c2, 0) == 0;
    RotateOutcome(r.value);
    RotateDiff(r.value.ops, r.value.els);
    if r.value.ops[3..] == RotateMoves(HostNode(0), HostNode(1), HostNode(2), false) {
      RotateArrange(r.value.ops[3..], false);
    } else {
      RotateArrange(r.value.ops[3..], true);
    }
    assert r.value.ops == r.value.ops[..3] + r.value.ops[3..];
  }

  /** For the rotation, `Outcome` is the middle diff of the whole lists. */
  lemma RotateOutcome(d: Diff)
    requires Outcome(RotOld(), RotNew(), d)
    requires CommonPrefix(RotOld(), RotNew()) == 0 && CommonSuffix(RotOld(), RotNew(), 0) == 0
    ensures MiddleDiff(d.ops, d.els, RotOld(), RotNew(), [None, None, None], 0, 2, 2)
  {
    UnscannedMiddle(RotOld(), RotNew(), d);
    UnmountedThree(|RotNew()|);
    MiddleDiffSame(d.ops, d.ops, d.els, RotOld(), RotNew(), Unmounted(|RotNew()|), [None, None, None],
                   0, 0, |RotOld()| - 1, 2, |RotNew()| - 1, 2);
  }

  /** Three new children, none of them mounted. */
  lemma UnmountedThree(n: nat)
    requires n == 3
    ensures Unmounted(n) == [None, None, None]
  {
    var u := Unmounted(n);
    assert u[0].None? && u[1].None? && u[2].None?;
  }

  /** When neither scan matches anything, `Outcome` of two non-empty lists
      is the middle diff of the whole lists, with no new child mounted yet. */
  lemma UnscannedMiddle(c1: seq<Mounted>, c2: seq<VNode>, d: Diff)
    requires Outcome(c1, c2, d)
    requires 0 < |c1| && 0 < |c2|
    requires CommonPrefix(c1, c2) == 0 && CommonSuffix(c1, c2, 0) == 0
    ensures MiddleDiff(d.ops, d.els, c1, c2, Unmounted(|c2|), 0, |c1| - 1, |c2| - 1)
  {
    Unscanned(c1, c2);
    assert MiddleOf(d, c1, c2);
    MiddleOfElim(d, c1, c2, 0, |c1| - 1, |c2| - 1);
    assert d.ops[Scanned(c1, c2)..] == d.ops;
    MiddleDiffSame(d.ops[Scanned(c1, c2)..], d.ops, d.els, c1, c2, ScannedEls(c1, c2), Unmounted(|c2|),
                   0, 0, |c1| - 1, |c1| - 1, |c2| - 1, |c2| - 1);
  }

  /** When neither scan matches anything, no new child holds a node yet. */
  lemma Unscanned(c1: seq<Mounted>, c2: seq<VNode>)
    requires CommonPrefix(c1, c2) == 0 && CommonSuffix(c1, c2, 0) == 0
    ensures Scanned(c1, c2) == 0 && ScannedEls(c1, c2) == Unmounted(|c2|)
  {
    forall n | 0 <= n < |c2|
      ensures ScannedEls(c1, c2)[n] == Unmounted(|c2|)[n]
    {
      ScannedElsAt(c1, c2, 0, 0, n, n - |c2| + |c1|);
    }
  }

  /** The middle case of `Outcome`, for the bounds the scans leave. */
  lemma MiddleOfElim(d: Diff, c1: seq<Mounted>, c2: seq<VNode>, i: nat, e1: int, e2: int)
    requires MiddleOf(d, c1, c2)
    requires i == CommonPrefix(c1, c2)
    requires e1 == |c1| - 1 - CommonSuffix(c1, c2, i) && e2 == |c2| - 1 - CommonSuffix(c1, c2, i)
    ensures Scanned(c1, c2) <= |d.ops|
    ensures MiddleDiff(d.ops[Scanned(c1, c2)..], d.els, c1, c2, ScannedEls(c1, c2), i, e1, e2)
  {
    var middle, i', e1', e2' :| && i' == CommonPrefix(c1, c2)
      && e1' == |c1| - 1 - CommonSuffix(c1, c2, i') && e2' == |c2| - 1 - CommonSuffix(c1, c2, i')
      && Scanned(c1, c2) <= |d.ops| && d.ops[Scanned(c1, c2)..] == middle
      && MiddleDiff(middle, d.els, c1, c2, ScannedEls(c1, c2), i', e1', e2');
    MiddleDiffSame(middle, d.ops[Scanned(c1, c2)..], d.els, c1, c2, ScannedEls(c1, c2), ScannedEls(c1, c2),
                   i', i, e1', e1, e2', e2);
  }

  /** `MiddleDiff` holds of equal arguments, however they are written. */
  lemma MiddleDiffSame(ops: seq<HostOp>, ops': seq<HostOp>, els': seq<Option<El>>, c1: seq<Mounted>, c2: seq<VNode>,
                       els: seq<Option<El>>, els2: seq<Option<El>>, i: nat, i': nat, e1: int, e1': int, e2: int, e2': int)
    requires MiddleDiff(ops, els', c1, c2, els, i, e1, e2)
    requires ops == ops' && els == els2 && i == i' && e1 == e1' && e2 == e2'
    ensures MiddleDiff(ops', els', c1, c2, els2, i', e1', e2')
  {
  }

  /** The rotation's middle diff: the matching pass's three patches, then
      the inserts, and every new child on its old child's node. */
  lemma RotateDiff(ops: seq<HostOp>, els: seq<Option<El>>)
    requires MiddleDiff(ops, els, RotOld(), RotNew(), [None, None, None], 0, 2, 2)
    ensures |ops| >= 3 && ops[..3] == [PatchChild(0, 1), PatchChild(1, 2), PatchChild(2, 0)]
    ensures ops[3..] == RotateMoves(HostNode(0), HostNode(1), HostNode(2), false) || ops[3..] == RotateMoves(HostNode(0), HostNode(1), HostNode(2), true)
    ensures els == [Some(HostNode(2)), Some(HostNode(0)), Some(HostNode(1))]
  {
    RotateOps(ops, els);
    RotateHanded();
    assert els == MiddleEls(RotOld(), RotNew(), [None, None, None], 0, 2, 2);
  }

  /** Each new child of the rotation is handed its old child's host node. */
  lemma RotateHanded()
    ensures MiddleHanded(RotOld(), RotNew(), [None, None, None], 0, 2, 2)
         == [Some(HostNode(2)), Some(HostNode(0)), Some(HostNode(1))]
  {
    RotateMatch();
    assert MiddleHanded(RotOld(), RotNew(), [None, None, None], 0, 2, 2)
        == PatchedEls(RotOld(), 0, [3, 1, 2], [None, None, None]);
  }

  /** The rotation's middle calls: three patches, then the inserts. */
  lemma RotateOps(ops: seq<HostOp>, els: seq<Option<El>>)
    requires MiddleDiff(ops, els, RotOld(), RotNew(), [None, None, None], 0, 2, 2)
    ensures |ops| >= 3 && ops[..3] == [PatchChild(0, 1), PatchChild(1, 2), PatchChild(2, 0)]
    ensures ops[3..] == RotateMoves(HostNode(0), HostNode(1), HostNode(2), false)
         || ops[3..] == RotateMoves(HostNode(0), HostNode(1), HostNode(2), true)
  {
    RotateMatch();
    RotateHanded();
    var lis :| SequenceFor(MiddleMap(RotOld(), RotNew(), 0, 2, 2), MovedAfter(MiddleMatch(RotOld(), RotNew(), 0, 2, 2), 0, false), lis)
      && ops == MiddleCalls(RotOld(), RotNew(), [None, None, None], 0, 2, 2, lis);
    RotatePlace(lis);
    assert ops == [PatchChild(0, 1), PatchChild(1, 2), PatchChild(2, 0)]
                  + RotateMoves(HostNode(0), HostNode(1), HostNode(2), !Kept(lis, 0));
  }

  /** The final pass of the rotation: `y` goes last, `x` before it, and `z`
      before `x` unless position 0 is kept. */
  lemma RotatePlace(lis: seq<int>)
    requires LongestIncreasing.IncreasingRun([3, 1, 2], lis)
    ensures MatchedMounted([Some(HostNode(2)), Some(HostNode(0)), Some(HostNode(1))], 0, [3, 1, 2])
    ensures PlaceOps([Some(HostNode(2)), Some(HostNode(0)), Some(HostNode(1))], 0, [3, 1, 2], true, lis, 0, 3)
         == RotateMoves(HostNode(0), HostNode(1), HostNode(2), !Kept(lis, 0))
  {
    var handed, newToOld := [Some(HostNode(2)), Some(HostNode(0)), Some(HostNode(1))], [3, 1, 2];
    assert MatchedMounted(handed, 0, newToOld);
    RotateSequence(lis);
    assert PlaceOp(handed, 0, newToOld, true, lis, 2) == [Insert(HostNode(1), None)];
    assert PlaceOp(handed, 0, newToOld, true, lis, 1) == [Insert(HostNode(0), Some(HostNode(1)))];
    assert PlaceOps(handed, 0, newToOld, true, lis, 3, 3) == [];
  }

  /** The container after the rotation's calls, with or without the last
      insert: the nodes of `z`, `x`, `y` in that order. */
  lemma RotateArrange(moves: seq<HostOp>, moveZ: bool)
    requires moves == RotateMoves(HostNode(0), HostNode(1), HostNode(2), moveZ)
    ensures Arrange([HostNode(0), HostNode(1), HostNode(2)],
                    [PatchChild(0, 1), PatchChild(1, 2), PatchChild(2, 0)] + moves)
         == Some([HostNode(2), HostNode(0), HostNode(1)])
  {
    var x, y, z := HostNode(0), HostNode(1), HostNode(2);
    var ops := [PatchChild(0, 1), PatchChild(1, 2), PatchChild(2, 0)] + moves;
    assert ops[1..] == [PatchChild(1, 2), PatchChild(2, 0)] + moves;
    assert ops[1..][1..] == [PatchChild(2, 0)] + moves;
    assert ops[1..][1..][1..] == moves;
    assert Arrange([x, y, z], moves) == Some([z, x, y]) by {
      RotateMovesArrange(x, y, z, moveZ);
    }
    assert Arrange([x, y, z], ops) == Arrange([x, y, z], ops[1..]);
    assert Arrange([x, y, z], ops[1..]) == Arrange([x, y, z], ops[1..][1..]);
    assert Arrange([x, y, z], ops[1..][1..]) == Arrange([x, y, z], ops[1..][1..][1..]);
  }

  /** The rotation's inserts for nodes `x`, `y`, `z`: `y` last, `x` before
      `y`, and, unless position 0 is kept, `z` before `x`. */
  function RotateMoves(x: El, y: El, z: El, moveZ: bool): seq<HostOp>
  {
    [Insert(y, None)] + ([Insert(x, Some(y))] + (if moveZ then [Insert(z, Some(x))] + [] else []))
  }

  /** The inserts alone take three distinct nodes `x`, `y`, `z` to `z`, `x`, `y`. */
  lemma RotateMovesArrange(x: El, y: El, z: El, moveZ: bool)
    requires x != y && y != z && x != z
    ensures Arrange([x, y, z], RotateMoves(x, y, z, moveZ)) == Some([z, x, y])
  {
    var rest: seq<HostOp> := if moveZ then [Insert(z, Some(x))] + [] else [];
    RotateInserts(x, y, z);
    assert Arrange([z, x, y], rest) == Some([z, x, y]) by {
      if moveZ {
        ArrangeInsert([z, x, y], Insert(z, Some(x)), [], [z, x, y]);
      }
    }
    ArrangeInsert([x, z, y], Insert(x, Some(y)), rest, [z, x, y]);
    ArrangeInsert([x, y, z], Insert(y, None), [Insert(x, Some(y))] + rest, [x, z, y]);
  }

  /** One insert at the head of the calls moves its node, then the rest follow. */
  lemma ArrangeInsert(dom: seq<El>, op: HostOp, rest: seq<HostOp>, dom': seq<El>)
    requires op.Insert? && InsertBefore(dom, op.el, op.anchor) == Some(dom')
    ensures Arrange(dom, [op] + rest) == Arrange(dom', rest)
  {
    assert ([op] + rest)[0] == op && ([op] + rest)[1..] == rest;
  }

  /** The three inserts of the rotation, one at a time: `y` goes last,
      `x` before `y`, and `z` before `x`, where it already is. */
  lemma RotateInserts(x: El, y: El, z: El)
    requires x != y && y != z && x != z
    ensures InsertBefore([x, y, z], y, None) == Some([x, z, y])
    ensures InsertBefore([x, z, y], x, Some(y)) == Some([z, x, y])
    ensures InsertBefore([z, x, y], z, Some(x)) == Some([z, x, y])
  {
    InsertLast(x, y, z);
    InsertAhead(x, z, y);
    InsertInPlace(z, x, y);
  }

  /** Inserting the middle node of three with no anchor moves it last. */
  lemma InsertLast(a: El, b: El, c: El)
    requires a != b && b != c && a != c
    ensures InsertBefore([a, b, c], b, None) == Some([a, c, b])
  {
    WithoutThree(a, b, c, b);
    assert [a, c] + [b] == [a, c, b];
  }

  /** Inserting the first node of three before the last moves it between
      the other two. */
  lemma InsertAhead(a: El, b: El, c: El)
    requires a != b && b != c && a != c
    ensures InsertBefore([a, b, c], a, Some(c)) == Some([b, a, c])
  {
    WithoutThree(a, b, c, a);
    assert IndexOf([b, c], c) == 1 by { assert [b, c][1..] == [c]; }
    assert [b, c][..1] + [a] + [b, c][1..] == [b, a, c];
  }

  /** Inserting the first node of three before the second leaves them as they are. */
  lemma InsertInPlace(a: El, b: El, c: El)
    requires a != b && b != c && a != c
    ensures InsertBefore([a, b, c], a, Some(b)) == Some([a, b, c])
  {
    WithoutThree(a, b, c, a);
    assert IndexOf([b, c], b) == 0;
    assert [b, c][..0] + [a] + [b, c][0..] == [a, b, c];
  }

  /** Taking one node out of three distinct ones. */
  lemma WithoutThree(a: El, b: El, c: El, el: El)
    requires a != b && b != c && a != c && (el == a || el == b || el == c)
    ensures Without([a, b, c], el) == if el == a then [b, c] else if el == b then [a, c] else [a, b]
  {
    assert [a, b, c][1..] == [b, c] && [b, c][1..] == [c] && [c][1..] == [];
    assert Without([c], el) == if el == c then [] else [c];
    assert Without([b, c], el) == if el == b then [c] else [b] + Without([c], el);
  }
}
