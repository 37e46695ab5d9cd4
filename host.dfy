/** The renderer's view of virtual nodes and of the host: the host is an
    abstract container, and every call the renderer makes into the host
    adapter (or into a nested `patch`) is recorded as one `HostOp`. */
module Host {
  import opened Shared
  import opened Wrappers

  /** A host node: one that was on screen before the diff (`HostNode`), or
      the one created when new child `newIndex` is mounted. */
  datatype El = HostNode(id: nat) | Created(newIndex: nat)

  /** The part of a virtual node the child-list diff inspects: its `type` and `key`. */
  datatype VNode = VNode(nodeType: Value, key: Value)

  /** An old child: a virtual node already mounted on host node `el`. */
  datatype Mounted = Mounted(node: VNode, el: El)

  datatype HostOp =
      /** `patch(c1[oldIndex], c2[newIndex])`: the matched pair is patched in
          place and the new node takes over the old host node. */
    | PatchChild(oldIndex: nat, newIndex: nat)
      /** `patch(null, c2[newIndex], ..., anchor)`: the new child is mounted
          before `anchor` (at the end when `None`). */
    | MountChild(newIndex: nat, anchor: Option<El>)
      /** `hostRemove(el)` */
    | Remove(el: El)
      /** `insert(el, container, anchor)` */
    | Insert(el: El, anchor: Option<El>)
      /** `createElement(type)`, returning host node `el` */
    | CreateElement(tag: Value, el: El)
      /** `hostSetElementText(el, text)`, or `el.textContent = text` */
    | SetElementText(el: El, text: string)
      /** `patchProp(el, key, prev, next)` */
    | PatchProp(el: El, key: string, prev: Value, next: Value)

  /** `isSomeVNodeType`: the same type and the same key. */
  predicate IsSomeVNodeType(n1: VNode, n2: VNode)
  {
    n1.nodeType == n2.nodeType && n1.key == n2.key
  }

  // ---------------------------------------------------------------------
  // The container's children (src/runtime_dom/index.ts:21-31)

  /** `dom` with every occurrence of `el` taken out, the rest in order. */
  function Without(dom: seq<El>, el: El): (r: seq<El>)
    ensures forall x :: x in r <==> x in dom && x != el
    ensures |r| <= |dom|
  {
    if dom == [] then [] else (if dom[0] == el then [] else [dom[0]]) + Without(dom[1..], el)
  }

  /** Taking `el` out of a concatenation takes it out of both parts. */
  lemma {:induction false} WithoutAppend(a: seq<El>, b: seq<El>, el: El)
    ensures Without(a + b, el) == Without(a, el) + Without(b, el)
  {
    if a == [] {
      assert a + b == b;
    } else {
      var head := if a[0] == el then [] else [a[0]];
      var left, right := Without(a[1..], el), Without(b, el);
      assert Without(a + b, el) == head + (left + right) by {
        assert a + b != [] && (a + b)[0] == a[0] && (a + b)[1..] == a[1..] + b;
        WithoutAppend(a[1..], b, el);
      }
      assert Without(a, el) == head + left;
      assert head + (left + right) == (head + left) + right;
    }
  }

  /** Taking out a node that is not there changes nothing. */
  lemma {:induction false} WithoutAbsent(dom: seq<El>, el: El)
    requires el !in dom
    ensures Without(dom, el) == dom
  {
    if dom != [] {
      WithoutAbsent(dom[1..], el);
    }
  }

  /** The first position of `x` in `s`. */
  function IndexOf(s: seq<El>, x: El): (k: nat)
    requires x in s
    ensures k < |s| && s[k] == x && x !in s[..k]
  {
    if s[0] == x then 0 else 1 + IndexOf(s[1..], x)
  }

  /** The children after `insert(el, container, anchor)`, which calls
      `insertBefore`: `el` leaves its place and goes right before `anchor`,
      or last when there is no anchor; an anchor that is not a child throws
      (`None`), and `el` as its own anchor stays where it is. */
  function InsertBefore(dom: seq<El>, el: El, anchor: Option<El>): (r: Option<seq<El>>)
    ensures anchor.None? ==> r == Some(Without(dom, el) + [el])
    ensures anchor == Some(el) ==> r == if el in dom then Some(dom) else None
    ensures anchor.Some? && anchor.value != el ==> (r.None? <==> anchor.value !in dom)
    ensures r.Some? && anchor.Some? && anchor.value != el ==>
      && Without(r.value, el) == Without(dom, el)
      && exists k :: 0 <= k < |r.value| - 1 && r.value[k] == el && r.value[k + 1] == anchor.value
  {
    var rest := Without(dom, el);
    if anchor.None? then Some(rest + [el])
    else if anchor.value == el then (if el in dom then Some(dom) else None)
    else if anchor.value !in rest then None
    else
      var k := IndexOf(rest, anchor.value);
      var placed := rest[..k] + [el] + rest[k..];
      WithoutPlaced(rest, k, el);
      assert placed[k] == el && placed[k + 1] == anchor.value;
      Some(placed)
  }

  /** Putting a node that is not in `rest` anywhere into it, then taking it
      out again, gives `rest` back. */
  lemma WithoutPlaced(rest: seq<El>, k: nat, el: El)
    requires k <= |rest| && el !in rest
    ensures Without(rest[..k] + [el] + rest[k..], el) == rest
  {
    var a, b := rest[..k], rest[k..];
    assert rest == a + b;
    assert el !in a && el !in b;
    assert Without(a + [el], el) == a by {
      WithoutAppend(a, [el], el);
      assert Without([el], el) == [] by {
        assert [el][1..] == [];
      }
      WithoutAbsent(a, el);
    }
    assert Without(b, el) == b by {
      WithoutAbsent(b, el);
    }
    WithoutAppend(a + [el], b, el);
  }

  /** The children after the calls `ops`, or `None` once one of them
      throws. Patches and text and prop updates leave the order alone, a
      mount puts the new child's node `Created(n)` before its anchor, an
      insert moves a node, and `hostRemove` takes one out. */
  function Arrange(dom: seq<El>, ops: seq<HostOp>): Option<seq<El>>
    decreases |ops|
  {
    if ops == [] then Some(dom)
    else
      var next := match ops[0]
        case Insert(el, anchor) => InsertBefore(dom, el, anchor)
        case MountChild(n, anchor) => InsertBefore(dom, Created(n), anchor)
        case Remove(el) => Some(Without(dom, el))
        case _ => Some(dom);
      if next.None? then None else Arrange(next.value, ops[1..])
  }
}
