/** The element level of the renderer (src/runtime_core/renderer.ts): the
    props diff, the children diff that picks between text, unmounting,
    mounting and the keyed child-list diff, and the mounting of a new
    element. Every adapter call is recorded as a `HostOp`. */
module Element {
  import opened Shared
  import opened Wrappers
  import opened Host
  import opened KeyedDiff
  import KeyedPlace

  // ---------------------------------------------------------------------
  // Props objects

  /** A props object: its identity, its enumerable keys in `for...in`
      order, and their values. */
  datatype Props = Props(ref: nat, keys: seq<string>, values: map<string, Value>)

  /** The identity of the shared `EMPTY_OBJ`. */
  const EmptyRef: nat := 0

  /** `EMPTY_OBJ` (src/shared/index.ts:3). */
  const EmptyObj: Props := Props(EmptyRef, [], map[])

  /** The keys enumerated are exactly the keys with a value, and only
      `EMPTY_OBJ` has its identity. */
  ghost predicate ValidProps(p: Props)
  {
    && (forall k :: k in p.values <==> k in p.keys)
    && (p.ref == EmptyRef ==> p == EmptyObj)
  }

  /** `props[key]` over the object's own keys: `undefined` for a key it
      does not own. Keys inherited from `Object.prototype` are not modelled. */
  function Get(p: Props, key: string): Value
  {
    if key in p.values then p.values[key] else Undefined
  }

  /** `n.props || EMPTY_OBJ`: a vnode without props uses `EMPTY_OBJ`. */
  function PropsOrEmpty(p: Option<Props>): Props
  {
    if p.Some? then p.value else EmptyObj
  }

  // ---------------------------------------------------------------------
  // patchProps (src/runtime_core/renderer.ts:227-246)

  /** The calls of the first loop over the new keys `keys`: one
      `patchProp(el, key, prev, next)` for each key whose value changed. */
  function ChangedOps(el: El, oldProps: Props, newProps: Props, keys: seq<string>): seq<HostOp>
  {
    if keys == [] then []
    else
      var key := keys[|keys| - 1];
      ChangedOps(el, oldProps, newProps, keys[..|keys| - 1])
        + (if Get(oldProps, key) != Get(newProps, key) then [PatchProp(el, key, Get(oldProps, key), Get(newProps, key))] else [])
  }

  /** The calls of the second loop over the old keys `keys`: one
      `patchProp(el, key, prev, null)` for each key the new props lack. */
  function DroppedOps(el: El, oldProps: Props, newProps: Props, keys: seq<string>): seq<HostOp>
  {
    if keys == [] then []
    else
      var key := keys[|keys| - 1];
      DroppedOps(el, oldProps, newProps, keys[..|keys| - 1])
        + (if key !in newProps.values then [PatchProp(el, key, Get(oldProps, key), Null)] else [])
  }

  /** All calls of `patchProps(el, oldProps, newProps)`. */
  function PropsOps(el: El, oldProps: Props, newProps: Props): seq<HostOp>
  {
    if oldProps.ref == newProps.ref then []
    else ChangedOps(el, oldProps, newProps, newProps.keys) + (if oldProps.ref != EmptyRef then DroppedOps(el, oldProps, newProps, oldProps.keys) else [])
  }

  /** `patchProps(el, oldProps, newProps)`: nothing for the identical
      object; otherwise the changed new keys, in order, then the dropped
      old keys unless the old props are `EMPTY_OBJ`. */
  method PatchProps(el: El, oldProps: Props, newProps: Props) returns (ops: seq<HostOp>)
    ensures ops == PropsOps(el, oldProps, newProps)
  {
    ops := [];
    if oldProps.ref != newProps.ref {
      var i := 0;
      while i < |newProps.keys|
        invariant i <= |newProps.keys|
        invariant ops == ChangedOps(el, oldProps, newProps, newProps.keys[..i])
      {
        var key := newProps.keys[i];
        var prevProp, nextProp := Get(oldProps, key), Get(newProps, key);
        if prevProp != nextProp {
          ops := ops + [PatchProp(el, key, prevProp, nextProp)];
        }
        assert newProps.keys[..i + 1][..i] == newProps.keys[..i];
        i := i + 1;
      }
      assert newProps.keys[..i] == newProps.keys;
      if oldProps.ref != EmptyRef {
        var changed := ops;
        var dropped := [];
        var k := 0;
        while k < |oldProps.keys|
          invariant k <= |oldProps.keys|
          invariant dropped == DroppedOps(el, oldProps, newProps, oldProps.keys[..k])
        {
          var key := oldProps.keys[k];
          if key !in newProps.values {
            dropped := dropped + [PatchProp(el, key, Get(oldProps, key), Null)];
          }
          assert oldProps.keys[..k + 1][..k] == oldProps.keys[..k];
          k := k + 1;
        }
        assert oldProps.keys[..k] == oldProps.keys;
        ops := changed + dropped;
      }
    }
  }

  /** Membership in the first loop's calls: exactly the changed keys among
      `keys`, each with its old and new value. */
  lemma {:induction false} ChangedOpsMembers(el: El, oldProps: Props, newProps: Props, keys: seq<string>)
    ensures forall op :: op in ChangedOps(el, oldProps, newProps, keys) <==>
      op.PatchProp? && op.el == el && op.key in keys && op.prev == Get(oldProps, op.key)
      && op.next == Get(newProps, op.key) && op.prev != op.next
  {
    if keys != [] {
      ChangedOpsMembers(el, oldProps, newProps, keys[..|keys| - 1]);
      assert keys == keys[..|keys| - 1] + [keys[|keys| - 1]];
    }
  }

  /** Membership in the second loop's calls: exactly the keys among `keys`
      that the new props lack, each passed `null`. */
  lemma {:induction false} DroppedOpsMembers(el: El, oldProps: Props, newProps: Props, keys: seq<string>)
    ensures forall op :: op in DroppedOps(el, oldProps, newProps, keys) <==>
      op.PatchProp? && op.el == el && op.key in keys && op.key !in newProps.values
      && op.prev == Get(oldProps, op.key) && op.next == Null
  {
    if keys != [] {
      DroppedOpsMembers(el, oldProps, newProps, keys[..|keys| - 1]);
      assert keys == keys[..|keys| - 1] + [keys[|keys| - 1]];
    }
  }

  /** `patchProp` is called for a key exactly when the key's value changed
      in the new props, or when the key was dropped from old props other
      than `EMPTY_OBJ`; different objects with the same entries cause no
      call, and the identical object causes none. */
  lemma PropsOpsCalls(el: El, oldProps: Props, newProps: Props)
    requires ValidProps(oldProps) && ValidProps(newProps) && oldProps.ref != newProps.ref
    ensures forall op :: op in PropsOps(el, oldProps, newProps) <==>
      op.PatchProp? && op.el == el && op.prev == Get(oldProps, op.key) &&
      ((op.key in newProps.values && op.next == Get(newProps, op.key) && op.prev != op.next)
       || (oldProps.ref != EmptyRef && op.key in oldProps.values && op.key !in newProps.values && op.next == Null))
    ensures oldProps.values == newProps.values ==> PropsOps(el, oldProps, newProps) == []
  {
    ChangedOpsMembers(el, oldProps, newProps, newProps.keys);
    DroppedOpsMembers(el, oldProps, newProps, oldProps.keys);
    if oldProps.values == newProps.values && PropsOps(el, oldProps, newProps) != [] {
      FirstIsMember(PropsOps(el, oldProps, newProps));
      assert false;
    }
  }

  lemma FirstIsMember(ops: seq<HostOp>)
    requires ops != []
    ensures ops[0] in ops
  {
  }

  // The attribute each key ends up with

  /** The value last handed to `patchProp` for each key, starting from `view`. */
  function Written(view: map<string, Value>, ops: seq<HostOp>): map<string, Value>
  {
    if ops == [] then view
    else
      var op := ops[|ops| - 1];
      var before := Written(view, ops[..|ops| - 1]);
      if op.PatchProp? then before[op.key := op.next] else before
  }

  /** A key's entry in `view`: `undefined` when it has none. */
  function Attr(view: map<string, Value>, key: string): Value
  {
    if key in view then view[key] else Undefined
  }

  lemma {:induction false} WrittenAppend(view: map<string, Value>, a: seq<HostOp>, b: seq<HostOp>)
    ensures Written(view, a + b) == Written(Written(view, a), b)
  {
    if b != [] {
      WrittenAppend(view, a, b[..|b| - 1]);
      assert (a + b)[..|a + b| - 1] == a + b[..|b| - 1];
    } else {
      assert a + b == a;
    }
  }

  lemma {:induction false} ChangedOpsEffect(el: El, oldProps: Props, newProps: Props, keys: seq<string>)
    ensures forall k :: Attr(Written(oldProps.values, ChangedOps(el, oldProps, newProps, keys)), k) == (if k in keys then Get(newProps, k) else Get(oldProps, k))
  {
    if keys != [] {
      var init, key := keys[..|keys| - 1], keys[|keys| - 1];
      ChangedOpsEffect(el, oldProps, newProps, init);
      var prev := ChangedOps(el, oldProps, newProps, init);
      var here := if Get(oldProps, key) != Get(newProps, key) then [PatchProp(el, key, Get(oldProps, key), Get(newProps, key))] else [];
      WrittenAppend(oldProps.values, prev, here);
      var before := Written(oldProps.values, prev);
      assert Written(before, here) == if here != [] then before[key := Get(newProps, key)] else before by {
        if here != [] {
          assert here[..0] == [];
        }
      }
      assert keys == init + [key];
      var after := Written(oldProps.values, ChangedOps(el, oldProps, newProps, keys));
      assert after == Written(before, here);
      forall k
        ensures Attr(after, k) == (if k in keys then Get(newProps, k) else Get(oldProps, k))
      {
        assert k in keys <==> k in init || k == key;
        if k != key {
          assert Attr(after, k) == Attr(before, k);
        }
      }
    }
  }

  lemma {:induction false} DroppedOpsEffect(el: El, oldProps: Props, newProps: Props, keys: seq<string>,
                                            view: map<string, Value>)
    ensures forall k :: Attr(Written(view, DroppedOps(el, oldProps, newProps, keys)), k) == (if k in keys && k !in newProps.values then Null else Attr(view, k))
  {
    if keys != [] {
      var init, key := keys[..|keys| - 1], keys[|keys| - 1];
      DroppedOpsEffect(el, oldProps, newProps, init, view);
      var prev := DroppedOps(el, oldProps, newProps, init);
      var here := if key !in newProps.values then [PatchProp(el, key, Get(oldProps, key), Null)] else [];
      WrittenAppend(view, prev, here);
      var before := Written(view, prev);
      assert Written(before, here) == if here != [] then before[key := Null] else before by {
        if here != [] {
          assert here[..0] == [];
        }
      }
      assert keys == init + [key];
      var after := Written(view, DroppedOps(el, oldProps, newProps, keys));
      assert after == Written(before, here);
      forall k
        ensures Attr(after, k) == (if k in keys && k !in newProps.values then Null else Attr(view, k))
      {
        assert k in keys <==> k in init || k == key;
        if k != key {
          assert Attr(after, k) == Attr(before, k);
        }
      }
    }
  }

  /** After `patchProps`, starting from the old props, every key carries
      its new value, a key dropped from the old props carries `null` (the
      adapter then removes the attribute), and no other key is touched. */
  lemma PropsOpsEffect(el: El, oldProps: Props, newProps: Props)
    requires ValidProps(oldProps) && ValidProps(newProps)
    requires oldProps.ref == newProps.ref ==> oldProps == newProps
    ensures forall k :: Attr(Written(oldProps.values, PropsOps(el, oldProps, newProps)), k) == (if k in newProps.values then Get(newProps, k) else if k in oldProps.values then Null else Undefined)
  {
    if oldProps.ref != newProps.ref {
      var changed := ChangedOps(el, oldProps, newProps, newProps.keys);
      ChangedOpsEffect(el, oldProps, newProps, newProps.keys);
      if oldProps.ref != EmptyRef {
        var dropped := DroppedOps(el, oldProps, newProps, oldProps.keys);
        WrittenAppend(oldProps.values, changed, dropped);
        DroppedOpsEffect(el, oldProps, newProps, oldProps.keys, Written(oldProps.values, changed));
      } else {
        assert changed + [] == changed;
      }
    }
  }

  // ---------------------------------------------------------------------
  // Children

  /** A vnode's `children`: a string (`TEXT_CHILDREN`), an array
      (`ARRAY_CHILDREN`), or `null`/`undefined` (neither flag). */
  datatype Children<C> = TextChildren(text: string) | ArrayChildren(items: seq<C>) | NoChildren

  /** The `remove` calls of `unmountChildren(children)`. */
  function UnmountOps(children: seq<Mounted>): seq<HostOp>
  {
    seq(|children|, k requires 0 <= k < |children| => Remove(children[k].el))
  }

  /** The `patch(null, child, container, parentComponent, anchor)` calls of
      `mountChildren` over `n` children. */
  function MountOps(n: nat, anchor: Option<El>): seq<HostOp>
  {
    seq(n, k requires 0 <= k => MountChild(k, anchor))
  }

  /** The host nodes of `n` freshly mounted children. */
  function CreatedEls(n: nat): seq<Option<El>>
  {
    seq(n, k requires 0 <= k => Some(Created(k)))
  }

  /** `unmountChildren(children)` (src/runtime_core/renderer.ts:220-225):
      the host node of every child is removed, in order. */
  method UnmountChildren(children: seq<Mounted>) returns (ops: seq<HostOp>)
    ensures |ops| == |children| && forall k :: 0 <= k < |children| ==> ops[k] == Remove(children[k].el)
    ensures ops == UnmountOps(children)
  {
    ops := [];
    for i := 0 to |children|
      invariant |ops| == i && forall k :: 0 <= k < i ==> ops[k] == Remove(children[k].el)
    {
      var el := children[i].el;
      ops := ops + [Remove(el)];
    }
  }

  /** `mountChildren(children, container, parentComponent, anchor)`
      (src/runtime_core/renderer.ts:266-270): every child is mounted, in
      order, before the same `anchor`. */
  method MountChildren(children: seq<VNode>, anchor: Option<El>) returns (ops: seq<HostOp>)
    ensures |ops| == |children| && forall k :: 0 <= k < |children| ==> ops[k] == MountChild(k, anchor)
    ensures ops == MountOps(|children|, anchor)
  {
    ops := [];
    for i := 0 to |children|
      invariant |ops| == i && forall k :: 0 <= k < i ==> ops[k] == MountChild(k, anchor)
    {
      ops := ops + [MountChild(i, anchor)];
    }
  }

  /** What `patchChildren(n1, n2, container, ...)` does, by the kinds of
      the old children `c1` and the new children `c2`. */
  ghost predicate ChildrenOutcome(c1: Children<Mounted>, c2: Children<VNode>, container: El,
                                  anchor: Option<El>, r: Result<Diff>)
  {
    match c2
    case TextChildren(t) =>
      // old array children are unmounted; the text is set unless it is the same string
      && r.Ok? && r.value.els == []
      && r.value.ops == (if c1.ArrayChildren? then UnmountOps(c1.items) else [])
                        + (if c1 != TextChildren(t) then [SetElementText(container, t)] else [])
    case ArrayChildren(items) =>
      (match c1
       case TextChildren(_) =>
         // the text is cleared and every new child mounted
         && r.Ok? && r.value.els == CreatedEls(|items|)
         && r.value.ops == [SetElementText(container, "")] + MountOps(|items|, anchor)
       case ArrayChildren(olds) =>
         // the keyed diff
         && (r.Err? <==> CommonPrefix(olds, items) == |olds| < |items|)
         && (r.Ok? ==> KeyedPlace.Outcome(olds, items, r.value))
       case NoChildren =>
         // `patchKeyedChildren(null, c2)` reads `c1.length`
         r.Err?)
    case NoChildren =>
      // `mountChildren(null, ...)` or `patchKeyedChildren(c1, null)`
      r.Err?
  }

  /** `patchChildren(n1, n2, container, parentComponent, anchor)`
      (src/runtime_core/renderer.ts:71-93). New children that are neither
      text nor an array make it throw, and so do old children that are
      neither when the new ones are an array. */
  method PatchChildren(c1: Children<Mounted>, c2: Children<VNode>, container: El, anchor: Option<El>)
    returns (r: Result<Diff>)
    ensures ChildrenOutcome(c1, c2, container, anchor, r)
  {
    if c2.TextChildren? {
      var ops := [];
      if c1.ArrayChildren? {
        ops := UnmountChildren(c1.items);
      }
      if c1 != TextChildren(c2.text) {
        ops := ops + [SetElementText(container, c2.text)];
      }
      r := Ok(Diff(ops, []));
    } else if c1.TextChildren? {
      if c2.NoChildren? {
        return Err(TypeError("Cannot read properties of null (reading 'forEach')"));
      }
      var mounted := MountChildren(c2.items, anchor);
      r := Ok(Diff([SetElementText(container, "")] + mounted, CreatedEls(|c2.items|)));
    } else if c2.NoChildren? || c1.NoChildren? {
      r := Err(TypeError("Cannot read properties of null (reading 'length')"));
    } else {
      r := KeyedPlace.PatchKeyedChildren(c1.items, c2.items);
    }
  }

  // ---------------------------------------------------------------------
  // Elements

  /** An element vnode already on screen, mounted on host node `el`. */
  datatype OldElement = OldElement(nodeType: Value, props: Option<Props>, children: Children<Mounted>, el: El)

  /** A new element vnode, not yet on screen. */
  datatype NewElement = NewElement(nodeType: Value, props: Option<Props>, children: Children<VNode>)

  /** A patched element: its host node, its children's diff, and all calls. */
  datatype Patched = Patched(el: El, children: Diff, ops: seq<HostOp>)

  /** `patchElement(n1, n2, container, parentComponent, anchor)`
      (src/runtime_core/renderer.ts:62-69): the new vnode takes over the old
      host node, the children are diffed first and the props after them;
      an exception from the children diff stops it before the props. */
  method PatchElement(n1: OldElement, n2: NewElement, anchor: Option<El>) returns (r: Result<Patched>)
    ensures r.Err? ==> ChildrenOutcome(n1.children, n2.children, n1.el, anchor, Err(r.error))
    ensures r.Ok? ==>
      && r.value.el == n1.el
      && ChildrenOutcome(n1.children, n2.children, n1.el, anchor, Ok(r.value.children))
      && r.value.ops == r.value.children.ops + PropsOps(n1.el, PropsOrEmpty(n1.props), PropsOrEmpty(n2.props))
  {
    var oldProps, newProps := PropsOrEmpty(n1.props), PropsOrEmpty(n2.props);
    var el := n1.el;
    var children := PatchChildren(n1.children, n2.children, el, anchor);
    if children.Err? {
      return Err(children.error);
    }
    var propOps := PatchProps(el, oldProps, newProps);
    r := Ok(Patched(el, children.value, children.value.ops + propOps));
  }

  /** The `patchProp(el, key, null, value)` calls for the keys `keys` of `props`. */
  function InitialOps(el: El, props: Props, keys: seq<string>): seq<HostOp>
  {
    if keys == [] then []
    else InitialOps(el, props, keys[..|keys| - 1]) + [PatchProp(el, keys[|keys| - 1], Null, Get(props, keys[|keys| - 1]))]
  }

  /** The calls that set up the children of a new element on `el`. */
  function ContentOps(el: El, children: Children<VNode>, anchor: Option<El>): seq<HostOp>
  {
    match children
    case TextChildren(t) => [SetElementText(el, t)]
    case ArrayChildren(items) => MountOps(|items|, anchor)
    case NoChildren => []
  }

  /** All calls of `mountElement(vnode, container, parentComponent, anchor)`
      when `createElement` returns `el`. */
  function MountElementOps(vnode: NewElement, el: El, anchor: Option<El>): seq<HostOp>
  {
    var props := PropsOrEmpty(vnode.props);
    [CreateElement(vnode.nodeType, el)] + ContentOps(el, vnode.children, anchor)
      + InitialOps(el, props, props.keys) + [Insert(el, anchor)]
  }

  /** `mountElement(vnode, container, parentComponent, anchor)`
      (src/runtime_core/renderer.ts:248-264), where `el` is the node the
      host's `createElement` returns: the element is created first, its
      text or children and its props are set on it, and it is inserted
      into the container last, before `anchor`. A missing props object is
      enumerated as having no keys. */
  method MountElement(vnode: NewElement, el: El, anchor: Option<El>) returns (ops: seq<HostOp>)
    ensures ops == MountElementOps(vnode, el, anchor)
    ensures ops[0] == CreateElement(vnode.nodeType, el) && ops[|ops| - 1] == Insert(el, anchor)
  {
    ops := [CreateElement(vnode.nodeType, el)];
    match vnode.children {
      case TextChildren(t) =>
        ops := ops + [SetElementText(el, t)];
      case ArrayChildren(items) =>
        var mounted := MountChildren(items, anchor);
        ops := ops + mounted;
      case NoChildren =>
    }
    var props := PropsOrEmpty(vnode.props);
    var initial := [];
    for i := 0 to |props.keys|
      invariant initial == InitialOps(el, props, props.keys[..i])
    {
      var key := props.keys[i];
      initial := initial + [PatchProp(el, key, Null, Get(props, key))];
      assert props.keys[..i + 1][..i] == props.keys[..i];
    }
    assert props.keys[..|props.keys|] == props.keys;
    ops := ops + initial + [Insert(el, anchor)];
  }

  /** The props calls of a mount leave every key with its value in the
      props, starting from an element without attributes. */
  lemma {:induction false} InitialOpsEffect(el: El, props: Props, keys: seq<string>)
    requires ValidProps(props) && forall k :: k in keys ==> k in props.keys
    ensures forall k :: Attr(Written(map[], InitialOps(el, props, keys)), k) == (if k in keys then Get(props, k) else Undefined)
  {
    if keys != [] {
      var init, key := keys[..|keys| - 1], keys[|keys| - 1];
      InitialOpsEffect(el, props, init);
      assert keys == init + [key];
    }
  }

  /** After mounting, the props calls leave every key of the props with its
      value and no other key set. */
  lemma MountedProps(vnode: NewElement, el: El, anchor: Option<El>)
    requires ValidProps(PropsOrEmpty(vnode.props))
    ensures var props := PropsOrEmpty(vnode.props);
      forall k :: Attr(Written(map[], InitialOps(el, props, props.keys)), k) == Get(props, k)
  {
    var props := PropsOrEmpty(vnode.props);
    InitialOpsEffect(el, props, props.keys);
  }
}
