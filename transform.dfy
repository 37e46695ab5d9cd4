/** The AST transform of src/compiler-core/src/transform.ts: a pre-order
    walk that runs every node transform on a node before visiting its
    children, with a context whose `helper` records keys in a Map. The node
    transforms are supplied by the caller; each is modelled by the keys it
    passes to `context.helper`, in order, for the node it is given. */
module Transform {
  import opened Wrappers

  /** An AST node as the transform reads it. */
  datatype TNode =
    | Root(children: Children)
    | Element(tag: string, children: Children)
    | Text(content: string)
    | Interpolation(content: string)

  /** The `children` property: `undefined`, as `baseParse` leaves it, or an array. */
  datatype Children = Undefined | Array(nodes: seq<TNode>)

  /** A node transform: the keys it passes to `context.helper`, in order. */
  type NodeTransform = TNode -> seq<string>

  /** `nodeTransforms[transform](node, context)` was called. */
  datatype Call = Call(transform: nat, node: TNode)

  /** The transform calls made and the keys passed to `helper`, in order. */
  datatype Trace = Trace(calls: seq<Call>, keys: seq<string>)

  function Concat(a: Trace, b: Trace): Trace
  {
    Trace(a.calls + b.calls, a.keys + b.keys)
  }

  /** `a` followed by `b`, unless `b` throws. */
  function Then(a: Trace, b: Result<Trace>): Result<Trace>
  {
    if b.Err? then b else Ok(Concat(a, b.value))
  }

  /** `context.helpers(TO_DISPLAY_STRING)`: `helpers` is a Map, not a function. */
  const HelpersNotAFunction: Exception := TypeError("context.helpers is not a function")

  /** `children.length` on `undefined` children. */
  const ChildrenUndefined: Exception := TypeError("Cannot read properties of undefined (reading 'length')")

  /** `root.children[0]` on a root without children. */
  const NoChildrenToIndex: Exception := TypeError("Cannot read properties of undefined (reading '0')")

  // ---------------------------------------------------------------------
  // The walk, as functions

  /** The loop of `traversNode` over the first transforms: each is called
      on `node`, in list order. */
  function Transforms(node: TNode, ts: seq<NodeTransform>): Trace
  {
    if ts == [] then Trace([], [])
    else Concat(Transforms(node, ts[..|ts| - 1]), Trace([Call(|ts| - 1, node)], ts[|ts| - 1](node)))
  }

  /** Each transform is called once on the node, in list order, and the
      keys are those the transforms request, in the same order. */
  lemma {:induction false} TransformsInOrder(node: TNode, ts: seq<NodeTransform>)
    ensures var r := Transforms(node, ts);
      && |r.calls| == |ts| && (forall i :: 0 <= i < |ts| ==> r.calls[i] == Call(i, node))
      && r.keys == KeysOf(node, ts)
  {
    if ts != [] {
      TransformsInOrder(node, ts[..|ts| - 1]);
      KeysOfLast(node, ts);
    }
  }

  lemma {:induction false} KeysOfLast(node: TNode, ts: seq<NodeTransform>)
    requires ts != []
    ensures KeysOf(node, ts) == KeysOf(node, ts[..|ts| - 1]) + ts[|ts| - 1](node)
  {
    if |ts| > 1 {
      KeysOfLast(node, ts[1..]);
      assert ts[..|ts| - 1][1..] == ts[1..][..|ts| - 2];
    }
  }

  /** The keys each transform requests for `node`, transform by transform. */
  function KeysOf(node: TNode, ts: seq<NodeTransform>): seq<string>
  {
    if ts == [] then [] else ts[0](node) + KeysOf(node, ts[1..])
  }

  /** `traversNode(node, context)`: the transforms, then by node type an
      exception for an interpolation (which falls through into the child
      walk only after the failing call), nothing more for text, and the
      children of a root or element. */
  function Walk(node: TNode, ts: seq<NodeTransform>): Result<Trace>
    decreases node
  {
    var here := Transforms(node, ts);
    match node
    case Interpolation(_) => Err(HelpersNotAFunction)
    case Text(_) => Ok(here)
    case Root(children) => Then(here, WalkChildren(children, ts))
    case Element(_, children) => Then(here, WalkChildren(children, ts))
  }

  /** `traversChildren(node, context)` */
  function WalkChildren(children: Children, ts: seq<NodeTransform>): Result<Trace>
    decreases children
  {
    if children.Undefined? then Err(ChildrenUndefined) else WalkAll(children.nodes, ts)
  }

  /** The children walked left to right, stopping at the first exception. */
  function WalkAll(nodes: seq<TNode>, ts: seq<NodeTransform>): Result<Trace>
    decreases nodes
  {
    if nodes == [] then Ok(Trace([], []))
    else
      var init := WalkAll(nodes[..|nodes| - 1], ts);
      if init.Err? then init else Then(init.value, Walk(nodes[|nodes| - 1], ts))
  }

  // ---------------------------------------------------------------------
  // The walk as a pre-order listing

  /** The nodes a walk reaches, in pre-order: a root or element with
      children continues into them, every other node is a leaf. */
  function Visited(node: TNode): seq<TNode>
    decreases node
  {
    match node
    case Root(Array(children)) => [node] + VisitedAll(children)
    case Element(_, Array(children)) => [node] + VisitedAll(children)
    case _ => [node]
  }

  function VisitedAll(nodes: seq<TNode>): seq<TNode>
    decreases nodes
  {
    if nodes == [] then [] else VisitedAll(nodes[..|nodes| - 1]) + Visited(nodes[|nodes| - 1])
  }

  /** A node the walk passes without an exception: text, or a root or
      element whose children are an array. */
  predicate Walkable(node: TNode)
  {
    node.Text? || ((node.Root? || node.Element?) && node.children.Array?)
  }

  predicate AllWalkable(nodes: seq<TNode>)
  {
    forall k :: 0 <= k < |nodes| ==> Walkable(nodes[k])
  }

  /** Every transform on each of `nodes`, node by node. */
  function TraceOf(nodes: seq<TNode>, ts: seq<NodeTransform>): Trace
  {
    if nodes == [] then Trace([], [])
    else Concat(TraceOf(nodes[..|nodes| - 1], ts), Transforms(nodes[|nodes| - 1], ts))
  }

  lemma {:induction false} TraceOfAppend(a: seq<TNode>, b: seq<TNode>, ts: seq<NodeTransform>)
    ensures TraceOf(a + b, ts) == Concat(TraceOf(a, ts), TraceOf(b, ts))
    decreases |b|
  {
    if b == [] {
      assert a + b == a;
    } else {
      var init := b[..|b| - 1];
      assert (a + b)[..|a + b| - 1] == a + init;
      TraceOfAppend(a, init, ts);
    }
  }

  lemma AllWalkableAppend(a: seq<TNode>, b: seq<TNode>)
    ensures AllWalkable(a + b) <==> AllWalkable(a) && AllWalkable(b)
  {
    if AllWalkable(a) && AllWalkable(b) {
      forall k | 0 <= k < |a + b|
        ensures Walkable((a + b)[k])
      {
        if k >= |a| {
          assert (a + b)[k] == b[k - |a|];
        }
      }
    }
    if AllWalkable(a + b) {
      forall k | 0 <= k < |a|
        ensures Walkable(a[k])
      {
        assert (a + b)[k] == a[k];
      }
      forall k | 0 <= k < |b|
        ensures Walkable(b[k])
      {
        assert (a + b)[|a| + k] == b[k];
      }
    }
  }

  /** The walk is a pre-order traversal: it succeeds exactly when every
      node it reaches is text or has an array of children, and then it
      has run every transform, in list order, on every reached node, a
      node before its children and siblings left to right. */
  lemma {:induction false} WalkIsPreOrder(node: TNode, ts: seq<NodeTransform>)
    ensures Walk(node, ts).Ok? <==> AllWalkable(Visited(node))
    ensures Walk(node, ts).Ok? ==> Walk(node, ts).value == TraceOf(Visited(node), ts)
    decreases node
  {
    var here := Transforms(node, ts);
    assert TraceOf([node], ts) == Concat(Trace([], []), here);
    assert Concat(Trace([], []), here) == here;
    match node
    case Root(Array(children)) =>
      WalkAllIsPreOrder(children, ts);
      AllWalkableAppend([node], VisitedAll(children));
      TraceOfAppend([node], VisitedAll(children), ts);
    case Element(_, Array(children)) =>
      WalkAllIsPreOrder(children, ts);
      AllWalkableAppend([node], VisitedAll(children));
      TraceOfAppend([node], VisitedAll(children), ts);
    case _ =>
      assert Visited(node) == [node];
  }

  lemma {:induction false} WalkAllIsPreOrder(nodes: seq<TNode>, ts: seq<NodeTransform>)
    ensures WalkAll(nodes, ts).Ok? <==> AllWalkable(VisitedAll(nodes))
    ensures WalkAll(nodes, ts).Ok? ==> WalkAll(nodes, ts).value == TraceOf(VisitedAll(nodes), ts)
    decreases nodes
  {
    if nodes != [] {
      var init, last := nodes[..|nodes| - 1], nodes[|nodes| - 1];
      WalkAllIsPreOrder(init, ts);
      WalkIsPreOrder(last, ts);
      AllWalkableAppend(VisitedAll(init), Visited(last));
      TraceOfAppend(VisitedAll(init), Visited(last), ts);
    }
  }

  /** Without transforms nothing is called and no helper is recorded. */
  lemma {:induction false} NoTransformsNoTrace(nodes: seq<TNode>)
    ensures TraceOf(nodes, []) == Trace([], [])
  {
    if nodes != [] {
      NoTransformsNoTrace(nodes[..|nodes| - 1]);
    }
  }

  // ---------------------------------------------------------------------
  // The helpers Map

  /** No key twice. */
  predicate NoDup(keys: seq<string>)
  {
    forall a, b :: 0 <= a < b < |keys| ==> keys[a] != keys[b]
  }

  /** The Map's keys in insertion order after `set(key, 1)`. */
  function Insert(order: seq<string>, key: string): seq<string>
  {
    if key in order then order else order + [key]
  }

  /** The Map's keys after `set(k, 1)` for each of `keys` in turn. */
  function Recorded(order: seq<string>, keys: seq<string>): seq<string>
  {
    if keys == [] then order else Insert(Recorded(order, keys[..|keys| - 1]), keys[|keys| - 1])
  }

  lemma {:induction false} RecordedAppend(order: seq<string>, a: seq<string>, b: seq<string>)
    ensures Recorded(order, a + b) == Recorded(Recorded(order, a), b)
    decreases |b|
  {
    if b == [] {
      assert a + b == a;
    } else {
      assert (a + b)[..|a + b| - 1] == a + b[..|b| - 1];
      RecordedAppend(order, a, b[..|b| - 1]);
    }
  }

  /** The keys of the Map are recorded once each, in the order of their
      first `set`: earlier keys keep their places, and a key is present
      exactly when it was there before or has been set. */
  lemma {:induction false} RecordedKeys(order: seq<string>, keys: seq<string>)
    ensures |Recorded(order, keys)| >= |order| && Recorded(order, keys)[..|order|] == order
    ensures NoDup(order) ==> NoDup(Recorded(order, keys))
    ensures forall k :: k in Recorded(order, keys) <==> k in order || k in keys
  {
    if keys != [] {
      var init := keys[..|keys| - 1];
      RecordedKeys(order, init);
      var before := Recorded(order, init);
      assert Insert(before, keys[|keys| - 1])[..|before|] == before;
      assert Insert(before, keys[|keys| - 1])[..|order|] == before[..|order|];
      assert keys == init + [keys[|keys| - 1]];
    }
  }

  /** Keys set once each are recorded exactly in the order they were set. */
  lemma {:induction false} RecordedDistinct(keys: seq<string>)
    requires NoDup(keys)
    ensures Recorded([], keys) == keys
  {
    if keys != [] {
      var init := keys[..|keys| - 1];
      RecordedDistinct(init);
      assert keys[|keys| - 1] !in init;
      assert init + [keys[|keys| - 1]] == keys;
    }
  }

  // ---------------------------------------------------------------------
  // The transform context

  /** `createTransformContext(root, options)`: `helpers` holds the keys of
      the Map in insertion order (every value is 1). */
  class TransformContext {
    const root: TNode
    const nodeTransforms: seq<NodeTransform>
    var helpers: seq<string>
    /** The transform calls made so far. */
    ghost var calls: seq<Call>

    /** `options.nodeTransforms || []`: no transforms when none are given. */
    constructor(root: TNode, nodeTransforms: Option<seq<NodeTransform>>)
      ensures this.root == root && helpers == [] && calls == []
      ensures this.nodeTransforms == if nodeTransforms.Some? then nodeTransforms.value else []
    {
      this.root := root;
      this.nodeTransforms := if nodeTransforms.Some? then nodeTransforms.value else [];
      helpers := [];
      calls := [];
    }

    /** `context.helper(key)`: `helpers.set(key, 1)`. */
    method Helper(key: string)
      modifies this`helpers
      ensures helpers == Insert(old(helpers), key)
    {
      if key !in helpers {
        helpers := helpers + [key];
      }
    }

    /** `transform(node, context)` for `nodeTransforms[i]`. */
    method ApplyTransform(i: nat, node: TNode)
      requires i < |nodeTransforms|
      modifies this`helpers, this`calls
      ensures calls == old(calls) + [Call(i, node)]
      ensures helpers == Recorded(old(helpers), nodeTransforms[i](node))
    {
      calls := calls + [Call(i, node)];
      var keys := nodeTransforms[i](node);
      for j := 0 to |keys|
        invariant calls == old(calls) + [Call(i, node)]
        invariant helpers == Recorded(old(helpers), keys[..j])
      {
        assert keys[..j + 1][..j] == keys[..j];
        Helper(keys[j]);
      }
      assert keys[..|keys|] == keys;
    }

    /** The loop of `traversNode` over `nodeTransforms`. */
    method RunTransforms(node: TNode)
      modifies this`helpers, this`calls
      ensures calls == old(calls) + Transforms(node, nodeTransforms).calls
      ensures helpers == Recorded(old(helpers), Transforms(node, nodeTransforms).keys)
    {
      ghost var ts := nodeTransforms;
      for i := 0 to |nodeTransforms|
        invariant calls == old(calls) + Transforms(node, ts[..i]).calls
        invariant helpers == Recorded(old(helpers), Transforms(node, ts[..i]).keys)
      {
        TransformsStep(node, ts, i);
        ghost var before := Transforms(node, ts[..i]);
        ApplyTransform(i, node);
        RecordedAppend(old(helpers), before.keys, ts[i](node));
      }
      assert ts[..|ts|] == ts;
    }

    /** `traversNode(node, context)`. After an exception the context is
        not specified. */
    method TraverseNode(node: TNode) returns (thrown: Option<Exception>)
      modifies this`helpers, this`calls
      ensures var w := Walk(node, nodeTransforms);
        && (thrown.None? <==> w.Ok?) && (w.Err? ==> thrown == Some(w.error))
        && (w.Ok? ==> calls == old(calls) + w.value.calls && helpers == Recorded(old(helpers), w.value.keys))
      decreases node, 1
    {
      RunTransforms(node);
      ghost var here := Transforms(node, nodeTransforms);
      ghost var mid := helpers;
      if node.Interpolation? {
        return Some(HelpersNotAFunction);
      } else if node.Text? {
        return None;
      }
      ghost var rest := WalkChildren(node.children, nodeTransforms);
      assert Walk(node, nodeTransforms) == Then(here, rest);
      thrown := TraverseChildren(node.children);
      if thrown.None? {
        RecordedAppend(old(helpers), here.keys, rest.value.keys);
        assert calls == old(calls) + (here.calls + rest.value.calls);
      }
    }

    /** `traversChildren(node, context)`: the children left to right. */
    method TraverseChildren(children: Children) returns (thrown: Option<Exception>)
      modifies this`helpers, this`calls
      ensures var w := WalkChildren(children, nodeTransforms);
        && (thrown.None? <==> w.Ok?) && (w.Err? ==> thrown == Some(w.error))
        && (w.Ok? ==> calls == old(calls) + w.value.calls && helpers == Recorded(old(helpers), w.value.keys))
      decreases children, 1
    {
      if children.Undefined? {
        return Some(ChildrenUndefined);
      }
      var nodes := children.nodes;
      assert WalkChildren(children, nodeTransforms) == WalkAll(nodes, nodeTransforms);
      ghost var done := Trace([], []);
      for i := 0 to |nodes|
        invariant WalkAll(nodes[..i], nodeTransforms) == Ok(done)
        invariant calls == old(calls) + done.calls
        invariant helpers == Recorded(old(helpers), done.keys)
      {
        thrown, done := TraverseChild(nodes, i, done, old(calls), old(helpers));
        if thrown.Some? {
          WalkAllErrSticks(nodes, i + 1, nodeTransforms);
          return;
        }
      }
      assert nodes[..|nodes|] == nodes;
      thrown := None;
    }

    /** One turn of the loop of `traversChildren`: `traversNode` on the
        `i`th child, extending the walk `done` of the children before it,
        which took the context from `calls0` and `helpers0` to its state. */
    method TraverseChild(nodes: seq<TNode>, i: nat, ghost done: Trace, ghost calls0: seq<Call>, ghost helpers0: seq<string>)
      returns (thrown: Option<Exception>, ghost next: Trace)
      requires i < |nodes| && WalkAll(nodes[..i], nodeTransforms) == Ok(done)
      requires calls == calls0 + done.calls && helpers == Recorded(helpers0, done.keys)
      modifies this`helpers, this`calls
      ensures thrown.Some? ==> WalkAll(nodes[..i + 1], nodeTransforms) == Err(thrown.value)
      ensures thrown.None? ==> WalkAll(nodes[..i + 1], nodeTransforms) == Ok(next)
      ensures thrown.None? ==> calls == calls0 + next.calls && helpers == Recorded(helpers0, next.keys)
      decreases nodes[i], 2
    {
      WalkAllStep(nodes, nodeTransforms, i);
      thrown := TraverseNode(nodes[i]);
      next := done;
      if thrown.None? {
        var step := Walk(nodes[i], nodeTransforms).value;
        RecordedAppend(helpers0, done.keys, step.keys);
        assert calls == calls0 + (done.calls + step.calls);
        next := Concat(done, step);
      }
    }
  }

  lemma TransformsStep(node: TNode, ts: seq<NodeTransform>, i: nat)
    requires i < |ts|
    ensures Transforms(node, ts[..i + 1]) == Concat(Transforms(node, ts[..i]), Trace([Call(i, node)], ts[i](node)))
  {
    assert ts[..i + 1][..i] == ts[..i];
  }

  lemma WalkAllStep(nodes: seq<TNode>, ts: seq<NodeTransform>, i: nat)
    requires i < |nodes| && WalkAll(nodes[..i], ts).Ok?
    ensures WalkAll(nodes[..i + 1], ts) == Then(WalkAll(nodes[..i], ts).value, Walk(nodes[i], ts))
  {
    assert nodes[..i + 1][..i] == nodes[..i];
  }

  /** Once a child throws, the walk of the whole list throws the same. */
  lemma {:induction false} WalkAllErrSticks(nodes: seq<TNode>, j: nat, ts: seq<NodeTransform>)
    requires j <= |nodes| && WalkAll(nodes[..j], ts).Err?
    ensures WalkAll(nodes, ts) == WalkAll(nodes[..j], ts)
    decreases |nodes| - j
  {
    if j < |nodes| {
      var longer := nodes[..j + 1];
      assert longer[..j] == nodes[..j];
      WalkAllErrSticks(nodes, j + 1, ts);
    } else {
      assert nodes[..j] == nodes;
    }
  }

  /** What `transform` writes on the root: `root.helpers` and `root.codegenNode`. */
  datatype Transformed = Transformed(helpers: seq<string>, codegenNode: Option<TNode>)

  /** `transform(root, options)`: the walk, then `createRootCodegen`, then
      the helper keys in insertion order. `codegenNode` is the first child,
      `undefined` (`None`) for an empty child list; a text root has no
      `children` to index, and a root whose children are `undefined` (as
      `baseParse` leaves it) throws in the walk. */
  method Transform(root: TNode, nodeTransforms: Option<seq<NodeTransform>>) returns (r: Result<Transformed>)
    ensures var ts := if nodeTransforms.Some? then nodeTransforms.value else [];
      var w := Walk(root, ts);
      && (w.Err? ==> r == Err(w.error))
      && (w.Ok? && root.Text? ==> r == Err(NoChildrenToIndex))
      && (w.Ok? && !root.Text? ==>
            && root.children.Array? && r.Ok? && r.value.helpers == Recorded([], w.value.keys)
            && r.value.codegenNode == (if root.children.nodes == [] then None else Some(root.children.nodes[0])))
    ensures root.Root? && root.children.Undefined? ==> r == Err(ChildrenUndefined)
    ensures nodeTransforms.None? && r.Ok? ==> r.value.helpers == []
  {
    var context := new TransformContext(root, nodeTransforms);
    var thrown := context.TraverseNode(root);
    if thrown.Some? {
      return Err(thrown.value);
    }
    if root.Text? {
      return Err(NoChildrenToIndex);
    }
    var children := root.children.nodes;
    var codegenNode := if children == [] then None else Some(children[0]);
    r := Ok(Transformed(context.helpers, codegenNode));
    if nodeTransforms.None? {
      WalkIsPreOrder(root, []);
      NoTransformsNoTrace(Visited(root));
    }
  }
}
