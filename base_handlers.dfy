/** The Proxy handlers of src/reactivity/baseHandlers.ts. A getter is a
    dispatch on the key whose only effect is a `track` call; it is a
    function returning the value read and the events it caused. The
    mutable setter assigns and triggers; the read-only setter does
    nothing. `track` and `trigger` (effect.ts) and the wrappers `reactive`
    and `readonly` make (reactive.ts) are not part of this model: they are
    entries in an event log and tags on the value returned. */
module BaseHandlers {
  import opened Shared

  /** The keys of `ReactiveFlags`: `IS_REACTIVE`, `IS_READONLY` and `RAW`.
      Only their being three distinct strings matters here. */
  const IsReactiveKey: string := "__v_isReactive"
  const IsReadonlyKey: string := "__v_isReadonly"
  const RawKey: string := "__v_raw"

  /** What a getter returns: a value as it is, or an object wrapped by
      `reactive(res)` or by `readonly(res)`. */
  datatype Got = Plain(v: Value) | ReactiveOf(target: Value) | ReadonlyOf(target: Value)

  /** `track(target, key)` and `trigger(target, key)`, by target identity. */
  datatype Event = Track(target: nat, key: string) | Trigger(target: nat, key: string)

  /** A plain object behind a proxy: its identity and its own properties. */
  datatype Target = Target(ref: nat, props: map<string, Value>)

  /** `Reflect.get(target, key)`: an own property, or `undefined`. */
  function Prop(t: Target, key: string): Value
  {
    if key in t.props then t.props[key] else Undefined
  }

  /** The three wrapper caches of reactive.ts, from target identity to wrapper. */
  datatype Caches = Caches(reactiveMap: map<nat, Value>, readonlyMap: map<nat, Value>,
                           shallowReadonlyMap: map<nat, Value>)

  /** `map.get(t)`: `undefined` when the target has no wrapper. */
  function Lookup(m: map<nat, Value>, t: nat): Value
  {
    if t in m then m[t] else Undefined
  }

  /** `isExistInReactiveMap() || isExistInReadonlyMap() ||
      isExistInShallowReadonlyMap()`: the `RAW` key read through a
      receiver that is the cached wrapper of the target in one of the maps. */
  predicate RawHit(t: Target, key: string, receiver: Value, caches: Caches)
  {
    key == RawKey &&
    (receiver == Lookup(caches.reactiveMap, t.ref) || receiver == Lookup(caches.readonlyMap, t.ref)
     || receiver == Lookup(caches.shallowReadonlyMap, t.ref))
  }

  /** A key the getter answers itself, without reading the target. */
  predicate Answered(t: Target, key: string, receiver: Value, caches: Caches)
  {
    key == IsReactiveKey || key == IsReadonlyKey || RawHit(t, key, receiver, caches)
  }

  /** A read: the value returned and the events it caused. */
  datatype Read = Read(got: Got, events: seq<Event>)

  /** The getter `createGetter(isReadonly, shallow)` returns, applied to
      `(target, key, receiver)`. The meta-keys answer the variant; `RAW`
      through the target's own wrapper answers the target; the shallow
      getter returns the property as it is and tracks nothing; object
      values come back wrapped by the variant and untracked; and only the
      mutable getter tracks, and only a read that returns a non-object. */
  function Get(isReadonly: bool, shallow: bool, t: Target, key: string, receiver: Value, caches: Caches): (r: Read)
    ensures key == IsReactiveKey ==> r == Read(Plain(Bool(!isReadonly)), [])
    ensures key == IsReadonlyKey ==> r == Read(Plain(Bool(isReadonly)), [])
    ensures RawHit(t, key, receiver, caches) ==> r == Read(Plain(Obj(t.ref)), [])
    ensures !Answered(t, key, receiver, caches) && shallow ==> r == Read(Plain(Prop(t, key)), [])
    ensures !Answered(t, key, receiver, caches) && !shallow && IsObject(Prop(t, key)) ==>
      r.events == [] && r.got == (if isReadonly then ReadonlyOf(Prop(t, key)) else ReactiveOf(Prop(t, key)))
    ensures r.events != [] <==> !isReadonly && !shallow && !Answered(t, key, receiver, caches) && !IsObject(Prop(t, key))
    ensures r.events == [] || r.events == [Track(t.ref, key)]
    ensures r.got.Plain? && !Answered(t, key, receiver, caches) ==> r.got.v == Prop(t, key)
  {
    if key == IsReactiveKey then Read(Plain(Bool(!isReadonly)), [])
    else if key == IsReadonlyKey then Read(Plain(Bool(isReadonly)), [])
    else if RawHit(t, key, receiver, caches) then Read(Plain(Obj(t.ref)), [])
    else
      var res := Prop(t, key);
      if shallow then Read(Plain(res), [])
      else if IsObject(res) then Read(if isReadonly then ReadonlyOf(res) else ReactiveOf(res), [])
      else Read(Plain(res), if !isReadonly then [Track(t.ref, key)] else [])
  }

  /** The three getters: `get`, `readonlyGet` and `shallowReadonlyGet`. */
  datatype Variant = Mutable | Readonly | ShallowReadonly

  function IsReadonly(v: Variant): bool { !v.Mutable? }

  function IsShallow(v: Variant): bool { v.ShallowReadonly? }

  /** A getter never tracks a read that a read-only variant serves, and the
      meta-key `IS_REACTIVE` and `IS_READONLY` answers are opposite. */
  lemma VariantFlags(v: Variant, t: Target, receiver: Value, caches: Caches, key: string)
    ensures Get(IsReadonly(v), IsShallow(v), t, IsReactiveKey, receiver, caches).got
      == Plain(Bool(v == Mutable))
    ensures Get(IsReadonly(v), IsShallow(v), t, IsReadonlyKey, receiver, caches).got
      == Plain(Bool(v != Mutable))
    ensures v != Mutable ==> Get(IsReadonly(v), IsShallow(v), t, key, receiver, caches).events == []
  {
  }

  /** The objects behind the proxies, and the events the handlers caused. */
  class Store {
    var objects: map<nat, map<string, Value>>
    ghost var events: seq<Event>

    constructor(objects: map<nat, map<string, Value>>)
      ensures this.objects == objects && events == []
    {
      this.objects := objects;
      events := [];
    }

    /** A read through the handlers of `variant`: the getter's value, with
        its `track` call, if any, appended to the log. */
    method Read(variant: Variant, ref: nat, key: string, receiver: Value, caches: Caches) returns (got: Got)
      requires ref in objects
      modifies this`events
      ensures var r := Get(IsReadonly(variant), IsShallow(variant), Target(ref, objects[ref]), key, receiver, caches);
        got == r.got && events == old(events) + r.events
    {
      var r := Get(IsReadonly(variant), IsShallow(variant), Target(ref, objects[ref]), key, receiver, caches);
      got := r.got;
      events := events + r.events;
    }

    /** The mutable `set` trap (src/reactivity/baseHandlers.ts:59-65): the
        property is assigned and `trigger(target, key)` follows, also when
        the value is unchanged; it returns what `Reflect.set` returns, true
        for the plain writable properties modelled here. */
    method MutableSet(ref: nat, key: string, newVal: Value) returns (res: bool)
      requires ref in objects
      modifies this
      ensures objects == old(objects)[ref := old(objects)[ref][key := newVal]]
      ensures events == old(events) + [Trigger(ref, key)]
      ensures res
    {
      objects := objects[ref := objects[ref][key := newVal]];
      res := true;
      events := events + [Trigger(ref, key)];
    }

    /** The `set` trap of `readonlyHandlers`, which `shallowReadonlyHandlers`
        copies (src/reactivity/baseHandlers.ts:72-82): it reports success,
        changes nothing and triggers nothing. */
    method ReadonlySet(ref: nat, key: string, newVal: Value) returns (res: bool)
      ensures res
    {
      res := true;
    }
  }

  /** src/reactivity/tests/readonly.spec.ts: a readonly wrapper reads `foo`
      through to the original's 1, wraps the nested `bar` as readonly, and
      a write through it is accepted and leaves the original unchanged. */
  method ReadonlyHappyPath() returns (foo: Got, bar: Got)
    ensures foo == Plain(Num(1)) && bar == ReadonlyOf(Obj(2))
  {
    var original := map["foo" := Num(1), "bar" := Obj(2)];
    var store := new Store(map[1 := original]);
    var caches := Caches(map[], map[1 := Obj(3)], map[]);
    foo := store.Read(Readonly, 1, "foo", Obj(3), caches);
    bar := store.Read(Readonly, 1, "bar", Obj(3), caches);
    var ok := store.ReadonlySet(1, "foo", Num(11));
    assert ok && store.objects[1] == original && store.events == [];
  }
}
