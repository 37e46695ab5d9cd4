/** The ref cell of src/reactivity/ref.ts and the helpers around it.
    `isTracking`, `trackEffects` and `triggerEffects` (effect.ts) are not
    part of this model: whether a computation is tracking and which one is
    active are parameters, and each `triggerEffects(dep)` is recorded in a
    log with the dep set it was given. */
module Ref {
  import opened Shared
  import opened Wrappers
  import opened BaseHandlers

  /** A computation (effect), by identity. */
  type Effect = nat

  /** `convert(value)`: an object is stored as its `reactive` wrapper,
      anything else as it is. */
  function Convert(v: Value): (r: Got)
    ensures r.ReactiveOf? <==> IsObject(v)
    ensures !r.ReadonlyOf?
    ensures (r.Plain? && r.v == v) || (r.ReactiveOf? && r.target == v)
  {
    if IsObject(v) then ReactiveOf(v) else Plain(v)
  }

  /** `class RefIml` */
  class RefIml {
    /** `_rawValue` */
    var rawValue: Value
    /** `_value` */
    var value: Got
    /** `dep` */
    var dep: set<Effect>
    /** The dep sets handed to `triggerEffects`, oldest first. */
    ghost var notified: seq<set<Effect>>

    /** The stored value is always the converted raw value. */
    ghost predicate Valid()
      reads this
    {
      value == Convert(rawValue)
    }

    /** `new RefIml(value)` */
    constructor(v: Value)
      ensures Valid() && rawValue == v && dep == {} && notified == []
    {
      rawValue := v;
      value := Convert(v);
      dep := {};
      notified := [];
    }

    /** The `value` getter: the stored value; `trackRefValue` adds the
        active computation to `dep` only while tracking. */
    method GetValue(tracking: bool, active: Effect) returns (r: Got)
      modifies this`dep
      ensures r == value
      ensures dep == if tracking then old(dep) + {active} else old(dep)
    {
      if tracking {
        dep := dep + {active};
      }
      r := value;
    }

    /** The `value` setter: a value that differs from the raw value (not
        from the converted one) replaces both and triggers `dep` once;
        anything else changes nothing and triggers nothing. */
    method SetValue(newVal: Value)
      modifies this`rawValue, this`value, this`notified
      ensures HasChanged(newVal, old(rawValue)) ==>
        rawValue == newVal && value == Convert(newVal) && notified == old(notified) + [dep]
      ensures !HasChanged(newVal, old(rawValue)) ==>
        rawValue == old(rawValue) && value == old(value) && notified == old(notified)
      ensures old(Valid()) ==> Valid()
    {
      if HasChanged(newVal, rawValue) {
        rawValue := newVal;
        value := Convert(newVal);
        notified := notified + [dep];
      }
    }
  }

  /** Setting an object ref to the object it already holds does not
      trigger, although the stored value is the object's wrapper. */
  method SameObjectIsNoChange(id: nat) returns (cell: RefIml)
    ensures cell.value == ReactiveOf(Obj(id)) && cell.notified == []
  {
    cell := new RefIml(Obj(id));
    cell.SetValue(Obj(id));
  }

  /** `isRef(ref)`, which is `!!ref.__v_isRef`, for values whose objects
      `refs` are the ref cells: reading the property of `null` or
      `undefined` throws. */
  function IsRef(v: Value, refs: set<nat>): (r: Result<bool>)
    ensures r.Err? <==> v == Undefined || v == Null
    ensures r.Ok? ==> (r.value <==> v.Obj? && v.ref in refs)
  {
    match v
    case Undefined => Err(TypeError("Cannot read properties of undefined (reading '__v_isRef')"))
    case Null => Err(TypeError("Cannot read properties of null (reading '__v_isRef')"))
    case Obj(id) => Ok(id in refs)
    case _ => Ok(false)
  }

  /** `unRef(ref)`: a ref's value, read through its getter; any other
      value as it is. */
  method UnRef(v: Value, refs: map<nat, RefIml>, tracking: bool, active: Effect) returns (r: Result<Got>)
    modifies if v.Obj? && v.ref in refs then {refs[v.ref]} else {}
    ensures IsRef(v, refs.Keys).Err? ==> r.Err?
    ensures IsRef(v, refs.Keys) == Ok(false) ==> r == Ok(Plain(v))
    ensures IsRef(v, refs.Keys) == Ok(true) ==>
      && r == Ok(old(refs[v.ref].value))
      && refs[v.ref].dep == (if tracking then old(refs[v.ref].dep) + {active} else old(refs[v.ref].dep))
      && refs[v.ref].rawValue == old(refs[v.ref].rawValue) && refs[v.ref].value == old(refs[v.ref].value)
      && refs[v.ref].notified == old(refs[v.ref].notified)
  {
    var isRef := IsRef(v, refs.Keys);
    if isRef.Err? {
      return Err(isRef.error);
    }
    if isRef.value {
      var got := refs[v.ref].GetValue(tracking, active);
      r := Ok(got);
    } else {
      r := Ok(Plain(v));
    }
  }

  /** The object behind `proxyRefs(objectWithRefs)`, whose values may be
      the ref cells in `refs`. */
  class ProxyRefs {
    var target: map<string, Value>
    const refs: map<nat, RefIml>

    constructor(objectWithRefs: map<string, Value>, refs: map<nat, RefIml>)
      ensures target == objectWithRefs && this.refs == refs
    {
      target := objectWithRefs;
      this.refs := refs;
    }

    /** `Reflect.get(target, key)` */
    function Prop(key: string): Value
      reads this
    {
      if key in target then target[key] else Undefined
    }

    /** The `get` trap: `unRef` of the property. A missing property is
        `undefined`, so `isRef` throws. Only the ref cell the property
        holds, if any, may change, and only its `dep`. */
    method Get(key: string, tracking: bool, active: Effect) returns (r: Result<Got>)
      modifies if Prop(key).Obj? && Prop(key).ref in refs then {refs[Prop(key).ref]} else {}
      ensures var v := old(Prop(key));
        && (v == Undefined || v == Null <==> r.Err?)
        && (IsRef(v, refs.Keys) == Ok(false) ==> r == Ok(Plain(v)))
        && (IsRef(v, refs.Keys) == Ok(true) ==>
              && r == Ok(old(refs[v.ref].value))
              && refs[v.ref].dep == (if tracking then old(refs[v.ref].dep) + {active} else old(refs[v.ref].dep))
              && refs[v.ref].rawValue == old(refs[v.ref].rawValue) && refs[v.ref].value == old(refs[v.ref].value)
              && refs[v.ref].notified == old(refs[v.ref].notified))
      ensures target == old(target)
    {
      r := UnRef(Prop(key), refs, tracking, active);
    }

    /** The `set` trap. When the property holds a ref and the new value is
        not one, the value goes into the ref through its setter (so `dep`
        is triggered once when it changed) and the trap returns the new
        value; otherwise the property is replaced and the trap returns
        true. No other ref cell changes. `isRef` throws for a missing
        property, and for a `null` or `undefined` new value when the
        property is a ref. */
    method Set(key: string, newVal: Value) returns (r: Result<Value>)
      modifies this, if Prop(key).Obj? && Prop(key).ref in refs then {refs[Prop(key).ref]} else {}
      ensures var v := old(Prop(key));
        && (r.Err? <==> v == Undefined || v == Null || (v.Obj? && v.ref in refs && (newVal == Undefined || newVal == Null)))
        && (r.Err? ==> target == old(target) && unchanged(refs.Values))
        && (r.Ok? && v.Obj? && v.ref in refs && !(newVal.Obj? && newVal.ref in refs) ==>
              && r.value == newVal && target == old(target)
              && refs[v.ref].dep == old(refs[v.ref].dep)
              && (HasChanged(newVal, old(refs[v.ref].rawValue)) ==>
                    && refs[v.ref].rawValue == newVal && refs[v.ref].value == Convert(newVal)
                    && refs[v.ref].notified == old(refs[v.ref].notified) + [old(refs[v.ref].dep)])
              && (!HasChanged(newVal, old(refs[v.ref].rawValue)) ==>
                    && refs[v.ref].rawValue == old(refs[v.ref].rawValue)
                    && refs[v.ref].value == old(refs[v.ref].value)
                    && refs[v.ref].notified == old(refs[v.ref].notified))
              && (old(refs[v.ref].Valid()) ==> refs[v.ref].Valid()))
        && (r.Ok? && !(v.Obj? && v.ref in refs && !(newVal.Obj? && newVal.ref in refs)) ==>
              r.value == Bool(true) && target == old(target)[key := newVal] && unchanged(refs.Values))
    {
      var current := Prop(key);
      var currentIsRef := IsRef(current, refs.Keys);
      if currentIsRef.Err? {
        return Err(currentIsRef.error);
      }
      if currentIsRef.value {
        var newIsRef := IsRef(newVal, refs.Keys);
        if newIsRef.Err? {
          return Err(newIsRef.error);
        }
        if !newIsRef.value {
          refs[current.ref].SetValue(newVal);
          return Ok(newVal);
        }
      }
      target := target[key := newVal];
      r := Ok(Bool(true));
    }
  }
}
