/** The `get` trap of the component proxy, `PublicInstanceProxyHandlers`
    of src/runtime_core/componentPublicInstance.ts: own state first, then
    own props, then the `$`-properties of `publicPropertiesMap`. It reads
    and never writes, so it is a function. */
module PublicInstance {
  import opened Shared

  /** What the trap reads of the component instance: the own properties of
      `setupState` and of `props`, the `props` object itself, the
      `vnode.el` and the `slots` object. */
  datatype Instance = Instance(
    setupState: map<string, Value>,
    props: map<string, Value>,
    propsObject: Value,
    el: Value,
    slots: Value)

  /** The keys of `publicPropertiesMap`. */
  const PublicKeys: set<string> := {"$el", "$slots", "$props"}

  /** `publicPropertiesMap[key]` applied to the instance, when present. */
  function PublicGetter(i: Instance, key: string): (r: Value)
    requires key in PublicKeys
  {
    if key == "$el" then i.el else if key == "$slots" then i.slots else i.propsObject
  }

  /** `get({_: instance}, key)`. */
  function Get(i: Instance, key: string): (r: Value)
    ensures key in i.setupState ==> r == i.setupState[key]
    ensures key !in i.setupState && key in i.props ==> r == i.props[key]
    ensures key !in i.setupState && key !in i.props ==>
      r == (if key in PublicKeys then PublicGetter(i, key) else Undefined)
  {
    if key in i.setupState then i.setupState[key]
    else if key in i.props then i.props[key]
    else if key in PublicKeys then PublicGetter(i, key)
    else Undefined
  }

  /** Props are consulted only when the state does not own the key: a key
      the state owns reads the same whatever the props hold. */
  lemma StateShadowsProps(i: Instance, key: string, props: map<string, Value>)
    requires key in i.setupState
    ensures Get(i.(props := props), key) == Get(i, key)
  {
  }

  /** `$el`, `$slots` and `$props` are consulted only when neither map owns
      the key: an owned key reads the same whatever the instance's
      element, slots and props object are. */
  lemma OwnedKeysHidePublicProperties(i: Instance, key: string, el: Value, slots: Value, propsObject: Value)
    requires key in i.setupState || key in i.props
    ensures Get(i.(el := el, slots := slots, propsObject := propsObject), key) == Get(i, key)
  {
  }

  /** An unowned `$`-key reads the instance's element, slots or props
      object. */
  lemma PublicPropertiesRead(i: Instance)
    requires forall k :: k in PublicKeys ==> k !in i.setupState && k !in i.props
    ensures Get(i, "$el") == i.el && Get(i, "$slots") == i.slots && Get(i, "$props") == i.propsObject
  {
    assert "$el" in PublicKeys && "$slots" in PublicKeys && "$props" in PublicKeys;
  }

  /** Any other key yields `undefined`, and nothing but the two maps and
      the three `$`-properties is ever read. */
  lemma GetReadsOnlyOwnKeys(i: Instance, key: string)
    ensures Get(i, key) == Undefined || (key in i.setupState && Get(i, key) == i.setupState[key])
      || (key in i.props && Get(i, key) == i.props[key])
      || (key in PublicKeys && Get(i, key) in {i.el, i.slots, i.propsObject})
    ensures key !in i.setupState && key !in i.props && key !in PublicKeys ==> Get(i, key) == Undefined
  {
  }
}
