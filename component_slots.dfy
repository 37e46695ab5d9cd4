/** Slot initialisation, src/runtime_core/componentSlots.ts. A slot is a
    function from the props it is rendered with to what it renders; the
    loop of `normalizeObjectSlots` writes one normalising wrapper per key
    of the children object into the instance's `slots`. */
module ComponentSlots {
  import opened Shared

  /** What a slot function returns: an array (its elements) or any other
      value. */
  datatype SlotValue = ArrayOf(items: seq<Value>) | Single(v: Value)

  /** A slot function, `(props) => ...`. */
  type Slot = Value -> SlotValue

  /** `normalizeSlotValue(value)`: `Array.isArray(value) ? value : [value]`. */
  function NormalizeSlotValue(value: SlotValue): (r: SlotValue)
    ensures r.ArrayOf?
    ensures value.ArrayOf? ==> r == value
    ensures value.Single? ==> r.items == [value.v]
  {
    if value.ArrayOf? then value else ArrayOf([value.v])
  }

  /** Normalising twice is normalising once. */
  lemma NormalizeIdempotent(value: SlotValue)
    ensures NormalizeSlotValue(NormalizeSlotValue(value)) == NormalizeSlotValue(value)
  {
  }

  /** The wrapper `(props) => normalizeSlotValue(value(props))`. */
  function Normalized(value: Slot): Slot
  {
    (props: Value) => NormalizeSlotValue(value(props))
  }

  /** The part of the component instance that slot initialisation reads
      and writes. `hasSlotChildren` is whether `vnode.shapeFlag` has the
      `SLOT_CHILDREN` bit. */
  class ComponentInstance {
    const hasSlotChildren: bool
    var slots: map<string, Slot>

    constructor(hasSlotChildren: bool, slots: map<string, Slot>)
      ensures this.hasSlotChildren == hasSlotChildren && this.slots == slots
    {
      this.hasSlotChildren := hasSlotChildren;
      this.slots := slots;
    }

    /** `initSlots(instance, children)`: the slots are normalised only when
        the vnode has slot children; otherwise nothing changes. */
    method InitSlots(children: map<string, Slot>)
      modifies this`slots
      ensures !hasSlotChildren ==> slots == old(slots)
      ensures hasSlotChildren ==> SlotsFrom(old(slots), children, slots)
    {
      if hasSlotChildren {
        NormalizeObjectSlots(children);
      }
    }

    /** `normalizeObjectSlots(instance.slots, children)`: for each key of
        the children object, in any order, `slots[key]` becomes the
        normalising wrapper of `children[key]`. */
    method NormalizeObjectSlots(children: map<string, Slot>)
      modifies this`slots
      ensures SlotsFrom(old(slots), children, slots)
    {
      var remaining := children.Keys;
      while remaining != {}
        invariant remaining <= children.Keys
        invariant slots.Keys == old(slots).Keys + (children.Keys - remaining)
        invariant forall key :: key in old(slots) && key !in children ==> slots[key] == old(slots)[key]
        invariant forall key :: key in children.Keys - remaining ==> slots[key] == Normalized(children[key])
        decreases remaining
      {
        var key :| key in remaining;
        var value := children[key];
        slots := slots[key := Normalized(value)];
        remaining := remaining - {key};
      }
      SlotsFromRenders(old(slots), children, slots);
    }
  }

  /** `slots` is `before` with every key of `children` bound to the
      normalising wrapper of its slot, and every other key as it was. */
  ghost predicate SlotsFrom(before: map<string, Slot>, children: map<string, Slot>, slots: map<string, Slot>)
  {
    && slots.Keys == before.Keys + children.Keys
    && (forall key :: key in before && key !in children ==> slots[key] == before[key])
    && (forall key :: key in children ==> slots[key] == Normalized(children[key]))
  }

  /** After normalisation every key of the children has a slot, other
      slots are as they were, and rendering a slot with any props gives
      the children's slot output, normalised to an array that wraps a
      non-array output as its one element. */
  lemma SlotsFromRenders(before: map<string, Slot>, children: map<string, Slot>, slots: map<string, Slot>)
    requires SlotsFrom(before, children, slots)
    ensures forall key :: key in children ==> key in slots
    ensures forall key, props :: key in children ==>
      slots[key](props) == NormalizeSlotValue(children[key](props))
    ensures forall key, props :: key in children ==> slots[key](props).ArrayOf?
    ensures forall key, props :: key in children && children[key](props).Single? ==>
      slots[key](props) == ArrayOf([children[key](props).v])
  {
    forall key, props | key in children
      ensures slots[key](props) == NormalizeSlotValue(children[key](props))
    {
      assert slots[key] == Normalized(children[key]);
    }
  }

  /** Normalising the same children again changes nothing more. */
  lemma SlotsFromTwice(before: map<string, Slot>, children: map<string, Slot>, once: map<string, Slot>, twice: map<string, Slot>)
    requires SlotsFrom(before, children, once) && SlotsFrom(once, children, twice)
    ensures twice == once
  {
    assert twice.Keys == once.Keys;
    forall key | key in once
      ensures twice[key] == once[key]
    {
    }
  }
}
