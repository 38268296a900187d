/**
 The bounded content cache of the transcript renderer (apps/vscode/media/chat.js): the key is only a hash of the
 source, so different sources may share a slot.
 */
module RenderCache {

  const CAPACITY := 512

  datatype Slot<S, V> = Slot(source: S, value: V)

  ghost predicate Distinct<K>(order: seq<K>)
  {
    forall i, j :: 0 <= i < j < |order| ==> order[i] != order[j]
  }

  /** One cache of one pure derivation. */
  class Cache<K(==,!new), S(==), V> {
    var slots: map<K, Slot<S, V>>
    var order: seq<K>
    const derive: S -> V

    constructor (derive: S -> V)
      ensures this.derive == derive && Valid() && order == []
    {
      this.derive, slots, order := derive, map[], [];
    }

    /** Every slot holds what deriving from its own source gives; the order list is a duplicate-free listing of the
        keys within the bound. */
    ghost predicate Valid()
      reads this
    {
      && (forall k :: k in slots ==> slots[k].value == derive(slots[k].source))
      && (forall k :: k in slots <==> k in order)
      && Distinct(order) && |order| <= CAPACITY
    }

    /** The value is the one derived from exactly this source, whatever else shares the key; only the key's own
        slot and the oldest one can change. */
    method CachedRender(key: K, source: S) returns (value: V)
      requires Valid()
      modifies this
      ensures Valid() && value == derive(source)
      ensures old(key in slots && slots[key].source == source) ==> slots == old(slots) && order == old(order)
      ensures !old(key in slots && slots[key].source == source) ==>
                var grown := old(if key in slots then order else order + [key]);
                && order == (if |grown| > CAPACITY then grown[1..] else grown)
                && key in slots && slots[key] == Slot(source, value)
                && (forall k :: k in slots && k != key ==> k in old(slots) && slots[k] == old(slots[k]))
    {
      if key in slots && slots[key].source == source {
        return slots[key].value;
      }
      value := derive(source);
      var existing := key in slots;
      slots := slots[key := Slot(source, value)];
      if !existing {
        order := order + [key];
        assert order[|order| - 1] == key;
      }
      assert Listed();
      if |order| > CAPACITY {
        var drop := order[0];
        assert forall k :: k in order <==> k == drop || k in order[1..];
        order := order[1..];
        slots := slots - {drop};
      }
    }

    ghost predicate Listed()
      reads this
    {
      Distinct(order) && forall k :: k in slots <==> k in order
    }
  }
}
