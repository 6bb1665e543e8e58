/** The growable entity buffers the tick sorts entities into
    (`struct object_set`). */
module ObjectSets {
  import opened Entities
  import opened HashSlots

  /** A buffer of entities: `slot` holds `cap` cells of which the first
      `number` are in use. */
  class ObjectSet {
    var cap: int
    var number: int
    var slot: array<Entity?>

    /** The entities in the used cells, in order. */
    ghost var contents: seq<Entity>

    ghost predicate Valid()
      reads this, slot
    {
      && slot.Length == cap && PRE_ALLOC <= cap && 0 <= number <= cap && |contents| == number
      && forall i :: 0 <= i < number ==> slot[i] == contents[i]
    }

    /** An empty buffer of PRE_ALLOC cells (`set_new`). */
    constructor ()
      ensures Valid() && fresh(slot)
      ensures cap == PRE_ALLOC && number == 0 && contents == []
    {
      cap := PRE_ALLOC;
      number := 0;
      slot := new Entity?[PRE_ALLOC];
      contents := [];
    }

    /** Appends obj at index `number`, first moving the cells to a buffer of
        twice the capacity when every cell is in use (`set_push_back`). */
    method PushBack(obj: Entity)
      requires Valid()
      modifies this, slot
      ensures Valid()
      ensures contents == old(contents) + [obj] && number == old(number) + 1
      ensures cap == (if old(number) >= old(cap) then 2 * old(cap) else old(cap))
      ensures old(number) < old(cap) ==> slot == old(slot)
      ensures old(number) >= old(cap) ==> fresh(slot)
    {
      if number >= cap {
        var bigger := new Entity?[2 * cap];
        forall i | 0 <= i < cap {
          bigger[i] := slot[i];
        }
        slot := bigger;
        cap := 2 * cap;
      }
      slot[number] := obj;
      number := number + 1;
      contents := contents + [obj];
    }

    /** Forgets every entity and keeps the cells (`number = 0`). */
    method Clear()
      requires Valid()
      modifies this
      ensures Valid() && contents == [] && number == 0
      ensures cap == old(cap) && slot == old(slot)
    {
      number := 0;
      contents := [];
    }

    /** The entity in used cell i. */
    method Get(i: int) returns (obj: Entity)
      requires Valid() && 0 <= i < number
      ensures obj == contents[i]
    {
      obj := slot[i];
    }
  }
}
