/** The entity registry (`struct map`): an array of slots hashed by id,
    with collision chains linked through `next`, a downward cursor that
    hands out spare slots, and doubling when the cursor runs out. */
module Registry {
  import opened Entities
  import opened HashSlots
  import opened Geometry

  /** The rehash loop never fills the doubled table: it holds at most as
      many entries as the old table had live ones. */
  lemma {:induction false} RehashRoom(live: map<Id, Entity>, live0: map<Id, Entity>, index0: map<Id, int>,
                                      occupied: set<int>, index: map<Id, int>, oldSize: int)
    requires live.Keys <= live0.Keys && live0.Keys <= index0.Keys && index.Keys == live.Keys
    requires |occupied| == |index| && |index0| <= oldSize
    ensures |occupied| <= oldSize
  {
    SubsetCard(live.Keys, live0.Keys);
    SubsetCard(live0.Keys, index0.Keys);
  }

  /** Case @3 followed by the reinsertion of a live displaced entry k
      leaves every other entity where it was. */
  lemma {:induction false} Reinserted(live: map<Id, Entity>, keys: set<Id>, k: Id, id: Id, obj: Entity)
    requires k in live && k != id && live.Keys <= keys
    ensures ((live - {k})[id := obj])[k := live[k]] == live[id := obj]
    ensures ((keys - {k}) + {id}) + {k} <= keys + {id}
  {
    assert ((live - {k})[id := obj])[k := live[k]].Keys == live[id := obj].Keys;
  }

  /** Case @3 discarding a displaced tombstone k: the live entities are
      those before plus the new one. */
  lemma {:induction false} Discarded(live: map<Id, Entity>, keys: set<Id>, k: Id, id: Id, obj: Entity)
    requires k !in live
    ensures (live - {k})[id := obj] == live[id := obj]
    ensures (keys - {k}) + {id} <= keys + {id}
  {
    assert (live - {k})[id := obj].Keys == live[id := obj].Keys;
  }

  /** The entities a `map_foreach` visits: the non-null objects of the
      slots, in slot order. */
  function LiveObjects(s: seq<Slot>): (objs: seq<Entity>)
    ensures |objs| <= |s|
    ensures forall o :: o in objs ==> exists i :: 0 <= i < |s| && s[i].obj == o
    ensures forall i :: 0 <= i < |s| && s[i].obj != null ==> s[i].obj in objs
  {
    if s == [] then []
    else
      var rest := LiveObjects(s[..|s| - 1]);
      var last := s[|s| - 1];
      assert forall i :: 0 <= i < |s| - 1 ==> s[..|s| - 1][i] == s[i];
      if last.obj != null then rest + [last.obj] else rest
  }

  /** A `map_foreach` visits exactly the live entities of the table: each
      one it visits is registered under its own id, and each registered
      one is visited. */
  lemma {:induction false} ObjectsAreLive(st: Store)
    requires Inv(st)
    ensures forall o :: o in LiveObjects(st.slots) ==> o.id in st.live && st.live[o.id] == o
    ensures forall k :: k in st.live ==> st.live[k] in LiveObjects(st.slots)
  {
    VisitedAreLive(st);
    LiveAreVisited(st);
  }

  lemma {:induction false} VisitedAreLive(st: Store)
    requires FreeClean(st.slots) && SlotIds(st.slots, st.index) && LiveAgrees(st.slots, st.index, st.live)
    ensures forall o :: o in LiveObjects(st.slots) ==> o.id in st.live && st.live[o.id] == o
  {
    var s := st.slots;
    forall o | o in LiveObjects(s)
      ensures o.id in st.live && st.live[o.id] == o
    {
      var i :| 0 <= i < |s| && s[i].obj == o;
      var k := s[i].id;
      assert k in st.index && st.index[k] == i;
      assert st.live[k] == o;
    }
  }

  lemma {:induction false} LiveAreVisited(st: Store)
    requires LiveAgrees(st.slots, st.index, st.live)
    ensures forall k :: k in st.live ==> st.live[k] in LiveObjects(st.slots)
  {
    forall k | k in st.live
      ensures st.live[k] in LiveObjects(st.slots)
    {
      assert st.slots[st.index[k]].obj == st.live[k];
    }
  }

  /** No entity appears twice. */
  predicate Distinct(objs: seq<Entity>)
  {
    forall i, j :: 0 <= i < j < |objs| ==> objs[i] != objs[j]
  }

  /** Slots whose objects are pairwise different list each object once. */
  lemma {:induction false} LiveObjectsDistinct(s: seq<Slot>)
    requires forall i, j :: 0 <= i < j < |s| && s[i].obj != null ==> s[i].obj != s[j].obj
    ensures Distinct(LiveObjects(s))
  {
    if s != [] {
      var t := s[..|s| - 1];
      assert forall i :: 0 <= i < |t| ==> t[i] == s[i];
      LiveObjectsDistinct(t);
      var last := s[|s| - 1];
      if last.obj != null {
        assert last.obj !in LiveObjects(t);
      }
    }
  }

  /** Two slots never hold the same entity: it carries the id of both. */
  lemma SlotObjectsDistinct(st: Store)
    requires FreeClean(st.slots) && SlotIds(st.slots, st.index) && LiveAgrees(st.slots, st.index, st.live)
    ensures forall i, j :: 0 <= i < j < |st.slots| && st.slots[i].obj != null ==> st.slots[i].obj != st.slots[j].obj
  {
    var s := st.slots;
    forall i, j | 0 <= i < j < |s| && s[i].obj != null
      ensures s[i].obj != s[j].obj
    {
      var k := s[i].id;
      assert k in st.index && st.index[k] == i;
      assert st.live[k].id == k;
      assert s[j].obj != null ==> st.index[s[j].id] == j && st.live[s[j].id].id == s[j].id;
    }
  }

  /** The part of the invariant the rehash loop relies on in the old
      table: used slots and the index agree, the live entities sit in their
      slots, and there are no more ids than slots. */
  ghost predicate Rehashable(st: Store)
  {
    && FreeClean(st.slots) && SlotIds(st.slots, st.index) && IndexAgrees(st.slots, st.index)
    && LiveAgrees(st.slots, st.index, st.live) && |st.index| <= |st.slots|
  }

  /** The live entities of st whose slot lies below i: those the rehash
      loop has put back after visiting slots 0 .. i-1. */
  ghost function LiveBefore(st: Store, i: int): map<Id, Entity>
  {
    map k | k in st.live && k in st.index && st.index[k] < i :: st.live[k]
  }

  lemma {:induction false} LiveBeforeNone(st: Store)
    requires Rehashable(st)
    ensures LiveBefore(st, 0) == map[]
  {
    assert LiveBefore(st, 0).Keys == {};
  }

  lemma {:induction false} LiveBeforeAll(st: Store)
    requires Rehashable(st)
    ensures LiveBefore(st, |st.slots|) == st.live
  {
    assert LiveBefore(st, |st.slots|).Keys == st.live.Keys;
  }

  /** Visiting slot i adds its entity, if it holds a live one, and nothing
      else. */
  lemma {:induction false} RehashStep(st: Store, i: int)
    requires Rehashable(st) && 0 <= i < |st.slots|
    ensures st.slots[i].obj == null ==> LiveBefore(st, i + 1) == LiveBefore(st, i)
    ensures st.slots[i].obj != null ==>
      && 0 <= st.slots[i].id < INVALID_ID
      && st.slots[i].id in st.live && st.live[st.slots[i].id] == st.slots[i].obj
      && st.slots[i].obj.id == st.slots[i].id
      && st.slots[i].id !in LiveBefore(st, i)
      && LiveBefore(st, i + 1) == LiveBefore(st, i)[st.slots[i].id := st.slots[i].obj]
  {
    var s := st.slots;
    if s[i].obj == null {
      SkipStep(st, i);
    } else {
      var k := s[i].id;
      assert k in st.index && st.index[k] == i;
      AddStep(st, i, k);
    }
  }

  lemma {:induction false} SkipStep(st: Store, i: int)
    requires 0 <= i < |st.slots| && st.slots[i].obj == null
    requires LiveAgrees(st.slots, st.index, st.live)
    ensures LiveBefore(st, i + 1) == LiveBefore(st, i)
  {
    forall k | k in LiveBefore(st, i + 1) ensures k in LiveBefore(st, i) {
      assert st.slots[st.index[k]].obj == st.live[k];
    }
    assert LiveBefore(st, i + 1).Keys == LiveBefore(st, i).Keys;
  }

  lemma {:induction false} AddStep(st: Store, i: int, k: Id)
    requires k in st.live && k in st.index && st.index[k] == i && 0 <= i < |st.slots| && st.slots[i].id == k
    requires IndexAgrees(st.slots, st.index)
    ensures k !in LiveBefore(st, i)
    ensures LiveBefore(st, i + 1) == LiveBefore(st, i)[k := st.live[k]]
  {
    forall j | j in LiveBefore(st, i + 1) && j !in LiveBefore(st, i) ensures j == k {
      assert st.slots[st.index[j]].id == j;
    }
    assert LiveBefore(st, i + 1).Keys == LiveBefore(st, i).Keys + {k};
  }

  /** What the walk from id's home finds: its slot, holding its live
      entity or nothing, or no slot and then no live entity. */
  lemma {:induction false} Found(st: Store, id: Id, i: int)
    requires IndexAgrees(st.slots, st.index) && LiveAgrees(st.slots, st.index, st.live)
    requires i == (if id in st.index then st.index[id] else -1)
    ensures i < 0 ==> id !in st.live && st.live - {id} == st.live
    ensures i >= 0 ==>
      && 0 <= i < |st.slots| && st.slots[i].id == id
      && st.slots[i].obj == (if id in st.live then st.live[id] else null)
      && Dropped(st, i).live == st.live - {id}
  {
    if i >= 0 && st.slots[i].obj != null {
      assert id in st.live;
    }
    if i < 0 {
      assert (st.live - {id}).Keys == st.live.Keys;
    }
  }

  /** The loop of `map_foreach`: the non-null objects of the slots, in
      slot order. */
  method Visit(slots: array<Slot>) returns (objs: seq<Entity>)
    ensures objs == LiveObjects(slots[..])
  {
    objs := [];
    for i := 0 to slots.Length
      invariant objs == LiveObjects(slots[..i])
    {
      assert slots[..i + 1][..i] == slots[..i];
      if slots[i].obj != null {
        objs := objs + [slots[i].obj];
      }
    }
    assert slots[..slots.Length] == slots[..];
  }

  /** One step of the rehash loop on values: a slot without an object
      leaves the entities as they are, a slot with one adds it under its
      id, which is new; at most cap entities ever result. */
  ghost predicate StepOk(s: Slot, before: map<Id, Entity>, after: map<Id, Entity>, cap: int)
  {
    && |after| <= cap
    && (s.obj == null ==> after == before)
    && (s.obj != null ==>
          && 0 <= s.id < INVALID_ID && s.obj.id == s.id && s.id !in before
          && after == before[s.id := s.obj])
  }

  /** What the rehash loop puts back, slot by slot, ends with every live
      entity of the old table. */
  lemma {:induction false} RehashPlan(st: Store) returns (steps: seq<map<Id, Entity>>)
    requires Rehashable(st)
    ensures |steps| == |st.slots| + 1 && steps[0] == map[] && steps[|st.slots|] == st.live
    ensures forall i :: 0 <= i < |st.slots| ==> StepOk(st.slots[i], steps[i], steps[i + 1], |st.slots|)
  {
    steps := seq(|st.slots| + 1, i => LiveBefore(st, i));
    LiveBeforeNone(st);
    LiveBeforeAll(st);
    forall i | 0 <= i < |st.slots|
      ensures StepOk(st.slots[i], steps[i], steps[i + 1], |st.slots|)
    {
      RehashStep(st, i);
      LiveBeforeFits(st, i + 1);
    }
  }

  lemma {:induction false} LiveBeforeFits(st: Store, i: int)
    requires Rehashable(st)
    ensures |LiveBefore(st, i)| <= |st.slots|
  {
    SubsetCard(LiveBefore(st, i).Keys, st.index.Keys);
  }

  /** The table counts one used slot per id, so as many as live ids when
      those are the ids. */
  lemma {:induction false} SameCount(occupied: set<int>, index: map<Id, int>, live: map<Id, Entity>)
    requires |occupied| == |index| && index.Keys == live.Keys
    ensures |occupied| == |live|
  {
    assert |index| == |index.Keys| && |live| == |live.Keys|;
  }

  lemma {:induction false} LiveIndexed(st: Store)
    requires LiveAgrees(st.slots, st.index, st.live)
    ensures st.live.Keys <= st.index.Keys
  {
  }

  /** After an insertion of id into a table whose ids were the live ones,
      they still are. */
  lemma {:induction false} KeysMatch(index: set<Id>, live: set<Id>, keys: set<Id>, id: Id)
    requires index <= keys + {id} && live == keys + {id} && live <= index
    ensures index == live
  {
  }

  class EntityMap {
    var size: int
    var lastfree: int
    var slot: array<Slot>

    /** The table as a value, with the bookkeeping that explains it. */
    ghost var model: Store

    ghost predicate Valid()
      reads this, slot
    {
      slot.Length == size && slot[..] == model.slots && lastfree == model.lastfree && Inv(model)
    }

    /** 0 while some slot is free, 1 when the table is full. */
    ghost function Level(): int
      reads this
    {
      if |model.occupied| < size then 0 else 1
    }

    /** 1 when inserting id would displace a relocated entry from its home. */
    ghost function Evicts(id: Id): int
      reads this
    {
      var h := Home(id, size);
      var s := model.slots;
      if 0 <= h < |s| && s[h].id != INVALID_ID && Home(s[h].id, size) != h then 1 else 0
    }

    /** An empty table of PRE_ALLOC slots with the cursor at the top
        (`map_new`). */
    constructor ()
      ensures Valid() && fresh(slot)
      ensures size == PRE_ALLOC && model == Empty(PRE_ALLOC)
      ensures model.live == map[] && model.index == map[]
    {
      size := PRE_ALLOC;
      lastfree := PRE_ALLOC - 1;
      slot := new Slot[PRE_ALLOC](_ => EmptySlot);
      model := Empty(PRE_ALLOC);
      new;
      assert IsPow2(16) by {
        assert IsPow2(1) && IsPow2(2) && IsPow2(4) && IsPow2(8);
      }
      EmptyValid(PRE_ALLOC);
      assert slot[..] == model.slots;
    }

    /** Writes one slot and records the model that results. */
    method WriteSlot(i: int, v: Slot, ghost next: Store)
      requires 0 <= i < slot.Length
      requires next.slots == slot[..][i := v] && next.lastfree == lastfree
      modifies this, slot
      ensures slot[..] == next.slots && model == next
      ensures slot == old(slot) && size == old(size) && lastfree == old(lastfree)
    {
      slot[i] := v;
      model := next;
    }

    /** Writes slot i and then slot j, sets the cursor, and records the
        model that results. */
    method WriteSlots(i: int, v: Slot, j: int, w: Slot, cursor: int, ghost next: Store)
      requires 0 <= i < slot.Length && 0 <= j < slot.Length
      requires next.slots == slot[..][i := v][j := w] && next.lastfree == cursor
      modifies this, slot
      ensures slot[..] == next.slots && model == next && lastfree == cursor
      ensures slot == old(slot) && size == old(size)
    {
      slot[i] := v;
      slot[j] := w;
      lastfree := cursor;
      model := next;
    }

    /** Sets the cursor and records the model that results. */
    method MoveCursor(cursor: int, ghost next: Store)
      requires next.slots == slot[..] && next.lastfree == cursor
      modifies this
      ensures slot[..] == next.slots && model == next && lastfree == cursor
      ensures slot == old(slot) && size == old(size)
    {
      lastfree := cursor;
      model := next;
    }

    /** The walk shared by `map_query` and `map_drop`: from the id's main
        position, follow `next` until the id or the end of the chain. The
        slot found is the one the index records (and so the one the
        reference walk `FindFrom` finds, by `FindIsIndex`). */
    method Locate(id: Id) returns (i: int)
      requires Valid()
      ensures i == (if id in model.index then model.index[id] else -1)
    {
      var h := MainPosition(id, size);
      HeadInUse(model.slots, model.chains, model.pos, h);
      if id in model.index {
        assert model.chains[h][model.pos[model.index[id]]] == model.index[id];
      }
      if slot[h].id == INVALID_ID {
        assert model.slots[h].next == -1;
        return -1;
      }
      ghost var g := Home(slot[h].id, size);
      assert model.chains[g][model.pos[h]] == h;
      i := Walk(id, h, g, model.pos[h]);
    }

    /** The loop of `Locate`, from the j-th slot cur of chain g on. */
    method Walk(id: Id, cur: int, ghost g: int, ghost j: int) returns (i: int)
      requires Valid()
      requires 0 <= g < |model.chains| && 0 <= j < |model.chains[g]| && cur == model.chains[g][j]
      requires id in model.index ==> g == Home(id, size) && j <= model.pos[model.index[id]]
      ensures i == (if id in model.index then model.index[id] else -1)
    {
      ghost var chains, pos := model.chains, model.pos;
      var c := cur;
      ghost var k := j;
      while true
        invariant 0 <= k < |chains[g]| && c == chains[g][k]
        invariant id in model.index ==> k <= pos[model.index[id]]
        decreases |chains[g]| - k
      {
        if slot[c].id == id {
          return c;
        }
        if id in model.index {
          assert pos[model.index[id]] != k;
        }
        if slot[c].next < 0 {
          assert k < |chains[g]| - 1 ==> model.slots[c].next == chains[g][k + 1];
          return -1;
        }
        assert model.slots[chains[g][|chains[g]| - 1]].next == -1;
        assert model.slots[c].next == chains[g][k + 1];
        c := slot[c].next;
        k := k + 1;
      }
    }

    /** Adds an id that is not in the table (`map_insert`). Every live
        entity stays, under its id, and the new one joins them; only
        tombstones leave the table, and a tombstone relocated into the
        id's main position always does. The table keeps its size while a
        slot is free; otherwise it keeps it or exactly doubles. */
    method Insert(id: Id, obj: Entity)
      requires Valid() && id !in model.index && obj.id == id
      modifies this, slot
      ensures Valid()
      ensures model.live == old(model.live)[id := obj]
      ensures model.index.Keys <= old(model.index.Keys) + {id}
      ensures forall k :: k in old(model.index) && k !in model.index ==> k !in old(model.live)
      ensures var h := Home(id, old(size));
        0 <= h < |old(model.slots)| && old(Evicts(id)) == 1 && old(model.slots)[h].obj == null ==>
          old(model.slots)[h].id !in model.index
      ensures size == old(size) || size == 2 * old(size)
      ensures old(Level()) == 0 ==> size == old(size)
      ensures slot == old(slot) || fresh(slot)
      decreases Level(), 1, Evicts(id), 1
    {
      var h := MainPosition(id, size);
      if slot[h].id == INVALID_ID {
        Claim(h, id, obj);
      } else {
        assert 0 <= slot[h].id < INVALID_ID by {
          assert model.slots[h] == slot[h];
        }
        if MainPosition(slot[h].id, size) != h {
          Evict(h, id, obj);
        } else {
          Append(h, id, obj);
        }
      }
      LiveIndexed(model);
    }

    /** Case @1: the id's main position is free and takes it. */
    method Claim(h: int, id: Id, obj: Entity)
      requires Valid() && id !in model.index && obj.id == id
      requires h == Home(id, size) && 0 <= h < slot.Length && slot[h].id == INVALID_ID
      modifies this, slot
      ensures Valid() && model == Claimed(old(model), h, id, obj)
      ensures size == old(size) && slot == old(slot)
    {
      ClaimKeeps(model, h, id, obj);
      WriteSlot(h, slot[h].(id := id, obj := obj), Claimed(model, h, id, obj));
    }

    /** Case @3: the main position holds an entry relocated there from
        another chain. That entry is unlinked from its chain, whose walk
        from its own main position finds its predecessor; the new id takes
        the slot; the displaced entry is inserted again when live and
        discarded when it is a tombstone. */
    method Evict(h: int, id: Id, obj: Entity)
      requires Valid() && id !in model.index && obj.id == id
      requires h == Home(id, size) && 0 <= h < slot.Length && slot[h].id != INVALID_ID
      requires Home(slot[h].id, size) != h
      modifies this, slot
      ensures Valid()
      ensures model.live == old(model.live)[id := obj]
      ensures model.index.Keys <= old(model.index.Keys) + {id}
      ensures old(slot[h].obj) == null ==> old(slot[h].id) !in model.index
      ensures old(slot[h].obj) != null ==> old(slot[h].id) in model.index
      ensures size == old(size) || size == 2 * old(size)
      ensures old(Level()) == 0 ==> size == old(size)
      ensures slot == old(slot) || fresh(slot)
      decreases Level(), 1, 1, 0
    {
      var last, g, p := Predecessor(h);
      ghost var live0, keys0 := model.live, model.index.Keys;
      var tempId, tempObj := Unlink(h, last, id, obj, g, p);
      if tempObj != null {
        assert tempId in live0 && live0[tempId] == tempObj;
        HeadInUse(model.slots, model.chains, model.pos, g);
        Insert(tempId, tempObj);
        Reinserted(live0, keys0, tempId, id, obj);
        LiveIndexed(model);
      } else {
        Discarded(live0, keys0, tempId, id, obj);
      }
    }

    /** The slot whose `next` is h, found by walking h's chain from the
        main position of the id h holds; g and p name that chain and h's
        place in it. */
    method Predecessor(h: int) returns (last: int, ghost g: int, ghost p: int)
      requires Valid() && 0 <= h < slot.Length && slot[h].id != INVALID_ID
      requires Home(slot[h].id, size) != h
      ensures g == Home(slot[h].id, size) && p == model.pos[h]
      ensures 0 <= g < |model.chains| && 1 <= p < |model.chains[g]|
      ensures model.chains[g][p] == h && model.chains[h] == []
      ensures last == model.chains[g][p - 1] && 0 <= last < slot.Length && last != h
      ensures slot[last].id != INVALID_ID && slot[last].next == h
    {
      ghost var chains, pos := model.chains, model.pos;
      g, p := UnlinkSite(model.slots, chains, pos, h);
      var tempId: Id := slot[h].id;
      last := MainPosition(tempId, size);
      ghost var j := 0;
      assert pos[chains[g][0]] == 0;
      while slot[last].next != h
        invariant 0 <= j < p && last == chains[g][j]
        decreases p - j
      {
        assert model.slots[last].next == chains[g][j + 1];
        assert pos[chains[g][j + 1]] == j + 1;
        assert j + 1 != p by {
          assert chains[g][p] == h;
        }
        last := slot[last].next;
        j := j + 1;
      }
      assert model.slots[last].next == chains[g][j + 1];
      assert pos[chains[g][j + 1]] == j + 1;
    }

    /** Splices slot h out of chain g behind `last` and gives it to id as
        a one-slot chain; returns the entry h held. */
    method Unlink(h: int, last: int, id: Id, obj: Entity, ghost g: int, ghost p: int) returns (tempId: Id, tempObj: Entity?)
      requires Valid() && id !in model.index && obj.id == id
      requires h == Home(id, size) && 0 <= h < slot.Length && slot[h].id != INVALID_ID
      requires g == Home(slot[h].id, size) && g != h
      requires 0 <= g < |model.chains| && 1 <= p < |model.chains[g]|
      requires model.chains[g][p] == h && model.chains[h] == []
      requires last == model.chains[g][p - 1] && 0 <= last < slot.Length && last != h
      requires slot[last].id != INVALID_ID
      modifies this, slot
      ensures Valid() && model == Unlinked(old(model), h, g, p, id, obj)
      ensures tempId == old(slot[h].id) && tempObj == old(slot[h].obj)
      ensures size == old(size) && slot == old(slot)
    {
      UnlinkKeeps(model, h, g, p, id, obj);
      tempId, tempObj := slot[h].id, slot[h].obj;
      WriteSlots(last, slot[last].(next := slot[h].next), h, Slot(id, obj, -1), lastfree, Unlinked(model, h, g, p, id, obj));
    }

    /** Case @2: the main position heads the id's own chain. The cursor
        moves down to the next free slot, which takes the id and is linked
        right after the main position; when the cursor runs out the table
        is rehashed and the insertion starts over. */
    method Append(h: int, id: Id, obj: Entity)
      requires Valid() && id !in model.index && obj.id == id
      requires h == Home(id, size) && 0 <= h < slot.Length && slot[h].id != INVALID_ID
      requires Home(slot[h].id, size) == h
      modifies this, slot
      ensures Valid()
      ensures model.live == old(model.live)[id := obj]
      ensures model.index.Keys <= old(model.index.Keys) + {id}
      ensures size == old(size) || size == 2 * old(size)
      ensures old(Level()) == 0 ==> size == old(size)
      ensures slot == old(slot) || fresh(slot)
      decreases Level(), 1, 0, 0
    {
      var linked := Probe(h, id, obj);
      if !linked {
        CursorSpent(model);
        Rehash();
        Insert(id, obj);
      }
    }

    /** The cursor walk of case @2: links id into the first free slot
        below the cursor, or reports that the cursor ran out. */
    method Probe(h: int, id: Id, obj: Entity) returns (linked: bool)
      requires Valid() && id !in model.index && obj.id == id
      requires h == Home(id, size) && 0 <= h < slot.Length && slot[h].id != INVALID_ID
      requires Home(slot[h].id, size) == h
      modifies this, slot
      ensures Valid() && size == old(size) && slot == old(slot)
      ensures linked ==> model.live == old(model.live)[id := obj]
      ensures linked ==> model.index.Keys <= old(model.index.Keys) + {id}
      ensures !linked ==> model == old(model).(lastfree := lastfree) && lastfree < 0
    {
      while lastfree >= 0
        invariant Valid() && slot == old(slot) && size == old(size)
        invariant model == old(model).(lastfree := lastfree)
        decreases lastfree
      {
        var t := lastfree;
        if slot[t].id == INVALID_ID {
          LinkKeeps(model, h, t, id, obj);
          WriteSlots(t, Slot(id, obj, slot[h].next), h, slot[h].(next := t), t - 1, Linked(model, h, t, id, obj));
          return true;
        }
        SkipKeeps(model);
        MoveCursor(t - 1, Skipped(model));
      }
      return false;
    }

    /** The entity registered under id, created with one reference when
        the id has none (`map_query`). A slot whose entity was dropped
        gets a new one in place; an unknown id is inserted. */
    method Query(id: Id) returns (obj: Entity)
      requires Valid()
      modifies this, slot
      ensures Valid() && obj.id == id && id in model.live && model.live[id] == obj
      ensures id in old(model.live) ==>
        obj == old(model.live)[id] && model == old(model) && slot == old(slot) && size == old(size)
      ensures id !in old(model.live) ==>
        && fresh(obj) && obj.ref == 1 && obj.version == 0 && obj.mode == 0
        && obj.last == Origin && obj.position == Origin
        && model.live == old(model.live)[id := obj]
      ensures model.index.Keys <= old(model.index.Keys) + {id}
      ensures slot == old(slot) || fresh(slot)
      ensures forall e: Entity :: old(allocated(e)) ==>
        && e.ref == old(e.ref) && e.version == old(e.version) && e.mode == old(e.mode)
        && e.last == old(e.last) && e.position == old(e.position)
    {
      var i := Locate(id);
      Found(model, id, i);
      if i >= 0 && slot[i].obj != null {
        return slot[i].obj;
      }
      obj := new Entity(id);
      Register(id, i, obj);
    }

    /** Files a new entity under an id that has none: in the id's slot when
        it holds a tombstone (i), or by inserting the id (i is -1). */
    method Register(id: Id, i: int, obj: Entity)
      requires Valid() && obj.id == id && i == (if id in model.index then model.index[id] else -1)
      requires id !in model.live
      modifies this, slot
      ensures Valid() && model.live == old(model.live)[id := obj]
      ensures model.index.Keys <= old(model.index.Keys) + {id}
      ensures slot == old(slot) || fresh(slot)
    {
      Found(model, id, i);
      if i >= 0 {
        Revive(i, obj);
      } else {
        Insert(id, obj);
      }
    }

    /** Detaches the entity registered under id and returns it, or null when
        there is none; the id keeps its slot as a tombstone (`map_drop`). */
    method Drop(id: Id) returns (obj: Entity?)
      requires Valid()
      modifies this, slot
      ensures Valid() && slot == old(slot) && size == old(size)
      ensures obj == (if id in old(model.live) then old(model.live)[id] else null)
      ensures model.live == old(model.live) - {id} && model.index == old(model.index)
    {
      var i := Locate(id);
      Found(model, id, i);
      if i < 0 {
        return null;
      }
      obj := slot[i].obj;
      Detach(i);
    }

    /** Empties the object of used slot i, keeping its id and link. */
    method Detach(i: int)
      requires Valid() && 0 <= i < slot.Length && slot[i].id != INVALID_ID
      modifies this, slot
      ensures 0 <= old(slot[i].id) < INVALID_ID
      ensures Valid() && model == Dropped(old(model), i)
      ensures slot == old(slot) && size == old(size)
    {
      DropKeeps(model, i);
      WriteSlot(i, slot[i].(obj := null), Dropped(model, i));
    }

    /** Gives used slot i the object o, which carries the slot's id. */
    method Revive(i: int, o: Entity)
      requires Valid() && 0 <= i < slot.Length && slot[i].id != INVALID_ID && o.id == slot[i].id
      modifies this, slot
      ensures 0 <= old(slot[i].id) < INVALID_ID
      ensures Valid() && model == Revived(old(model), i, o)
      ensures slot == old(slot) && size == old(size)
    {
      ReviveKeeps(model, i, o);
      WriteSlot(i, slot[i].(obj := o), Revived(model, i, o));
    }

    /** The entities a `map_foreach` hands to its callback, in slot order:
        exactly the live ones. */
    method Objects() returns (objs: seq<Entity>)
      requires Valid()
      ensures objs == LiveObjects(slot[..])
      ensures forall o :: o in objs ==> o.id in model.live && model.live[o.id] == o
      ensures forall k :: k in model.live ==> model.live[k] in objs
      ensures Distinct(objs)
    {
      objs := Visit(slot);
      Listed();
    }

    /** What Objects lists, as a fact about the table. */
    lemma Listed()
      requires Valid()
      ensures forall o :: o in LiveObjects(slot[..]) ==> o.id in model.live && model.live[o.id] == o
      ensures forall k :: k in model.live ==> model.live[k] in LiveObjects(slot[..])
      ensures Distinct(LiveObjects(slot[..]))
    {
      ObjectsAreLive(model);
      SlotObjectsDistinct(model);
      LiveObjectsDistinct(model.slots);
    }

    /** Replaces the slots by a fresh array of newSize free slots with the
        cursor at the top; the entities held before are forgotten here and
        put back by the caller. */
    method Grow(newSize: int)
      requires IsPow2(newSize) && newSize >= PRE_ALLOC
      modifies this
      ensures Valid() && fresh(slot)
      ensures size == newSize && model == Empty(newSize)
    {
      size := newSize;
      lastfree := newSize - 1;
      slot := new Slot[newSize](_ => EmptySlot);
      model := Empty(newSize);
      EmptyValid(newSize);
      assert slot[..] == model.slots;
    }

    /** One step of the rehash loop: the entity of an old slot, if it has
        one, goes into the current table, which then holds after. */
    method Restore(s: Slot, ghost after: map<Id, Entity>, ghost cap: int)
      requires Valid() && model.index.Keys == model.live.Keys && size == 2 * cap
      requires StepOk(s, model.live, after, cap)
      modifies this, slot
      ensures Valid() && (slot == old(slot) || fresh(slot)) && size == old(size)
      ensures model.live == after && model.index.Keys == model.live.Keys
      ensures |model.occupied| <= cap
      decreases Level(), 2, 0, 0
    {
      SameCount(model.occupied, model.index, model.live);
      if s.obj != null {
        ghost var keys := model.live.Keys;
        Insert(s.id, s.obj);
        LiveIndexed(model);
        KeysMatch(model.index.Keys, model.live.Keys, keys, s.id);
        SameCount(model.occupied, model.index, model.live);
      }
    }

    /** The rehash loop: visits the old slots in order and puts each live
        entity back into the current, initially empty, table; steps[i] is
        what the table holds after i slots. */
    method RestoreAll(oldSlots: seq<Slot>, ghost steps: seq<map<Id, Entity>>)
      requires Valid() && model.live == map[] && model.index == map[] && model.occupied == {}
      requires size == 2 * |oldSlots| && |steps| == |oldSlots| + 1 && steps[0] == map[]
      requires forall i :: 0 <= i < |oldSlots| ==> StepOk(oldSlots[i], steps[i], steps[i + 1], |oldSlots|)
      modifies this, slot
      ensures Valid() && (slot == old(slot) || fresh(slot)) && size == old(size)
      ensures model.live == steps[|oldSlots|] && model.index.Keys == model.live.Keys
      ensures |model.occupied| <= |oldSlots|
      decreases Level(), 3, 0, 0
    {
      for i := 0 to |oldSlots|
        invariant Valid() && (slot == old(slot) || fresh(slot)) && size == old(size)
        invariant model.live == steps[i] && model.index.Keys == model.live.Keys
        invariant |model.occupied| <= |oldSlots|
      {
        Restore(oldSlots[i], steps[i + 1], |oldSlots|);
      }
    }

    /** Doubles the table and inserts every live entity again, in slot
        order, into the fresh array; tombstones are not carried over
        (`rehash`). Its only caller calls it once the cursor is spent. */
    method Rehash()
      requires Valid() && lastfree < 0
      modifies this
      ensures Valid() && fresh(slot)
      ensures size == 2 * old(size)
      ensures model.live == old(model.live) && model.index.Keys == model.live.Keys
      ensures |model.occupied| <= old(size)
      decreases Level(), 0, 0, 0
    {
      CursorSpent(model);
      OccupiedFits(model);
      ghost var steps := RehashPlan(model);
      var oldSlots := slot[..];
      DoubleIsPow2(size);
      Grow(2 * size);
      RestoreAll(oldSlots, steps);
    }
  }
}
