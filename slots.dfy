/** The value level of the entity registry: the slot layout of the
    power-of-two hash table, the invariant that makes every chain walkable,
    and one lemma per way the table is changed, each showing that the
    invariant survives the change. */
module HashSlots {
  import opened Entities

  /** Initial table size. */
  const PRE_ALLOC: int := 16

  predicate IsPow2(n: int)
    decreases n
  {
    n == 1 || (n >= 2 && n % 2 == 0 && IsPow2(n / 2))
  }

  lemma {:induction false} DoubleIsPow2(n: int)
    requires IsPow2(n)
    ensures IsPow2(2 * n)
  {
    assert (2 * n) / 2 == n;
  }

  /** Bitwise AND of two naturals, taken bit by bit from the least
      significant end. */
  function BitAnd(a: nat, b: nat): nat
  {
    if a == 0 || b == 0 then 0
    else 2 * BitAnd(a / 2, b / 2) + (if a % 2 == 1 && b % 2 == 1 then 1 else 0)
  }

  lemma {:induction false} MulAtLeast(d: int, k: int)
    requires d > 0 && k >= 1
    ensures d * k >= d
  {
    assert d * k == d * (k - 1) + d;
    assert d * (k - 1) >= 0;
  }

  /** The remainder is determined by any quotient/remainder decomposition. */
  lemma {:induction false} ModUnique(x: int, d: int, q: int, r: int)
    requires d > 0 && 0 <= r < d && x == d * q + r
    ensures x % d == r
  {
    var q', r' := x / d, x % d;
    assert x == d * q' + r';
    if q > q' {
      assert d * (q - q') == d * q - d * q';
      MulAtLeast(d, q - q');
    } else if q < q' {
      assert d * (q' - q) == d * q' - d * q;
      MulAtLeast(d, q' - q);
    }
  }

  lemma {:induction false} DivModSplit(id: nat, s: nat)
    requires s >= 1
    ensures 2 * ((id / 2) % s) + id % 2 == id % (2 * s)
  {
    var q, r := id / 2, id % 2;
    var t, u := q / s, q % s;
    assert id == 2 * q + r;
    assert q == s * t + u;
    assert id == (2 * s) * t + (2 * u + r);
    ModUnique(id, 2 * s, t, 2 * u + r);
  }

  /** Masking with `size - 1` keeps the low bits: for a power-of-two size it
      is the remainder modulo the size. */
  lemma {:induction false} MaskIsRemainder(id: nat, size: nat)
    requires IsPow2(size)
    ensures BitAnd(id, size - 1) == id % size
  {
    if size == 1 {
    } else if id == 0 {
    } else {
      var s := size / 2;
      MaskIsRemainder(id / 2, s);
      assert (size - 1) / 2 == s - 1;
      assert (size - 1) % 2 == 1;
      DivModSplit(id, s);
    }
  }

  /** Reference definition of an id's home slot: what is left of the id
      after taking away whole multiples of the table size. */
  function Home(id: int, size: int): (h: int)
    ensures size > 0 ==> 0 <= h < size
    decreases id
  {
    if size <= 0 || id < 0 then 0
    else if id < size then id
    else Home(id - size, size)
  }

  lemma {:induction false} HomeIsRemainder(id: nat, size: int)
    requires size > 0
    ensures Home(id, size) == id % size
    decreases id
  {
    if id >= size {
      HomeIsRemainder(id - size, size);
      var q, r := (id - size) / size, (id - size) % size;
      assert id == size * (q + 1) + r;
      ModUnique(id, size, q + 1, r);
    } else {
      ModUnique(id, size, 0, id);
    }
  }

  /** The slot where an id's chain starts (`mainposition`): the id masked
      with `size - 1`, which is its home slot. */
  function MainPosition(id: Id, size: int): (h: int)
    requires IsPow2(size)
    ensures h == Home(id, size)
    ensures 0 <= h < size
  {
    MaskIsRemainder(id, size);
    HomeIsRemainder(id, size);
    BitAnd(id, size - 1)
  }

  /** The set {0, ..., n-1}. */
  function Range(n: nat): (r: set<int>)
    ensures |r| == n
    ensures forall i :: i in r <==> 0 <= i < n
  {
    if n == 0 then {} else Range(n - 1) + {n - 1}
  }

  /** One cell of the table (`map_slot`): an id (INVALID_ID when free), the
      entity it owns (null for a tombstone) and the next slot of its chain
      (-1 at the end). */
  datatype Slot = Slot(id: int, obj: Entity?, next: int)

  const EmptySlot: Slot := Slot(INVALID_ID, null, -1)

  /** A snapshot of the table: the slots and the cursor, together with the
      bookkeeping that explains them — where each id sits (tombstones
      included), the live entities, each chain as the list of its slots in
      link order, each slot's place in its chain, and the used slots. */
  datatype Store = Store(
    slots: seq<Slot>,
    lastfree: int,
    index: map<Id, int>,
    live: map<Id, Entity>,
    chains: seq<seq<int>>,
    pos: seq<int>,
    occupied: set<int>)

  ghost predicate Shaped(st: Store)
  {
    var n := |st.slots|;
    IsPow2(n) && n >= PRE_ALLOC && -1 <= st.lastfree < n && |st.chains| == n && |st.pos| == n
  }

  ghost predicate OccupiedAgrees(s: seq<Slot>, occupied: set<int>)
  {
    && (forall i :: 0 <= i < |s| ==> (i in occupied <==> s[i].id != INVALID_ID))
    && (forall i :: i in occupied ==> 0 <= i < |s|)
  }

  /** Every slot above the cursor is in use. */
  ghost predicate CursorAgrees(s: seq<Slot>, lastfree: int)
  {
    forall i :: 0 <= i < |s| && lastfree < i ==> s[i].id != INVALID_ID
  }

  /** A free slot owns nothing and links nowhere. */
  ghost predicate FreeClean(s: seq<Slot>)
  {
    forall i :: 0 <= i < |s| && s[i].id == INVALID_ID ==> s[i].obj == null && s[i].next == -1
  }

  /** Every used slot holds a valid id, recorded in the index at that slot,
      so no id occupies two slots. */
  ghost predicate SlotIds(s: seq<Slot>, index: map<Id, int>)
  {
    forall i :: 0 <= i < |s| && s[i].id != INVALID_ID ==>
      && 0 <= s[i].id < INVALID_ID
      && s[i].id in index && index[s[i].id] == i
      && -1 <= s[i].next < |s|
  }

  ghost predicate IndexAgrees(s: seq<Slot>, index: map<Id, int>)
  {
    forall k :: k in index ==> 0 <= index[k] < |s| && s[index[k]].id == k
  }

  /** The live entities are exactly the non-null objects of the slots, each
      under its own id. */
  ghost predicate LiveAgrees(s: seq<Slot>, index: map<Id, int>, live: map<Id, Entity>)
  {
    && (forall k :: k in live ==>
          k in index && 0 <= index[k] < |s| && s[index[k]].obj == live[k] && live[k].id == k)
    && (forall k :: k in index && 0 <= index[k] < |s| && s[index[k]].obj != null ==> k in live)
  }

  ghost predicate ChainBounds(n: int, chains: seq<seq<int>>)
  {
    forall h, j :: 0 <= h < |chains| && 0 <= j < |chains[h]| ==> 0 <= chains[h][j] < n
  }

  /** Chain h holds used slots whose ids have home h, each at its recorded
      place. */
  ghost predicate ChainMembers(s: seq<Slot>, chains: seq<seq<int>>, pos: seq<int>)
    requires ChainBounds(|s|, chains) && |pos| == |s|
  {
    forall h, j {:trigger pos[chains[h][j]]} :: 0 <= h < |chains| && 0 <= j < |chains[h]| ==>
      && s[chains[h][j]].id != INVALID_ID
      && Home(s[chains[h][j]].id, |s|) == h
      && pos[chains[h][j]] == j
  }

  /** A chain starts at its home slot and its last slot links nowhere. */
  ghost predicate ChainEnds(s: seq<Slot>, chains: seq<seq<int>>)
    requires ChainBounds(|s|, chains)
  {
    forall h :: 0 <= h < |chains| && chains[h] != [] ==>
      chains[h][0] == h && s[chains[h][|chains[h]| - 1]].next == -1
  }

  /** Consecutive slots of a chain are linked by `next`. */
  ghost predicate ChainLinks(s: seq<Slot>, chains: seq<seq<int>>)
    requires ChainBounds(|s|, chains)
  {
    forall h, j {:trigger s[chains[h][j]]} :: 0 <= h < |chains| && 0 <= j < |chains[h]| - 1 ==>
      s[chains[h][j]].next == chains[h][j + 1]
  }

  /** Every used slot is in the chain of its id's home, at its place. */
  ghost predicate ChainPositions(s: seq<Slot>, chains: seq<seq<int>>, pos: seq<int>)
    requires |chains| == |pos| == |s|
  {
    forall i :: 0 <= i < |s| && s[i].id != INVALID_ID ==>
      && 0 <= pos[i] < |chains[Home(s[i].id, |s|)]|
      && chains[Home(s[i].id, |s|)][pos[i]] == i
  }

  /** As many slots are used as there are ids in the table. */
  ghost predicate Counted(occupied: set<int>, index: map<Id, int>)
  {
    |occupied| == |index|
  }

  /** The half of the invariant about slots, ids and objects. */
  ghost predicate TableInv(s: seq<Slot>, lastfree: int, index: map<Id, int>, live: map<Id, Entity>, occupied: set<int>)
  {
    && OccupiedAgrees(s, occupied)
    && CursorAgrees(s, lastfree)
    && FreeClean(s)
    && SlotIds(s, index)
    && IndexAgrees(s, index)
    && LiveAgrees(s, index, live)
    && Counted(occupied, index)
  }

  /** The half of the invariant about chains. */
  ghost predicate ChainInv(s: seq<Slot>, chains: seq<seq<int>>, pos: seq<int>)
  {
    && |chains| == |s| && |pos| == |s|
    && ChainBounds(|s|, chains)
    && ChainMembers(s, chains, pos)
    && ChainEnds(s, chains)
    && ChainLinks(s, chains)
    && ChainPositions(s, chains, pos)
  }

  ghost predicate Inv(st: Store)
  {
    && Shaped(st)
    && TableInv(st.slots, st.lastfree, st.index, st.live, st.occupied)
    && ChainInv(st.slots, st.chains, st.pos)
  }

  /** The two halves and the shape make up the invariant. */
  lemma {:induction false} Assemble(st: Store)
    requires Shaped(st)
    requires TableInv(st.slots, st.lastfree, st.index, st.live, st.occupied)
    requires ChainInv(st.slots, st.chains, st.pos)
    ensures Inv(st)
  {
  }

  /** A table of n free slots with the cursor at the top (`map_new`, and
      the fresh array of `rehash`). */
  function Empty(n: nat): Store
  {
    Store(seq(n, _ => EmptySlot), n - 1, map[], map[], seq(n, _ => []), seq(n, _ => 0), {})
  }

  lemma {:induction false} EmptyValid(n: nat)
    requires IsPow2(n) && n >= PRE_ALLOC
    ensures Inv(Empty(n))
  {
  }

  /** A slot heads a non-empty chain exactly when it is in use by an id
      whose home it is; the head stands first. */
  lemma {:induction false} HeadInUse(s: seq<Slot>, chains: seq<seq<int>>, pos: seq<int>, h: int)
    requires ChainInv(s, chains, pos) && 0 <= h < |s|
    ensures chains[h] != [] <==> s[h].id != INVALID_ID && Home(s[h].id, |s|) == h
    ensures chains[h] != [] ==> chains[h][0] == h && pos[h] == 0
  {
    if s[h].id != INVALID_ID && Home(s[h].id, |s|) == h {
      assert chains[h][pos[h]] == h;
    }
    if chains[h] != [] {
      assert pos[chains[h][0]] == 0;
    }
  }

  /** Case @1 of `map_insert`: a free home slot takes the id. */
  function Claimed(st: Store, h: int, id: Id, obj: Entity): Store
    requires 0 <= h < |st.slots| && |st.chains| == |st.pos| == |st.slots|
  {
    st.(slots := st.slots[h := st.slots[h].(id := id, obj := obj)],
        index := st.index[id := h],
        live := st.live[id := obj],
        chains := st.chains[h := [h]],
        pos := st.pos[h := 0],
        occupied := st.occupied + {h})
  }

  lemma {:induction false} ClaimKeeps(st: Store, h: int, id: Id, obj: Entity)
    requires Inv(st) && id !in st.index && obj.id == id
    requires h == Home(id, |st.slots|) && st.slots[h].id == INVALID_ID
    ensures Inv(Claimed(st, h, id, obj))
  {
    HeadInUse(st.slots, st.chains, st.pos, h);
    var s := st.slots;
    var s' := s[h := s[h].(id := id, obj := obj)];
    ClaimTable(s, st.index, st.live, st.occupied, st.lastfree, h, id, obj);
    ClaimChains(s, st.chains, st.pos, h, id, obj);
    Assemble(Claimed(st, h, id, obj));
  }

  lemma {:induction false} ClaimTable(s: seq<Slot>, index: map<Id, int>, live: map<Id, Entity>, occupied: set<int>,
                                      lastfree: int, h: int, id: Id, obj: Entity)
    requires TableInv(s, lastfree, index, live, occupied)
    requires id !in index && obj.id == id
    requires 0 <= h < |s| && s[h].id == INVALID_ID
    ensures TableInv(s[h := s[h].(id := id, obj := obj)], lastfree, index[id := h], live[id := obj], occupied + {h})
  {
    ClaimCells(s, occupied, lastfree, h, id, obj);
    ClaimIds(s, index, live, h, id, obj);
    assert h !in occupied;
  }

  lemma {:induction false} ClaimCells(s: seq<Slot>, occupied: set<int>, lastfree: int, h: int, id: Id, obj: Entity)
    requires OccupiedAgrees(s, occupied) && CursorAgrees(s, lastfree) && FreeClean(s)
    requires 0 <= h < |s| && s[h].id == INVALID_ID
    ensures var s' := s[h := s[h].(id := id, obj := obj)];
      OccupiedAgrees(s', occupied + {h}) && CursorAgrees(s', lastfree) && FreeClean(s')
  {
  }

  lemma {:induction false} ClaimIds(s: seq<Slot>, index: map<Id, int>, live: map<Id, Entity>, h: int, id: Id, obj: Entity)
    requires SlotIds(s, index) && IndexAgrees(s, index) && LiveAgrees(s, index, live)
    requires id !in index && obj.id == id
    requires 0 <= h < |s| && s[h].id == INVALID_ID && s[h].next == -1
    ensures var s' := s[h := s[h].(id := id, obj := obj)];
      && SlotIds(s', index[id := h]) && IndexAgrees(s', index[id := h])
      && LiveAgrees(s', index[id := h], live[id := obj])
  {
  }

  lemma {:induction false} ClaimChains(s: seq<Slot>, chains: seq<seq<int>>, pos: seq<int>, h: int, id: Id, obj: Entity)
    requires ChainInv(s, chains, pos) && FreeClean(s)
    requires |s| > 0 && h == Home(id, |s|) && s[h].id == INVALID_ID && chains[h] == []
    ensures ChainInv(s[h := s[h].(id := id, obj := obj)], chains[h := [h]], pos[h := 0])
  {
    ClaimMembers(s, chains, pos, h, id, obj);
    ClaimEnds(s, chains, pos, h, id, obj);
    ClaimLinks(s, chains, pos, h, id, obj);
    ClaimPositions(s, chains, pos, h, id, obj);
  }

  lemma {:induction false} ClaimMembers(s: seq<Slot>, chains: seq<seq<int>>, pos: seq<int>, h: int, id: Id, obj: Entity)
    requires ChainBounds(|s|, chains) && |pos| == |s| == |chains|
    requires ChainMembers(s, chains, pos)
    requires |s| > 0 && h == Home(id, |s|) && s[h].id == INVALID_ID && chains[h] == []
    ensures ChainBounds(|s|, chains[h := [h]])
    ensures ChainMembers(s[h := s[h].(id := id, obj := obj)], chains[h := [h]], pos[h := 0])
  {
    var chains' := chains[h := [h]];
    forall g, j | 0 <= g < |chains'| && 0 <= j < |chains'[g]| && g != h
      ensures chains'[g][j] != h && pos[chains'[g][j]] == j
    {
      assert chains'[g] == chains[g];
      assert pos[chains[g][j]] == j;
    }
  }

  lemma {:induction false} ClaimEnds(s: seq<Slot>, chains: seq<seq<int>>, pos: seq<int>, h: int, id: Id, obj: Entity)
    requires ChainBounds(|s|, chains) && |pos| == |s| == |chains|
    requires ChainMembers(s, chains, pos) && ChainEnds(s, chains) && FreeClean(s)
    requires 0 <= h < |s| && s[h].id == INVALID_ID && chains[h] == []
    ensures ChainBounds(|s|, chains[h := [h]])
    ensures ChainEnds(s[h := s[h].(id := id, obj := obj)], chains[h := [h]])
  {
    var chains' := chains[h := [h]];
    forall g | 0 <= g < |chains'| && chains'[g] != [] && g != h
      ensures chains'[g][0] == g && s[chains'[g][|chains'[g]| - 1]].next == -1
    {
      assert chains'[g] == chains[g];
    }
  }

  lemma {:induction false} ClaimLinks(s: seq<Slot>, chains: seq<seq<int>>, pos: seq<int>, h: int, id: Id, obj: Entity)
    requires ChainBounds(|s|, chains) && |pos| == |s| == |chains|
    requires ChainMembers(s, chains, pos) && ChainLinks(s, chains)
    requires 0 <= h < |s| && s[h].id == INVALID_ID && chains[h] == []
    ensures ChainBounds(|s|, chains[h := [h]])
    ensures ChainLinks(s[h := s[h].(id := id, obj := obj)], chains[h := [h]])
  {
    var chains' := chains[h := [h]];
    forall g, j | 0 <= g < |chains'| && 0 <= j < |chains'[g]| - 1
      ensures s[chains'[g][j]].next == chains'[g][j + 1] && chains'[g][j] != h
    {
      assert chains'[g] == chains[g];
      assert pos[chains[g][j]] == j;
    }
  }

  lemma {:induction false} ClaimPositions(s: seq<Slot>, chains: seq<seq<int>>, pos: seq<int>, h: int, id: Id, obj: Entity)
    requires ChainBounds(|s|, chains) && |pos| == |s| == |chains|
    requires ChainPositions(s, chains, pos)
    requires |s| > 0 && h == Home(id, |s|) && s[h].id == INVALID_ID && chains[h] == []
    ensures ChainPositions(s[h := s[h].(id := id, obj := obj)], chains[h := [h]], pos[h := 0])
  {
  }

  /** The cursor steps past a slot that is in use. */
  function Skipped(st: Store): Store
  {
    st.(lastfree := st.lastfree - 1)
  }

  lemma {:induction false} SkipKeeps(st: Store)
    requires Inv(st) && st.lastfree >= 0 && st.slots[st.lastfree].id != INVALID_ID
    ensures Inv(Skipped(st))
  {
    SkipTable(st.slots, st.lastfree, st.index, st.live, st.occupied);
    Assemble(Skipped(st));
  }

  lemma {:induction false} SkipTable(s: seq<Slot>, lastfree: int, index: map<Id, int>, live: map<Id, Entity>, occupied: set<int>)
    requires TableInv(s, lastfree, index, live, occupied)
    requires 0 <= lastfree < |s| && s[lastfree].id != INVALID_ID
    ensures TableInv(s, lastfree - 1, index, live, occupied)
  {
  }

  /** Places of a chain c at or after `from` move by `delta`; every other
      slot keeps its place. */
  function Shifted(P: seq<int>, c: seq<int>, from: int, delta: int): seq<int>
  {
    seq(|P|, i requires 0 <= i < |P| => if 0 <= P[i] && from <= P[i] < |c| && c[P[i]] == i then P[i] + delta else P[i])
  }

  /** Case @2 of `map_insert` on the slots: the free slot t takes the id and
      the rest of h's chain, and h links to t. */
  function LinkedSlots(s: seq<Slot>, h: int, t: int, id: Id, obj: Entity): seq<Slot>
    requires 0 <= h < |s| && 0 <= t < |s|
  {
    s[t := Slot(id, obj, s[h].next)][h := s[h].(next := t)]
  }

  /** Case @2 of `map_insert`: the free slot t under the cursor takes the
      id and is linked right after the head h of the id's own chain; the
      cursor moves below t. */
  function Linked(st: Store, h: int, t: int, id: Id, obj: Entity): Store
    requires 0 <= h < |st.slots| && 0 <= t < |st.slots|
    requires |st.chains| == |st.pos| == |st.slots| && st.chains[h] != []
  {
    var c := st.chains[h];
    st.(slots := LinkedSlots(st.slots, h, t, id, obj),
        lastfree := t - 1,
        index := st.index[id := t],
        live := st.live[id := obj],
        chains := st.chains[h := [h, t] + c[1..]],
        pos := Shifted(st.pos, c, 1, 1)[t := 1],
        occupied := st.occupied + {t})
  }

  lemma {:induction false} LinkKeeps(st: Store, h: int, t: int, id: Id, obj: Entity)
    requires Inv(st) && id !in st.index && obj.id == id
    requires h == Home(id, |st.slots|) && st.slots[h].id != INVALID_ID
    requires Home(st.slots[h].id, |st.slots|) == h
    requires t == st.lastfree >= 0 && st.slots[t].id == INVALID_ID
    ensures st.chains[h] != []
    ensures Inv(Linked(st, h, t, id, obj))
  {
    HeadInUse(st.slots, st.chains, st.pos, h);
    var s, n := st.slots, |st.slots|;
    var c := st.chains[h];
    LinkTable(s, st.lastfree, st.index, st.live, st.occupied, h, id, obj);
    LinkChains(s, st.chains, st.pos, h, t, id, obj);
    Assemble(Linked(st, h, t, id, obj));
  }

  lemma {:induction false} LinkTable(s: seq<Slot>, t: int, index: map<Id, int>, live: map<Id, Entity>, occupied: set<int>,
                                     h: int, id: Id, obj: Entity)
    requires TableInv(s, t, index, live, occupied) && id !in index && obj.id == id
    requires 0 <= h < |s| && 0 <= t < |s| && s[h].id != INVALID_ID && s[t].id == INVALID_ID
    ensures TableInv(LinkedSlots(s, h, t, id, obj), t - 1, index[id := t], live[id := obj], occupied + {t})
  {
    LinkOccupied(s, occupied, h, t, id, obj);
    LinkCursor(s, h, t, id, obj);
    LinkFreeClean(s, h, t, id, obj);
    LinkSlotIds(s, index, h, t, id, obj);
    LinkIndex(s, index, h, t, id, obj);
    LinkLive(s, index, live, h, t, id, obj);
    CountGrows(occupied, index, t, id);
  }

  lemma {:induction false} LinkChains(s: seq<Slot>, chains: seq<seq<int>>, pos: seq<int>, h: int, t: int, id: Id, obj: Entity)
    requires ChainInv(s, chains, pos)
    requires |s| > 0 && h == Home(id, |s|) && s[h].id != INVALID_ID
    requires chains[h] != [] && chains[h][0] == h && pos[h] == 0
    requires 0 <= t < |s| && s[t].id == INVALID_ID
    ensures ChainInv(LinkedSlots(s, h, t, id, obj), chains[h := [h, t] + chains[h][1..]],
                     Shifted(pos, chains[h], 1, 1)[t := 1])
  {
    LinkBounds(chains, |s|, h, t);
    LinkMembers(s, chains, pos, h, t, id, obj);
    LinkEnds(s, chains, pos, h, t, id, obj);
    LinkLinks(s, chains, pos, h, t, id, obj);
    LinkPositions(s, chains, pos, h, t, id, obj);
  }

  lemma {:induction false} LinkOccupied(s: seq<Slot>, occupied: set<int>, h: int, t: int, id: Id, obj: Entity)
    requires OccupiedAgrees(s, occupied)
    requires 0 <= h < |s| && 0 <= t < |s| && s[h].id != INVALID_ID
    ensures OccupiedAgrees(LinkedSlots(s, h, t, id, obj), occupied + {t})
  {
  }

  lemma {:induction false} LinkCursor(s: seq<Slot>, h: int, t: int, id: Id, obj: Entity)
    requires CursorAgrees(s, t)
    requires 0 <= h < |s| && 0 <= t < |s| && s[h].id != INVALID_ID
    ensures CursorAgrees(LinkedSlots(s, h, t, id, obj), t - 1)
  {
  }

  lemma {:induction false} LinkFreeClean(s: seq<Slot>, h: int, t: int, id: Id, obj: Entity)
    requires FreeClean(s)
    requires 0 <= h < |s| && 0 <= t < |s| && s[h].id != INVALID_ID
    ensures FreeClean(LinkedSlots(s, h, t, id, obj))
  {
  }

  lemma {:induction false} LinkSlotIds(s: seq<Slot>, index: map<Id, int>, h: int, t: int, id: Id, obj: Entity)
    requires SlotIds(s, index) && id !in index
    requires 0 <= h < |s| && 0 <= t < |s| && s[h].id != INVALID_ID && s[t].id == INVALID_ID
    ensures SlotIds(LinkedSlots(s, h, t, id, obj), index[id := t])
  {
  }

  lemma {:induction false} LinkIndex(s: seq<Slot>, index: map<Id, int>, h: int, t: int, id: Id, obj: Entity)
    requires IndexAgrees(s, index)
    requires 0 <= h < |s| && 0 <= t < |s| && s[h].id != INVALID_ID && s[t].id == INVALID_ID
    ensures IndexAgrees(LinkedSlots(s, h, t, id, obj), index[id := t])
  {
  }

  lemma {:induction false} LinkLive(s: seq<Slot>, index: map<Id, int>, live: map<Id, Entity>, h: int, t: int, id: Id, obj: Entity)
    requires IndexAgrees(s, index) && LiveAgrees(s, index, live) && id !in index && obj.id == id
    requires 0 <= h < |s| && 0 <= t < |s| && s[h].id != INVALID_ID && s[t].id == INVALID_ID
    ensures LiveAgrees(LinkedSlots(s, h, t, id, obj), index[id := t], live[id := obj])
  {
  }

  lemma {:induction false} LinkBounds(chains: seq<seq<int>>, n: int, h: int, t: int)
    requires ChainBounds(n, chains)
    requires 0 <= h < |chains| && h < n && chains[h] != [] && 0 <= t < n
    ensures ChainBounds(n, chains[h := [h, t] + chains[h][1..]])
  {
    var c := chains[h];
    var c' := [h, t] + c[1..];
    forall j | 0 <= j < |c'|
      ensures 0 <= c'[j] < n
    {
      if j >= 2 {
        assert c'[j] == c[j - 1];
      }
    }
  }

  lemma {:induction false} LinkMembers(s: seq<Slot>, chains: seq<seq<int>>, pos: seq<int>, h: int, t: int, id: Id, obj: Entity)
    requires ChainBounds(|s|, chains) && |pos| == |s| == |chains|
    requires ChainMembers(s, chains, pos)
    requires |s| > 0 && h == Home(id, |s|) && s[h].id != INVALID_ID
    requires chains[h] != [] && chains[h][0] == h && pos[h] == 0
    requires 0 <= t < |s| && s[t].id == INVALID_ID
    ensures ChainBounds(|s|, chains[h := [h, t] + chains[h][1..]])
    ensures ChainMembers(LinkedSlots(s, h, t, id, obj), chains[h := [h, t] + chains[h][1..]],
                         Shifted(pos, chains[h], 1, 1)[t := 1])
  {
    LinkBounds(chains, |s|, h, t);
    var c := chains[h];
    var s', chains', pos' := LinkedSlots(s, h, t, id, obj), chains[h := [h, t] + c[1..]], Shifted(pos, c, 1, 1)[t := 1];
    assert pos[c[0]] == 0;
    forall g, j | 0 <= g < |chains'| && 0 <= j < |chains'[g]|
      ensures s'[chains'[g][j]].id != INVALID_ID
      ensures Home(s'[chains'[g][j]].id, |s'|) == g
      ensures pos'[chains'[g][j]] == j
    {
      if g != h {
        var x := chains[g][j];
        assert chains'[g][j] == x;
        assert pos[x] == j && Home(s[x].id, |s|) == g;
        if 1 <= pos[x] < |c| {
          assert pos[c[pos[x]]] == pos[x];
        }
      } else if j >= 2 {
        var x := c[j - 1];
        assert chains'[g][j] == x;
        assert pos[x] == j - 1;
      }
    }
  }

  lemma {:induction false} LinkEnds(s: seq<Slot>, chains: seq<seq<int>>, pos: seq<int>, h: int, t: int, id: Id, obj: Entity)
    requires ChainBounds(|s|, chains) && |pos| == |s| == |chains|
    requires ChainMembers(s, chains, pos) && ChainEnds(s, chains)
    requires 0 <= h < |s| && chains[h] != []
    requires 0 <= t < |s| && s[t].id == INVALID_ID
    ensures ChainBounds(|s|, chains[h := [h, t] + chains[h][1..]])
    ensures ChainEnds(LinkedSlots(s, h, t, id, obj), chains[h := [h, t] + chains[h][1..]])
  {
    LinkBounds(chains, |s|, h, t);
    var c := chains[h];
    var s', chains' := LinkedSlots(s, h, t, id, obj), chains[h := [h, t] + c[1..]];
    assert pos[c[0]] == 0;
    forall g | 0 <= g < |chains'| && chains'[g] != []
      ensures chains'[g][0] == g && s'[chains'[g][|chains'[g]| - 1]].next == -1
    {
      if g != h {
        var x := chains[g][|chains[g]| - 1];
        assert chains'[g] == chains[g];
        assert pos[x] == |chains[g]| - 1;
      } else if |c| > 1 {
        var x := c[|c| - 1];
        assert chains'[g][|chains'[g]| - 1] == x;
        assert pos[x] == |c| - 1;
      }
    }
  }

  lemma {:induction false} LinkLinks(s: seq<Slot>, chains: seq<seq<int>>, pos: seq<int>, h: int, t: int, id: Id, obj: Entity)
    requires ChainBounds(|s|, chains) && |pos| == |s| == |chains|
    requires ChainMembers(s, chains, pos) && ChainEnds(s, chains) && ChainLinks(s, chains)
    requires 0 <= h < |s| && chains[h] != []
    requires 0 <= t < |s| && s[t].id == INVALID_ID
    ensures ChainBounds(|s|, chains[h := [h, t] + chains[h][1..]])
    ensures ChainLinks(LinkedSlots(s, h, t, id, obj), chains[h := [h, t] + chains[h][1..]])
  {
    LinkBounds(chains, |s|, h, t);
    var c := chains[h];
    var s', chains' := LinkedSlots(s, h, t, id, obj), chains[h := [h, t] + c[1..]];
    assert pos[c[0]] == 0;
    forall g, j | 0 <= g < |chains'| && 0 <= j < |chains'[g]| - 1
      ensures s'[chains'[g][j]].next == chains'[g][j + 1]
    {
      if g != h {
        var x := chains[g][j];
        assert chains'[g] == chains[g];
        assert pos[x] == j;
        assert s[x].next == chains[g][j + 1];
      } else if j == 1 {
        assert s[c[0]].next == c[1];
        assert chains'[g][j + 1] == c[1];
      } else if j >= 2 {
        var x := c[j - 1];
        assert chains'[g][j] == x && chains'[g][j + 1] == c[j];
        assert pos[x] == j - 1;
        assert s[x].next == c[j];
      }
    }
  }

  lemma {:induction false} LinkPositions(s: seq<Slot>, chains: seq<seq<int>>, pos: seq<int>, h: int, t: int, id: Id, obj: Entity)
    requires ChainBounds(|s|, chains) && |pos| == |s| == |chains|
    requires ChainMembers(s, chains, pos) && ChainPositions(s, chains, pos)
    requires |s| > 0 && h == Home(id, |s|) && s[h].id != INVALID_ID
    requires chains[h] != [] && chains[h][0] == h && pos[h] == 0
    requires 0 <= t < |s| && s[t].id == INVALID_ID
    ensures ChainPositions(LinkedSlots(s, h, t, id, obj), chains[h := [h, t] + chains[h][1..]],
                           Shifted(pos, chains[h], 1, 1)[t := 1])
  {
  }

  /** Case @3 of `map_insert` on the slots: the entry in slot h, which sits
      at place p of another chain, is spliced out of it by linking its
      predecessor `last` past it, and h takes the new id as the head of a
      one-slot chain. */
  function UnlinkedSlots(s: seq<Slot>, last: int, h: int, id: Id, obj: Entity): seq<Slot>
    requires 0 <= last < |s| && 0 <= h < |s|
  {
    s[last := s[last].(next := s[h].next)][h := Slot(id, obj, -1)]
  }

  /** The chain after its slot at place p has been spliced out. */
  function Without(c: seq<int>, p: int): seq<int>
    requires 0 <= p < |c|
  {
    c[..p] + c[p + 1..]
  }

  /** Case @3 of `map_insert`: the entry displaced from slot h (a member of
      chain g at place p) leaves the table, and h takes the new id. The
      caller reinserts the displaced entry when it is live. */
  function Unlinked(st: Store, h: int, g: int, p: int, id: Id, obj: Entity): Store
    requires 0 <= h < |st.slots| && 0 <= st.slots[h].id < INVALID_ID
    requires |st.chains| == |st.pos| == |st.slots|
    requires 0 <= g < |st.chains| && 1 <= p < |st.chains[g]|
    requires 0 <= st.chains[g][p - 1] < |st.slots|
  {
    var c, k := st.chains[g], st.slots[h].id;
    st.(slots := UnlinkedSlots(st.slots, c[p - 1], h, id, obj),
        index := (st.index - {k})[id := h],
        live := (st.live - {k})[id := obj],
        chains := st.chains[g := Without(c, p)][h := [h]],
        pos := Shifted(st.pos, c, p + 1, -1)[h := 0])
  }

  /** Where a displaced entry sits: slot h holds an id whose home g is
      elsewhere, so h is at a place p >= 1 of chain g, behind the slot
      `chains[g][p - 1]`, and h heads no chain of its own. */
  lemma {:induction false} UnlinkSite(s: seq<Slot>, chains: seq<seq<int>>, pos: seq<int>, h: int) returns (g: int, p: int)
    requires ChainInv(s, chains, pos) && 0 <= h < |s| && s[h].id != INVALID_ID
    requires Home(s[h].id, |s|) != h
    ensures g == Home(s[h].id, |s|) && p == pos[h]
    ensures 0 <= g < |chains| && 1 <= p < |chains[g]| && chains[g][p] == h && chains[h] == []
    ensures 0 <= chains[g][p - 1] < |s| && chains[g][p - 1] != h
    ensures s[chains[g][p - 1]].id != INVALID_ID
  {
    HeadInUse(s, chains, pos, h);
    g, p := Home(s[h].id, |s|), pos[h];
    var c := chains[g];
    assert pos[c[0]] == 0;
    assert pos[c[p - 1]] == p - 1;
  }

  lemma {:induction false} UnlinkKeeps(st: Store, h: int, g: int, p: int, id: Id, obj: Entity)
    requires Inv(st) && id !in st.index && obj.id == id
    requires h == Home(id, |st.slots|) && 0 <= st.slots[h].id < INVALID_ID
    requires g == Home(st.slots[h].id, |st.slots|) && g != h
    requires 0 <= g < |st.chains| && 1 <= p < |st.chains[g]| && st.chains[g][p] == h && st.chains[h] == []
    requires 0 <= st.chains[g][p - 1] < |st.slots| && st.chains[g][p - 1] != h
    requires st.slots[st.chains[g][p - 1]].id != INVALID_ID
    ensures Inv(Unlinked(st, h, g, p, id, obj))
  {
    var s, c := st.slots, st.chains[g];
    var st' := Unlinked(st, h, g, p, id, obj);
    assert TableInv(st'.slots, st'.lastfree, st'.index, st'.live, st'.occupied) by {
      UnlinkTable(s, st.lastfree, st.index, st.live, st.occupied, c[p - 1], h, id, obj);
    }
    assert ChainInv(st'.slots, st'.chains, st'.pos) by {
      UnlinkChains(s, st.chains, st.pos, g, p, h, id, obj);
    }
    assert Shaped(st') by {
      assert |st'.slots| == |s| && st'.lastfree == st.lastfree;
    }
    Assemble(st');
  }

  lemma {:induction false} UnlinkTable(s: seq<Slot>, lastfree: int, index: map<Id, int>, live: map<Id, Entity>, occupied: set<int>,
                                       last: int, h: int, id: Id, obj: Entity)
    requires TableInv(s, lastfree, index, live, occupied) && id !in index && obj.id == id
    requires 0 <= last < |s| && 0 <= h < |s| && last != h
    requires s[h].id != INVALID_ID && s[last].id != INVALID_ID
    ensures 0 <= s[h].id < INVALID_ID
    ensures var k := s[h].id;
      TableInv(UnlinkedSlots(s, last, h, id, obj), lastfree, (index - {k})[id := h], (live - {k})[id := obj], occupied)
  {
    UnlinkIds(s, index, live, occupied, lastfree, last, h, id, obj);
    CountSwaps(occupied, index, s[h].id, id, h);
  }

  lemma {:induction false} UnlinkIds(s: seq<Slot>, index: map<Id, int>, live: map<Id, Entity>, occupied: set<int>,
                                     lastfree: int, last: int, h: int, id: Id, obj: Entity)
    requires OccupiedAgrees(s, occupied) && CursorAgrees(s, lastfree) && FreeClean(s)
    requires SlotIds(s, index) && IndexAgrees(s, index) && LiveAgrees(s, index, live)
    requires id !in index && obj.id == id
    requires 0 <= last < |s| && 0 <= h < |s| && last != h
    requires s[h].id != INVALID_ID && s[last].id != INVALID_ID
    ensures 0 <= s[h].id < INVALID_ID && s[h].id in index
    ensures var s', k := UnlinkedSlots(s, last, h, id, obj), s[h].id;
      && OccupiedAgrees(s', occupied) && CursorAgrees(s', lastfree) && FreeClean(s')
      && SlotIds(s', (index - {k})[id := h])
      && IndexAgrees(s', (index - {k})[id := h])
      && LiveAgrees(s', (index - {k})[id := h], (live - {k})[id := obj])
  {
  }

  lemma {:induction false} UnlinkChains(s: seq<Slot>, chains: seq<seq<int>>, pos: seq<int>, g: int, p: int, h: int, id: Id, obj: Entity)
    requires ChainInv(s, chains, pos)
    requires 0 <= g < |s| && 1 <= p < |chains[g]| && chains[g][p] == h && chains[h] == []
    requires |s| > 0 && h == Home(id, |s|) && g != h
    ensures ChainInv(UnlinkedSlots(s, chains[g][p - 1], h, id, obj),
                     chains[g := Without(chains[g], p)][h := [h]],
                     Shifted(pos, chains[g], p + 1, -1)[h := 0])
  {
    UnlinkBounds(chains, |s|, g, p, h);
    UnlinkMembers(s, chains, pos, g, p, h, id, obj);
    UnlinkEnds(s, chains, pos, g, p, h, id, obj);
    UnlinkLinks(s, chains, pos, g, p, h, id, obj);
    UnlinkPositions(s, chains, pos, g, p, h, id, obj);
  }

  lemma {:induction false} UnlinkBounds(chains: seq<seq<int>>, n: int, g: int, p: int, h: int)
    requires ChainBounds(n, chains)
    requires 0 <= g < |chains| && 0 <= p < |chains[g]| && 0 <= h < n && h < |chains|
    ensures ChainBounds(n, chains[g := Without(chains[g], p)][h := [h]])
  {
    var c := chains[g];
    var c' := Without(c, p);
    forall j | 0 <= j < |c'|
      ensures 0 <= c'[j] < n
    {
      if j >= p {
        assert c'[j] == c[j + 1];
      }
    }
  }

  lemma {:induction false} UnlinkMembers(s: seq<Slot>, chains: seq<seq<int>>, pos: seq<int>, g: int, p: int, h: int, id: Id, obj: Entity)
    requires ChainBounds(|s|, chains) && |pos| == |s| == |chains|
    requires ChainMembers(s, chains, pos)
    requires 0 <= g < |s| && 1 <= p < |chains[g]| && chains[g][p] == h && chains[h] == []
    requires h == Home(id, |s|) && g != h
    ensures ChainBounds(|s|, chains[g := Without(chains[g], p)][h := [h]])
    ensures ChainMembers(UnlinkedSlots(s, chains[g][p - 1], h, id, obj),
                         chains[g := Without(chains[g], p)][h := [h]],
                         Shifted(pos, chains[g], p + 1, -1)[h := 0])
  {
    UnlinkBounds(chains, |s|, g, p, h);
    var c := chains[g];
    var last := c[p - 1];
    var s', chains', pos' := UnlinkedSlots(s, last, h, id, obj), chains[g := Without(c, p)][h := [h]],
      Shifted(pos, c, p + 1, -1)[h := 0];
    assert pos[h] == p && Home(s[h].id, |s|) == g;
    assert pos[last] == p - 1 && Home(s[last].id, |s|) == g;
    forall g2, j | 0 <= g2 < |chains'| && 0 <= j < |chains'[g2]|
      ensures s'[chains'[g2][j]].id != INVALID_ID
      ensures Home(s'[chains'[g2][j]].id, |s'|) == g2
      ensures pos'[chains'[g2][j]] == j
    {
      if g2 == h {
      } else if g2 == g {
        var x := if j < p then c[j] else c[j + 1];
        assert chains'[g2][j] == x;
        if j < p {
          assert pos[x] == j;
        } else {
          assert pos[x] == j + 1;
        }
      } else {
        var x := chains[g2][j];
        assert chains'[g2][j] == x;
        assert pos[x] == j && Home(s[x].id, |s|) == g2;
        if p + 1 <= pos[x] < |c| {
          assert pos[c[pos[x]]] == pos[x];
        }
      }
    }
  }

  lemma {:induction false} UnlinkEnds(s: seq<Slot>, chains: seq<seq<int>>, pos: seq<int>, g: int, p: int, h: int, id: Id, obj: Entity)
    requires ChainBounds(|s|, chains) && |pos| == |s| == |chains|
    requires ChainMembers(s, chains, pos) && ChainEnds(s, chains)
    requires 0 <= g < |s| && 1 <= p < |chains[g]| && chains[g][p] == h && chains[h] == []
    requires g != h
    ensures ChainBounds(|s|, chains[g := Without(chains[g], p)][h := [h]])
    ensures ChainEnds(UnlinkedSlots(s, chains[g][p - 1], h, id, obj),
                      chains[g := Without(chains[g], p)][h := [h]])
  {
    UnlinkBounds(chains, |s|, g, p, h);
    var c := chains[g];
    var last := c[p - 1];
    var s', chains' := UnlinkedSlots(s, last, h, id, obj), chains[g := Without(c, p)][h := [h]];
    assert pos[h] == p && Home(s[h].id, |s|) == g;
    assert pos[last] == p - 1 && Home(s[last].id, |s|) == g;
    forall g2 | 0 <= g2 < |chains'| && chains'[g2] != []
      ensures chains'[g2][0] == g2 && s'[chains'[g2][|chains'[g2]| - 1]].next == -1
    {
      if g2 == h {
      } else if g2 == g {
        assert chains'[g2][0] == c[0];
        if p == |c| - 1 {
          assert chains'[g2][|chains'[g2]| - 1] == last;
        } else {
          var x := c[|c| - 1];
          assert chains'[g2][|chains'[g2]| - 1] == x;
          assert pos[x] == |c| - 1;
        }
      } else {
        var x := chains[g2][|chains[g2]| - 1];
        assert chains'[g2] == chains[g2];
        assert pos[x] == |chains[g2]| - 1 && Home(s[x].id, |s|) == g2;
      }
    }
  }

  lemma {:induction false} UnlinkLinks(s: seq<Slot>, chains: seq<seq<int>>, pos: seq<int>, g: int, p: int, h: int, id: Id, obj: Entity)
    requires ChainBounds(|s|, chains) && |pos| == |s| == |chains|
    requires ChainMembers(s, chains, pos) && ChainEnds(s, chains) && ChainLinks(s, chains)
    requires 0 <= g < |s| && 1 <= p < |chains[g]| && chains[g][p] == h && chains[h] == []
    requires g != h
    ensures ChainBounds(|s|, chains[g := Without(chains[g], p)][h := [h]])
    ensures ChainLinks(UnlinkedSlots(s, chains[g][p - 1], h, id, obj),
                       chains[g := Without(chains[g], p)][h := [h]])
  {
    UnlinkBounds(chains, |s|, g, p, h);
    var c := chains[g];
    var last := c[p - 1];
    var s', chains' := UnlinkedSlots(s, last, h, id, obj), chains[g := Without(c, p)][h := [h]];
    assert pos[h] == p && Home(s[h].id, |s|) == g;
    assert pos[last] == p - 1 && Home(s[last].id, |s|) == g;
    forall g2, j | 0 <= g2 < |chains'| && 0 <= j < |chains'[g2]| - 1
      ensures s'[chains'[g2][j]].next == chains'[g2][j + 1]
    {
      if g2 == h {
      } else if g2 == g {
        if j < p - 1 {
          var x := c[j];
          assert chains'[g2][j] == x && chains'[g2][j + 1] == c[j + 1];
          assert pos[x] == j;
          assert s[x].next == c[j + 1];
        } else if j == p - 1 {
          assert chains'[g2][j] == last && chains'[g2][j + 1] == c[p + 1];
          assert s[c[p]].next == c[p + 1];
        } else {
          var x := c[j + 1];
          assert chains'[g2][j] == x && chains'[g2][j + 1] == c[j + 2];
          assert pos[x] == j + 1;
          assert s[x].next == c[j + 2];
        }
      } else {
        var x := chains[g2][j];
        assert chains'[g2] == chains[g2];
        assert pos[x] == j && Home(s[x].id, |s|) == g2;
        assert s[x].next == chains[g2][j + 1];
      }
    }
  }

  lemma {:induction false} UnlinkPositions(s: seq<Slot>, chains: seq<seq<int>>, pos: seq<int>, g: int, p: int, h: int, id: Id, obj: Entity)
    requires ChainBounds(|s|, chains) && |pos| == |s| == |chains|
    requires ChainMembers(s, chains, pos) && ChainPositions(s, chains, pos)
    requires 0 <= g < |s| && 1 <= p < |chains[g]| && chains[g][p] == h && chains[h] == []
    requires h == Home(id, |s|) && g != h
    ensures ChainPositions(UnlinkedSlots(s, chains[g][p - 1], h, id, obj),
                           chains[g := Without(chains[g], p)][h := [h]],
                           Shifted(pos, chains[g], p + 1, -1)[h := 0])
  {
  }

  /** Two slot sequences that differ at most in their objects. */
  ghost predicate SameLinks(s: seq<Slot>, s': seq<Slot>)
  {
    |s'| == |s| && forall i :: 0 <= i < |s| ==> s'[i].id == s[i].id && s'[i].next == s[i].next
  }

  /** Changing only objects keeps every chain walkable. */
  lemma {:induction false} LinksKeep(s: seq<Slot>, s': seq<Slot>, chains: seq<seq<int>>, pos: seq<int>)
    requires ChainInv(s, chains, pos) && SameLinks(s, s')
    ensures ChainInv(s', chains, pos)
  {
    MembersKeep(s, s', chains, pos);
    EndsKeep(s, s', chains);
    LinksKeepNext(s, s', chains);
    PositionsKeep(s, s', chains, pos);
  }

  lemma {:induction false} MembersKeep(s: seq<Slot>, s': seq<Slot>, chains: seq<seq<int>>, pos: seq<int>)
    requires ChainBounds(|s|, chains) && |pos| == |s| && SameLinks(s, s')
    requires ChainMembers(s, chains, pos)
    ensures ChainMembers(s', chains, pos)
  {
    forall h, j | 0 <= h < |chains| && 0 <= j < |chains[h]|
      ensures s'[chains[h][j]].id != INVALID_ID && Home(s'[chains[h][j]].id, |s'|) == h && pos[chains[h][j]] == j
    {
      assert pos[chains[h][j]] == j;
    }
  }

  lemma {:induction false} EndsKeep(s: seq<Slot>, s': seq<Slot>, chains: seq<seq<int>>)
    requires ChainBounds(|s|, chains) && SameLinks(s, s')
    requires ChainEnds(s, chains)
    ensures ChainEnds(s', chains)
  {
  }

  lemma {:induction false} LinksKeepNext(s: seq<Slot>, s': seq<Slot>, chains: seq<seq<int>>)
    requires ChainBounds(|s|, chains) && SameLinks(s, s')
    requires ChainLinks(s, chains)
    ensures ChainLinks(s', chains)
  {
    forall h, j | 0 <= h < |chains| && 0 <= j < |chains[h]| - 1
      ensures s'[chains[h][j]].next == chains[h][j + 1]
    {
      assert s[chains[h][j]].next == chains[h][j + 1];
    }
  }

  lemma {:induction false} PositionsKeep(s: seq<Slot>, s': seq<Slot>, chains: seq<seq<int>>, pos: seq<int>)
    requires |chains| == |pos| == |s| && SameLinks(s, s')
    requires ChainPositions(s, chains, pos)
    ensures ChainPositions(s', chains, pos)
  {
  }

  /** `map_drop` on a found slot i: the object goes, the id and the link
      stay, so the slot becomes a tombstone and every chain stays walkable. */
  function Dropped(st: Store, i: int): Store
    requires 0 <= i < |st.slots| && 0 <= st.slots[i].id < INVALID_ID
  {
    st.(slots := st.slots[i := st.slots[i].(obj := null)],
        live := st.live - {st.slots[i].id})
  }

  lemma {:induction false} DropKeeps(st: Store, i: int)
    requires Inv(st) && 0 <= i < |st.slots| && st.slots[i].id != INVALID_ID
    ensures 0 <= st.slots[i].id < INVALID_ID
    ensures Inv(Dropped(st, i))
  {
    var s' := st.slots[i := st.slots[i].(obj := null)];
    LinksKeep(st.slots, s', st.chains, st.pos);
    DropTable(st.slots, st.lastfree, st.index, st.live, st.occupied, i);
    Assemble(Dropped(st, i));
  }

  lemma {:induction false} DropTable(s: seq<Slot>, lastfree: int, index: map<Id, int>, live: map<Id, Entity>, occupied: set<int>, i: int)
    requires TableInv(s, lastfree, index, live, occupied)
    requires 0 <= i < |s| && s[i].id != INVALID_ID
    ensures 0 <= s[i].id < INVALID_ID
    ensures TableInv(s[i := s[i].(obj := null)], lastfree, index, live - {s[i].id}, occupied)
  {
  }

  /** `map_query` finding its id on a tombstone in slot i: a fresh entity
      moves into the slot. */
  function Revived(st: Store, i: int, obj: Entity): Store
    requires 0 <= i < |st.slots| && 0 <= st.slots[i].id < INVALID_ID
  {
    st.(slots := st.slots[i := st.slots[i].(obj := obj)],
        live := st.live[st.slots[i].id := obj])
  }

  lemma {:induction false} ReviveKeeps(st: Store, i: int, obj: Entity)
    requires Inv(st) && 0 <= i < |st.slots| && st.slots[i].id != INVALID_ID
    requires obj.id == st.slots[i].id
    ensures 0 <= st.slots[i].id < INVALID_ID
    ensures Inv(Revived(st, i, obj))
  {
    var s' := st.slots[i := st.slots[i].(obj := obj)];
    LinksKeep(st.slots, s', st.chains, st.pos);
    ReviveTable(st.slots, st.lastfree, st.index, st.live, st.occupied, i, obj);
    Assemble(Revived(st, i, obj));
  }

  lemma {:induction false} ReviveTable(s: seq<Slot>, lastfree: int, index: map<Id, int>, live: map<Id, Entity>, occupied: set<int>,
                                       i: int, obj: Entity)
    requires TableInv(s, lastfree, index, live, occupied)
    requires 0 <= i < |s| && s[i].id != INVALID_ID && obj.id == s[i].id
    ensures 0 <= s[i].id < INVALID_ID
    ensures TableInv(s[i := s[i].(obj := obj)], lastfree, index, live[s[i].id := obj], occupied)
  {
  }

  /** Counting: a new id in a new slot, and one id traded for another in
      the same slot. */
  lemma {:induction false} CountGrows(occupied: set<int>, index: map<Id, int>, t: int, id: Id)
    requires Counted(occupied, index) && t !in occupied && id !in index
    ensures Counted(occupied + {t}, index[id := t])
  {
  }

  lemma {:induction false} CountSwaps(occupied: set<int>, index: map<Id, int>, k: Id, id: Id, h: int)
    requires Counted(occupied, index) && k in index && id !in index
    ensures Counted(occupied, (index - {k})[id := h])
  {
    assert (index - {k}).Keys == index.Keys - {k};
  }

  /** Reference walk of a lookup: from slot cur, follow `next` links until
      the id is found (its slot) or a chain ends (-1), taking at most fuel
      steps. */
  function FindFrom(s: seq<Slot>, cur: int, id: int, fuel: nat): int
    decreases fuel
  {
    if fuel == 0 || !(0 <= cur < |s|) then -1
    else if s[cur].id == id then cur
    else if s[cur].next < 0 then -1
    else FindFrom(s, s[cur].next, id, fuel - 1)
  }

  /** Walking a chain from its place j sees exactly its slots from j on:
      the walk finds one of them holding the id, or ends empty-handed when
      none does. */
  lemma {:induction false} WalkChain(s: seq<Slot>, chains: seq<seq<int>>, pos: seq<int>, g: int, j: int, id: int, fuel: nat)
    requires ChainInv(s, chains, pos) && 0 <= g < |chains| && 0 <= j < |chains[g]|
    requires fuel >= |chains[g]| - j
    ensures var r := FindFrom(s, chains[g][j], id, fuel);
      || (r == -1 && forall k :: j <= k < |chains[g]| ==> s[chains[g][k]].id != id)
      || (exists k :: j <= k < |chains[g]| && r == chains[g][k] && s[r].id == id)
    decreases |chains[g]| - j
  {
    var c := chains[g];
    var x := c[j];
    if s[x].id != id {
      if j < |c| - 1 {
        assert s[x].next == c[j + 1];
        WalkChain(s, chains, pos, g, j + 1, id, fuel - 1);
      } else {
        assert s[x].next == -1;
      }
    }
  }

  /** Every id of the table is found by walking from its main position, at
      the slot the index records, and an id not in the table is not found:
      the chains stay walkable. */
  lemma {:induction false} FindIsIndex(st: Store, id: Id)
    requires Inv(st)
    ensures FindFrom(st.slots, Home(id, |st.slots|), id, |st.slots|) == (if id in st.index then st.index[id] else -1)
  {
    var s, n := st.slots, |st.slots|;
    var h := Home(id, n);
    HeadInUse(s, st.chains, st.pos, h);
    if id in st.index {
      var i := st.index[id];
      assert st.chains[h][st.pos[i]] == i;
    }
    if s[h].id == INVALID_ID {
      assert s[h].next == -1;
    } else {
      var g := Home(s[h].id, n);
      var p := st.pos[h];
      assert st.chains[g][p] == h;
      ChainFits(st.chains[g], st.pos, n);
      WalkChain(s, st.chains, st.pos, g, p, id, n);
      var r := FindFrom(s, h, id, n);
      if r != -1 {
        assert s[r].id == id;
      }
    }
  }

  lemma {:induction false} SubsetCard<T>(a: set<T>, b: set<T>)
    requires a <= b
    ensures |a| <= |b|
    decreases |a|
  {
    if a != {} {
      var x :| x in a;
      SubsetCard(a - {x}, b - {x});
    }
  }

  /** A chain has no repeated slot, so it is no longer than the table. */
  lemma {:induction false} ChainFits(c: seq<int>, pos: seq<int>, n: int)
    requires n >= 0 && forall k :: 0 <= k < |c| ==> 0 <= c[k] < n && c[k] < |pos| && pos[c[k]] == k
    ensures |c| <= n
  {
    var S := Members(c, pos, n, |c|);
    SubsetCard(S, Range(n));
  }

  lemma {:induction false} Members(c: seq<int>, pos: seq<int>, n: int, m: int) returns (S: set<int>)
    requires 0 <= m <= |c| && n >= 0
    requires forall k :: 0 <= k < |c| ==> 0 <= c[k] < n && c[k] < |pos| && pos[c[k]] == k
    ensures |S| == m && forall x :: x in S ==> 0 <= x < n && x < |pos| && pos[x] < m
    decreases m
  {
    if m == 0 {
      S := {};
    } else {
      var S' := Members(c, pos, n, m - 1);
      assert pos[c[m - 1]] == m - 1;
      S := S' + {c[m - 1]};
    }
  }

  /** The used slots are slots of the table. */
  lemma {:induction false} OccupiedFits(st: Store)
    requires Inv(st)
    ensures |st.occupied| <= |st.slots|
  {
    SubsetCard(st.occupied, Range(|st.slots|));
  }

  /** Once the cursor has passed the bottom slot, every slot is in use:
      the table is full. */
  lemma {:induction false} CursorSpent(st: Store)
    requires Inv(st) && st.lastfree < 0
    ensures st.occupied == Range(|st.slots|)
    ensures |st.occupied| == |st.slots|
  {
    AllUsed(st.slots, st.occupied, st.lastfree);
  }

  lemma {:induction false} AllUsed(s: seq<Slot>, occupied: set<int>, lastfree: int)
    requires OccupiedAgrees(s, occupied) && CursorAgrees(s, lastfree) && lastfree < 0
    ensures occupied == Range(|s|)
  {
    forall i | 0 <= i < |s|
      ensures i in occupied
    {
      assert s[i].id != INVALID_ID;
    }
  }
}
