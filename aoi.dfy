/** The scene (`struct aoi_space`): the entity registry, the four buffers a
    tick sorts entities into, and the list of tracked watcher/marker pairs.
    Events the engine hands to its callback are returned as a sequence. */
module Aoi {
  import opened Geometry
  import opened Entities
  import opened HashSlots
  import opened Registry
  import opened ObjectSets

  /** The two callback types: MOVE (1) and LEAVE (2). */
  datatype Kind = Move | Leave

  /** One callback invocation: watcher id, marker id and the event type. */
  datatype Event = Event(watcher: Id, marker: Id, kind: Kind)

  /** One update as a value: the id, the entity it reached, that entity's
      state before, the request and the position. */
  datatype Change = Change(id: Id, obj: Entity, was: Snapshot, request: Request, pos: Position)

  /** One tick's visit as a value: the entities in the order visited and
      the flags each had. */
  datatype Scan = Scan(objs: seq<Entity>, modes: seq<Mode>)

  /** One tick: the visit and the events reported. */
  datatype Outcome = Outcome(scan: Scan, events: seq<Event>)

  /** One tick as seen from a watcher id and a marker id: the visit, the
      events reported and the two ids. */
  datatype Encounter = Encounter(scan: Scan, events: seq<Event>, watcher: Id, marker: Id)

  /** A tracked pair (`struct pair_list`): both ends and the versions they
      had when the pair was made. */
  datatype Pair = Pair(watcher: Entity, marker: Entity, watcherVersion: int, markerVersion: int)

  /** What a mode string asks for. */
  datatype Request = Request(watcher: bool, marker: bool, drop: bool)

  const NoRequest: Request := Request(false, false, false)

  /** The meaning of a mode string: 'w' and 'm' ask for the roles, 'd'
      asks for a drop and ends the string; other characters are ignored. */
  function Parse(s: seq<char>): (r: Request)
    ensures r.drop <==> 'd' in s
    ensures !r.drop ==> (r.watcher <==> 'w' in s) && (r.marker <==> 'm' in s)
  {
    if s == [] then NoRequest
    else
      var r := Parse(s[..|s| - 1]);
      var c := s[|s| - 1];
      assert s == s[..|s| - 1] + [c];
      if r.drop then r
      else if c == 'w' then r.(watcher := true)
      else if c == 'm' then r.(marker := true)
      else if c == 'd' then r.(drop := true)
      else r
  }

  /** Nothing after a 'd' is read. */
  lemma {:induction false} DropEndsParsing(s: seq<char>, t: seq<char>)
    requires 'd' in s
    ensures Parse(s + t) == Parse(s)
    decreases |t|
  {
    if t != [] {
      var u := t[..|t| - 1];
      assert (s + t)[..|s + t| - 1] == s + u;
      DropEndsParsing(s, u);
    } else {
      assert s + t == s;
    }
  }

  /** Reads a mode string left to right as `aoi_update` does, stopping at
      the first 'd'. */
  method ParseModes(modes: seq<char>) returns (r: Request)
    ensures r == Parse(modes)
  {
    r := NoRequest;
    for i := 0 to |modes|
      invariant r == Parse(modes[..i]) && !r.drop
    {
      var c := modes[i];
      assert modes[..i + 1][..i] == modes[..i];
      if c == 'w' {
        r := r.(watcher := true);
      } else if c == 'm' {
        r := r.(marker := true);
      } else if c == 'd' {
        r := r.(drop := true);
        DropEndsParsing(modes[..i + 1], modes[i + 1..]);
        assert modes[..i + 1] + modes[i + 1..] == modes;
        return;
      }
    }
    assert modes[..|modes|] == modes;
  }

  /** The mutable state of an entity as a value. */
  datatype Snapshot = Snapshot(ref: int, version: int, mode: Mode, last: Position, position: Position)

  function SnapshotOf(e: Entity): Snapshot
    reads e
  {
    Snapshot(e.ref, e.version, e.mode, e.last, e.position)
  }

  /** The state of a newly registered entity. */
  const Unborn: Snapshot := Snapshot(1, 0, 0, Origin, Origin)

  /** What one update does to an entity (`aoi_update` after the lookup).
      A drop request marks the entity dropped and gives up the registry's
      reference, once. Otherwise a dropped entity is recovered (flag
      cleared, reference taken again), its roles are set, its position is
      stored, and when a role changed or it moved at least the micro-move
      distance from where it was last reported, that spot is moved to the
      new position, the entity is flagged as moved and its version grows. */
  function Applied(s: Snapshot, r: Request, pos: Position): Snapshot
  {
    if r.drop then Withdrawn(s) else Placed(Recovered(s), r, pos)
  }

  /** The first drop marks the entity with the drop flag alone and gives
      up the registry's reference; later ones change nothing. */
  function Withdrawn(s: Snapshot): Snapshot
  {
    if IsDropped(s.mode) then s else s.(mode := MODE_DROP, ref := s.ref - 1)
  }

  /** A dropped entity loses the drop flag and takes a reference again. */
  function Recovered(s: Snapshot): Snapshot
  {
    if IsDropped(s.mode) then s.(mode := s.mode & !MODE_DROP, ref := s.ref + 1) else s
  }

  /** The roles and the position of a live entity are set, and a move is
      reported when there is one. */
  function Placed(t: Snapshot, r: Request, pos: Position): Snapshot
  {
    Moved(t.(mode := SetRoles(t.mode, r.watcher, r.marker), position := pos), Reports(t, r, pos), pos)
  }

  /** A move is reported when a role changes (or the entity has no flag
      yet) or the new position is not near the last reported spot. */
  predicate Reports(t: Snapshot, r: Request, pos: Position)
  {
    RolesChanged(t.mode, r.watcher, r.marker) || !IsNear(pos, t.last)
  }

  /** A reported move flags the entity, makes the position its reported
      spot and starts a new version. */
  function Moved(u: Snapshot, moved: bool, pos: Position): Snapshot
  {
    if moved then u.(mode := u.mode | MODE_MOVE, last := pos, version := u.version + 1) else u
  }

  /** Whether an update gives up the last reference to the entity, which
      then leaves the registry. */
  predicate Releases(s: Snapshot, r: Request)
  {
    r.drop && !IsDropped(s.mode) && s.ref - 1 <= 0
  }

  /** A drop marks the entity with the drop flag alone and gives up one
      reference; a second drop changes nothing. */
  lemma DropIsOnce(s: Snapshot, r: Request, p: Position, q: Position)
    requires r.drop
    ensures !IsDropped(s.mode) ==> Applied(s, r, p) == s.(mode := MODE_DROP, ref := s.ref - 1)
    ensures Applied(Applied(s, r, p), r, q) == Applied(s, r, p)
  {
  }

  /** Any other update leaves the entity live with exactly the requested
      roles at the new position; a dropped entity takes its reference back. */
  lemma UpdateSetsRoles(s: Snapshot, r: Request, p: Position)
    requires !r.drop
    ensures var t := Applied(s, r, p);
      && !IsDropped(t.mode) && IsWatcher(t.mode) == r.watcher && IsMarker(t.mode) == r.marker
      && t.position == p
      && t.ref == s.ref + (if IsDropped(s.mode) then 1 else 0)
  {
  }

  /** The update is reported (moved flag, new version, new reported spot)
      exactly when a role changed or the entity left the micro-move
      radius around its last reported spot; otherwise the version and the
      reported spot stay. */
  lemma UpdateReportsMoves(s: Snapshot, r: Request, p: Position)
    requires !r.drop
    ensures var t := Applied(s, r, p);
      var base := if IsDropped(s.mode) then s.mode & !MODE_DROP else s.mode;
      var moved := RolesChanged(base, r.watcher, r.marker) || !IsNear(p, s.last);
      && (moved ==> t.version == s.version + 1 && t.last == p && IsMoved(t.mode))
      && (!moved ==> t.version == s.version && t.last == s.last && IsMoved(t.mode) == IsMoved(s.mode))
  {
  }

  /** After an update the reported spot is within the micro-move radius of
      the position. */
  lemma UpdateStaysNear(s: Snapshot, r: Request, p: Position)
    requires !r.drop
    ensures IsNear(Applied(s, r, p).position, Applied(s, r, p).last)
  {
    IsNearProperties(p, p);
  }

  /** Repeating an update with the same request and position changes
      nothing. */
  lemma UpdateIsIdempotent(s: Snapshot, r: Request, p: Position)
    ensures Applied(Applied(s, r, p), r, p) == Applied(s, r, p)
  {
    if !r.drop {
      UpdateStaysNear(s, r, p);
    }
  }

  /** The reference count an entity registered in the scene carries when
      the tracked pairs hold `held` references on it: one for the registry
      unless it was dropped, plus those. It always has one at least, and a
      dropped entity carries the drop flag alone. */
  predicate Accounted(s: Snapshot, held: int)
  {
    && s.ref == (if IsDropped(s.mode) then 0 else 1) + held
    && s.ref >= 1
    && (IsDropped(s.mode) ==> s.mode == MODE_DROP)
  }

  /** A pair end recorded at version v: the version never goes back, and
      while it is still v the end keeps the role the pair uses it in and
      has not been flagged as moved, unless it was dropped. */
  predicate Tracks(v: int, s: Snapshot, watcher: bool)
  {
    && v <= s.version
    && (v == s.version && !IsDropped(s.mode) ==>
          && (if watcher then IsWatcher(s.mode) else IsMarker(s.mode))
          && !IsMoved(s.mode))
  }

  /** An update keeps the reference count accounted for: it releases the
      entity only when no pair holds it, and otherwise leaves it
      accounted with the same pairs. A new entity starts accounted. */
  lemma UpdateAccounted(s: Snapshot, r: Request, pos: Position, held: int)
    requires Accounted(s, held) && held >= 0
    ensures Releases(s, r) ==> held == 0
    ensures !Releases(s, r) ==> Accounted(Applied(s, r, pos), held)
    ensures Accounted(Unborn, 0)
  {
    if !r.drop {
      var t := Recovered(s);
      assert !IsDropped(t.mode) by {
        if IsDropped(s.mode) {
          assert s.mode == MODE_DROP;
        }
      }
    }
  }

  /** An update never lets a pair end keep its recorded version while
      losing the role the pair uses it in: taking the role away, and
      recovering from a drop, both start a new version. */
  lemma UpdateTracks(s: Snapshot, r: Request, pos: Position, v: int, watcher: bool)
    requires Tracks(v, s, watcher) && (IsDropped(s.mode) ==> s.mode == MODE_DROP)
    ensures Tracks(v, Applied(s, r, pos), watcher)
  {
    if !r.drop {
      var t := Recovered(s);
      if IsDropped(s.mode) {
        assert t.mode == 0;
      }
    }
  }

  /** The mutable state of an entity apart from its reference count. */
  datatype View = View(entity: Entity, version: int, mode: Mode, last: Position, position: Position)

  function ViewOf(e: Entity): View
    reads e`version, e`mode, e`last, e`position
  {
    View(e, e.version, e.mode, e.last, e.position)
  }

  /** Any other request: recovers a dropped entity, sets its roles and
      position and reports a move when there is one. */
  method Refresh(obj: Entity, r: Request, pos: Position)
    requires !r.drop
    modifies obj
    ensures SnapshotOf(obj) == Applied(old(SnapshotOf(obj)), r, pos)
  {
    Recover(obj);
    Place(obj, r, pos);
  }

  method Recover(obj: Entity)
    modifies obj`mode, obj`ref
    ensures SnapshotOf(obj) == Recovered(old(SnapshotOf(obj)))
  {
    if obj.mode & MODE_DROP != 0 {
      obj.mode := obj.mode & !MODE_DROP;
      obj.Grab();
    }
  }

  method Place(obj: Entity, r: Request, pos: Position)
    modifies obj`mode, obj`position, obj`last, obj`version
    ensures SnapshotOf(obj) == Placed(old(SnapshotOf(obj)), r, pos)
  {
    ghost var t := SnapshotOf(obj);
    var changed := obj.ChangeMode(r.watcher, r.marker);
    obj.position := pos;
    var moved := changed || !IsNear(pos, obj.last);
    assert moved == Reports(t, r, pos);
    Mark(obj, moved, pos);
  }

  method Mark(obj: Entity, moved: bool, pos: Position)
    modifies obj`mode, obj`last, obj`version
    ensures SnapshotOf(obj) == Moved(old(SnapshotOf(obj)), moved, pos)
  {
    if moved {
      obj.last := pos;
      obj.mode := obj.mode | MODE_MOVE;
      obj.version := obj.version + 1;
    }
  }

  /** Filing obj under id and taking id out again does not depend on what
      id held before; filing an entity already held changes nothing. */
  lemma Filed(live: map<Id, Entity>, id: Id, obj: Entity)
    ensures live[id := obj] - {id} == live - {id}
    ensures id in live && live[id] == obj ==> live[id := obj] == live
  {
  }

  /** Whether an entity with flags m is sorted into the watcher (or
      marker) buffer of moving (or static) entities. */
  predicate Files(m: Mode, watcher: bool, moving: bool)
  {
    (if watcher then IsWatcher(m) else IsMarker(m)) && IsMoved(m) == moving
  }

  /** The entities, in order, that a tick sorts into one buffer, given the
      flags each had when it was visited. */
  function Picked(objs: seq<Entity>, modes: seq<Mode>, watcher: bool, moving: bool): seq<Entity>
    requires |objs| == |modes|
  {
    if objs == [] then []
    else
      var n := |objs| - 1;
      Picked(objs[..n], modes[..n], watcher, moving) + Pick(objs[n], modes[n], watcher, moving)
  }

  /** A buffer holds exactly the entities whose flags file them there. */
  lemma {:induction false} PickedMembers(objs: seq<Entity>, modes: seq<Mode>, watcher: bool, moving: bool)
    requires |objs| == |modes|
    ensures forall i :: 0 <= i < |objs| && Files(modes[i], watcher, moving) ==> objs[i] in Picked(objs, modes, watcher, moving)
    ensures forall e :: e in Picked(objs, modes, watcher, moving) ==>
      exists i :: 0 <= i < |objs| && objs[i] == e && Files(modes[i], watcher, moving)
  {
    if objs != [] {
      var n := |objs| - 1;
      PickedMembers(objs[..n], modes[..n], watcher, moving);
      assert forall i :: 0 <= i < n ==> objs[..n][i] == objs[i] && modes[..n][i] == modes[i];
    }
  }

  /** Sorting one more entity adds it, or nothing, at the end. */
  lemma PickedStep(objs: seq<Entity>, modes: seq<Mode>, i: int, watcher: bool, moving: bool)
    requires |objs| == |modes| && 0 <= i < |objs|
    ensures Picked(objs[..i + 1], modes[..i + 1], watcher, moving)
         == Picked(objs[..i], modes[..i], watcher, moving) + Pick(objs[i], modes[i], watcher, moving)
  {
    assert objs[..i + 1][..i] == objs[..i];
    assert modes[..i + 1][..i] == modes[..i];
  }

  /** The contents of the four buffers: watchers and markers, static and
      moving. */
  datatype Buffered = Buffered(watcherStatic: seq<Entity>, markerStatic: seq<Entity>,
                               watcherMove: seq<Entity>, markerMove: seq<Entity>)

  /** The buffers after sorting objs, whose flags were modes, into b. */
  function Sorted(b: Buffered, objs: seq<Entity>, modes: seq<Mode>): Buffered
    requires |objs| == |modes|
  {
    Buffered(b.watcherStatic + Picked(objs, modes, true, false), b.markerStatic + Picked(objs, modes, false, false),
             b.watcherMove + Picked(objs, modes, true, true), b.markerMove + Picked(objs, modes, false, true))
  }

  /** The buffers after sorting one entity with flags m into b. */
  function Added(b: Buffered, obj: Entity, m: Mode): Buffered
  {
    Buffered(b.watcherStatic + Pick(obj, m, true, false), b.markerStatic + Pick(obj, m, false, false),
             b.watcherMove + Pick(obj, m, true, true), b.markerMove + Pick(obj, m, false, true))
  }

  lemma SortedStep(b: Buffered, objs: seq<Entity>, modes: seq<Mode>, i: int)
    requires |objs| == |modes| && 0 <= i < |objs|
    ensures Sorted(b, objs[..i + 1], modes[..i + 1]) == Added(Sorted(b, objs[..i], modes[..i]), objs[i], modes[i])
  {
    PickedStep(objs, modes, i, true, false);
    PickedStep(objs, modes, i, false, false);
    PickedStep(objs, modes, i, true, true);
    PickedStep(objs, modes, i, false, true);
  }

  function SnapshotsOf(objs: seq<Entity>): (r: seq<Snapshot>)
    reads objs
    ensures |r| == |objs| && forall i :: 0 <= i < |objs| ==> r[i] == SnapshotOf(objs[i])
  {
    if objs == [] then [] else SnapshotsOf(objs[..|objs| - 1]) + [SnapshotOf(objs[|objs| - 1])]
  }

  /** The entity when its flags file it into the buffer, else nothing. */
  function Pick(obj: Entity, mode: Mode, watcher: bool, moving: bool): seq<Entity>
  {
    if Files(mode, watcher, moving) then [obj] else []
  }

  /** The flags of each entity. */
  function ModesOf(objs: seq<Entity>): (r: seq<Mode>)
    reads (set o | o in objs)`mode
    ensures |r| == |objs| && forall i :: 0 <= i < |objs| ==> r[i] == objs[i].mode
  {
    if objs == [] then [] else ModesOf(objs[..|objs| - 1]) + [objs[|objs| - 1].mode]
  }

  /** The flags an entity keeps once sorted: an entity with a role loses
      the moved flag, one without a role keeps every flag. */
  function Settled(m: Mode): (r: Mode)
    ensures IsWatcher(r) == IsWatcher(m) && IsMarker(r) == IsMarker(m) && IsDropped(r) == IsDropped(m)
    ensures IsWatcher(m) || IsMarker(m) ==> !IsMoved(r)
    ensures !IsWatcher(m) && !IsMarker(m) ==> r == m
  {
    if (IsWatcher(m) || IsMarker(m)) && IsMoved(m) then m & !MODE_MOVE else m
  }

  /** What judging a watcher against a marker reports: nothing for an
      entity against itself, MOVE inside the radius, LEAVE beyond the leave
      distance, nothing in the band between. */
  function Verdict(w: View, m: View): seq<Event>
  {
    if w.entity == m.entity then []
    else match ZoneOf(Dist2(w.position, m.position))
      case Inside => [Event(w.entity.id, m.entity.id, Move)]
      case Beyond => [Event(w.entity.id, m.entity.id, Leave)]
      case Band => []
  }

  /** The pair that judging a watcher against a marker starts to track: one
      for two different entities in the band, with their versions. */
  function Candidate(w: View, m: View): seq<Pair>
  {
    if w.entity != m.entity && ZoneOf(Dist2(w.position, m.position)) == Band then
      [Pair(w.entity, m.entity, w.version, m.version)]
    else []
  }

  /** Judging one watcher against each marker in order. */
  function RowEvents(w: View, ms: seq<View>): seq<Event>
  {
    if ms == [] then [] else RowEvents(w, ms[..|ms| - 1]) + Verdict(w, ms[|ms| - 1])
  }

  function RowPairs(w: View, ms: seq<View>): seq<Pair>
  {
    if ms == [] then [] else RowPairs(w, ms[..|ms| - 1]) + Candidate(w, ms[|ms| - 1])
  }

  /** Judging each watcher in order against each marker in order. */
  function CrossEvents(ws: seq<View>, ms: seq<View>): seq<Event>
  {
    if ws == [] then [] else CrossEvents(ws[..|ws| - 1], ms) + RowEvents(ws[|ws| - 1], ms)
  }

  function CrossPairs(ws: seq<View>, ms: seq<View>): seq<Pair>
  {
    if ws == [] then [] else CrossPairs(ws[..|ws| - 1], ms) + RowPairs(ws[|ws| - 1], ms)
  }

  /** The pair list after pushing ps, one by one and in order, onto the
      front of hot. */
  function PushAll(ps: seq<Pair>, hot: seq<Pair>): seq<Pair>
  {
    if ps == [] then hot else [ps[|ps| - 1]] + PushAll(ps[..|ps| - 1], hot)
  }

  /** The number of references the pairs ps hold on e: one per end. */
  function Holds(ps: seq<Pair>, e: Entity): nat
  {
    if ps == [] then 0
    else
      var p := ps[|ps| - 1];
      Holds(ps[..|ps| - 1], e) + (if p.watcher == e then 1 else 0) + (if p.marker == e then 1 else 0)
  }

  lemma {:induction false} HoldsAppend(ps: seq<Pair>, qs: seq<Pair>, e: Entity)
    ensures Holds(ps + qs, e) == Holds(ps, e) + Holds(qs, e)
    decreases |qs|
  {
    if qs == [] {
      assert ps + qs == ps;
    } else {
      var n := |qs| - 1;
      assert (ps + qs)[..|ps + qs| - 1] == ps + qs[..n];
      HoldsAppend(ps, qs[..n], e);
    }
  }

  lemma {:induction false} PushAllAppend(ps: seq<Pair>, qs: seq<Pair>, hot: seq<Pair>)
    ensures PushAll(ps + qs, hot) == PushAll(qs, PushAll(ps, hot))
    decreases |qs|
  {
    if qs == [] {
      assert ps + qs == ps;
    } else {
      var n := |qs| - 1;
      assert (ps + qs)[..|ps + qs| - 1] == ps + qs[..n];
      PushAllAppend(ps, qs[..n], hot);
    }
  }

  function ViewsOf(es: seq<Entity>): (r: seq<View>)
    reads (set e | e in es)`version, (set e | e in es)`mode, (set e | e in es)`last, (set e | e in es)`position
    ensures |r| == |es| && forall i :: 0 <= i < |es| ==> r[i] == ViewOf(es[i])
  {
    if es == [] then [] else ViewsOf(es[..|es| - 1]) + [ViewOf(es[|es| - 1])]
  }

  /** A row starts no pair on an entity it does not judge. */
  lemma {:induction false} RowHoldsNone(w: View, ms: seq<View>, e: Entity)
    requires w.entity != e && forall k :: 0 <= k < |ms| ==> ms[k].entity != e
    ensures Holds(RowPairs(w, ms), e) == 0
  {
    if ms != [] {
      var n := |ms| - 1;
      RowHoldsNone(w, ms[..n], e);
      HoldsAppend(RowPairs(w, ms[..n]), Candidate(w, ms[n]), e);
      CandidateHolds(w, ms[n], e);
    }
  }

  /** Judging two lists starts no pair on an entity in neither. */
  lemma {:induction false} CrossHoldsNone(ws: seq<View>, ms: seq<View>, e: Entity)
    requires forall k :: 0 <= k < |ws| ==> ws[k].entity != e
    requires forall k :: 0 <= k < |ms| ==> ms[k].entity != e
    ensures Holds(CrossPairs(ws, ms), e) == 0
  {
    if ws != [] {
      var n := |ws| - 1;
      CrossHoldsNone(ws[..n], ms, e);
      HoldsAppend(CrossPairs(ws[..n], ms), RowPairs(ws[n], ms), e);
      RowHoldsNone(ws[n], ms, e);
    }
  }

  /** The events of the three pair lists a tick judges: static watchers
      against moving markers, moving watchers against static markers and
      moving watchers against moving markers. */
  function TickEvents(ws: seq<View>, ms: seq<View>, wm: seq<View>, mm: seq<View>): seq<Event>
  {
    CrossEvents(ws, mm) + CrossEvents(wm, ms) + CrossEvents(wm, mm)
  }

  /** The pairs those three lists start, in the order they are started. */
  function TickPairs(ws: seq<View>, ms: seq<View>, wm: seq<View>, mm: seq<View>): seq<Pair>
  {
    CrossPairs(ws, mm) + CrossPairs(wm, ms) + CrossPairs(wm, mm)
  }

  /** Judging against one more marker adds its verdict and its candidate. */
  lemma RowStep(w: View, vs: seq<View>, j: int)
    requires 0 <= j < |vs|
    ensures RowEvents(w, vs[..j + 1]) == RowEvents(w, vs[..j]) + Verdict(w, vs[j])
    ensures RowPairs(w, vs[..j + 1]) == RowPairs(w, vs[..j]) + Candidate(w, vs[j])
  {
    assert vs[..j + 1][..j] == vs[..j];
  }

  lemma CrossStep(ws: seq<View>, vs: seq<View>, i: int)
    requires 0 <= i < |ws|
    ensures CrossEvents(ws[..i + 1], vs) == CrossEvents(ws[..i], vs) + RowEvents(ws[i], vs)
    ensures CrossPairs(ws[..i + 1], vs) == CrossPairs(ws[..i], vs) + RowPairs(ws[i], vs)
  {
    assert ws[..i + 1][..i] == ws[..i];
  }

  /** Pushing at most one pair puts it in front. */
  lemma PushOne(ps: seq<Pair>, c: seq<Pair>, hot: seq<Pair>)
    requires |c| <= 1
    ensures PushAll(ps + c, hot) == c + PushAll(ps, hot)
  {
    PushAllAppend(ps, c, hot);
    if c != [] {
      assert c[..0] == [];
    }
  }

  /** A candidate holds references only on the two entities judged. */
  lemma CandidateHolds(w: View, m: View, e: Entity)
    ensures Holds(Candidate(w, m), e) ==
      if w.entity != m.entity && ZoneOf(Dist2(w.position, m.position)) == Band then
        (if w.entity == e then 1 else 0) + (if m.entity == e then 1 else 0)
      else 0
  {
    var c := Candidate(w, m);
    if c != [] {
      assert c[..0] == [];
    }
  }

  /** What flushing does with a tracked pair: discard it silently when an
      end moved since (its version changed) or was dropped, report LEAVE
      or MOVE and discard it once its ends are out of the band, keep it
      otherwise. */
  datatype Fate = Discard | Report(kind: Kind) | Keep

  function FateOf(p: Pair): Fate
    reads p.watcher`version, p.watcher`mode, p.watcher`position
    reads p.marker`version, p.marker`mode, p.marker`position
  {
    if p.watcher.version != p.watcherVersion || p.marker.version != p.markerVersion
       || IsDropped(p.watcher.mode) || IsDropped(p.marker.mode)
    then Discard
    else match ZoneOf(Dist2(p.watcher.position, p.marker.position))
      case Beyond => Report(Leave)
      case Inside => Report(Move)
      case Band => Keep
  }

  /** The entities at either end of some pair of ps. */
  function Ends(ps: seq<Pair>): set<Entity>
  {
    (set p | p in ps :: p.watcher) + (set p | p in ps :: p.marker)
  }

  ghost function FatesOf(ps: seq<Pair>): (r: seq<Fate>)
    reads Ends(ps)`version, Ends(ps)`mode, Ends(ps)`position
    ensures |r| == |ps| && forall i :: 0 <= i < |ps| ==> r[i] == FateOf(ps[i])
  {
    if ps == [] then []
    else
      var q := ps[..|ps| - 1];
      assert Ends(q) <= Ends(ps);
      assert forall i :: 0 <= i < |q| ==> ps[i] == q[i];
      FatesOf(q) + [FateOf(ps[|ps| - 1])]
  }

  /** The pairs that flushing keeps, in order. */
  function Survivors(ps: seq<Pair>, fates: seq<Fate>): seq<Pair>
    requires |fates| == |ps|
  {
    if ps == [] then []
    else
      var n := |ps| - 1;
      Survivors(ps[..n], fates[..n]) + (if fates[n] == Keep then [ps[n]] else [])
  }

  /** The pairs that flushing discards, in order. */
  function Retired(ps: seq<Pair>, fates: seq<Fate>): seq<Pair>
    requires |fates| == |ps|
  {
    if ps == [] then []
    else
      var n := |ps| - 1;
      Retired(ps[..n], fates[..n]) + (if fates[n] == Keep then [] else [ps[n]])
  }

  lemma {:induction false} RetiredWithin(ps: seq<Pair>, fates: seq<Fate>)
    requires |fates| == |ps|
    ensures forall p :: p in Retired(ps, fates) ==> p in ps
  {
    if ps != [] {
      var n := |ps| - 1;
      RetiredWithin(ps[..n], fates[..n]);
      assert forall p :: p in ps[..n] ==> p in ps;
    }
  }

  /** Flushing splits the pairs: each one either survives or is retired,
      and no pair is lost or made up. */
  lemma {:induction false} FlushSplits(ps: seq<Pair>, fates: seq<Fate>)
    requires |fates| == |ps|
    ensures multiset(Survivors(ps, fates)) + multiset(Retired(ps, fates)) == multiset(ps)
  {
    if ps != [] {
      var n := |ps| - 1;
      var q, f := ps[..n], fates[..n];
      FlushSplits(q, f);
      var kept, gone := Survivors(q, f), Retired(q, f);
      assert multiset(ps) == multiset(q) + multiset{ps[n]} by {
        assert ps == q + [ps[n]];
      }
      if fates[n] == Keep {
        assert Survivors(ps, fates) == kept + [ps[n]] && Retired(ps, fates) == gone;
      } else {
        assert Survivors(ps, fates) == kept && Retired(ps, fates) == gone + [ps[n]];
      }
    }
  }

  /** Hence the survivors and the retired pairs together number the pairs. */
  lemma FlushCounts(ps: seq<Pair>, fates: seq<Fate>)
    requires |fates| == |ps|
    ensures |Survivors(ps, fates)| + |Retired(ps, fates)| == |ps|
  {
    FlushSplits(ps, fates);
    assert |multiset(Survivors(ps, fates)) + multiset(Retired(ps, fates))| == |multiset(ps)|;
  }

  /** The pairs kept are those whose fate is Keep: with every fate Keep all
      pairs survive in order and nothing is reported. */
  lemma {:induction false} AllKept(ps: seq<Pair>, fates: seq<Fate>)
    requires |fates| == |ps| && forall k :: 0 <= k < |ps| ==> fates[k] == Keep
    ensures Survivors(ps, fates) == ps && Retired(ps, fates) == [] && FlushEvents(ps, fates) == []
  {
    if ps != [] {
      var n := |ps| - 1;
      AllKept(ps[..n], fates[..n]);
      assert ps == ps[..n] + [ps[n]];
    }
  }

  /** Every pair that survives a flush had fate Keep. */
  lemma {:induction false} SurvivorsKept(ps: seq<Pair>, fates: seq<Fate>)
    requires |fates| == |ps|
    ensures forall p :: p in Survivors(ps, fates) ==> exists k :: 0 <= k < |ps| && ps[k] == p && fates[k] == Keep
  {
    if ps != [] {
      var n := |ps| - 1;
      SurvivorsKept(ps[..n], fates[..n]);
      forall p | p in Survivors(ps, fates)
        ensures exists k :: 0 <= k < |ps| && ps[k] == p && fates[k] == Keep
      {
        if p in Survivors(ps[..n], fates[..n]) {
          var k :| 0 <= k < n && ps[..n][k] == p && fates[..n][k] == Keep;
          assert ps[k] == p && fates[k] == Keep;
        } else {
          assert ps[n] == p && fates[n] == Keep;
        }
      }
    }
  }

  /** Flushing twice with nothing changed in between: the second flush keeps
      every pair the first kept and reports nothing. */
  lemma FlushTwice(ps: seq<Pair>)
    ensures var kept := Survivors(ps, FatesOf(ps));
      Survivors(kept, FatesOf(kept)) == kept && FlushEvents(kept, FatesOf(kept)) == []
  {
    var fates := FatesOf(ps);
    var kept := Survivors(ps, fates);
    SurvivorsKept(ps, fates);
    forall k | 0 <= k < |kept|
      ensures FatesOf(kept)[k] == Keep
    {
      assert kept[k] in kept;
    }
    AllKept(kept, FatesOf(kept));
  }

  /** What flushing pair p with fate f reports. */
  function Reported(p: Pair, f: Fate): seq<Event>
  {
    if f.Report? then [Event(p.watcher.id, p.marker.id, f.kind)] else []
  }

  /** The events flushing reports, in the order of the pairs. */
  function FlushEvents(ps: seq<Pair>, fates: seq<Fate>): seq<Event>
    requires |fates| == |ps|
  {
    if ps == [] then []
    else
      var n := |ps| - 1;
      FlushEvents(ps[..n], fates[..n]) + Reported(ps[n], fates[n])
  }

  lemma FlushStep(ps: seq<Pair>, fates: seq<Fate>, i: int)
    requires |fates| == |ps| && 0 <= i < |ps|
    ensures Survivors(ps[..i + 1], fates[..i + 1]) == Survivors(ps[..i], fates[..i]) + (if fates[i] == Keep then [ps[i]] else [])
    ensures Retired(ps[..i + 1], fates[..i + 1]) == Retired(ps[..i], fates[..i]) + (if fates[i] == Keep then [] else [ps[i]])
    ensures FlushEvents(ps[..i + 1], fates[..i + 1]) == FlushEvents(ps[..i], fates[..i]) + Reported(ps[i], fates[i])
  {
    assert ps[..i + 1][..i] == ps[..i];
    assert fates[..i + 1][..i] == fates[..i];
  }

  /** FateOf read as flush_pair's chain of tests. */
  lemma FateCases(p: Pair, d: real)
    requires d == Dist2(p.watcher.position, p.marker.position)
    requires !(p.watcher.version != p.watcherVersion || p.marker.version != p.markerVersion
               || p.watcher.mode & MODE_DROP != 0 || p.marker.mode & MODE_DROP != 0)
    ensures d > AOI_LEAVE2 ==> FateOf(p) == Report(Leave)
    ensures !(d > AOI_LEAVE2) && d < AOI_RADIUS2 ==> FateOf(p) == Report(Move)
    ensures !(d > AOI_LEAVE2) && !(d < AOI_RADIUS2) ==> FateOf(p) == Keep
  {
    var z := ZoneOf(d);
  }

  /** The ids of the ends of ps whose every reference is one that ps holds:
      giving up the references of ps takes exactly these out of the
      registry. */
  ghost function Exhausted(ps: seq<Pair>): set<Id>
    reads Ends(ps)`ref
  {
    set e | e in Ends(ps) && e.ref <= Holds(ps, e) :: e.id
  }

  /** Exhausted, for the reference counts recorded in base. */
  ghost function ExhaustedFrom(ps: seq<Pair>, base: map<Entity, int>): set<Id>
  {
    set e | e in Ends(ps) && e in base && base[e] <= Holds(ps, e) :: e.id
  }

  /** With base recording the current counts the two agree. */
  lemma ExhaustedNow(ps: seq<Pair>, es: set<Entity>, base: map<Entity, int>)
    requires forall p :: p in ps ==> p.watcher in es && p.marker in es
    requires forall e :: e in es ==> e in base && base[e] == e.ref
    ensures Exhausted(ps) == ExhaustedFrom(ps, base)
  {
    assert Ends(ps) <= es;
  }

  /** The ids of p's ends for which the pairs ps hold every reference
      counted in base. */
  function UsedUp(p: Pair, ps: seq<Pair>, base: map<Entity, int>): set<Id>
    requires p.watcher in base && p.marker in base
  {
    (if base[p.watcher] <= Holds(ps, p.watcher) then {p.watcher.id} else {})
      + (if base[p.marker] <= Holds(ps, p.marker) then {p.marker.id} else {})
  }

  /** Retiring one more pair p exhausts at most its own two ends. */
  lemma ExhaustedStep(done: seq<Pair>, p: Pair, base: map<Entity, int>)
    requires p.watcher in base && p.marker in base
    ensures ExhaustedFrom(done + [p], base) == ExhaustedFrom(done, base) + UsedUp(p, done + [p], base)
  {
    var ps := done + [p];
    EndsAppend(done, [p]);
    assert Ends([p]) == {p.watcher, p.marker};
    forall e | e in Ends(done)
      ensures Holds(done, e) <= Holds(ps, e)
    {
      HoldsAppend(done, [p], e);
    }
  }

  /** The id obj's registry entry is taken out under once its last
      reference is gone. */
  ghost function Released(obj: Entity): set<Id>
    reads obj`ref
  {
    if obj.ref <= 0 then {obj.id} else {}
  }

  lemma Removed(live: map<Id, Entity>, a: set<Id>, b: set<Id>)
    ensures (live - a) - b == live - (a + b)
    ensures live - {} == live
  {
    assert (live - {}).Keys == live.Keys;
  }

  lemma EndsAppend(ps: seq<Pair>, qs: seq<Pair>)
    ensures Ends(ps + qs) == Ends(ps) + Ends(qs)
  {
    assert forall p :: p in ps + qs <==> p in ps || p in qs;
  }

  lemma HoldsOne(p: Pair, e: Entity)
    ensures Holds([p], e) == (if p.watcher == e then 1 else 0) + (if p.marker == e then 1 else 0)
  {
    assert [p][..0] == [];
  }

  /** The scene. The registry and the four buffers are created with it and
      never replaced; the tracked pairs form the `hot` list, newest first. */
  class Space {
    const objects: EntityMap
    const watcherStatic: ObjectSet
    const markerStatic: ObjectSet
    const watcherMove: ObjectSet
    const markerMove: ObjectSet
    var hot: seq<Pair>

    /** The four buffers are well formed and share neither themselves nor
        their cells. */
    ghost predicate SetsValid()
      reads watcherStatic, markerStatic, watcherMove, markerMove
      reads watcherStatic.slot, markerStatic.slot, watcherMove.slot, markerMove.slot
    {
      && watcherStatic.Valid() && markerStatic.Valid() && watcherMove.Valid() && markerMove.Valid()
      && watcherStatic != markerStatic && watcherStatic != watcherMove && watcherStatic != markerMove
      && markerStatic != watcherMove && markerStatic != markerMove && watcherMove != markerMove
      && watcherStatic.slot != markerStatic.slot && watcherStatic.slot != watcherMove.slot
      && watcherStatic.slot != markerMove.slot && markerStatic.slot != watcherMove.slot
      && markerStatic.slot != markerMove.slot && watcherMove.slot != markerMove.slot
    }

    ghost predicate Valid()
      reads objects, objects.slot, watcherStatic, markerStatic, watcherMove, markerMove
      reads watcherStatic.slot, markerStatic.slot, watcherMove.slot, markerMove.slot
    {
      objects.Valid() && SetsValid()
    }

    /** e is the entity registered under its id. */
    ghost predicate Registered(e: Entity)
      reads this, objects
    {
      e.id in objects.model.live && objects.model.live[e.id] == e
    }

    /** The invariant the scene keeps between calls: every tracked pair
        joins two registered entities; every registered entity holds the
        references the registry and the tracked pairs account for; and a
        tracked pair whose recorded versions are current joins a watcher
        to a marker unless an end was dropped. */
    ghost predicate Coherent()
      reads this, objects, objects.model.live.Values, Ends(hot)
    {
      && (forall p :: p in hot ==> Registered(p.watcher) && Registered(p.marker))
      && (forall k :: k in objects.model.live ==>
            && objects.model.live[k].id == k
            && Accounted(SnapshotOf(objects.model.live[k]), Holds(hot, objects.model.live[k])))
      && (forall p :: p in hot ==>
            Tracks(p.watcherVersion, SnapshotOf(p.watcher), true) && Tracks(p.markerVersion, SnapshotOf(p.marker), false))
    }

    /** An empty scene (`aoi_create`). */
    constructor ()
      ensures Valid() && Coherent() && fresh(objects) && fresh(objects.slot)
      ensures objects.model.live == map[] && hot == []
      ensures watcherStatic.contents == [] && markerStatic.contents == []
      ensures watcherMove.contents == [] && markerMove.contents == []
    {
      objects := new EntityMap();
      watcherStatic := new ObjectSet();
      markerStatic := new ObjectSet();
      watcherMove := new ObjectSet();
      markerMove := new ObjectSet();
      hot := [];
    }

    /** Gives up one reference to obj; the last one takes its id out of the
        registry (`drop_object`). */
    method DropObject(obj: Entity)
      requires objects.Valid()
      modifies obj`ref, objects, objects.slot
      ensures objects.Valid() && objects.slot == old(objects.slot)
      ensures ViewOf(obj) == old(ViewOf(obj))
      ensures obj.ref == old(obj.ref) - 1
      ensures objects.model.live == old(objects.model.live) - Released(obj)
    {
      obj.ref := obj.ref - 1;
      if obj.ref <= 0 {
        var _ := objects.Drop(obj.id);
      } else {
        Removed(objects.model.live, {}, {});
      }
    }

    /** Looks id up, creating its entity when it has none, and applies the
        mode string and the position to it (`aoi_update`). No other entity
        changes, and the scene stays coherent. */
    method Update(id: Id, modes: seq<char>, pos: Position) returns (ghost obj: Entity, ghost was: Snapshot)
      requires Valid() && Coherent()
      modifies objects, objects.slot, if id in objects.model.live then {objects.model.live[id]} else {}
      ensures Valid() && Coherent()
      ensures obj.id == id
      ensures forall e: Entity :: old(allocated(e)) && e != obj ==> SnapshotOf(e) == old(SnapshotOf(e))
      ensures id in old(objects.model.live) ==> obj == old(objects.model.live[id]) && was == old(SnapshotOf(obj))
      ensures id !in old(objects.model.live) ==> fresh(obj) && was == Unborn
      ensures SnapshotOf(obj) == Applied(was, Parse(modes), pos)
      ensures objects.model.live ==
        if Releases(was, Parse(modes)) then old(objects.model.live) - {id} else old(objects.model.live)[id := obj]
    {
      obj, was := Apply(id, modes, pos);
      UpdateKeeps(Change(id, obj, was, Parse(modes), pos));
    }

    /** An update that files u.obj under u.id with the state
        Applied(u.was, u.request, u.pos), and changes no other entity and
        no pair, keeps the scene coherent. */
    twostate lemma UpdateKeeps(new u: Change)
      requires old(Coherent()) && hot == old(hot) && u.obj.id == u.id
      requires u.id in old(objects.model.live) ==>
        u.obj == old(objects.model.live)[u.id] && u.was == old(SnapshotOf(objects.model.live[u.id]))
      requires u.id !in old(objects.model.live) ==> u.was == Unborn
      requires SnapshotOf(u.obj) == Applied(u.was, u.request, u.pos)
      requires forall e: Entity :: old(allocated(e)) && e != u.obj ==> SnapshotOf(e) == old(SnapshotOf(e))
      requires objects.model.live ==
        if Releases(u.was, u.request) then old(objects.model.live) - {u.id}
        else old(objects.model.live)[u.id := u.obj]
      ensures Coherent()
    {
      var id, obj, was, r, pos := u.id, u.obj, u.was, u.request, u.pos;
      var live0, live := old(objects.model.live), objects.model.live;
      var held := Holds(hot, obj);
      if id in live0 {
        assert Accounted(was, held);
      } else {
        forall p | p in hot
          ensures p.watcher != obj && p.marker != obj
        {
          assert old(Registered(p.watcher)) && old(Registered(p.marker));
        }
        HoldsOutside(hot, obj);
      }
      UpdateAccounted(was, r, pos, held);
      forall p | p in hot
        ensures Registered(p.watcher) && Registered(p.marker)
      {
        assert old(Registered(p.watcher)) && old(Registered(p.marker));
        HoldsEnd(hot, p);
      }
      forall k | k in live
        ensures live[k].id == k && Accounted(SnapshotOf(live[k]), Holds(hot, live[k]))
      {
        if k != id {
          assert live[k] == live0[k] && live0[k] != obj;
          assert old(Accounted(SnapshotOf(live0[k]), Holds(hot, live0[k])));
        }
      }
      forall p | p in hot
        ensures Tracks(p.watcherVersion, SnapshotOf(p.watcher), true)
        ensures Tracks(p.markerVersion, SnapshotOf(p.marker), false)
      {
        assert old(Registered(p.watcher)) && old(Registered(p.marker));
        assert old(Tracks(p.watcherVersion, SnapshotOf(p.watcher), true));
        assert old(Tracks(p.markerVersion, SnapshotOf(p.marker), false));
        if p.watcher == obj {
          assert old(Accounted(SnapshotOf(live0[id]), Holds(hot, live0[id])));
          UpdateTracks(was, r, pos, p.watcherVersion, true);
        }
        if p.marker == obj {
          assert old(Accounted(SnapshotOf(live0[id]), Holds(hot, live0[id])));
          UpdateTracks(was, r, pos, p.markerVersion, false);
        }
      }
    }

    /** The update itself: the lookup, then the mode string and the
        position applied to the entity found or created. */
    method Apply(id: Id, modes: seq<char>, pos: Position) returns (ghost obj: Entity, ghost was: Snapshot)
      requires Valid()
      modifies objects, objects.slot, if id in objects.model.live then {objects.model.live[id]} else {}
      ensures Valid()
      ensures obj.id == id
      ensures forall e: Entity :: old(allocated(e)) && e != obj ==> SnapshotOf(e) == old(SnapshotOf(e))
      ensures id in old(objects.model.live) ==> obj == old(objects.model.live[id]) && was == old(SnapshotOf(obj))
      ensures id !in old(objects.model.live) ==> fresh(obj) && was == Unborn
      ensures SnapshotOf(obj) == Applied(was, Parse(modes), pos)
      ensures objects.model.live ==
        if Releases(was, Parse(modes)) then old(objects.model.live) - {id} else old(objects.model.live)[id := obj]
    {
      var o := objects.Query(id);
      obj, was := o, SnapshotOf(o);
      Filed(old(objects.model.live), id, o);
      Handle(o, modes, pos);
    }

    /** Reads the mode string and applies it to a registered entity. */
    method Handle(obj: Entity, modes: seq<char>, pos: Position)
      requires Valid()
      modifies obj, objects, objects.slot
      ensures Valid()
      ensures SnapshotOf(obj) == Applied(old(SnapshotOf(obj)), Parse(modes), pos)
      ensures forall e: Entity :: old(allocated(e)) && e != obj ==> SnapshotOf(e) == old(SnapshotOf(e))
      ensures objects.model.live ==
        if Releases(old(SnapshotOf(obj)), Parse(modes)) then old(objects.model.live) - {obj.id}
        else old(objects.model.live)
    {
      var r := ParseModes(modes);
      if r.drop {
        Withdraw(obj);
      } else {
        Refresh(obj, r, pos);
      }
    }

    /** A drop request: the first one marks obj dropped and gives up the
        registry's reference. */
    method Withdraw(obj: Entity)
      requires Valid()
      modifies obj, objects, objects.slot
      ensures Valid()
      ensures SnapshotOf(obj) == Withdrawn(old(SnapshotOf(obj)))
      ensures objects.model.live ==
        if !IsDropped(old(obj.mode)) && obj.ref <= 0 then old(objects.model.live) - {obj.id}
        else old(objects.model.live)
    {
      if obj.mode & MODE_DROP == 0 {
        ghost var was := SnapshotOf(obj);
        obj.mode := MODE_DROP;
        DropObject(obj);
        assert SnapshotOf(obj) == was.(mode := MODE_DROP, ref := was.ref - 1);
      }
    }

    /** Appends obj to one of the four buffers (`set_push_back`). */
    method Push(buf: ObjectSet, obj: Entity)
      requires SetsValid()
      requires buf == watcherStatic || buf == markerStatic || buf == watcherMove || buf == markerMove
      modifies buf, buf.slot
      ensures SetsValid() && buf.contents == old(buf.contents) + [obj]
      ensures buf.slot == old(buf.slot) || fresh(buf.slot)
    {
      buf.PushBack(obj);
    }

    /** Appends a moving entity to one of the buffers and clears its moved
        flag. */
    method PushMoved(buf: ObjectSet, obj: Entity)
      requires SetsValid()
      requires buf == watcherStatic || buf == markerStatic || buf == watcherMove || buf == markerMove
      modifies buf, buf.slot, obj`mode
      ensures SetsValid() && buf.contents == old(buf.contents) + [obj]
      ensures buf.slot == old(buf.slot) || fresh(buf.slot)
      ensures SnapshotOf(obj) == old(SnapshotOf(obj)).(mode := old(obj.mode) & !MODE_MOVE)
    {
      Push(buf, obj);
      obj.mode := obj.mode & !MODE_MOVE;
    }

    /** Sorts one entity into the buffers by the flags it has on entry: as a
        watcher and as a marker, moving or static; a moving entity with a
        role loses the moved flag (`set_push`). */
    method SetPush(obj: Entity)
      requires SetsValid()
      modifies obj`mode, watcherStatic, watcherStatic.slot, markerStatic, markerStatic.slot
      modifies watcherMove, watcherMove.slot, markerMove, markerMove.slot
      ensures SetsValid()
      ensures SnapshotOf(obj) == old(SnapshotOf(obj)).(mode := Settled(old(obj.mode)))
      ensures Buffers() == Added(old(Buffers()), obj, old(obj.mode))
      ensures watcherStatic.slot == old(watcherStatic.slot) || fresh(watcherStatic.slot)
      ensures markerStatic.slot == old(markerStatic.slot) || fresh(markerStatic.slot)
      ensures watcherMove.slot == old(watcherMove.slot) || fresh(watcherMove.slot)
      ensures markerMove.slot == old(markerMove.slot) || fresh(markerMove.slot)
    {
      var mode := obj.mode;
      FileWatcher(obj, mode);
      FileMarker(obj, mode);
    }

    /** The watcher half of `set_push`, for an entity whose flags were mode
        on entry. */
    method FileWatcher(obj: Entity, mode: Mode)
      requires SetsValid()
      modifies obj`mode, watcherStatic, watcherStatic.slot, watcherMove, watcherMove.slot
      ensures SetsValid()
      ensures SnapshotOf(obj) == old(SnapshotOf(obj)).(mode := if Files(mode, true, true) then old(obj.mode) & !MODE_MOVE else old(obj.mode))
      ensures watcherStatic.contents == old(watcherStatic.contents) + Pick(obj, mode, true, false)
      ensures watcherMove.contents == old(watcherMove.contents) + Pick(obj, mode, true, true)
      ensures watcherStatic.slot == old(watcherStatic.slot) || fresh(watcherStatic.slot)
      ensures watcherMove.slot == old(watcherMove.slot) || fresh(watcherMove.slot)
    {
      if mode & MODE_WATCHER != 0 {
        if mode & MODE_MOVE != 0 {
          PushMoved(watcherMove, obj);
        } else {
          Push(watcherStatic, obj);
        }
      }
    }

    /** The marker half of `set_push`. */
    method FileMarker(obj: Entity, mode: Mode)
      requires SetsValid()
      modifies obj`mode, markerStatic, markerStatic.slot, markerMove, markerMove.slot
      ensures SetsValid()
      ensures SnapshotOf(obj) == old(SnapshotOf(obj)).(mode := if Files(mode, false, true) then old(obj.mode) & !MODE_MOVE else old(obj.mode))
      ensures markerStatic.contents == old(markerStatic.contents) + Pick(obj, mode, false, false)
      ensures markerMove.contents == old(markerMove.contents) + Pick(obj, mode, false, true)
      ensures markerStatic.slot == old(markerStatic.slot) || fresh(markerStatic.slot)
      ensures markerMove.slot == old(markerMove.slot) || fresh(markerMove.slot)
    {
      if mode & MODE_MARKER != 0 {
        if mode & MODE_MOVE != 0 {
          PushMoved(markerMove, obj);
        } else {
          Push(markerStatic, obj);
        }
      }
    }

    /** The contents of the four buffers. */
    ghost function Buffers(): Buffered
      reads watcherStatic, markerStatic, watcherMove, markerMove
    {
      Buffered(watcherStatic.contents, markerStatic.contents, watcherMove.contents, markerMove.contents)
    }

    /** Sorts the visited entities, in order, into the buffers
        (`map_foreach` with `set_push`). */
    method Partition(objs: seq<Entity>)
      requires SetsValid() && Distinct(objs)
      modifies (set o | o in objs)`mode, watcherStatic, watcherStatic.slot, markerStatic, markerStatic.slot
      modifies watcherMove, watcherMove.slot, markerMove, markerMove.slot
      ensures SetsValid()
      ensures Buffers() == Sorted(old(Buffers()), objs, old(ModesOf(objs)))
      ensures forall i :: 0 <= i < |objs| ==>
        SnapshotOf(objs[i]) == old(SnapshotOf(objs[i])).(mode := Settled(old(objs[i].mode)))
    {
      ghost var modes := ModesOf(objs);
      ghost var before := SnapshotsOf(objs);
      ghost var base := Buffers();
      assert objs[..0] == [] && modes[..0] == [];
      for i := 0 to |objs|
        invariant Sorting(objs, modes, before, base, i)
        invariant watcherStatic.slot == old(watcherStatic.slot) || fresh(watcherStatic.slot)
        invariant markerStatic.slot == old(markerStatic.slot) || fresh(markerStatic.slot)
        invariant watcherMove.slot == old(watcherMove.slot) || fresh(watcherMove.slot)
        invariant markerMove.slot == old(markerMove.slot) || fresh(markerMove.slot)
      {
        SortNext(objs, modes, before, base, i);
      }
      assert objs[..|objs|] == objs && modes[..|objs|] == modes;
    }

    /** The state of the sorting loop after i entities: the buffers hold
        them, each has settled, and the rest are untouched. */
    ghost predicate Sorting(objs: seq<Entity>, modes: seq<Mode>, before: seq<Snapshot>, base: Buffered, i: int)
      reads watcherStatic, markerStatic, watcherMove, markerMove
      reads watcherStatic.slot, markerStatic.slot, watcherMove.slot, markerMove.slot, objs
    {
      && SetsValid() && 0 <= i <= |objs| && |modes| == |objs| && |before| == |objs|
      && (forall k :: 0 <= k < |objs| ==> modes[k] == before[k].mode)
      && Buffers() == Sorted(base, objs[..i], modes[..i])
      && (forall k :: 0 <= k < i ==> SnapshotOf(objs[k]) == before[k].(mode := Settled(modes[k])))
      && (forall k :: i <= k < |objs| ==> SnapshotOf(objs[k]) == before[k])
    }

    /** One step of the sorting loop. */
    method SortNext(objs: seq<Entity>, ghost modes: seq<Mode>, ghost before: seq<Snapshot>, ghost base: Buffered, i: int)
      requires Distinct(objs) && Sorting(objs, modes, before, base, i) && i < |objs|
      modifies {objs[i]}`mode, watcherStatic, watcherStatic.slot, markerStatic, markerStatic.slot
      modifies watcherMove, watcherMove.slot, markerMove, markerMove.slot
      ensures Sorting(objs, modes, before, base, i + 1)
      ensures watcherStatic.slot == old(watcherStatic.slot) || fresh(watcherStatic.slot)
      ensures markerStatic.slot == old(markerStatic.slot) || fresh(markerStatic.slot)
      ensures watcherMove.slot == old(watcherMove.slot) || fresh(watcherMove.slot)
      ensures markerMove.slot == old(markerMove.slot) || fresh(markerMove.slot)
    {
      SetPush(objs[i]);
      SortedStep(base, objs, modes, i);
    }

    /** Judges watcher w against marker m: reports MOVE or LEAVE, or starts
        tracking them as a pair with one more reference on each
        (`gen_pair`). */
    method GenPair(w: Entity, m: Entity) returns (events: seq<Event>)
      modifies this`hot, w`ref, m`ref
      ensures events == Verdict(old(ViewOf(w)), old(ViewOf(m)))
      ensures hot == Candidate(old(ViewOf(w)), old(ViewOf(m))) + old(hot)
      ensures ViewOf(w) == old(ViewOf(w)) && ViewOf(m) == old(ViewOf(m))
      ensures w.ref == old(w.ref) + Holds(Candidate(old(ViewOf(w)), old(ViewOf(m))), w)
      ensures m.ref == old(m.ref) + Holds(Candidate(old(ViewOf(w)), old(ViewOf(m))), m)
    {
      if w == m {
        return [];
      }
      var d := Dist2(w.position, m.position);
      if d < AOI_RADIUS2 {
        return [Event(w.id, m.id, Move)];
      }
      if d > AOI_LEAVE2 {
        return [Event(w.id, m.id, Leave)];
      }
      w.Grab();
      m.Grab();
      hot := [Pair(w, m, w.version, m.version)] + hot;
      events := [];
    }

    /** gen_pair_list: every watcher of ws, in order, judged against every
        marker of ms. The buffers' views are passed in as vws and vms; the
        references taken are counted, as in Tallied, over any es holding
        both buffers' objects. */
    method GenPairList(ws: ObjectSet, ms: ObjectSet, ghost vws: seq<View>, ghost vms: seq<View>,
                       ghost es: seq<Entity>, ghost vs: seq<View>, ghost base: map<Entity, int>, ghost ps: seq<Pair>)
      returns (events: seq<Event>)
      requires ws.Valid() && ms.Valid() && |vws| == ws.number && |vms| == ms.number
      requires Seen(es, vs)
      requires forall k :: 0 <= k < |vws| ==> vws[k] == ViewOf(ws.contents[k])
      requires forall k :: 0 <= k < |vms| ==> vms[k] == ViewOf(ms.contents[k])
      requires forall k :: 0 <= k < |ws.contents| ==> ws.contents[k] in es
      requires forall k :: 0 <= k < |ms.contents| ==> ms.contents[k] in es
      requires Tallied(es, base, ps)
      modifies this`hot, (set e | e in ws.contents)`ref, (set e | e in ms.contents)`ref
      ensures events == CrossEvents(vws, vms)
      ensures hot == PushAll(CrossPairs(vws, vms), old(hot))
      ensures Tallied(es, base, ps + CrossPairs(vws, vms))
      ensures Seen(es, vs)
    {
      events := [];
      var i := 0;
      assert ps + CrossPairs(vws[..0], vms) == ps;
      while i < ws.number
        invariant 0 <= i <= ws.number
        invariant events == CrossEvents(vws[..i], vms)
        invariant hot == PushAll(CrossPairs(vws[..i], vms), old(hot))
        invariant Tallied(es, base, ps + CrossPairs(vws[..i], vms))
        invariant forall k :: 0 <= k < |vws| ==> vws[k] == ViewOf(ws.contents[k])
        invariant forall k :: 0 <= k < |vms| ==> vms[k] == ViewOf(ms.contents[k])
      {
        var found := ListNext(ws, ms, es, base, ps, vws, vms, old(hot), i);
        events := events + found;
        i := i + 1;
      }
      assert vws[..i] == vws;
    }

    method ListNext(ws: ObjectSet, ms: ObjectSet, ghost es: seq<Entity>, ghost base: map<Entity, int>,
                    ghost ps: seq<Pair>, ghost vws: seq<View>, ghost vms: seq<View>, ghost hot0: seq<Pair>, i: int)
      returns (found: seq<Event>)
      requires ws.Valid() && ms.Valid() && 0 <= i < ws.number
      requires |vws| == ws.number && |vms| == ms.number
      requires forall k :: 0 <= k < |ws.contents| ==> ws.contents[k] in es
      requires forall k :: 0 <= k < |ms.contents| ==> ms.contents[k] in es
      requires forall k :: 0 <= k < |vws| ==> vws[k] == ViewOf(ws.contents[k])
      requires forall k :: 0 <= k < |vms| ==> vms[k] == ViewOf(ms.contents[k])
      requires hot == PushAll(CrossPairs(vws[..i], vms), hot0)
      requires Tallied(es, base, ps + CrossPairs(vws[..i], vms))
      modifies this`hot, (set e | e in ws.contents)`ref, (set e | e in ms.contents)`ref
      ensures hot == PushAll(CrossPairs(vws[..i + 1], vms), hot0)
      ensures Tallied(es, base, ps + CrossPairs(vws[..i + 1], vms))
      ensures CrossEvents(vws[..i + 1], vms) == CrossEvents(vws[..i], vms) + found
      ensures forall k :: 0 <= k < |vws| ==> vws[k] == ViewOf(ws.contents[k])
      ensures forall k :: 0 <= k < |vms| ==> vms[k] == ViewOf(ms.contents[k])
    {
      var w := ws.Get(i);
      assert w in es && ViewOf(w) == vws[i];
      ghost var done := CrossPairs(vws[..i], vms);
      ghost var row := RowPairs(vws[i], vms);
      found := GenRow(w, ms, es, base, ps + done, vws[i], vms);
      assert hot == PushAll(row, PushAll(done, hot0)) && Tallied(es, base, ps + done + row);
      CrossStep(vws, vms, i);
      PushAllAppend(done, row, hot0);
      Joined(ps, done, row);
    }

    /** Judges watcher w against every marker of buf in order; the
        references taken are counted, as in Tallied, over any es that
        holds them all. */
    method GenRow(w: Entity, buf: ObjectSet, ghost es: seq<Entity>, ghost base: map<Entity, int>, ghost ps: seq<Pair>,
                  ghost vw: View, ghost vs: seq<View>)
      returns (events: seq<Event>)
      requires buf.Valid() && w in es && forall k :: 0 <= k < |buf.contents| ==> buf.contents[k] in es
      requires vw == ViewOf(w) && |vs| == buf.number
      requires forall k :: 0 <= k < |vs| ==> vs[k] == ViewOf(buf.contents[k])
      requires Tallied(es, base, ps)
      modifies this`hot, w`ref, (set e | e in buf.contents)`ref
      ensures events == RowEvents(vw, vs)
      ensures hot == PushAll(RowPairs(vw, vs), old(hot))
      ensures Tallied(es, base, ps + RowPairs(vw, vs))
    {
      assert ps + RowPairs(vw, vs[..0]) == ps;
      events := [];
      var j := 0;
      while j < buf.number
        invariant 0 <= j <= buf.number
        invariant events == RowEvents(vw, vs[..j])
        invariant hot == PushAll(RowPairs(vw, vs[..j]), old(hot))
        invariant Tallied(es, base, ps + RowPairs(vw, vs[..j]))
      {
        var found := RowNext(w, buf, es, base, ps, vw, vs, old(hot), j);
        events := events + found;
        j := j + 1;
      }
      assert vs[..j] == vs;
    }

    /** Every entity of es holds, beyond its count in base, one reference
        per end of ps it is. */
    ghost predicate Tallied(es: seq<Entity>, base: map<Entity, int>, ps: seq<Pair>)
      reads (set e | e in es)`ref
    {
      forall e :: e in es ==> e in base && e.ref == base[e] + Holds(ps, e)
    }

    /** The reference counts of es, taken as a snapshot. */
    ghost function RefsOf(es: seq<Entity>): map<Entity, int>
      reads (set e | e in es)`ref
    {
      map e | e in es :: e.ref
    }

    method RowNext(w: Entity, buf: ObjectSet, ghost es: seq<Entity>, ghost base: map<Entity, int>, ghost ps: seq<Pair>,
                   ghost vw: View, ghost vs: seq<View>, ghost hot0: seq<Pair>, j: int)
      returns (found: seq<Event>)
      requires buf.Valid() && 0 <= j < buf.number
      requires w in es && forall k :: 0 <= k < |buf.contents| ==> buf.contents[k] in es
      requires vw == ViewOf(w) && |vs| == buf.number
      requires forall k :: 0 <= k < |vs| ==> vs[k] == ViewOf(buf.contents[k])
      requires hot == PushAll(RowPairs(vw, vs[..j]), hot0)
      requires Tallied(es, base, ps + RowPairs(vw, vs[..j]))
      modifies this`hot, w`ref, (set e | e in buf.contents)`ref
      ensures hot == PushAll(RowPairs(vw, vs[..j + 1]), hot0)
      ensures Tallied(es, base, ps + RowPairs(vw, vs[..j + 1]))
      ensures found == Verdict(vw, vs[j])
      ensures RowEvents(vw, vs[..j + 1]) == RowEvents(vw, vs[..j]) + found
    {
      var m := buf.Get(j);
      ghost var done, c := RowPairs(vw, vs[..j]), Candidate(vw, vs[j]);
      found := Judge(w, m, es, base, ps + done);
      RowStep(vw, vs, j);
      Joined(ps, done, c);
      PushOne(done, c, hot0);
    }

    /** gen_pair, with the references it takes counted against base. */
    method Judge(w: Entity, m: Entity, ghost es: seq<Entity>, ghost base: map<Entity, int>, ghost ps: seq<Pair>)
      returns (found: seq<Event>)
      requires w in es && m in es && Tallied(es, base, ps)
      modifies this`hot, w`ref, m`ref
      ensures found == Verdict(ViewOf(w), ViewOf(m))
      ensures hot == Candidate(ViewOf(w), ViewOf(m)) + old(hot)
      ensures Tallied(es, base, ps + Candidate(ViewOf(w), ViewOf(m)))
    {
      ghost var c := Candidate(ViewOf(w), ViewOf(m));
      found := GenPair(w, m);
      forall e | e in es
        ensures e in base && e.ref == base[e] + Holds(ps + c, e)
      {
        HoldsAppend(ps, c, e);
        CandidateHolds(ViewOf(w), ViewOf(m), e);
      }
    }

    /** Gives up the references pair p holds on its two ends
        (`drop_pair`). */
    method DropPair(p: Pair)
      requires objects.Valid()
      modifies p.watcher`ref, p.marker`ref, objects, objects.slot
      ensures objects.Valid() && objects.slot == old(objects.slot)
      ensures p.watcher.ref == old(p.watcher.ref) - Holds([p], p.watcher)
      ensures p.marker.ref == old(p.marker.ref) - Holds([p], p.marker)
      ensures objects.model.live == old(objects.model.live) - (Released(p.watcher) + Released(p.marker))
    {
      assert [p][..0] == [];
      ghost var live0 := objects.model.live;
      DropObject(p.watcher);
      ghost var a := Released(p.watcher);
      ghost var live1 := objects.model.live;
      DropObject(p.marker);
      ghost var b := Released(p.marker);
      assert objects.model.live == live1 - b;
      if p.watcher == p.marker {
        assert a <= b;
        assert a + b == b;
      } else {
        assert a == Released(p.watcher);
      }
      Removed(live0, a, b);
    }

    /** Flushing has given up, from the counts in base and the registry
        live0, the references the pairs of done held. */
    ghost predicate Flushing(es: set<Entity>, base: map<Entity, int>, live0: map<Id, Entity>, done: seq<Pair>)
      reads objects, es`ref
    {
      && (forall e :: e in es ==> e in base && e.ref == base[e] - Holds(done, e))
      && objects.model.live == live0 - ExhaustedFrom(done, base)
    }

    /** drop_pair(p) as one more step of a flush. */
    method Retire(p: Pair, ghost es: set<Entity>, ghost base: map<Entity, int>, ghost live0: map<Id, Entity>, ghost done: seq<Pair>,
                  ghost ps: seq<Pair>, ghost fates: seq<Fate>)
      requires objects.Valid() && p.watcher in es && p.marker in es && Flushing(es, base, live0, done)
      requires |fates| == |ps| && forall k :: 0 <= k < |ps| ==> fates[k] == FateOf(ps[k])
      modifies p.watcher`ref, p.marker`ref, objects, objects.slot
      ensures objects.Valid() && objects.slot == old(objects.slot)
      ensures forall k :: 0 <= k < |ps| ==> fates[k] == FateOf(ps[k])
      ensures Flushing(es, base, live0, done + [p])
    {
      ghost var before := ExhaustedFrom(done, base);
      DropPair(p);
      assert forall e :: e in es ==> e in base && e.ref == base[e] - Holds(done + [p], e) by {
        forall e | e in es
          ensures e in base && e.ref == base[e] - Holds(done + [p], e)
        {
          HoldsOne(p, e);
          HoldsAppend(done, [p], e);
        }
      }
      assert objects.model.live == live0 - ExhaustedFrom(done + [p], base) by {
        ExhaustedStep(done, p, base);
        var w, m, h := p.watcher, p.marker, Holds(done + [p], p.watcher);
        assert w.ref == base[w] - h;
        assert Released(w) == if base[w] <= h then {w.id} else {};
        var k := Holds(done + [p], m);
        assert m.ref == base[m] - k;
        assert Released(m) == if base[m] <= k then {m.id} else {};
        Removed(live0, before, UsedUp(p, done + [p], base));
      }
    }

    /** Walks the tracked pairs once: reports and discards those whose ends
        are now inside the radius or beyond the leave distance, discards
        silently those with a moved or dropped end, and keeps the rest in
        order (`flush_pair`). */
    method FlushPair() returns (events: seq<Event>)
      requires Valid()
      modifies this`hot, objects, objects.slot, Ends(hot)`ref
      ensures Valid() && objects.slot == old(objects.slot)
      ensures events == FlushEvents(old(hot), old(FatesOf(hot)))
      ensures hot == Survivors(old(hot), old(FatesOf(hot)))
      ensures forall e: Entity :: old(allocated(e)) ==> e.ref == old(e.ref) - Holds(Retired(old(hot), old(FatesOf(hot))), e)
      ensures objects.model.live == old(objects.model.live) - old(Exhausted(Retired(hot, FatesOf(hot))))
      ensures forall e: Entity :: old(allocated(e)) ==> ViewOf(e) == old(ViewOf(e))
    {
      ghost var retired := Retired(hot, FatesOf(hot));
      ghost var ends := Ends(hot);
      RetiredWithin(hot, FatesOf(hot));
      var kept;
      events, kept := Sift(hot);
      hot := kept;
      forall e: Entity | old(allocated(e)) && e !in ends
        ensures Holds(retired, e) == 0
      {
        HoldsOutside(retired, e);
      }
    }

    /** The loop of flush_pair over the pairs ps: the events and the pairs
        kept, with the references of the others given up. */
    method Sift(ps: seq<Pair>) returns (events: seq<Event>, kept: seq<Pair>)
      requires objects.Valid()
      modifies objects, objects.slot, Ends(ps)`ref
      ensures objects.Valid() && objects.slot == old(objects.slot)
      ensures events == FlushEvents(ps, old(FatesOf(ps)))
      ensures kept == Survivors(ps, old(FatesOf(ps)))
      ensures forall e :: e in Ends(ps) ==> e.ref == old(e.ref) - Holds(Retired(ps, old(FatesOf(ps))), e)
      ensures objects.model.live == old(objects.model.live) - old(Exhausted(Retired(ps, FatesOf(ps))))
    {
      ghost var fates := FatesOf(ps);
      ghost var es := Ends(ps);
      ghost var base := map e | e in es :: e.ref;
      ghost var live0 := objects.model.live;
      ghost var gone := Exhausted(Retired(ps, fates));
      RetiredWithin(ps, fates);
      ExhaustedNow(Retired(ps, fates), es, base);
      kept := [];
      events := [];
      var i := 0;
      assert ps[..0] == [] && ExhaustedFrom([], base) == {};
      Removed(live0, {}, {});
      while i < |ps|
        invariant 0 <= i <= |ps|
        invariant objects.Valid() && objects.slot == old(objects.slot)
        invariant forall k :: 0 <= k < |ps| ==> fates[k] == FateOf(ps[k])
        invariant kept == Survivors(ps[..i], fates[..i])
        invariant events == FlushEvents(ps[..i], fates[..i])
        invariant Flushing(es, base, live0, Retired(ps[..i], fates[..i]))
      {
        var found, keep := FlushNext(ps, fates, es, base, live0, i);
        if keep {
          kept := kept + [ps[i]];
        }
        events := events + found;
        i := i + 1;
      }
      assert ps[..i] == ps;
      assert fates[..i] == fates;
    }

    method FlushNext(ps: seq<Pair>, ghost fates: seq<Fate>, ghost es: set<Entity>, ghost base: map<Entity, int>,
                     ghost live0: map<Id, Entity>, i: int)
      returns (found: seq<Event>, keep: bool)
      requires objects.Valid() && 0 <= i < |ps| && |fates| == |ps| && es == Ends(ps)
      requires forall k :: 0 <= k < |ps| ==> fates[k] == FateOf(ps[k])
      requires Flushing(es, base, live0, Retired(ps[..i], fates[..i]))
      modifies objects, objects.slot, Ends(ps)`ref
      ensures objects.Valid() && objects.slot == old(objects.slot)
      ensures forall k :: 0 <= k < |ps| ==> fates[k] == FateOf(ps[k])
      ensures keep == (fates[i] == Keep)
      ensures Survivors(ps[..i + 1], fates[..i + 1]) == Survivors(ps[..i], fates[..i]) + (if keep then [ps[i]] else [])
      ensures FlushEvents(ps[..i + 1], fates[..i + 1]) == FlushEvents(ps[..i], fates[..i]) + found
      ensures Flushing(es, base, live0, Retired(ps[..i + 1], fates[..i + 1]))
    {
      var p := ps[i];
      assert p in ps;
      assert p.watcher in es && p.marker in es;
      found, keep := FlushOne(p, es, base, live0, Retired(ps[..i], fates[..i]), ps, fates);
      FlushStep(ps, fates, i);
    }

    /** The body of flush_pair's loop for one pair p. */
    method FlushOne(p: Pair, ghost es: set<Entity>, ghost base: map<Entity, int>, ghost live0: map<Id, Entity>,
                    ghost done: seq<Pair>, ghost ps: seq<Pair>, ghost fates: seq<Fate>)
      returns (found: seq<Event>, keep: bool)
      requires objects.Valid() && p.watcher in es && p.marker in es && Flushing(es, base, live0, done)
      requires |fates| == |ps| && forall k :: 0 <= k < |ps| ==> fates[k] == FateOf(ps[k])
      modifies p.watcher`ref, p.marker`ref, objects, objects.slot
      ensures objects.Valid() && objects.slot == old(objects.slot)
      ensures forall k :: 0 <= k < |ps| ==> fates[k] == FateOf(ps[k])
      ensures keep == (old(FateOf(p)) == Keep) && found == Reported(p, old(FateOf(p)))
      ensures Flushing(es, base, live0, done + (if keep then [] else [p]))
    {
      if p.watcher.version != p.watcherVersion || p.marker.version != p.markerVersion
         || p.watcher.mode & MODE_DROP != 0 || p.marker.mode & MODE_DROP != 0 {
        Retire(p, es, base, live0, done, ps, fates);
        return [], false;
      }
      var d := Dist2(p.watcher.position, p.marker.position);
      FateCases(p, d);
      if d > AOI_LEAVE2 {
        found := [Event(p.watcher.id, p.marker.id, Leave)];
        Retire(p, es, base, live0, done, ps, fates);
        keep := false;
      } else if d < AOI_RADIUS2 {
        found := [Event(p.watcher.id, p.marker.id, Move)];
        Retire(p, es, base, live0, done, ps, fates);
        keep := false;
      } else {
        assert done + [] == done;
        found, keep := [], true;
      }
    }

    /** a is a registered watcher and b a registered marker. */
    ghost predicate Meets(a: Id, b: Id)
      reads this, objects, objects.model.live.Values
    {
      a in objects.model.live && IsWatcher(objects.model.live[a].mode) && b in objects.model.live && IsMarker(objects.model.live[b].mode)
    }

    /** One tick (`aoi_message`): flushes the tracked pairs, then sorts
        every registered entity into the buffers, in the registry's slot
        order, and judges the three pair lists. scanned is that order and
        modes the flags its entities had. The scene stays coherent. */
    method Message() returns (events: seq<Event>, ghost scanned: seq<Entity>, ghost modes: seq<Mode>)
      requires Valid() && Coherent()
      modifies this`hot, objects, objects.slot, Ends(hot)`ref
      modifies watcherStatic, watcherStatic.slot, markerStatic, markerStatic.slot
      modifies watcherMove, watcherMove.slot, markerMove, markerMove.slot
      modifies (objects.model.live.Values)`mode, (objects.model.live.Values)`ref
      ensures Valid() && Coherent()
      ensures objects.model.live == old(objects.model.live) - old(Exhausted(Retired(hot, FatesOf(hot))))
      ensures Distinct(scanned)
      ensures forall o :: o in scanned ==> o.id in objects.model.live && objects.model.live[o.id] == o
      ensures forall k :: k in objects.model.live ==> objects.model.live[k] in scanned
      ensures forall i :: 0 <= i < |scanned| ==> old(allocated(scanned[i]))
      ensures |modes| == |scanned| && forall i :: 0 <= i < |scanned| ==> modes[i] == old(scanned[i].mode)
      ensures Buffers() == Sorted(Buffered([], [], [], []), scanned, modes)
      ensures forall i :: 0 <= i < |scanned| ==>
        ViewOf(scanned[i]) == old(ViewOf(scanned[i])).(mode := Settled(modes[i]))
      ensures events == FlushEvents(old(hot), old(FatesOf(hot))) + TickEvents(ViewsOf(watcherStatic.contents), ViewsOf(markerStatic.contents),
                                   ViewsOf(watcherMove.contents), ViewsOf(markerMove.contents))
      ensures hot == PushAll(TickPairs(ViewsOf(watcherStatic.contents), ViewsOf(markerStatic.contents),
                                   ViewsOf(watcherMove.contents), ViewsOf(markerMove.contents)), Survivors(old(hot), old(FatesOf(hot))))
      ensures forall e: Entity :: old(allocated(e)) ==>
        e.ref == old(e.ref) - Holds(Retired(old(hot), old(FatesOf(hot))), e) + Holds(TickPairs(ViewsOf(watcherStatic.contents), ViewsOf(markerStatic.contents),
                                   ViewsOf(watcherMove.contents), ViewsOf(markerMove.contents)), e)
      ensures forall ev :: ev in events ==>
        && ev.watcher in old(objects.model.live) && IsWatcher(old(objects.model.live[ev.watcher].mode))
        && ev.marker in old(objects.model.live) && IsMarker(old(objects.model.live[ev.marker].mode))
      ensures forall a, b :: old(Meets(a, b)) && (IsMoved(old(objects.model.live[a].mode)) || IsMoved(old(objects.model.live[b].mode))) ==>
        && a in objects.model.live && b in objects.model.live
        && Between(events, a, b) == Verdict(ViewOf(objects.model.live[a]), ViewOf(objects.model.live[b]))
        && PairsBetween(hot, a, b) == Candidate(ViewOf(objects.model.live[a]), ViewOf(objects.model.live[b]))
      ensures forall a, b :: old(Meets(a, b)) && !IsMoved(old(objects.model.live[a].mode)) && !IsMoved(old(objects.model.live[b].mode)) ==>
        && Between(events, a, b) == Between(FlushEvents(old(hot), old(FatesOf(hot))), a, b)
        && PairsBetween(hot, a, b) == PairsBetween(Survivors(old(hot), old(FatesOf(hot))), a, b)
      ensures forall a, b :: (&& old(Meets(a, b)) && !IsMoved(old(objects.model.live[a].mode)) && !IsMoved(old(objects.model.live[b].mode))
                             && forall k :: 0 <= k < |old(hot)| && old(hot)[k].watcher.id == a && old(hot)[k].marker.id == b ==>
                                  old(FatesOf(hot))[k] == Keep) ==>
        && Between(events, a, b) == []
        && PairsBetween(hot, a, b) == PairsBetween(old(hot), a, b)
    {
      events, scanned, modes := FlushAndTick();
      var sc := Scan(scanned, modes);
      MessageKeeps(sc);
      FlushVoices();
      TickVoices(sc);
      Meetings(Outcome(sc, events));
      QuietMeetings(Outcome(sc, events));
    }

    /** A tick that retires the pairs flushing discards, takes the ids the
        retired pairs exhausted out of the registry, settles the flags of
        the visited entities sc.objs and pushes the pairs the tick starts
        keeps the scene coherent. */
    twostate lemma MessageKeeps(sc: Scan)
      requires old(Coherent())
      requires objects.model.live == old(objects.model.live) - old(Exhausted(Retired(hot, FatesOf(hot))))
      requires forall o :: o in sc.objs ==> o.id in objects.model.live && objects.model.live[o.id] == o
      requires forall k :: k in objects.model.live ==> objects.model.live[k] in sc.objs
      requires forall i :: 0 <= i < |sc.objs| ==> old(allocated(sc.objs[i]))
      requires |sc.modes| == |sc.objs| && forall i :: 0 <= i < |sc.objs| ==> sc.modes[i] == old(sc.objs[i].mode)
      requires Buffers() == Sorted(Buffered([], [], [], []), sc.objs, sc.modes)
      requires forall i :: 0 <= i < |sc.objs| ==>
        ViewOf(sc.objs[i]) == old(ViewOf(sc.objs[i])).(mode := Settled(sc.modes[i]))
      requires hot == PushAll(TickPairs(ViewsOf(watcherStatic.contents), ViewsOf(markerStatic.contents),
                                        ViewsOf(watcherMove.contents), ViewsOf(markerMove.contents)), Survivors(old(hot), old(FatesOf(hot))))
      requires forall e: Entity :: old(allocated(e)) ==>
        e.ref == old(e.ref) - Holds(Retired(old(hot), old(FatesOf(hot))), e) + Holds(TickPairs(ViewsOf(watcherStatic.contents), ViewsOf(markerStatic.contents),
                                        ViewsOf(watcherMove.contents), ViewsOf(markerMove.contents)), e)
      ensures Coherent()
    {
      var S := Survivors(old(hot), old(FatesOf(hot)));
      var T := TickPairs(ViewsOf(watcherStatic.contents), ViewsOf(markerStatic.contents),
                         ViewsOf(watcherMove.contents), ViewsOf(markerMove.contents));
      TickPairsRoles(sc.objs, sc.modes, Buffers());
      TickAccounts(sc);
      SurvivorsStay();
      SurvivorsTrack(sc);
      PushAllMembers(T, S);
      forall p | p in hot
        ensures Registered(p.watcher) && Registered(p.marker)
        ensures Tracks(p.watcherVersion, SnapshotOf(p.watcher), true) && Tracks(p.markerVersion, SnapshotOf(p.marker), false)
      {
        assert p in T || p in S;
      }
    }

    /** Settling the flags keeps what the pairs flushing kept track, as
        long as their ends stay registered. */
    twostate lemma SurvivorsTrack(sc: Scan)
      requires old(Coherent())
      requires forall p :: p in Survivors(old(hot), old(FatesOf(hot))) ==> Registered(p.watcher) && Registered(p.marker)
      requires forall k :: k in objects.model.live ==> objects.model.live[k] in sc.objs
      requires |sc.modes| == |sc.objs| && forall i :: 0 <= i < |sc.objs| ==> sc.modes[i] == old(sc.objs[i].mode)
      requires forall i :: 0 <= i < |sc.objs| ==> old(allocated(sc.objs[i]))
      requires forall i :: 0 <= i < |sc.objs| ==>
        ViewOf(sc.objs[i]) == old(ViewOf(sc.objs[i])).(mode := Settled(sc.modes[i]))
      ensures forall p :: p in Survivors(old(hot), old(FatesOf(hot))) ==>
        Tracks(p.watcherVersion, SnapshotOf(p.watcher), true) && Tracks(p.markerVersion, SnapshotOf(p.marker), false)
    {
      var hot0, fates := old(hot), old(FatesOf(hot));
      SurvivorsKept(hot0, fates);
      forall p | p in Survivors(hot0, fates)
        ensures Tracks(p.watcherVersion, SnapshotOf(p.watcher), true) && Tracks(p.markerVersion, SnapshotOf(p.marker), false)
      {
        var w, m := p.watcher, p.marker;
        var i :| 0 <= i < |sc.objs| && sc.objs[i] == w;
        var j :| 0 <= j < |sc.objs| && sc.objs[j] == m;
        SettledTracks(p.watcherVersion, old(SnapshotOf(sc.objs[i])), SnapshotOf(w), true);
        SettledTracks(p.markerVersion, old(SnapshotOf(sc.objs[j])), SnapshotOf(m), false);
      }
    }

    /** A tick leaves every registered entity accounted for. */
    twostate lemma TickAccounts(sc: Scan)
      requires old(Coherent())
      requires objects.model.live == old(objects.model.live) - old(Exhausted(Retired(hot, FatesOf(hot))))
      requires forall k :: k in objects.model.live ==> objects.model.live[k] in sc.objs
      requires forall i :: 0 <= i < |sc.objs| ==> old(allocated(sc.objs[i]))
      requires |sc.modes| == |sc.objs| && forall i :: 0 <= i < |sc.objs| ==> sc.modes[i] == old(sc.objs[i].mode)
      requires forall i :: 0 <= i < |sc.objs| ==>
        ViewOf(sc.objs[i]) == old(ViewOf(sc.objs[i])).(mode := Settled(sc.modes[i]))
      requires hot == PushAll(TickPairs(ViewsOf(watcherStatic.contents), ViewsOf(markerStatic.contents),
                                        ViewsOf(watcherMove.contents), ViewsOf(markerMove.contents)), Survivors(old(hot), old(FatesOf(hot))))
      requires forall e: Entity :: old(allocated(e)) ==>
        e.ref == old(e.ref) - Holds(Retired(old(hot), old(FatesOf(hot))), e) + Holds(TickPairs(ViewsOf(watcherStatic.contents), ViewsOf(markerStatic.contents),
                                        ViewsOf(watcherMove.contents), ViewsOf(markerMove.contents)), e)
      ensures forall k :: k in objects.model.live ==>
        && objects.model.live[k].id == k
        && Accounted(SnapshotOf(objects.model.live[k]), Holds(hot, objects.model.live[k]))
    {
      var live0, hot0, fates := old(objects.model.live), old(hot), old(FatesOf(hot));
      var R, S := Retired(hot0, fates), Survivors(hot0, fates);
      var T := TickPairs(ViewsOf(watcherStatic.contents), ViewsOf(markerStatic.contents),
                         ViewsOf(watcherMove.contents), ViewsOf(markerMove.contents));
      var ex := old(Exhausted(R));
      forall k | k in objects.model.live
        ensures objects.model.live[k].id == k
        ensures Accounted(SnapshotOf(objects.model.live[k]), Holds(hot, objects.model.live[k]))
      {
        var e := live0[k];
        var i :| 0 <= i < |sc.objs| && sc.objs[i] == e;
        HoldsSplit(hot0, fates, e);
        HoldsPushAll(T, S, e);
        if e !in Ends(R) {
          HoldsOutside(R, e);
        }
        assert old(Accounted(SnapshotOf(objects.model.live[k]), Holds(hot, objects.model.live[k])));
        assert k !in ex;
        assert old(e.ref) > Holds(R, e);
        assert e.ref == old(e.ref) - Holds(R, e) + Holds(T, e);
        assert e.mode == Settled(old(e.mode));
        SettledAccounted(old(SnapshotOf(sc.objs[i])), SnapshotOf(e), Holds(S, e), Holds(R, e), Holds(T, e));
      }
    }

    /** An entity that is not dropped stays registered through a tick: the
        registry holds a reference of its own on it, which no retired pair
        accounts for. */
    twostate lemma UndroppedStay()
      requires old(Coherent())
      requires objects.model.live == old(objects.model.live) - old(Exhausted(Retired(hot, FatesOf(hot))))
      ensures forall k :: k in old(objects.model.live) && !IsDropped(old(objects.model.live[k].mode)) ==>
        k in objects.model.live && objects.model.live[k] == old(objects.model.live[k])
    {
      var live0, hot0, fates := old(objects.model.live), old(hot), old(FatesOf(hot));
      var R := Retired(hot0, fates);
      var ex := old(Exhausted(R));
      RetiredWithin(hot0, fates);
      assert forall e :: e in Ends(R) ==> e.id in live0 && live0[e.id] == e;
      forall k | k in live0 && !IsDropped(old(objects.model.live[k].mode))
        ensures k in objects.model.live && objects.model.live[k] == live0[k]
      {
        var e := live0[k];
        HoldsSplit(hot0, fates, e);
        assert old(Accounted(SnapshotOf(objects.model.live[k]), Holds(hot, objects.model.live[k])));
        assert k !in ex;
      }
    }

    /** In a coherent scene, a pair between a watcher and a marker one of
        which has moved since it was recorded is stale: flushing discards
        it. */
    twostate lemma StaleBetween(en: Encounter)
      requires old(Coherent())
      requires en.watcher in old(objects.model.live) && IsWatcher(old(objects.model.live[en.watcher].mode))
      requires en.marker in old(objects.model.live) && IsMarker(old(objects.model.live[en.marker].mode))
      requires IsMoved(old(objects.model.live[en.watcher].mode)) || IsMoved(old(objects.model.live[en.marker].mode))
      ensures forall k :: 0 <= k < |old(hot)| && old(hot)[k].watcher.id == en.watcher && old(hot)[k].marker.id == en.marker ==>
        old(FatesOf(hot))[k] == Discard
    {
      var hot0, fates := old(hot), old(FatesOf(hot));
      forall k | 0 <= k < |hot0| && hot0[k].watcher.id == en.watcher && hot0[k].marker.id == en.marker
        ensures fates[k] == Discard
      {
        var p := hot0[k];
        assert p in hot0;
        assert old(Accounted(SnapshotOf(objects.model.live[en.watcher]), Holds(hot, objects.model.live[en.watcher])));
        assert old(Accounted(SnapshotOf(objects.model.live[en.marker]), Holds(hot, objects.model.live[en.marker])));
        assert old(Tracks(p.watcherVersion, SnapshotOf(p.watcher), true) && Tracks(p.markerVersion, SnapshotOf(p.marker), false));
      }
    }

    /** A watcher and a marker registered before the tick are still
        registered after it, unchanged: only dropped entities leave. */
    twostate lemma RolesStay(en: Encounter)
      requires old(Coherent())
      requires objects.model.live == old(objects.model.live) - old(Exhausted(Retired(hot, FatesOf(hot))))
      requires en.watcher in old(objects.model.live) && IsWatcher(old(objects.model.live[en.watcher].mode))
      requires en.marker in old(objects.model.live) && IsMarker(old(objects.model.live[en.marker].mode))
      ensures en.watcher in objects.model.live && objects.model.live[en.watcher] == old(objects.model.live[en.watcher])
      ensures en.marker in objects.model.live && objects.model.live[en.marker] == old(objects.model.live[en.marker])
      ensures objects.model.live[en.watcher].id == en.watcher && objects.model.live[en.marker].id == en.marker
    {
      assert old(Accounted(SnapshotOf(objects.model.live[en.watcher]), Holds(hot, objects.model.live[en.watcher])));
      assert old(Accounted(SnapshotOf(objects.model.live[en.marker]), Holds(hot, objects.model.live[en.marker])));
      UndroppedStay();
    }

    /** Every event flushing reports goes from a registered watcher to a
        registered marker: a pair that reports is current at both ends, and
        a current pair is tracked only between those roles. */
    twostate lemma FlushVoices()
      requires old(Coherent())
      ensures forall ev :: ev in old(FlushEvents(hot, FatesOf(hot))) ==>
        && ev.watcher in old(objects.model.live) && IsWatcher(old(objects.model.live[ev.watcher].mode))
        && ev.marker in old(objects.model.live) && IsMarker(old(objects.model.live[ev.marker].mode))
    {
      var hot0, fates := old(hot), old(FatesOf(hot));
      FlushEventsFrom(hot0, fates);
      forall ev | ev in FlushEvents(hot0, fates)
        ensures && ev.watcher in old(objects.model.live) && IsWatcher(old(objects.model.live[ev.watcher].mode))
                && ev.marker in old(objects.model.live) && IsMarker(old(objects.model.live[ev.marker].mode))
      {
        var k :| 0 <= k < |hot0| && fates[k].Report? && ev.watcher == hot0[k].watcher.id && ev.marker == hot0[k].marker.id;
        var p := hot0[k];
        assert p in old(hot);
        assert old(Registered(p.watcher) && Registered(p.marker));
        assert old(Tracks(p.watcherVersion, SnapshotOf(p.watcher), true) && Tracks(p.markerVersion, SnapshotOf(p.marker), false));
      }
    }

    /** What one tick reports and keeps between each registered watcher
        and each registered marker when one of them had moved. */
    twostate lemma Meetings(out: Outcome)
      requires old(Coherent())
      requires objects.model.live == old(objects.model.live) - old(Exhausted(Retired(hot, FatesOf(hot))))
      requires forall o :: o in out.scan.objs ==> o.id in objects.model.live && objects.model.live[o.id] == o
      requires forall k :: k in objects.model.live ==> objects.model.live[k] in out.scan.objs
      requires Distinct(out.scan.objs)
      requires |out.scan.modes| == |out.scan.objs| && forall i :: 0 <= i < |out.scan.objs| ==> out.scan.modes[i] == old(out.scan.objs[i].mode)
      requires Buffers() == Sorted(Buffered([], [], [], []), out.scan.objs, out.scan.modes)
      requires out.events == FlushEvents(old(hot), old(FatesOf(hot))) + TickEvents(ViewsOf(watcherStatic.contents), ViewsOf(markerStatic.contents),
                                                                           ViewsOf(watcherMove.contents), ViewsOf(markerMove.contents))
      requires hot == PushAll(TickPairs(ViewsOf(watcherStatic.contents), ViewsOf(markerStatic.contents),
                                        ViewsOf(watcherMove.contents), ViewsOf(markerMove.contents)), Survivors(old(hot), old(FatesOf(hot))))
      ensures forall a, b :: old(Meets(a, b)) && (IsMoved(old(objects.model.live[a].mode)) || IsMoved(old(objects.model.live[b].mode))) ==>
        && a in objects.model.live && b in objects.model.live
        && Between(out.events, a, b) == Verdict(ViewOf(objects.model.live[a]), ViewOf(objects.model.live[b]))
        && PairsBetween(hot, a, b) == Candidate(ViewOf(objects.model.live[a]), ViewOf(objects.model.live[b]))
    {
      forall a, b | old(Meets(a, b)) && (IsMoved(old(objects.model.live[a].mode)) || IsMoved(old(objects.model.live[b].mode)))
        ensures && a in objects.model.live && b in objects.model.live
                && Between(out.events, a, b) == Verdict(ViewOf(objects.model.live[a]), ViewOf(objects.model.live[b]))
                && PairsBetween(hot, a, b) == Candidate(ViewOf(objects.model.live[a]), ViewOf(objects.model.live[b]))
      {
        var en := Encounter(out.scan, out.events, a, b);
        RolesStay(en);
        StaleBetween(en);
        TickMovedMeet(en);
      }
    }

    /** What one tick reports and keeps between each registered watcher
        and each registered marker when neither had moved. */
    twostate lemma QuietMeetings(out: Outcome)
      requires old(Coherent())
      requires objects.model.live == old(objects.model.live) - old(Exhausted(Retired(hot, FatesOf(hot))))
      requires forall o :: o in out.scan.objs ==> o.id in objects.model.live && objects.model.live[o.id] == o
      requires forall k :: k in objects.model.live ==> objects.model.live[k] in out.scan.objs
      requires Distinct(out.scan.objs)
      requires |out.scan.modes| == |out.scan.objs| && forall i :: 0 <= i < |out.scan.objs| ==> out.scan.modes[i] == old(out.scan.objs[i].mode)
      requires Buffers() == Sorted(Buffered([], [], [], []), out.scan.objs, out.scan.modes)
      requires out.events == FlushEvents(old(hot), old(FatesOf(hot))) + TickEvents(ViewsOf(watcherStatic.contents), ViewsOf(markerStatic.contents),
                                                                           ViewsOf(watcherMove.contents), ViewsOf(markerMove.contents))
      requires hot == PushAll(TickPairs(ViewsOf(watcherStatic.contents), ViewsOf(markerStatic.contents),
                                        ViewsOf(watcherMove.contents), ViewsOf(markerMove.contents)), Survivors(old(hot), old(FatesOf(hot))))
      ensures forall a, b :: old(Meets(a, b)) && !IsMoved(old(objects.model.live[a].mode)) && !IsMoved(old(objects.model.live[b].mode)) ==>
        && Between(out.events, a, b) == Between(FlushEvents(old(hot), old(FatesOf(hot))), a, b)
        && PairsBetween(hot, a, b) == PairsBetween(Survivors(old(hot), old(FatesOf(hot))), a, b)
      ensures forall a, b :: (&& old(Meets(a, b)) && !IsMoved(old(objects.model.live[a].mode)) && !IsMoved(old(objects.model.live[b].mode))
                             && forall k :: 0 <= k < |old(hot)| && old(hot)[k].watcher.id == a && old(hot)[k].marker.id == b ==>
                                  old(FatesOf(hot))[k] == Keep) ==>
        && Between(out.events, a, b) == []
        && PairsBetween(hot, a, b) == PairsBetween(old(hot), a, b)
    {
      forall a, b | old(Meets(a, b)) && !IsMoved(old(objects.model.live[a].mode)) && !IsMoved(old(objects.model.live[b].mode))
        ensures && Between(out.events, a, b) == Between(FlushEvents(old(hot), old(FatesOf(hot))), a, b)
                && PairsBetween(hot, a, b) == PairsBetween(Survivors(old(hot), old(FatesOf(hot))), a, b)
      {
        TickStillMeet(Encounter(out.scan, out.events, a, b));
      }
      forall a, b | && old(Meets(a, b)) && !IsMoved(old(objects.model.live[a].mode)) && !IsMoved(old(objects.model.live[b].mode))
                    && forall k :: 0 <= k < |old(hot)| && old(hot)[k].watcher.id == a && old(hot)[k].marker.id == b ==>
                         old(FatesOf(hot))[k] == Keep
        ensures && Between(out.events, a, b) == []
                && PairsBetween(hot, a, b) == PairsBetween(old(hot), a, b)
      {
        TickStillMeet(Encounter(out.scan, out.events, a, b));
      }
    }

    /** Every event the tick's judging reports goes from an entity that
        was a watcher before the tick to one that was a marker. */
    twostate lemma TickVoices(sc: Scan)
      requires forall k :: k in objects.model.live ==> k in old(objects.model.live) && objects.model.live[k] == old(objects.model.live[k])
      requires forall o :: o in sc.objs ==> o.id in objects.model.live && objects.model.live[o.id] == o
      requires |sc.modes| == |sc.objs| && forall i :: 0 <= i < |sc.objs| ==> sc.modes[i] == old(sc.objs[i].mode)
      requires Buffers() == Sorted(Buffered([], [], [], []), sc.objs, sc.modes)
      ensures forall ev :: ev in TickEvents(ViewsOf(watcherStatic.contents), ViewsOf(markerStatic.contents),
                                            ViewsOf(watcherMove.contents), ViewsOf(markerMove.contents)) ==>
        && ev.watcher in old(objects.model.live) && IsWatcher(old(objects.model.live[ev.watcher].mode))
        && ev.marker in old(objects.model.live) && IsMarker(old(objects.model.live[ev.marker].mode))
    {
      var live0 := old(objects.model.live);
      TickEventsRoles(sc.objs, sc.modes, Buffers());
      forall ev | ev in TickEvents(ViewsOf(watcherStatic.contents), ViewsOf(markerStatic.contents),
                                   ViewsOf(watcherMove.contents), ViewsOf(markerMove.contents))
        ensures ev.watcher in live0 && IsWatcher(old(objects.model.live[ev.watcher].mode))
      {
        var i :| 0 <= i < |sc.objs| && sc.objs[i].id == ev.watcher && IsWatcher(sc.modes[i]);
        FiledAt(sc.objs, objects.model.live, i);
        assert live0[ev.watcher] == sc.objs[i];
      }
      forall ev | ev in TickEvents(ViewsOf(watcherStatic.contents), ViewsOf(markerStatic.contents),
                                   ViewsOf(watcherMove.contents), ViewsOf(markerMove.contents))
        ensures ev.marker in live0 && IsMarker(old(objects.model.live[ev.marker].mode))
      {
        var j :| 0 <= j < |sc.objs| && sc.objs[j].id == ev.marker && IsMarker(sc.modes[j]);
        FiledAt(sc.objs, objects.model.live, j);
        assert live0[ev.marker] == sc.objs[j];
      }
    }

    /** What one tick reports between a watcher and a marker that stay
        registered across it, one of which had moved, when every pair
        tracked between them is stale: exactly their verdict (one MOVE
        inside the radius, one LEAVE beyond the leave distance, nothing in
        the band), after which exactly their candidate is tracked between
        them (one pair in the band, none otherwise). */
    twostate lemma TickMovedMeet(en: Encounter)
      requires forall o :: o in en.scan.objs ==> o.id in objects.model.live && objects.model.live[o.id] == o
      requires forall k :: k in objects.model.live ==> objects.model.live[k] in en.scan.objs
      requires Distinct(en.scan.objs)
      requires |en.scan.modes| == |en.scan.objs| && forall i :: 0 <= i < |en.scan.objs| ==> en.scan.modes[i] == old(en.scan.objs[i].mode)
      requires Buffers() == Sorted(Buffered([], [], [], []), en.scan.objs, en.scan.modes)
      requires en.events == FlushEvents(old(hot), old(FatesOf(hot))) + TickEvents(ViewsOf(watcherStatic.contents), ViewsOf(markerStatic.contents),
                                                                           ViewsOf(watcherMove.contents), ViewsOf(markerMove.contents))
      requires hot == PushAll(TickPairs(ViewsOf(watcherStatic.contents), ViewsOf(markerStatic.contents),
                                        ViewsOf(watcherMove.contents), ViewsOf(markerMove.contents)), Survivors(old(hot), old(FatesOf(hot))))
      requires en.watcher in old(objects.model.live) && IsWatcher(old(objects.model.live[en.watcher].mode))
      requires en.marker in old(objects.model.live) && IsMarker(old(objects.model.live[en.marker].mode))
      requires en.watcher in objects.model.live && objects.model.live[en.watcher] == old(objects.model.live[en.watcher])
      requires en.marker in objects.model.live && objects.model.live[en.marker] == old(objects.model.live[en.marker])
      requires objects.model.live[en.watcher].id == en.watcher && objects.model.live[en.marker].id == en.marker
      requires IsMoved(old(objects.model.live[en.watcher].mode)) || IsMoved(old(objects.model.live[en.marker].mode))
      requires forall k :: 0 <= k < |old(hot)| && old(hot)[k].watcher.id == en.watcher && old(hot)[k].marker.id == en.marker ==>
        old(FatesOf(hot))[k] == Discard
      ensures var w, m := ViewOf(objects.model.live[en.watcher]), ViewOf(objects.model.live[en.marker]);
        && Between(en.events, en.watcher, en.marker) == Verdict(w, m)
        && PairsBetween(hot, en.watcher, en.marker) == Candidate(w, m)
    {
      var sc, a, b := en.scan, en.watcher, en.marker;
      var x, y := objects.model.live[a], objects.model.live[b];
      var i :| 0 <= i < |sc.objs| && sc.objs[i] == x;
      var j :| 0 <= j < |sc.objs| && sc.objs[j] == y;
      FiledUnique(sc.objs, objects.model.live);
      MeetMoved(sc.objs, sc.modes, Buffers(), old(hot), old(FatesOf(hot)), i, j);
    }

    /** What one tick reports between a watcher and a marker registered
        before it, neither of which had moved: the tick only flushes what
        was tracked between them. When the flush keeps every such pair,
        nothing is reported and the pairs between them stay tracked. */
    twostate lemma TickStillMeet(en: Encounter)
      requires old(Coherent())
      requires objects.model.live == old(objects.model.live) - old(Exhausted(Retired(hot, FatesOf(hot))))
      requires forall o :: o in en.scan.objs ==> o.id in objects.model.live && objects.model.live[o.id] == o
      requires forall k :: k in objects.model.live ==> objects.model.live[k] in en.scan.objs
      requires Distinct(en.scan.objs)
      requires |en.scan.modes| == |en.scan.objs| && forall i :: 0 <= i < |en.scan.objs| ==> en.scan.modes[i] == old(en.scan.objs[i].mode)
      requires Buffers() == Sorted(Buffered([], [], [], []), en.scan.objs, en.scan.modes)
      requires en.events == FlushEvents(old(hot), old(FatesOf(hot))) + TickEvents(ViewsOf(watcherStatic.contents), ViewsOf(markerStatic.contents),
                                                                           ViewsOf(watcherMove.contents), ViewsOf(markerMove.contents))
      requires hot == PushAll(TickPairs(ViewsOf(watcherStatic.contents), ViewsOf(markerStatic.contents),
                                        ViewsOf(watcherMove.contents), ViewsOf(markerMove.contents)), Survivors(old(hot), old(FatesOf(hot))))
      requires en.watcher in old(objects.model.live) && IsWatcher(old(objects.model.live[en.watcher].mode))
      requires en.marker in old(objects.model.live) && IsMarker(old(objects.model.live[en.marker].mode))
      ensures en.watcher in objects.model.live && en.marker in objects.model.live
      ensures !IsMoved(old(objects.model.live[en.watcher].mode)) && !IsMoved(old(objects.model.live[en.marker].mode)) ==>
        && Between(en.events, en.watcher, en.marker) == Between(FlushEvents(old(hot), old(FatesOf(hot))), en.watcher, en.marker)
        && PairsBetween(hot, en.watcher, en.marker) == PairsBetween(Survivors(old(hot), old(FatesOf(hot))), en.watcher, en.marker)
      ensures (&& !IsMoved(old(objects.model.live[en.watcher].mode)) && !IsMoved(old(objects.model.live[en.marker].mode))
               && forall k :: 0 <= k < |old(hot)| && old(hot)[k].watcher.id == en.watcher && old(hot)[k].marker.id == en.marker ==>
                    old(FatesOf(hot))[k] == Keep) ==>
        && Between(en.events, en.watcher, en.marker) == []
        && PairsBetween(hot, en.watcher, en.marker) == PairsBetween(old(hot), en.watcher, en.marker)
    {
      var sc, a, b := en.scan, en.watcher, en.marker;
      RolesStay(en);
      var x, y := objects.model.live[a], objects.model.live[b];
      var i :| 0 <= i < |sc.objs| && sc.objs[i] == x;
      var j :| 0 <= j < |sc.objs| && sc.objs[j] == y;
      FiledUnique(sc.objs, objects.model.live);
      if !IsMoved(sc.modes[i]) && !IsMoved(sc.modes[j]) {
        MeetStill(sc.objs, sc.modes, Buffers(), old(hot), old(FatesOf(hot)), i, j);
      }
    }

    /** The pairs flushing keeps join entities that stay registered: each
        end holds a reference of a kept pair, so the retired pairs cannot
        exhaust it. */
    twostate lemma SurvivorsStay()
      requires old(Coherent())
      requires objects.model.live == old(objects.model.live) - old(Exhausted(Retired(hot, FatesOf(hot))))
      ensures forall p :: p in Survivors(old(hot), old(FatesOf(hot))) ==> Registered(p.watcher) && Registered(p.marker)
    {
      var live0, hot0, fates := old(objects.model.live), old(hot), old(FatesOf(hot));
      var R, S := Retired(hot0, fates), Survivors(hot0, fates);
      RetiredWithin(hot0, fates);
      SurvivorsKept(hot0, fates);
      assert forall e :: e in Ends(R) ==> e.id in live0 && live0[e.id] == e;
      forall p | p in S
        ensures Registered(p.watcher) && Registered(p.marker)
      {
        HoldsEnd(S, p);
        var w, m := p.watcher, p.marker;
        HoldsSplit(hot0, fates, w);
        HoldsSplit(hot0, fates, m);
        assert old(SnapshotOf(objects.model.live[w.id])).ref > Holds(R, w);
        assert old(SnapshotOf(objects.model.live[m.id])).ref > Holds(R, m);
      }
    }

    /** The work of one tick: flushes the tracked pairs, then sorts every
        registered entity into the buffers, in the registry's slot order,
        and judges the three pair lists. scanned is that order and modes
        the flags its entities had. */
    method FlushAndTick() returns (events: seq<Event>, ghost scanned: seq<Entity>, ghost modes: seq<Mode>)
      requires Valid()
      modifies this`hot, objects, objects.slot, Ends(hot)`ref
      modifies watcherStatic, watcherStatic.slot, markerStatic, markerStatic.slot
      modifies watcherMove, watcherMove.slot, markerMove, markerMove.slot
      modifies (objects.model.live.Values)`mode, (objects.model.live.Values)`ref
      ensures Valid()
      ensures objects.model.live == old(objects.model.live) - old(Exhausted(Retired(hot, FatesOf(hot))))
      ensures Distinct(scanned)
      ensures forall o :: o in scanned ==> o.id in objects.model.live && objects.model.live[o.id] == o
      ensures forall k :: k in objects.model.live ==> objects.model.live[k] in scanned
      ensures forall i :: 0 <= i < |scanned| ==> old(allocated(scanned[i]))
      ensures |modes| == |scanned| && forall i :: 0 <= i < |scanned| ==> modes[i] == old(scanned[i].mode)
      ensures Buffers() == Sorted(Buffered([], [], [], []), scanned, modes)
      ensures forall i :: 0 <= i < |scanned| ==>
        ViewOf(scanned[i]) == old(ViewOf(scanned[i])).(mode := Settled(modes[i]))
      ensures events == FlushEvents(old(hot), old(FatesOf(hot))) + TickEvents(ViewsOf(watcherStatic.contents), ViewsOf(markerStatic.contents),
                                   ViewsOf(watcherMove.contents), ViewsOf(markerMove.contents))
      ensures hot == PushAll(TickPairs(ViewsOf(watcherStatic.contents), ViewsOf(markerStatic.contents),
                                   ViewsOf(watcherMove.contents), ViewsOf(markerMove.contents)), Survivors(old(hot), old(FatesOf(hot))))
      ensures forall e: Entity :: old(allocated(e)) ==>
        e.ref == old(e.ref) - Holds(Retired(old(hot), old(FatesOf(hot))), e) + Holds(TickPairs(ViewsOf(watcherStatic.contents), ViewsOf(markerStatic.contents),
                                   ViewsOf(watcherMove.contents), ViewsOf(markerMove.contents)), e)
    {
      ghost var live0 := objects.model.live;
      var flushed := FlushPair();
      var tick;
      tick, scanned, modes := Tick(live0.Values);
      events := flushed + tick;
    }

    /** The second half of a tick: every registered entity, in slot order
        (scanned), with its flags (modes), is sorted into the buffers and
        the three pair lists are judged. everyone holds the registered
        entities. */
    method Tick(ghost everyone: set<Entity>) returns (events: seq<Event>, ghost scanned: seq<Entity>, ghost modes: seq<Mode>)
      requires Valid() && forall id :: id in objects.model.live ==> objects.model.live[id] in everyone
      modifies this`hot, watcherStatic, watcherStatic.slot, markerStatic, markerStatic.slot
      modifies watcherMove, watcherMove.slot, markerMove, markerMove.slot
      modifies everyone`mode, everyone`ref
      ensures Valid()
      ensures Distinct(scanned)
      ensures forall o :: o in scanned ==> o.id in objects.model.live && objects.model.live[o.id] == o
      ensures forall k :: k in objects.model.live ==> objects.model.live[k] in scanned
      ensures forall i :: 0 <= i < |scanned| ==> scanned[i] in everyone && old(allocated(scanned[i]))
      ensures |modes| == |scanned| && forall i :: 0 <= i < |scanned| ==> modes[i] == old(scanned[i].mode)
      ensures Buffers() == Sorted(Buffered([], [], [], []), scanned, modes)
      ensures forall i :: 0 <= i < |scanned| ==>
        ViewOf(scanned[i]) == old(ViewOf(scanned[i])).(mode := Settled(modes[i]))
      ensures events == TickEvents(ViewsOf(watcherStatic.contents), ViewsOf(markerStatic.contents),
                                   ViewsOf(watcherMove.contents), ViewsOf(markerMove.contents))
      ensures hot == PushAll(TickPairs(ViewsOf(watcherStatic.contents), ViewsOf(markerStatic.contents),
                                   ViewsOf(watcherMove.contents), ViewsOf(markerMove.contents)), old(hot))
      ensures forall e: Entity :: old(allocated(e)) ==> e.ref == old(e.ref) + Holds(TickPairs(ViewsOf(watcherStatic.contents), ViewsOf(markerStatic.contents),
                                   ViewsOf(watcherMove.contents), ViewsOf(markerMove.contents)), e)
    {
      var objs := LiveObjects(objects.slot[..]);
      objects.Listed();
      Enrolled(objs, everyone);
      scanned, modes := objs, ModesOf(objs);
      events := Sweep(objs);
    }

    /** The entities a visit lists are among any set holding every
        registered one. */
    lemma Enrolled(objs: seq<Entity>, everyone: set<Entity>)
      requires objects.Valid() && objs == LiveObjects(objects.slot[..])
      requires forall id :: id in objects.model.live ==> objects.model.live[id] in everyone
      ensures forall i :: 0 <= i < |objs| ==> objs[i] in everyone
    {
      objects.Listed();
      forall i | 0 <= i < |objs|
        ensures objs[i] in everyone
      {
        assert objs[i] in objs;
      }
    }

    /** Sorts the entities objs into the buffers, then judges. */
    method Sweep(objs: seq<Entity>) returns (events: seq<Event>)
      requires SetsValid() && Distinct(objs)
      modifies this`hot, watcherStatic, watcherStatic.slot, markerStatic, markerStatic.slot
      modifies watcherMove, watcherMove.slot, markerMove, markerMove.slot
      modifies (set o | o in objs)`mode, (set o | o in objs)`ref
      ensures SetsValid()
      ensures Buffers() == Sorted(Buffered([], [], [], []), objs, old(ModesOf(objs)))
      ensures forall i :: 0 <= i < |objs| ==>
        ViewOf(objs[i]) == old(ViewOf(objs[i])).(mode := Settled(old(objs[i].mode)))
      ensures events == TickEvents(ViewsOf(watcherStatic.contents), ViewsOf(markerStatic.contents),
                                   ViewsOf(watcherMove.contents), ViewsOf(markerMove.contents))
      ensures hot == PushAll(TickPairs(ViewsOf(watcherStatic.contents), ViewsOf(markerStatic.contents),
                                       ViewsOf(watcherMove.contents), ViewsOf(markerMove.contents)), old(hot))
      ensures forall e: Entity :: old(allocated(e)) ==>
        e.ref == old(e.ref) + Holds(TickPairs(ViewsOf(watcherStatic.contents), ViewsOf(markerStatic.contents),
                                              ViewsOf(watcherMove.contents), ViewsOf(markerMove.contents)), e)
    {
      ghost var modes := ModesOf(objs);
      Refill(objs);
      ghost var views := ViewsOf(objs);
      BufferedFrom(objs, modes);
      events := JudgeAll();
      assert ViewsOf(objs) == views;
    }

    /** The three pair lists of a tick, with what they do to the reference
        count of every entity. */
    method JudgeAll() returns (events: seq<Event>)
      requires SetsValid()
      modifies this`hot, Members()`ref
      ensures SetsValid() && Buffers() == old(Buffers())
      ensures events == TickEvents(ViewsOf(watcherStatic.contents), ViewsOf(markerStatic.contents),
                                   ViewsOf(watcherMove.contents), ViewsOf(markerMove.contents))
      ensures hot == PushAll(TickPairs(ViewsOf(watcherStatic.contents), ViewsOf(markerStatic.contents),
                                       ViewsOf(watcherMove.contents), ViewsOf(markerMove.contents)), old(hot))
      ensures forall e: Entity :: old(allocated(e)) ==>
        e.ref == old(e.ref) + Holds(TickPairs(ViewsOf(watcherStatic.contents), ViewsOf(markerStatic.contents),
                                              ViewsOf(watcherMove.contents), ViewsOf(markerMove.contents)), e)
    {
      ghost var base := RefsOf(Gathered());
      events := GenAll();
      Judged(base);
    }

    /** After judging: an entity in a buffer holds its snapshot count base
        plus its new pairs, any other one holds no new pair. */
    lemma Judged(base: map<Entity, int>)
      requires SetsValid()
      requires Tallied(Gathered(), base, TickPairs(ViewsOf(watcherStatic.contents), ViewsOf(markerStatic.contents),
                                                   ViewsOf(watcherMove.contents), ViewsOf(markerMove.contents)))
      ensures forall e :: e !in Members() ==>
        Holds(TickPairs(ViewsOf(watcherStatic.contents), ViewsOf(markerStatic.contents),
                        ViewsOf(watcherMove.contents), ViewsOf(markerMove.contents)), e) == 0
    {
      forall e | e !in Members()
        ensures Holds(TickPairs(ViewsOf(watcherStatic.contents), ViewsOf(markerStatic.contents),
                                ViewsOf(watcherMove.contents), ViewsOf(markerMove.contents)), e) == 0
      {
        GatheredHolds();
        TickHoldsNone(ViewsOf(watcherStatic.contents), ViewsOf(markerStatic.contents),
                      ViewsOf(watcherMove.contents), ViewsOf(markerMove.contents), e);
      }
    }

    /** Empties the four buffers and sorts objs into them, in order. */
    method Refill(objs: seq<Entity>)
      requires SetsValid() && Distinct(objs)
      modifies watcherStatic, watcherStatic.slot, markerStatic, markerStatic.slot
      modifies watcherMove, watcherMove.slot, markerMove, markerMove.slot
      modifies (set o | o in objs)`mode
      ensures SetsValid()
      ensures Buffers() == Sorted(Buffered([], [], [], []), objs, old(ModesOf(objs)))
      ensures forall i :: 0 <= i < |objs| ==>
        SnapshotOf(objs[i]) == old(SnapshotOf(objs[i])).(mode := Settled(old(objs[i].mode)))
    {
      ClearAll();
      Partition(objs);
    }

    /** Every buffered entity was sorted from objs. */
    lemma BufferedFrom(objs: seq<Entity>, modes: seq<Mode>)
      requires |objs| == |modes| && Buffers() == Sorted(Buffered([], [], [], []), objs, modes)
      ensures forall o :: o in Members() ==> o in objs
    {
      PickedMembers(objs, modes, true, false);
      PickedMembers(objs, modes, false, false);
      PickedMembers(objs, modes, true, true);
      PickedMembers(objs, modes, false, true);
    }

    /** Empties the four buffers. */
    method ClearAll()
      requires SetsValid()
      modifies watcherStatic, markerStatic, watcherMove, markerMove
      ensures SetsValid() && Buffers() == Buffered([], [], [], [])
      ensures watcherStatic.slot == old(watcherStatic.slot) && markerStatic.slot == old(markerStatic.slot)
      ensures watcherMove.slot == old(watcherMove.slot) && markerMove.slot == old(markerMove.slot)
    {
      watcherStatic.Clear();
      markerStatic.Clear();
      watcherMove.Clear();
      markerMove.Clear();
    }

    /** The three pair lists of a tick, judged in order. Judging touches
        no view, so the views named here are those the judging saw. */
    method GenAll() returns (events: seq<Event>)
      requires SetsValid()
      modifies this`hot, Members()`ref
      ensures SetsValid() && Buffers() == old(Buffers())
      ensures events == TickEvents(ViewsOf(watcherStatic.contents), ViewsOf(markerStatic.contents),
                                   ViewsOf(watcherMove.contents), ViewsOf(markerMove.contents))
      ensures hot == PushAll(TickPairs(ViewsOf(watcherStatic.contents), ViewsOf(markerStatic.contents),
                                       ViewsOf(watcherMove.contents), ViewsOf(markerMove.contents)), old(hot))
      ensures Tallied(Gathered(), old(RefsOf(Gathered())),
                      TickPairs(ViewsOf(watcherStatic.contents), ViewsOf(markerStatic.contents),
                                ViewsOf(watcherMove.contents), ViewsOf(markerMove.contents)))
    {
      ghost var es := Gathered();
      ghost var vs := ViewsOf(es);
      ghost var base := RefsOf(es);
      ghost var n1 := |watcherStatic.contents|;
      ghost var n2 := n1 + |markerStatic.contents|;
      ghost var n3 := n2 + |watcherMove.contents|;
      ghost var ws, ms, wm, mm := vs[0..n1], vs[n1..n2], vs[n2..n3], vs[n3..|es|];
      Sliced(es, vs, n1, n2, n3);
      assert Tallied(es, base, []);
      assert [] + CrossPairs(ws, mm) == CrossPairs(ws, mm);
      var first := Phase(watcherStatic, markerMove, es, vs, base, [], 0, n1, n3, |es|);
      var second := Phase(watcherMove, markerStatic, es, vs, base, CrossPairs(ws, mm), n2, n3, n1, n2);
      var third := Phase(watcherMove, markerMove, es, vs, base, CrossPairs(ws, mm) + CrossPairs(wm, ms), n2, n3, n3, |es|);
      events := first + second + third;
      PushAllAppend(CrossPairs(ws, mm), CrossPairs(wm, ms), old(hot));
      PushAllAppend(CrossPairs(ws, mm) + CrossPairs(wm, ms), CrossPairs(wm, mm), old(hot));
      Sliced(es, vs, n1, n2, n3);
    }

    /** One pair list of a tick: the watchers held at es[wlo..whi]
        against the markers held at es[mlo..mhi], with the buffers and
        the views kept for the next list. */
    method Phase(ws: ObjectSet, ms: ObjectSet, ghost es: seq<Entity>, ghost vs: seq<View>,
                 ghost base: map<Entity, int>, ghost ps: seq<Pair>,
                 ghost wlo: int, ghost whi: int, ghost mlo: int, ghost mhi: int)
      returns (events: seq<Event>)
      requires SetsValid() && es == Gathered() && Seen(es, vs) && Tallied(es, base, ps)
      requires ws == watcherStatic || ws == watcherMove
      requires ms == markerStatic || ms == markerMove
      requires 0 <= wlo <= whi <= |es| && ws.contents == es[wlo..whi]
      requires 0 <= mlo <= mhi <= |es| && ms.contents == es[mlo..mhi]
      modifies this`hot, Members()`ref
      ensures SetsValid() && es == Gathered() && Seen(es, vs)
      ensures events == CrossEvents(vs[wlo..whi], vs[mlo..mhi])
      ensures hot == PushAll(CrossPairs(vs[wlo..whi], vs[mlo..mhi]), old(hot))
      ensures Tallied(es, base, ps + CrossPairs(vs[wlo..whi], vs[mlo..mhi]))
    {
      Part(es, vs, wlo, whi, ws.contents);
      Part(es, vs, mlo, mhi, ms.contents);
      GatheredHolds();
      events := GenPairList(ws, ms, vs[wlo..whi], vs[mlo..mhi], es, vs, base, ps);
    }

    /** The views of the four buffers are consecutive slices of the
        views of everything gathered. */
    lemma Sliced(es: seq<Entity>, vs: seq<View>, n1: int, n2: int, n3: int)
      requires es == Gathered() && Seen(es, vs)
      requires n1 == |watcherStatic.contents| && n2 == n1 + |markerStatic.contents|
      requires n3 == n2 + |watcherMove.contents|
      ensures 0 <= n1 <= n2 <= n3 <= |es|
      ensures es[0..n1] == watcherStatic.contents && es[n1..n2] == markerStatic.contents
      ensures es[n2..n3] == watcherMove.contents && es[n3..|es|] == markerMove.contents
      ensures ViewsOf(watcherStatic.contents) == vs[0..n1] && ViewsOf(markerStatic.contents) == vs[n1..n2]
      ensures ViewsOf(watcherMove.contents) == vs[n2..n3] && ViewsOf(markerMove.contents) == vs[n3..|es|]
    {
      Part(es, vs, 0, n1, watcherStatic.contents);
      Part(es, vs, n1, n2, markerStatic.contents);
      Part(es, vs, n2, n3, watcherMove.contents);
      Part(es, vs, n3, |es|, markerMove.contents);
      ViewsAgree(watcherStatic.contents, vs[0..n1]);
      ViewsAgree(markerStatic.contents, vs[n1..n2]);
      ViewsAgree(watcherMove.contents, vs[n2..n3]);
      ViewsAgree(markerMove.contents, vs[n3..|es|]);
    }

    /** Every object of the four buffers, static watchers first. */
    ghost function Gathered(): seq<Entity>
      reads watcherStatic, markerStatic, watcherMove, markerMove
    {
      watcherStatic.contents + markerStatic.contents + watcherMove.contents + markerMove.contents
    }

    /** Every entity in one of the four buffers. */
    ghost function Members(): set<Entity>
      reads watcherStatic, markerStatic, watcherMove, markerMove
    {
      set e | e in Gathered()
    }

    lemma GatheredHolds()
      ensures forall k :: 0 <= k < |watcherStatic.contents| ==> watcherStatic.contents[k] in Gathered()
      ensures forall k :: 0 <= k < |markerStatic.contents| ==> markerStatic.contents[k] in Gathered()
      ensures forall k :: 0 <= k < |watcherMove.contents| ==> watcherMove.contents[k] in Gathered()
      ensures forall k :: 0 <= k < |markerMove.contents| ==> markerMove.contents[k] in Gathered()
    {
    }
  }

  /** The entities the views ws are views of. */
  function Subjects(ws: seq<View>): set<Entity>
  {
    set w | w in ws :: w.entity
  }

  /** A row pairs its watcher only with another entity among its markers,
      recording the versions the two views show. */
  lemma {:induction false} RowPairsFrom(w: View, ms: seq<View>)
    ensures forall p :: p in RowPairs(w, ms) ==>
      && p.watcher == w.entity && p.watcherVersion == w.version
      && p.marker != p.watcher && p.marker in Subjects(ms)
  {
    if ms != [] {
      var n := |ms| - 1;
      RowPairsFrom(w, ms[..n]);
      assert Subjects(ms[..n]) <= Subjects(ms) by {
        forall v | v in ms[..n] ensures v in ms { }
      }
      assert ms[n] in ms;
    }
  }

  /** Judging two lists pairs only a watcher of the first with a different
      marker of the second. */
  lemma {:induction false} CrossPairsFrom(ws: seq<View>, ms: seq<View>)
    ensures forall p :: p in CrossPairs(ws, ms) ==>
      p.watcher in Subjects(ws) && p.marker in Subjects(ms) && p.watcher != p.marker
  {
    if ws != [] {
      var n := |ws| - 1;
      CrossPairsFrom(ws[..n], ms);
      RowPairsFrom(ws[n], ms);
      assert Subjects(ws[..n]) <= Subjects(ws) by {
        forall v | v in ws[..n] ensures v in ws { }
      }
      assert ws[n] in ws;
    }
  }

  /** A tick never tracks a pair of two static entities: every pair it
      starts has a moving watcher or a moving marker, and never pairs an
      entity with itself. */
  lemma TickPairsMove(ws: seq<View>, ms: seq<View>, wm: seq<View>, mm: seq<View>)
    ensures forall p :: p in TickPairs(ws, ms, wm, mm) ==>
      (p.watcher in Subjects(wm) || p.marker in Subjects(mm)) && p.watcher != p.marker
  {
    CrossPairsFrom(ws, mm);
    CrossPairsFrom(wm, ms);
    CrossPairsFrom(wm, mm);
  }

  /** A tick starts no pair on an entity none of its lists holds. */
  lemma TickHoldsNone(ws: seq<View>, ms: seq<View>, wm: seq<View>, mm: seq<View>, e: Entity)
    requires forall k :: 0 <= k < |ws| ==> ws[k].entity != e
    requires forall k :: 0 <= k < |ms| ==> ms[k].entity != e
    requires forall k :: 0 <= k < |wm| ==> wm[k].entity != e
    requires forall k :: 0 <= k < |mm| ==> mm[k].entity != e
    ensures Holds(TickPairs(ws, ms, wm, mm), e) == 0
  {
    CrossHoldsNone(ws, mm, e);
    CrossHoldsNone(wm, ms, e);
    CrossHoldsNone(wm, mm, e);
    HoldsAppend(CrossPairs(ws, mm), CrossPairs(wm, ms), e);
    HoldsAppend(CrossPairs(ws, mm) + CrossPairs(wm, ms), CrossPairs(wm, mm), e);
  }

  /** Pairs none of which has e at an end hold no reference on it. */
  lemma {:induction false} HoldsOutside(ps: seq<Pair>, e: Entity)
    requires forall p :: p in ps ==> p.watcher != e && p.marker != e
    ensures Holds(ps, e) == 0
  {
    if ps != [] {
      var n := |ps| - 1;
      assert forall p :: p in ps[..n] ==> p in ps;
      HoldsOutside(ps[..n], e);
    }
  }

  /** A pair holds a reference on each of its ends. */
  lemma {:induction false} HoldsEnd(ps: seq<Pair>, p: Pair)
    requires p in ps
    ensures Holds(ps, p.watcher) >= 1 && Holds(ps, p.marker) >= 1
  {
    var n := |ps| - 1;
    if ps[n] != p {
      assert p in ps[..n];
      HoldsEnd(ps[..n], p);
    }
  }

  /** Flushing splits the references the pairs hold between the pairs kept
      and the pairs retired. */
  lemma {:induction false} HoldsSplit(ps: seq<Pair>, fates: seq<Fate>, e: Entity)
    requires |fates| == |ps|
    ensures Holds(ps, e) == Holds(Survivors(ps, fates), e) + Holds(Retired(ps, fates), e)
  {
    if ps != [] {
      var n := |ps| - 1;
      var q, f := ps[..n], fates[..n];
      HoldsSplit(q, f, e);
      HoldsOne(ps[n], e);
      assert ps[..n] == q;
      if fates[n] == Keep {
        assert Retired(q, f) + [] == Retired(q, f);
        assert Retired(ps, fates) == Retired(q, f);
        assert Survivors(ps, fates) == Survivors(q, f) + [ps[n]];
        HoldsAppend(Survivors(q, f), [ps[n]], e);
      } else {
        assert Survivors(q, f) + [] == Survivors(q, f);
        assert Survivors(ps, fates) == Survivors(q, f);
        assert Retired(ps, fates) == Retired(q, f) + [ps[n]];
        HoldsAppend(Retired(q, f), [ps[n]], e);
      }
    }
  }

  /** Pushing pairs onto a list adds their references. */
  lemma {:induction false} HoldsPushAll(ps: seq<Pair>, hot: seq<Pair>, e: Entity)
    ensures Holds(PushAll(ps, hot), e) == Holds(ps, e) + Holds(hot, e)
  {
    if ps != [] {
      var n := |ps| - 1;
      HoldsPushAll(ps[..n], hot, e);
      HoldsAppend([ps[n]], PushAll(ps[..n], hot), e);
      HoldsOne(ps[n], e);
    }
  }

  /** Pushing pairs onto a list adds exactly them. */
  lemma {:induction false} PushAllMembers(ps: seq<Pair>, hot: seq<Pair>)
    ensures forall p :: p in PushAll(ps, hot) <==> p in ps || p in hot
  {
    if ps != [] {
      var n := |ps| - 1;
      PushAllMembers(ps[..n], hot);
      assert ps == ps[..n] + [ps[n]];
    }
  }

  /** A tick keeps a registered entity accounted for: it loses the
      references of the retired pairs, which leave it at least one, gains
      those of the new pairs, and its flags settle. */
  lemma SettledAccounted(s0: Snapshot, s1: Snapshot, kept: int, gone: int, made: int)
    requires Accounted(s0, kept + gone) && kept >= 0 && gone >= 0 && made >= 0 && s0.ref > gone
    requires s1.ref == s0.ref - gone + made && s1.mode == Settled(s0.mode)
    ensures Accounted(s1, kept + made)
  {
  }

  /** Settling the flags keeps a pair end's version and its role. */
  lemma SettledTracks(v: int, s0: Snapshot, s1: Snapshot, watcher: bool)
    requires Tracks(v, s0, watcher) && s1.version == s0.version && s1.mode == Settled(s0.mode)
    ensures Tracks(v, s1, watcher)
  {
  }

  /** Every pair judging two lists starts is the candidate of a watcher
      view of the first and a marker view of the second. */
  lemma {:induction false} CrossPairsJudged(ws: seq<View>, ms: seq<View>)
    ensures forall p :: p in CrossPairs(ws, ms) ==>
      exists i, j :: 0 <= i < |ws| && 0 <= j < |ms| && p == Pair(ws[i].entity, ms[j].entity, ws[i].version, ms[j].version)
  {
    if ws != [] {
      var n := |ws| - 1;
      CrossPairsJudged(ws[..n], ms);
      RowPairsJudged(ws[n], ms);
      forall p | p in CrossPairs(ws, ms)
        ensures exists i, j :: 0 <= i < |ws| && 0 <= j < |ms| && p == Pair(ws[i].entity, ms[j].entity, ws[i].version, ms[j].version)
      {
        if p in CrossPairs(ws[..n], ms) {
          var i, j :| 0 <= i < n && 0 <= j < |ms| && p == Pair(ws[..n][i].entity, ms[j].entity, ws[..n][i].version, ms[j].version);
          assert ws[..n][i] == ws[i];
        } else {
          var j :| 0 <= j < |ms| && p == Pair(ws[n].entity, ms[j].entity, ws[n].version, ms[j].version);
        }
      }
    }
  }

  lemma {:induction false} RowPairsJudged(w: View, ms: seq<View>)
    ensures forall p :: p in RowPairs(w, ms) ==>
      exists j :: 0 <= j < |ms| && p == Pair(w.entity, ms[j].entity, w.version, ms[j].version)
  {
    if ms != [] {
      var n := |ms| - 1;
      RowPairsJudged(w, ms[..n]);
      forall p | p in RowPairs(w, ms)
        ensures exists j :: 0 <= j < |ms| && p == Pair(w.entity, ms[j].entity, w.version, ms[j].version)
      {
        if p in RowPairs(w, ms[..n]) {
          var j :| 0 <= j < n && p == Pair(w.entity, ms[..n][j].entity, w.version, ms[..n][j].version);
          assert ms[..n][j] == ms[j];
        } else {
          assert p == Pair(w.entity, ms[n].entity, w.version, ms[n].version);
        }
      }
    }
  }

  /** Every pair a tick starts is the candidate of a watcher view and a
      marker view of the lists it judges. */
  lemma TickPairsJudged(ws: seq<View>, ms: seq<View>, wm: seq<View>, mm: seq<View>)
    ensures forall p :: p in TickPairs(ws, ms, wm, mm) ==>
      exists w, m :: w in ws + wm && m in ms + mm && p == Pair(w.entity, m.entity, w.version, m.version)
  {
    CrossPairsJudged(ws, mm);
    CrossPairsJudged(wm, ms);
    CrossPairsJudged(wm, mm);
    forall p | p in TickPairs(ws, ms, wm, mm)
      ensures exists w, m :: w in ws + wm && m in ms + mm && p == Pair(w.entity, m.entity, w.version, m.version)
    {
      if p in CrossPairs(ws, mm) {
        var i, j :| 0 <= i < |ws| && 0 <= j < |mm| && p == Pair(ws[i].entity, mm[j].entity, ws[i].version, mm[j].version);
        assert ws[i] in ws + wm && mm[j] in ms + mm;
      } else if p in CrossPairs(wm, ms) {
        var i, j :| 0 <= i < |wm| && 0 <= j < |ms| && p == Pair(wm[i].entity, ms[j].entity, wm[i].version, ms[j].version);
        assert wm[i] in ws + wm && ms[j] in ms + mm;
      } else {
        var i, j :| 0 <= i < |wm| && 0 <= j < |mm| && p == Pair(wm[i].entity, mm[j].entity, wm[i].version, mm[j].version);
        assert wm[i] in ws + wm && mm[j] in ms + mm;
      }
    }
  }

  /** A view of a buffer's entity is current and names an entity that was
      sorted there, which keeps the role it was sorted by. */
  lemma ViewFiled(objs: seq<Entity>, modes: seq<Mode>, buf: seq<Entity>, w: View, watcher: bool, moving: bool)
    requires |objs| == |modes| && buf == Picked(objs, modes, watcher, moving) && w in ViewsOf(buf)
    requires forall i :: 0 <= i < |objs| ==> objs[i].mode == Settled(modes[i])
    ensures w.entity in objs && w.version == w.entity.version && !IsMoved(w.entity.mode)
    ensures if watcher then IsWatcher(w.entity.mode) else IsMarker(w.entity.mode)
  {
    var vs := ViewsOf(buf);
    var j :| 0 <= j < |vs| && vs[j] == w;
    PickedMembers(objs, modes, watcher, moving);
    assert buf[j] in Picked(objs, modes, watcher, moving);
    var i :| 0 <= i < |objs| && objs[i] == buf[j] && Files(modes[i], watcher, moving);
  }

  /** Every pair a tick starts joins a sorted watcher to a sorted marker,
      at their current versions. */
  lemma TickPairsRoles(objs: seq<Entity>, modes: seq<Mode>, b: Buffered)
    requires |objs| == |modes| && b == Sorted(Buffered([], [], [], []), objs, modes)
    requires forall i :: 0 <= i < |objs| ==> objs[i].mode == Settled(modes[i])
    ensures forall p :: p in TickPairs(ViewsOf(b.watcherStatic), ViewsOf(b.markerStatic), ViewsOf(b.watcherMove), ViewsOf(b.markerMove)) ==>
      && p.watcher in objs && p.marker in objs
      && p.watcherVersion == p.watcher.version && p.markerVersion == p.marker.version
      && IsWatcher(p.watcher.mode) && IsMarker(p.marker.mode)
      && !IsMoved(p.watcher.mode) && !IsMoved(p.marker.mode)
  {
    var ws, ms, wm, mm := ViewsOf(b.watcherStatic), ViewsOf(b.markerStatic), ViewsOf(b.watcherMove), ViewsOf(b.markerMove);
    TickPairsJudged(ws, ms, wm, mm);
    assert b.watcherStatic == Picked(objs, modes, true, false);
    assert b.markerStatic == Picked(objs, modes, false, false);
    assert b.watcherMove == Picked(objs, modes, true, true);
    assert b.markerMove == Picked(objs, modes, false, true);
    forall p | p in TickPairs(ws, ms, wm, mm)
      ensures && p.watcher in objs && p.marker in objs
              && p.watcherVersion == p.watcher.version && p.markerVersion == p.marker.version
              && IsWatcher(p.watcher.mode) && IsMarker(p.marker.mode)
              && !IsMoved(p.watcher.mode) && !IsMoved(p.marker.mode)
    {
      var w: View, m: View :| w in ws + wm && m in ms + mm && p == Pair(w.entity, m.entity, w.version, m.version);
      if w in ws {
        ViewFiled(objs, modes, b.watcherStatic, w, true, false);
      } else {
        ViewFiled(objs, modes, b.watcherMove, w, true, true);
      }
      if m in ms {
        ViewFiled(objs, modes, b.markerStatic, m, false, false);
      } else {
        ViewFiled(objs, modes, b.markerMove, m, false, true);
      }
    }
  }

  /** The events of evs from the watcher id a to the marker id b, in
      order. */
  function Between(evs: seq<Event>, a: Id, b: Id): seq<Event>
  {
    if evs == [] then []
    else
      var n := |evs| - 1;
      Between(evs[..n], a, b) + (if evs[n].watcher == a && evs[n].marker == b then [evs[n]] else [])
  }

  /** The pairs of ps from the entity with id a to the entity with id b,
      in order. */
  function PairsBetween(ps: seq<Pair>, a: Id, b: Id): seq<Pair>
  {
    if ps == [] then []
    else
      var n := |ps| - 1;
      PairsBetween(ps[..n], a, b) + (if ps[n].watcher.id == a && ps[n].marker.id == b then [ps[n]] else [])
  }

  /** Between keeps exactly the events from a to b. */
  lemma {:induction false} BetweenMembers(evs: seq<Event>, a: Id, b: Id)
    ensures forall ev :: ev in Between(evs, a, b) <==> ev in evs && ev.watcher == a && ev.marker == b
  {
    if evs != [] {
      var n := |evs| - 1;
      BetweenMembers(evs[..n], a, b);
      assert evs == evs[..n] + [evs[n]];
    }
  }

  /** PairsBetween keeps exactly the pairs from a to b. */
  lemma {:induction false} PairsBetweenMembers(ps: seq<Pair>, a: Id, b: Id)
    ensures forall p :: p in PairsBetween(ps, a, b) <==> p in ps && p.watcher.id == a && p.marker.id == b
  {
    if ps != [] {
      var n := |ps| - 1;
      PairsBetweenMembers(ps[..n], a, b);
      assert ps == ps[..n] + [ps[n]];
    }
  }

  lemma {:induction false} BetweenAppend(x: seq<Event>, y: seq<Event>, a: Id, b: Id)
    ensures Between(x + y, a, b) == Between(x, a, b) + Between(y, a, b)
    decreases |y|
  {
    if y != [] {
      var n := |y| - 1;
      assert (x + y)[..|x + y| - 1] == x + y[..n];
      BetweenAppend(x, y[..n], a, b);
    } else {
      assert x + y == x;
    }
  }

  lemma {:induction false} PairsBetweenAppend(x: seq<Pair>, y: seq<Pair>, a: Id, b: Id)
    ensures PairsBetween(x + y, a, b) == PairsBetween(x, a, b) + PairsBetween(y, a, b)
    decreases |y|
  {
    if y != [] {
      var n := |y| - 1;
      assert (x + y)[..|x + y| - 1] == x + y[..n];
      PairsBetweenAppend(x, y[..n], a, b);
    } else {
      assert x + y == x;
    }
  }

  /** No two views of vs are of entities with the same id. */
  predicate IdsDistinct(vs: seq<View>)
  {
    forall i, j :: 0 <= i < |vs| && 0 <= j < |vs| && vs[i].entity.id == vs[j].entity.id ==> i == j
  }

  /** Judging w against m concerns only w's id as watcher and m's id as
      marker. */
  lemma VerdictBetween(w: View, m: View, a: Id, b: Id)
    ensures Between(Verdict(w, m), a, b) == if a == w.entity.id && b == m.entity.id then Verdict(w, m) else []
    ensures PairsBetween(Candidate(w, m), a, b) == if a == w.entity.id && b == m.entity.id then Candidate(w, m) else []
  {
    var v, c := Verdict(w, m), Candidate(w, m);
    if v != [] {
      assert v[..0] == [];
    }
    if c != [] {
      assert c[..0] == [];
    }
  }

  /** Judging one watcher concerns no other watcher id, and no marker id
      among none of its markers. */
  lemma {:induction false} RowMiss(w: View, ms: seq<View>, a: Id, b: Id)
    requires a != w.entity.id || forall j :: 0 <= j < |ms| ==> ms[j].entity.id != b
    ensures Between(RowEvents(w, ms), a, b) == [] && PairsBetween(RowPairs(w, ms), a, b) == []
  {
    if ms != [] {
      var n := |ms| - 1;
      RowMiss(w, ms[..n], a, b);
      BetweenAppend(RowEvents(w, ms[..n]), Verdict(w, ms[n]), a, b);
      PairsBetweenAppend(RowPairs(w, ms[..n]), Candidate(w, ms[n]), a, b);
      VerdictBetween(w, ms[n], a, b);
    }
  }

  /** Judging one watcher against markers with distinct ids reports, for
      one of them, exactly its verdict and starts exactly its candidate. */
  lemma {:induction false} RowHit(w: View, ms: seq<View>, j: int)
    requires IdsDistinct(ms) && 0 <= j < |ms|
    ensures Between(RowEvents(w, ms), w.entity.id, ms[j].entity.id) == Verdict(w, ms[j])
    ensures PairsBetween(RowPairs(w, ms), w.entity.id, ms[j].entity.id) == Candidate(w, ms[j])
  {
    var n := |ms| - 1;
    var a, b := w.entity.id, ms[j].entity.id;
    var q := ms[..n];
    BetweenAppend(RowEvents(w, q), Verdict(w, ms[n]), a, b);
    PairsBetweenAppend(RowPairs(w, q), Candidate(w, ms[n]), a, b);
    VerdictBetween(w, ms[n], a, b);
    if j == n {
      assert forall k :: 0 <= k < n ==> q[k].entity.id != b by {
        assert forall k :: 0 <= k < n ==> q[k] == ms[k];
      }
      RowMiss(w, q, a, b);
      assert [] + Verdict(w, ms[j]) == Verdict(w, ms[j]);
      assert [] + Candidate(w, ms[j]) == Candidate(w, ms[j]);
    } else {
      assert ms[n].entity.id != b;
      assert IdsDistinct(q) && q[j] == ms[j] by {
        assert forall k :: 0 <= k < n ==> q[k] == ms[k];
      }
      RowHit(w, q, j);
      assert Verdict(w, ms[j]) + [] == Verdict(w, ms[j]);
      assert Candidate(w, ms[j]) + [] == Candidate(w, ms[j]);
    }
  }

  /** A cross product concerns no watcher id outside its watchers and no
      marker id outside its markers. */
  lemma {:induction false} CrossMiss(ws: seq<View>, ms: seq<View>, a: Id, b: Id)
    requires (forall i :: 0 <= i < |ws| ==> ws[i].entity.id != a) || (forall j :: 0 <= j < |ms| ==> ms[j].entity.id != b)
    ensures Between(CrossEvents(ws, ms), a, b) == [] && PairsBetween(CrossPairs(ws, ms), a, b) == []
  {
    if ws != [] {
      var n := |ws| - 1;
      assert forall i :: 0 <= i < n ==> ws[..n][i] == ws[i];
      CrossMiss(ws[..n], ms, a, b);
      RowMiss(ws[n], ms, a, b);
      BetweenAppend(CrossEvents(ws[..n], ms), RowEvents(ws[n], ms), a, b);
      PairsBetweenAppend(CrossPairs(ws[..n], ms), RowPairs(ws[n], ms), a, b);
    }
  }

  /** A cross product of views with distinct ids reports, for one watcher
      and one marker, exactly their verdict and starts exactly their
      candidate. */
  lemma {:induction false} CrossHit(ws: seq<View>, ms: seq<View>, i: int, j: int)
    requires IdsDistinct(ws) && IdsDistinct(ms) && 0 <= i < |ws| && 0 <= j < |ms|
    ensures Between(CrossEvents(ws, ms), ws[i].entity.id, ms[j].entity.id) == Verdict(ws[i], ms[j])
    ensures PairsBetween(CrossPairs(ws, ms), ws[i].entity.id, ms[j].entity.id) == Candidate(ws[i], ms[j])
  {
    var n := |ws| - 1;
    var a, b := ws[i].entity.id, ms[j].entity.id;
    var q := ws[..n];
    BetweenAppend(CrossEvents(q, ms), RowEvents(ws[n], ms), a, b);
    PairsBetweenAppend(CrossPairs(q, ms), RowPairs(ws[n], ms), a, b);
    if i == n {
      assert forall k :: 0 <= k < |q| ==> q[k].entity.id != a by {
        assert forall k :: 0 <= k < n ==> q[k] == ws[k];
      }
      CrossMiss(q, ms, a, b);
      RowHit(ws[n], ms, j);
      assert [] + Verdict(ws[i], ms[j]) == Verdict(ws[i], ms[j]);
      assert [] + Candidate(ws[i], ms[j]) == Candidate(ws[i], ms[j]);
    } else {
      assert IdsDistinct(q) && q[i] == ws[i] by {
        assert forall k :: 0 <= k < n ==> q[k] == ws[k];
      }
      assert ws[n].entity.id != a;
      CrossHit(q, ms, i, j);
      RowMiss(ws[n], ms, a, b);
      assert Verdict(ws[i], ms[j]) + [] == Verdict(ws[i], ms[j]);
      assert Candidate(ws[i], ms[j]) + [] == Candidate(ws[i], ms[j]);
    }
  }

  /** Every event flushing reports comes from a pair of ps whose fate
      reports, and names that pair's ends. */
  lemma {:induction false} FlushEventsFrom(ps: seq<Pair>, fates: seq<Fate>)
    requires |fates| == |ps|
    ensures forall ev :: ev in FlushEvents(ps, fates) ==>
      exists k :: 0 <= k < |ps| && fates[k].Report? && ev.watcher == ps[k].watcher.id && ev.marker == ps[k].marker.id
  {
    if ps != [] {
      var n := |ps| - 1;
      FlushEventsFrom(ps[..n], fates[..n]);
      forall ev | ev in FlushEvents(ps, fates)
        ensures exists k :: 0 <= k < |ps| && fates[k].Report? && ev.watcher == ps[k].watcher.id && ev.marker == ps[k].marker.id
      {
        if ev in FlushEvents(ps[..n], fates[..n]) {
          var k :| 0 <= k < n && fates[..n][k].Report? && ev.watcher == ps[..n][k].watcher.id && ev.marker == ps[..n][k].marker.id;
          assert ps[..n][k] == ps[k] && fates[..n][k] == fates[k];
        } else {
          assert ev in Reported(ps[n], fates[n]);
        }
      }
    }
  }

  /** Every event judging one watcher reports names that watcher and one
      of the markers. */
  lemma {:induction false} RowEventsFrom(w: View, ms: seq<View>)
    ensures forall ev :: ev in RowEvents(w, ms) ==> ev.watcher == w.entity.id && exists m :: m in ms && ev.marker == m.entity.id
  {
    if ms != [] {
      var n := |ms| - 1;
      RowEventsFrom(w, ms[..n]);
      forall ev | ev in RowEvents(w, ms)
        ensures ev.watcher == w.entity.id && exists m :: m in ms && ev.marker == m.entity.id
      {
        if ev in RowEvents(w, ms[..n]) {
          var m :| m in ms[..n] && ev.marker == m.entity.id;
          assert m in ms;
        } else {
          assert ev in Verdict(w, ms[n]);
          assert ms[n] in ms;
        }
      }
    }
  }

  /** Every event judging watchers against markers reports names one of
      the watchers and one of the markers. */
  lemma {:induction false} CrossEventsFrom(ws: seq<View>, ms: seq<View>)
    ensures forall ev :: ev in CrossEvents(ws, ms) ==>
      (exists w :: w in ws && ev.watcher == w.entity.id) && (exists m :: m in ms && ev.marker == m.entity.id)
  {
    if ws != [] {
      var n := |ws| - 1;
      CrossEventsFrom(ws[..n], ms);
      RowEventsFrom(ws[n], ms);
      forall ev | ev in CrossEvents(ws, ms)
        ensures (exists w :: w in ws && ev.watcher == w.entity.id) && (exists m :: m in ms && ev.marker == m.entity.id)
      {
        if ev in CrossEvents(ws[..n], ms) {
          var w :| w in ws[..n] && ev.watcher == w.entity.id;
          assert w in ws;
        } else {
          assert ws[n] in ws;
        }
      }
    }
  }

  /** Every event a tick reports names a watcher view and a marker view
      of the lists it judges. */
  lemma TickEventsFrom(ws: seq<View>, ms: seq<View>, wm: seq<View>, mm: seq<View>)
    ensures forall ev :: ev in TickEvents(ws, ms, wm, mm) ==>
      (exists w :: w in ws + wm && ev.watcher == w.entity.id) && (exists m :: m in ms + mm && ev.marker == m.entity.id)
  {
    CrossEventsFrom(ws, mm);
    CrossEventsFrom(wm, ms);
    CrossEventsFrom(wm, mm);
    forall ev | ev in TickEvents(ws, ms, wm, mm)
      ensures (exists w :: w in ws + wm && ev.watcher == w.entity.id) && (exists m :: m in ms + mm && ev.marker == m.entity.id)
    {
      var w: View, m: View;
      if ev in CrossEvents(ws, mm) {
        w :| w in ws && ev.watcher == w.entity.id;
        m :| m in mm && ev.marker == m.entity.id;
      } else if ev in CrossEvents(wm, ms) {
        w :| w in wm && ev.watcher == w.entity.id;
        m :| m in ms && ev.marker == m.entity.id;
      } else {
        w :| w in wm && ev.watcher == w.entity.id;
        m :| m in mm && ev.marker == m.entity.id;
      }
      assert w in ws + wm && m in ms + mm;
    }
  }

  /** A view in one of a tick's buffers is the view of an entity visited
      with that buffer's role. */
  lemma ViewPicked(objs: seq<Entity>, modes: seq<Mode>, buf: seq<Entity>, v: View, watcher: bool, moving: bool)
    requires |objs| == |modes| && buf == Picked(objs, modes, watcher, moving) && v in ViewsOf(buf)
    ensures exists i :: 0 <= i < |objs| && objs[i] == v.entity && if watcher then IsWatcher(modes[i]) else IsMarker(modes[i])
  {
    var vs := ViewsOf(buf);
    var j :| 0 <= j < |vs| && vs[j] == v;
    PickedMembers(objs, modes, watcher, moving);
    assert buf[j] in Picked(objs, modes, watcher, moving);
    var i :| 0 <= i < |objs| && objs[i] == buf[j] && Files(modes[i], watcher, moving);
  }

  /** Every event a tick reports goes from an entity visited as a watcher
      to an entity visited as a marker. */
  lemma TickEventsRoles(objs: seq<Entity>, modes: seq<Mode>, b: Buffered)
    requires |objs| == |modes| && b == Sorted(Buffered([], [], [], []), objs, modes)
    ensures forall ev :: ev in TickEvents(ViewsOf(b.watcherStatic), ViewsOf(b.markerStatic), ViewsOf(b.watcherMove), ViewsOf(b.markerMove)) ==>
      && (exists i :: 0 <= i < |objs| && objs[i].id == ev.watcher && IsWatcher(modes[i]))
      && (exists j :: 0 <= j < |objs| && objs[j].id == ev.marker && IsMarker(modes[j]))
  {
    var ws, ms, wm, mm := ViewsOf(b.watcherStatic), ViewsOf(b.markerStatic), ViewsOf(b.watcherMove), ViewsOf(b.markerMove);
    TickEventsFrom(ws, ms, wm, mm);
    assert b.watcherStatic == Picked(objs, modes, true, false);
    assert b.markerStatic == Picked(objs, modes, false, false);
    assert b.watcherMove == Picked(objs, modes, true, true);
    assert b.markerMove == Picked(objs, modes, false, true);
    forall ev | ev in TickEvents(ws, ms, wm, mm)
      ensures && (exists i :: 0 <= i < |objs| && objs[i].id == ev.watcher && IsWatcher(modes[i]))
              && (exists j :: 0 <= j < |objs| && objs[j].id == ev.marker && IsMarker(modes[j]))
    {
      var w: View :| w in ws + wm && ev.watcher == w.entity.id;
      var m: View :| m in ms + mm && ev.marker == m.entity.id;
      if w in ws {
        ViewPicked(objs, modes, b.watcherStatic, w, true, false);
      } else {
        ViewPicked(objs, modes, b.watcherMove, w, true, true);
      }
      if m in ms {
        ViewPicked(objs, modes, b.markerStatic, m, false, false);
      } else {
        ViewPicked(objs, modes, b.markerMove, m, false, true);
      }
    }
  }

  /** Flushing reports nothing between two ids when no pair between them
      has a fate that reports. */
  lemma {:induction false} FlushSilent(ps: seq<Pair>, fates: seq<Fate>, a: Id, b: Id)
    requires |fates| == |ps|
    requires forall k :: 0 <= k < |ps| && ps[k].watcher.id == a && ps[k].marker.id == b ==> !fates[k].Report?
    ensures Between(FlushEvents(ps, fates), a, b) == []
  {
    if ps != [] {
      var n := |ps| - 1;
      var q, f := ps[..n], fates[..n];
      assert forall k :: 0 <= k < n ==> q[k] == ps[k] && f[k] == fates[k];
      FlushSilent(q, f, a, b);
      BetweenAppend(FlushEvents(q, f), Reported(ps[n], fates[n]), a, b);
      var r := Reported(ps[n], fates[n]);
      if r != [] {
        assert r[..0] == [];
      }
    }
  }

  /** The pairs between two ids that survive a flush: none when each of
      them is discarded, all of them when each is kept. */
  lemma {:induction false} FlushSurvivorsBetween(ps: seq<Pair>, fates: seq<Fate>, a: Id, b: Id, kept: bool)
    requires |fates| == |ps|
    requires forall k :: 0 <= k < |ps| && ps[k].watcher.id == a && ps[k].marker.id == b ==> fates[k] == if kept then Keep else Discard
    ensures PairsBetween(Survivors(ps, fates), a, b) == if kept then PairsBetween(ps, a, b) else []
  {
    if ps != [] {
      var n := |ps| - 1;
      var q, f := ps[..n], fates[..n];
      assert forall k :: 0 <= k < n ==> q[k] == ps[k] && f[k] == fates[k];
      FlushSurvivorsBetween(q, f, a, b, kept);
      var last := if fates[n] == Keep then [ps[n]] else [];
      PairsBetweenAppend(Survivors(q, f), last, a, b);
      assert [ps[n]][..0] == [];
    }
  }

  /** Pushing pairs keeps, between two ids, exactly the pushed pairs
      between them pushed onto the old ones between them. */
  lemma {:induction false} PairsBetweenPushAll(ps: seq<Pair>, hot: seq<Pair>, a: Id, b: Id)
    ensures PairsBetween(PushAll(ps, hot), a, b) == PushAll(PairsBetween(ps, a, b), PairsBetween(hot, a, b))
  {
    if ps != [] {
      var n := |ps| - 1;
      var rest := PushAll(ps[..n], hot);
      PairsBetweenPushAll(ps[..n], hot, a, b);
      PairsBetweenAppend([ps[n]], rest, a, b);
      assert [ps[n]][..0] == [];
      var q, h := PairsBetween(ps[..n], a, b), PairsBetween(hot, a, b);
      assert PairsBetween(PushAll(ps, hot), a, b) == PairsBetween([ps[n]], a, b) + PushAll(q, h);
      if ps[n].watcher.id == a && ps[n].marker.id == b {
        assert PairsBetween(ps, a, b) == q + [ps[n]];
        assert (q + [ps[n]])[..|q|] == q;
        assert PushAll(q + [ps[n]], h) == [ps[n]] + PushAll(q, h);
      } else {
        assert PairsBetween(ps, a, b) == q + [];
        assert q + [] == q;
        assert PairsBetween([ps[n]], a, b) + PushAll(q, h) == PushAll(q, h);
      }
    }
  }

  /** No two entities of objs share an id. */
  predicate UniqueIds(objs: seq<Entity>)
  {
    forall i, j :: 0 <= i < |objs| && 0 <= j < |objs| && objs[i].id == objs[j].id ==> i == j
  }

  /** An entity filed under its own id, like each of objs, is found by it. */
  lemma FiledAt(objs: seq<Entity>, live: map<Id, Entity>, i: int)
    requires forall o :: o in objs ==> o.id in live && live[o.id] == o
    requires 0 <= i < |objs|
    ensures objs[i].id in live && live[objs[i].id] == objs[i]
  {
    assert objs[i] in objs;
  }

  /** Distinct entities filed under their own ids have distinct ids. */
  lemma FiledUnique(objs: seq<Entity>, live: map<Id, Entity>)
    requires Distinct(objs)
    requires forall o :: o in objs ==> o.id in live && live[o.id] == o
    ensures UniqueIds(objs)
  {
    forall i, j | 0 <= i < |objs| && 0 <= j < |objs| && objs[i].id == objs[j].id
      ensures i == j
    {
      assert objs[i] == live[objs[i].id] == objs[j];
    }
  }

  /** Sorting entities with unique ids into a buffer keeps them unique. */
  lemma {:induction false} PickedUnique(objs: seq<Entity>, modes: seq<Mode>, watcher: bool, moving: bool)
    requires |objs| == |modes| && UniqueIds(objs)
    ensures UniqueIds(Picked(objs, modes, watcher, moving))
  {
    if objs != [] {
      var n := |objs| - 1;
      var q, f := objs[..n], modes[..n];
      assert forall k :: 0 <= k < n ==> q[k] == objs[k];
      PickedUnique(q, f, watcher, moving);
      PickedMembers(q, f, watcher, moving);
      var head := Picked(q, f, watcher, moving);
      assert forall e :: e in head ==> e.id != objs[n].id;
      var r := Pick(objs[n], modes[n], watcher, moving);
      assert forall k :: 0 <= k < |head| ==> (head + r)[k] == head[k];
    }
  }

  /** The views of entities with unique ids have distinct ids. */
  lemma ViewsUnique(es: seq<Entity>)
    requires UniqueIds(es)
    ensures IdsDistinct(ViewsOf(es))
  {
  }

  /** Two lists of views with distinct ids and no id in common join into
      one with distinct ids. */
  lemma IdsDistinctJoin(x: seq<View>, y: seq<View>)
    requires IdsDistinct(x) && IdsDistinct(y)
    requires forall i, j :: 0 <= i < |x| && 0 <= j < |y| ==> x[i].entity.id != y[j].entity.id
    ensures IdsDistinct(x + y)
  {
    assert forall k :: 0 <= k < |x| ==> (x + y)[k] == x[k];
    assert forall k :: |x| <= k < |x + y| ==> (x + y)[k] == y[k - |x|];
  }

  /** The static and the moving buffer of one role, sorted from entities
      with unique ids, together hold views with distinct ids. */
  lemma BuffersDistinct(objs: seq<Entity>, modes: seq<Mode>, watcher: bool)
    requires |objs| == |modes| && UniqueIds(objs)
    ensures IdsDistinct(ViewsOf(Picked(objs, modes, watcher, false)) + ViewsOf(Picked(objs, modes, watcher, true)))
  {
    var st, mv := Picked(objs, modes, watcher, false), Picked(objs, modes, watcher, true);
    PickedUnique(objs, modes, watcher, false);
    PickedUnique(objs, modes, watcher, true);
    ViewsUnique(st);
    ViewsUnique(mv);
    PickedMembers(objs, modes, watcher, false);
    PickedMembers(objs, modes, watcher, true);
    var x, y := ViewsOf(st), ViewsOf(mv);
    forall i, j | 0 <= i < |x| && 0 <= j < |y|
      ensures x[i].entity.id != y[j].entity.id
    {
      assert st[i] in st && mv[j] in mv;
    }
    IdsDistinctJoin(x, y);
  }

  /** An entity whose flags file it into a buffer has its view there. */
  lemma PickedView(objs: seq<Entity>, modes: seq<Mode>, i: int, watcher: bool, moving: bool)
    requires |objs| == |modes| && 0 <= i < |objs| && Files(modes[i], watcher, moving)
    ensures ViewOf(objs[i]) in ViewsOf(Picked(objs, modes, watcher, moving))
  {
    PickedMembers(objs, modes, watcher, moving);
    var buf := Picked(objs, modes, watcher, moving);
    var j :| 0 <= j < |buf| && buf[j] == objs[i];
    assert ViewsOf(buf)[j] == ViewOf(objs[i]);
  }

  /** Views with distinct ids, split in two, give two lists with
      distinct ids and no id in common. */
  lemma IdsDistinctSplit(x: seq<View>, y: seq<View>)
    requires IdsDistinct(x + y)
    ensures IdsDistinct(x) && IdsDistinct(y)
    ensures forall i, j :: 0 <= i < |x| && 0 <= j < |y| ==> x[i].entity.id != y[j].entity.id
  {
    assert forall i :: 0 <= i < |x| ==> (x + y)[i] == x[i];
    assert forall j :: 0 <= j < |y| ==> (x + y)[|x| + j] == y[j];
  }

  /** Within one tick, a watcher and a marker whose ids are distinct among
      the watchers and among the markers are judged against each other
      exactly when one of them moved: the events between their ids are then
      their verdict and the pairs their candidate, and otherwise there are
      none. */
  lemma TickHit(ws: seq<View>, ms: seq<View>, wm: seq<View>, mm: seq<View>, w: View, m: View)
    requires IdsDistinct(ws + wm) && IdsDistinct(ms + mm) && w in ws + wm && m in ms + mm
    ensures Between(TickEvents(ws, ms, wm, mm), w.entity.id, m.entity.id) == if w in wm || m in mm then Verdict(w, m) else []
    ensures PairsBetween(TickPairs(ws, ms, wm, mm), w.entity.id, m.entity.id) == if w in wm || m in mm then Candidate(w, m) else []
  {
    IdsDistinctSplit(ws, wm);
    IdsDistinctSplit(ms, mm);
    TickParts(ws, ms, wm, mm, w.entity.id, m.entity.id);
    var wi :| 0 <= wi < |ws + wm| && (ws + wm)[wi] == w;
    var mi :| 0 <= mi < |ms + mm| && (ms + mm)[mi] == m;
    if wi < |ws| {
      assert ws[wi] == w;
      StaticWatcherHit(ws, ms, wm, mm, wi, mi);
    } else {
      assert wm[wi - |ws|] == w;
      MovingWatcherHit(ws, ms, wm, mm, wi - |ws|, mi);
    }
  }

  /** The events and pairs of a tick between two ids are those of its
      three cross products, in order. */
  lemma TickParts(ws: seq<View>, ms: seq<View>, wm: seq<View>, mm: seq<View>, a: Id, b: Id)
    ensures Between(TickEvents(ws, ms, wm, mm), a, b)
         == Between(CrossEvents(ws, mm), a, b) + Between(CrossEvents(wm, ms), a, b) + Between(CrossEvents(wm, mm), a, b)
    ensures PairsBetween(TickPairs(ws, ms, wm, mm), a, b)
         == PairsBetween(CrossPairs(ws, mm), a, b) + PairsBetween(CrossPairs(wm, ms), a, b) + PairsBetween(CrossPairs(wm, mm), a, b)
  {
    var e1, e2, e3 := CrossEvents(ws, mm), CrossEvents(wm, ms), CrossEvents(wm, mm);
    var p1, p2, p3 := CrossPairs(ws, mm), CrossPairs(wm, ms), CrossPairs(wm, mm);
    BetweenAppend(e1 + e2, e3, a, b);
    BetweenAppend(e1, e2, a, b);
    PairsBetweenAppend(p1 + p2, p3, a, b);
    PairsBetweenAppend(p1, p2, a, b);
  }

  /** One tick between a watcher objs[i] and a marker objs[j], one of
      which had moved: any pair tracked between them before is discarded
      unreported, so the tick reports their verdict alone and then tracks
      their candidate alone. */
  lemma MeetMoved(objs: seq<Entity>, modes: seq<Mode>, b: Buffered, ps: seq<Pair>, fates: seq<Fate>, i: int, j: int)
    requires |objs| == |modes| && UniqueIds(objs) && b == Sorted(Buffered([], [], [], []), objs, modes)
    requires 0 <= i < |objs| && 0 <= j < |objs| && IsWatcher(modes[i]) && IsMarker(modes[j])
    requires IsMoved(modes[i]) || IsMoved(modes[j])
    requires |fates| == |ps|
    requires forall k :: 0 <= k < |ps| && ps[k].watcher.id == objs[i].id && ps[k].marker.id == objs[j].id ==> fates[k] == Discard
    ensures var ws, ms, wm, mm := ViewsOf(b.watcherStatic), ViewsOf(b.markerStatic), ViewsOf(b.watcherMove), ViewsOf(b.markerMove);
      var w, m := ViewOf(objs[i]), ViewOf(objs[j]);
      && Between(FlushEvents(ps, fates) + TickEvents(ws, ms, wm, mm), objs[i].id, objs[j].id) == Verdict(w, m)
      && PairsBetween(PushAll(TickPairs(ws, ms, wm, mm), Survivors(ps, fates)), objs[i].id, objs[j].id) == Candidate(w, m)
  {
    var ws, ms, wm, mm := ViewsOf(b.watcherStatic), ViewsOf(b.markerStatic), ViewsOf(b.watcherMove), ViewsOf(b.markerMove);
    var a, c := objs[i].id, objs[j].id;
    SortedMeet(objs, modes, b, i, j);
    BetweenAppend(FlushEvents(ps, fates), TickEvents(ws, ms, wm, mm), a, c);
    PairsBetweenPushAll(TickPairs(ws, ms, wm, mm), Survivors(ps, fates), a, c);
    FlushSilent(ps, fates, a, c);
    FlushSurvivorsBetween(ps, fates, a, c, false);
    Alone(Verdict(ViewOf(objs[i]), ViewOf(objs[j])));
    var cand := Candidate(ViewOf(objs[i]), ViewOf(objs[j]));
    if cand != [] {
      assert PushAll(cand, []) == [cand[0]] + PushAll([], []);
    }
  }

  /** One tick between a watcher objs[i] and a marker objs[j], neither of
      which had moved: the tick adds nothing between them, so what it
      reports and keeps between them is what flushing the tracked pairs
      reports and keeps; when every such pair is kept, nothing is reported
      and the pairs between them stay as they were. */
  lemma MeetStill(objs: seq<Entity>, modes: seq<Mode>, b: Buffered, ps: seq<Pair>, fates: seq<Fate>, i: int, j: int)
    requires |objs| == |modes| && UniqueIds(objs) && b == Sorted(Buffered([], [], [], []), objs, modes)
    requires 0 <= i < |objs| && 0 <= j < |objs| && IsWatcher(modes[i]) && IsMarker(modes[j])
    requires !IsMoved(modes[i]) && !IsMoved(modes[j])
    requires |fates| == |ps|
    ensures var ws, ms, wm, mm := ViewsOf(b.watcherStatic), ViewsOf(b.markerStatic), ViewsOf(b.watcherMove), ViewsOf(b.markerMove);
      var a, c := objs[i].id, objs[j].id;
      && Between(FlushEvents(ps, fates) + TickEvents(ws, ms, wm, mm), a, c) == Between(FlushEvents(ps, fates), a, c)
      && PairsBetween(PushAll(TickPairs(ws, ms, wm, mm), Survivors(ps, fates)), a, c) == PairsBetween(Survivors(ps, fates), a, c)
      && ((forall k :: 0 <= k < |ps| && ps[k].watcher.id == a && ps[k].marker.id == c ==> fates[k] == Keep) ==>
            && Between(FlushEvents(ps, fates), a, c) == []
            && PairsBetween(Survivors(ps, fates), a, c) == PairsBetween(ps, a, c))
  {
    var ws, ms, wm, mm := ViewsOf(b.watcherStatic), ViewsOf(b.markerStatic), ViewsOf(b.watcherMove), ViewsOf(b.markerMove);
    var a, c := objs[i].id, objs[j].id;
    SortedMeet(objs, modes, b, i, j);
    BetweenAppend(FlushEvents(ps, fates), TickEvents(ws, ms, wm, mm), a, c);
    PairsBetweenPushAll(TickPairs(ws, ms, wm, mm), Survivors(ps, fates), a, c);
    Alone(Between(FlushEvents(ps, fates), a, c));
    if forall k :: 0 <= k < |ps| && ps[k].watcher.id == a && ps[k].marker.id == c ==> fates[k] == Keep {
      FlushSilent(ps, fates, a, c);
      FlushSurvivorsBetween(ps, fates, a, c, true);
    }
  }

  /** A tick sorting entities with unique ids judges a watcher against a
      marker exactly when one of them had moved: the events between their
      ids are then their verdict and the pairs their candidate, and
      otherwise there are none. */
  lemma SortedMeet(objs: seq<Entity>, modes: seq<Mode>, b: Buffered, i: int, j: int)
    requires |objs| == |modes| && UniqueIds(objs) && b == Sorted(Buffered([], [], [], []), objs, modes)
    requires 0 <= i < |objs| && 0 <= j < |objs| && IsWatcher(modes[i]) && IsMarker(modes[j])
    ensures var ws, ms, wm, mm := ViewsOf(b.watcherStatic), ViewsOf(b.markerStatic), ViewsOf(b.watcherMove), ViewsOf(b.markerMove);
      var w, m := ViewOf(objs[i]), ViewOf(objs[j]);
      && Between(TickEvents(ws, ms, wm, mm), objs[i].id, objs[j].id)
         == (if IsMoved(modes[i]) || IsMoved(modes[j]) then Verdict(w, m) else [])
      && PairsBetween(TickPairs(ws, ms, wm, mm), objs[i].id, objs[j].id)
         == (if IsMoved(modes[i]) || IsMoved(modes[j]) then Candidate(w, m) else [])
  {
    var ws, ms, wm, mm := ViewsOf(b.watcherStatic), ViewsOf(b.markerStatic), ViewsOf(b.watcherMove), ViewsOf(b.markerMove);
    assert b.watcherStatic == Picked(objs, modes, true, false);
    assert b.markerStatic == Picked(objs, modes, false, false);
    assert b.watcherMove == Picked(objs, modes, true, true);
    assert b.markerMove == Picked(objs, modes, false, true);
    SortedRole(objs, modes, i, true);
    SortedRole(objs, modes, j, false);
    TickHit(ws, ms, wm, mm, ViewOf(objs[i]), ViewOf(objs[j]));
  }

  /** An entity sorted by one of its roles has its view in exactly one of
      that role's two buffers, the moving one exactly when it had moved,
      and the two buffers hold views with distinct ids. */
  lemma SortedRole(objs: seq<Entity>, modes: seq<Mode>, i: int, watcher: bool)
    requires |objs| == |modes| && UniqueIds(objs) && 0 <= i < |objs|
    requires if watcher then IsWatcher(modes[i]) else IsMarker(modes[i])
    ensures var st, mv := ViewsOf(Picked(objs, modes, watcher, false)), ViewsOf(Picked(objs, modes, watcher, true));
      && IdsDistinct(st + mv) && ViewOf(objs[i]) in st + mv
      && (ViewOf(objs[i]) in mv <==> IsMoved(modes[i]))
  {
    var st, mv := ViewsOf(Picked(objs, modes, watcher, false)), ViewsOf(Picked(objs, modes, watcher, true));
    BuffersDistinct(objs, modes, watcher);
    IdsDistinctSplit(st, mv);
    PickedView(objs, modes, i, watcher, IsMoved(modes[i]));
  }

  /** A list between two empty ones is itself. */
  lemma Alone<T>(x: seq<T>)
    ensures [] + x + [] == x && x + [] + [] == x && [] + [] + x == x
  {
  }

  /** A static watcher is judged only against the moving markers. */
  lemma StaticWatcherHit(ws: seq<View>, ms: seq<View>, wm: seq<View>, mm: seq<View>, i: int, mi: int)
    requires IdsDistinct(ws) && IdsDistinct(ms) && IdsDistinct(mm) && 0 <= i < |ws| && 0 <= mi < |ms + mm|
    requires forall k, l :: 0 <= k < |ws| && 0 <= l < |wm| ==> ws[k].entity.id != wm[l].entity.id
    requires forall k, l :: 0 <= k < |ms| && 0 <= l < |mm| ==> ms[k].entity.id != mm[l].entity.id
    ensures var a, b := ws[i].entity.id, (ms + mm)[mi].entity.id;
      && Between(CrossEvents(ws, mm), a, b) + Between(CrossEvents(wm, ms), a, b) + Between(CrossEvents(wm, mm), a, b)
         == (if mi < |ms| then [] else Verdict(ws[i], (ms + mm)[mi]))
      && PairsBetween(CrossPairs(ws, mm), a, b) + PairsBetween(CrossPairs(wm, ms), a, b) + PairsBetween(CrossPairs(wm, mm), a, b)
         == (if mi < |ms| then [] else Candidate(ws[i], (ms + mm)[mi]))
  {
    var a, b := ws[i].entity.id, (ms + mm)[mi].entity.id;
    CrossMiss(wm, ms, a, b);
    CrossMiss(wm, mm, a, b);
    if mi < |ms| {
      assert ms[mi].entity.id == b;
      CrossMiss(ws, mm, a, b);
    } else {
      var j := mi - |ms|;
      assert mm[j] == (ms + mm)[mi];
      CrossHit(ws, mm, i, j);
      Alone(Verdict(ws[i], mm[j]));
      Alone(Candidate(ws[i], mm[j]));
    }
  }

  /** A moving watcher is judged against every marker, static ones
      first. */
  lemma MovingWatcherHit(ws: seq<View>, ms: seq<View>, wm: seq<View>, mm: seq<View>, i: int, mi: int)
    requires IdsDistinct(wm) && IdsDistinct(ms) && IdsDistinct(mm) && 0 <= i < |wm| && 0 <= mi < |ms + mm|
    requires forall k, l :: 0 <= k < |ws| && 0 <= l < |wm| ==> ws[k].entity.id != wm[l].entity.id
    requires forall k, l :: 0 <= k < |ms| && 0 <= l < |mm| ==> ms[k].entity.id != mm[l].entity.id
    ensures var a, b := wm[i].entity.id, (ms + mm)[mi].entity.id;
      && Between(CrossEvents(ws, mm), a, b) + Between(CrossEvents(wm, ms), a, b) + Between(CrossEvents(wm, mm), a, b)
         == Verdict(wm[i], (ms + mm)[mi])
      && PairsBetween(CrossPairs(ws, mm), a, b) + PairsBetween(CrossPairs(wm, ms), a, b) + PairsBetween(CrossPairs(wm, mm), a, b)
         == Candidate(wm[i], (ms + mm)[mi])
  {
    var a, b := wm[i].entity.id, (ms + mm)[mi].entity.id;
    CrossMiss(ws, mm, a, b);
    if mi < |ms| {
      assert ms[mi] == (ms + mm)[mi];
      CrossHit(wm, ms, i, mi);
      CrossMiss(wm, mm, a, b);
      Alone(Verdict(wm[i], ms[mi]));
      Alone(Candidate(wm[i], ms[mi]));
    } else {
      var j := mi - |ms|;
      assert mm[j] == (ms + mm)[mi];
      CrossMiss(wm, ms, a, b);
      CrossHit(wm, mm, i, j);
      Alone(Verdict(wm[i], mm[j]));
      Alone(Candidate(wm[i], mm[j]));
    }
  }

  /** Regrouping a concatenation, stated apart so that the pair-generation
      loops use it without searching for it. */
  lemma Joined(a: seq<Pair>, b: seq<Pair>, c: seq<Pair>)
    ensures a + b + c == a + (b + c)
  {
  }

  /** vs holds the current view of every entity of es, index by index. */
  ghost predicate Seen(es: seq<Entity>, vs: seq<View>)
    reads (set e | e in es)`version, (set e | e in es)`mode, (set e | e in es)`last, (set e | e in es)`position
  {
    |vs| == |es| && forall k :: 0 <= k < |es| ==> vs[k] == ViewOf(es[k])
  }

  /** A slice of a seen sequence is seen. */
  lemma Part(es: seq<Entity>, vs: seq<View>, lo: int, hi: int, part: seq<Entity>)
    requires Seen(es, vs) && 0 <= lo <= hi <= |es| && part == es[lo..hi]
    ensures forall k :: 0 <= k < |part| ==> vs[lo..hi][k] == ViewOf(part[k])
  {
  }

  lemma ViewsAgree(es: seq<Entity>, vs: seq<View>)
    requires |vs| == |es| && forall k :: 0 <= k < |es| ==> vs[k] == ViewOf(es[k])
    ensures ViewsOf(es) == vs
  {
  }
}
