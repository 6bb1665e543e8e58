/** The reference-counted entity record and its role flags. */
module Entities {
  import opened Geometry

  /** Identifiers are the engine's `uint32_t` ids; the all-ones value is the
      registry's empty-slot marker and is never a caller id. */
  const INVALID_ID: int := 0xFFFF_FFFF
  type Id = x: int | 0 <= x < INVALID_ID

  /** The entity's `mode` bit set. */
  type Mode = bv8

  const MODE_WATCHER: Mode := 1
  const MODE_MARKER: Mode := 2
  const MODE_MOVE: Mode := 4
  const MODE_DROP: Mode := 8

  predicate IsWatcher(m: Mode) { m & MODE_WATCHER != 0 }
  predicate IsMarker(m: Mode) { m & MODE_MARKER != 0 }
  predicate IsMoved(m: Mode) { m & MODE_MOVE != 0 }
  predicate IsDropped(m: Mode) { m & MODE_DROP != 0 }

  /** The flags m with the watcher and marker roles set to exactly the
      requested ones and every other flag kept. */
  function SetRoles(m: Mode, watcher: bool, marker: bool): (r: Mode)
    ensures IsWatcher(r) == watcher && IsMarker(r) == marker
    ensures r & !(MODE_WATCHER | MODE_MARKER) == m & !(MODE_WATCHER | MODE_MARKER)
  {
    (m & !(MODE_WATCHER | MODE_MARKER))
      | (if watcher then MODE_WATCHER else 0)
      | (if marker then MODE_MARKER else 0)
  }

  /** Whether setting the roles counts as a change: a role differs, or the
      entity has no flag at all yet. */
  predicate RolesChanged(m: Mode, watcher: bool, marker: bool)
  {
    m == 0 || IsWatcher(m) != watcher || IsMarker(m) != marker
  }

  /** An entity in the scene. The registry holds one reference on it until
      it is dropped, and every tracked pair holds one more on each end. */
  class Entity {
    var ref: int
    const id: Id
    var version: int
    var mode: Mode
    var last: Position
    var position: Position

    /** A fresh entity (`new_object`): one reference, version 0, no flags.
        Its positions are left unset by the engine and are only read after
        the first update has written them; here they start at the origin. */
    constructor (id: Id)
      ensures this.id == id
      ensures ref == 1 && version == 0 && mode == 0
      ensures last == Origin && position == Origin
    {
      this.id := id;
      ref := 1;
      version := 0;
      mode := 0;
      last := Origin;
      position := Origin;
    }

    /** Takes one more reference (`grab_object`). */
    method Grab()
      modifies this`ref
      ensures ref == old(ref) + 1
    {
      ref := ref + 1;
    }

    /** Sets the role flags to exactly the requested ones and reports
        whether anything changed (`change_mode`). An entity without any
        flag counts as changed even when no role is requested. */
    method ChangeMode(setWatcher: bool, setMarker: bool) returns (changed: bool)
      modifies this`mode
      ensures mode == SetRoles(old(mode), setWatcher, setMarker)
      ensures changed == RolesChanged(old(mode), setWatcher, setMarker)
    {
      changed := false;
      if mode == 0 {
        if setWatcher {
          mode := MODE_WATCHER;
        }
        if setMarker {
          mode := mode | MODE_MARKER;
        }
        return true;
      }
      if setWatcher {
        if mode & MODE_WATCHER == 0 {
          mode := mode | MODE_WATCHER;
          changed := true;
        }
      } else {
        if mode & MODE_WATCHER != 0 {
          mode := mode & !MODE_WATCHER;
          changed := true;
        }
      }
      if setMarker {
        if mode & MODE_MARKER == 0 {
          mode := mode | MODE_MARKER;
          changed := true;
        }
      } else {
        if mode & MODE_MARKER != 0 {
          mode := mode & !MODE_MARKER;
          changed := true;
        }
      }
    }
  }
}
