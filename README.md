# An area-of-interest engine, modelled and proved in Dafny

The engine keeps a scene of entities, each registered under a 32-bit id
with a position and two roles: a *watcher* sees, a *marker* is seen.
Callers update entities one at a time (`aoi_update`: a mode string of `w`,
`m` and `d`, and a position). Once per tick (`aoi_message`) the engine
reports, through a callback, which watchers should hear about which
markers. MOVE means "inside the interest radius" and LEAVE means "beyond
the leave distance". A pair that sits in the band between the two is
tracked on a "hot" list. Each later tick re-judges that pair until its
ends come close, go far, move or are dropped.

The model has six modules, following the parts of `aoi.c`.

- `Geometry` (geometry.dfy) holds positions as exact reals, the squared
  distance, the micro-move test and the three distance zones. The
  constants are an interest radius of 10, a squared radius of 100, a
  micro-move threshold of 25 and a leave threshold of 400.
- `Entities` (entity.dfy) is the reference-counted `Entity` class with
  the `mode` bits (`MODE_WATCHER` 1, `MODE_MARKER` 2, `MODE_MOVE` 4,
  `MODE_DROP` 8) as a `bv8`. It also holds `change_mode`.
- `HashSlots` (slots.dfy) is the registry's hash table as a value.
  - It covers the slots, the `lastfree` cursor and the ghost bookkeeping
    that explains them: where each id sits, the live entities, and each
    collision chain as the list of its slots.
  - It states the invariant that keeps every chain walkable.
  - It has one function per way `map_insert` and `map_drop` change a
    table, each with a lemma that the invariant survives the change.
- `Registry` (registry.dfy) is the `EntityMap` class over an `array<Slot>`,
  with `map_insert` in all three cases, `rehash`, `map_query`, `map_drop`
  and `map_foreach`. Each method is proved against the value-level model.
- `ObjectSets` (object_set.dfy) is the growable buffer `object_set`
  (`set_push_back`).
- `Aoi` (aoi.dfy) is the scene class `Space`.
  - It covers `aoi_update`, `drop_object`, `drop_pair`, `set_push`,
    `gen_pair`, `gen_pair_list`, `flush_pair` and `aoi_message`.
  - Beside them are the value-level functions they are proved against:
    `Applied` for an update, `Sorted`/`Picked` for the buffers,
    `Verdict`/`Candidate`, `CrossEvents`/`CrossPairs` and
    `TickEvents`/`TickPairs` for judging, and
    `FateOf`/`Survivors`/`Retired`/`FlushEvents` for flushing.
  - Reference counts are accounted for through `Holds`, the number of
    references a list of pairs holds on an entity.

The scene keeps an invariant between calls, `Space.Coherent`:

- every tracked pair joins two registered entities;
- every registered entity's reference count is one for the registry
  (none once dropped) plus one per end of a tracked pair on it, and a
  dropped entity carries the drop flag alone;
- a tracked pair whose recorded versions are still current joins a
  watcher to a marker, unless one end was dropped.

`Update` and `Message` both keep it, and `Message` uses it to state what
one tick means between a watcher and a marker.

The callback is modelled as the sequence of events a call returns, each
`Event(watcher id, marker id, Move | Leave)`, in callback order. The hot
list is a `seq<Pair>`, newest first, as `gen_pair` pushes to its front.

## Model

| member | source | states |
|---|---|---|
| Geometry.Dist2 | aoi.c:378-382 | the squared distance between two positions is never negative |
| Geometry.Dist2Symmetric | aoi.c:20 | the squared distance does not depend on the order of the two points |
| Geometry.IsNearProperties | aoi.c:372-375 | a move is "near" exactly when its squared length is below 25; every point is near itself and nearness is symmetric |
| Geometry.ZoneOf | aoi.c:449-459 | a squared distance is Inside exactly when below 100, Beyond exactly when above 400, and in the Band exactly when between them inclusive |
| Entities.SetRoles | aoi.c:334-369 | the resulting flags have the watcher and marker bits equal to the requested roles and every other bit unchanged |
| Entities.Entity.constructor | aoi.c:91-99 | a new entity carries its id, one reference, version 0 and no flag |
| Entities.Entity.Grab | aoi.c:251-254 | the reference count grows by exactly one |
| Entities.Entity.ChangeMode | aoi.c:334-369 | afterwards the roles are exactly the requested ones; the result is true exactly when a role bit flipped or the entity had no flag at all, even when no role is requested |
| HashSlots.MaskIsRemainder | aoi.c:103 | masking an id with size-1 gives the id modulo the size when the size is a power of two |
| HashSlots.HomeIsRemainder | aoi.c:103 | the reference home slot (repeated subtraction of the size) is the remainder modulo the size |
| HashSlots.MainPosition | aoi.c:101-105 | the main position is the id's home slot and lies inside the table |
| HashSlots.DoubleIsPow2 | aoi.c:161 | doubling a power of two gives a power of two |
| HashSlots.EmptyValid | aoi.c:162-170 | a table of all-free slots with the cursor at the top satisfies the invariant |
| HashSlots.ClaimKeeps | aoi.c:116-122 | case @1, a free main position taking the id, preserves the invariant |
| HashSlots.SkipKeeps | aoi.c:142-144 | moving the cursor past a used slot preserves the invariant |
| HashSlots.LinkKeeps | aoi.c:142-150 | case @2, a free slot below the cursor taking the id and being linked right after its main position, preserves the invariant |
| HashSlots.UnlinkKeeps | aoi.c:124-135 | case @3, splicing a relocated entry out of its chain and giving its slot to the id as a one-slot chain, preserves the invariant |
| HashSlots.DropKeeps | aoi.c:211-226 | turning a used slot into a tombstone (object gone, id and link kept) preserves the invariant and removes only that id from the live entities |
| HashSlots.ReviveKeeps | aoi.c:186-188 | a tombstone getting a new entity with its id preserves the invariant |
| HashSlots.WalkChain | aoi.c:184-195 | following `next` from a place in a chain finds a slot of the rest of that chain holding the id, or ends with -1 when none does |
| HashSlots.FindIsIndex | aoi.c:181-199 | walking from an id's main position finds the slot the id is filed in, tombstones included, and -1 for an id not in the table: every chain stays walkable |
| HashSlots.CursorSpent | aoi.c:142-152 | once the cursor has passed slot 0, every slot is in use, which is when rehash is called |
| HashSlots.OccupiedFits | aoi.c:142-152 | the used slots are never more than the table has |
| Registry.LiveObjects | aoi.c:201-209 | the entities visited are at most as many as the slots, each is the object of some slot, and every slot's object is visited |
| Registry.ObjectsAreLive | aoi.c:201-209 | a visit lists exactly the live entities: each one listed is registered under its own id, and each registered one is listed |
| Registry.SlotObjectsDistinct | aoi.c:201-209 | no entity sits in two slots |
| Registry.LiveObjectsDistinct | aoi.c:201-209 | hence a visit lists no entity twice |
| Registry.Visit | aoi.c:201-209 | the loop of `map_foreach` collects the non-null objects in slot order |
| Registry.RehashPlan | aoi.c:171-176 | visiting the old slots in order and putting back each non-null object ends with exactly the old live entities, adding a new id at each step and never more than the old size |
| Registry.RehashRoom | aoi.c:171-176 | the reinsertions never fill the doubled table |
| Registry.EntityMap.constructor | aoi.c:234-247 | a new registry has 16 free slots, the cursor at the top and no entity |
| Registry.EntityMap.Locate | aoi.c:181-195 | the walk from the main position returns the slot the id is filed in, or -1 when the id is not in the table |
| Registry.EntityMap.Walk | aoi.c:184-195 | the `next`-following loop finds the id's slot or reports -1 |
| Registry.EntityMap.Insert | aoi.c:114-154 | every live entity stays under its id and the new one joins them; only tombstone ids leave, and a tombstone displaced from the new id's main position always does; the size stays or exactly doubles, and stays whenever a slot was free |
| Registry.EntityMap.Claim | aoi.c:116-122 | case @1: the model becomes the claimed table and the invariant holds |
| Registry.EntityMap.Evict | aoi.c:124-140 | case @3: the live entities become those before plus the new one; the displaced entry stays filed when it is live and its id leaves the table when it is a tombstone; the size stays or exactly doubles, and stays whenever a slot was free |
| Registry.EntityMap.Predecessor | aoi.c:125-129 | the walk from the displaced entry's main position stops at the slot whose `next` is the evicted slot |
| Registry.EntityMap.Unlink | aoi.c:130-135 | the model becomes the unlinked table, and the entry the slot held is returned |
| Registry.EntityMap.Append | aoi.c:141-154 | case @2: the live entities become those before plus the new one; a full table is rehashed to double size first |
| Registry.EntityMap.Probe | aoi.c:142-151 | the cursor loop links the id into the first free slot below the cursor, or runs out with the table otherwise unchanged and the cursor below 0 |
| Registry.EntityMap.Query | aoi.c:181-199 | the result carries the id and is the entity registered under it; a known id gets its own entity back with nothing changed; an unknown id or a tombstone gets a new entity with one reference, version 0 and no flag |
| Registry.EntityMap.Register | aoi.c:186-197 | a new entity is filed in its id's tombstone slot, or inserted, joining the live entities |
| Registry.EntityMap.Drop | aoi.c:211-226 | returns the entity registered under the id, or null when there is none; the id leaves the live entities but keeps its slot, so the ids filed and the layout stay |
| Registry.EntityMap.Detach | aoi.c:216-219 | the found slot becomes a tombstone |
| Registry.EntityMap.Revive | aoi.c:186-188 | the tombstone slot holds the new entity |
| Registry.EntityMap.Objects | aoi.c:201-209 | the entities `map_foreach` hands out are exactly the registered ones, each once, in slot order |
| Registry.EntityMap.Listed | aoi.c:201-209 | the same facts about the table's current slots |
| Registry.EntityMap.Grow | aoi.c:159-170 | the registry becomes an all-free table of the new size with the cursor at the top |
| Registry.EntityMap.Restore | aoi.c:172-175 | one old slot's object, if it has one, is inserted again |
| Registry.EntityMap.RestoreAll | aoi.c:171-176 | after the loop the table holds the planned entities, and only their ids |
| Registry.EntityMap.Rehash | aoi.c:157-179 | the size exactly doubles, stays a power of two of at least 16, every live entity stays under its id, and tombstones are not carried over |
| ObjectSets.ObjectSet.constructor | aoi.c:273-280 | a new buffer has 16 cells and no entity |
| ObjectSets.ObjectSet.PushBack | aoi.c:465-477 | the entity is appended at index `number` with the earlier ones kept; the capacity doubles exactly when every cell was in use |
| ObjectSets.ObjectSet.Clear | aoi.c:539-542 | the buffer holds no entity and keeps its cells |
| ObjectSets.ObjectSet.Get | aoi.c:531 | returns the entity in a used cell |
| Aoi.Parse | aoi.c:392-408 | a drop is asked for exactly when the string has a `d`; without one, a role is asked for exactly when its letter occurs |
| Aoi.DropEndsParsing | aoi.c:401-406 | nothing after a `d` is read |
| Aoi.ParseModes | aoi.c:392-408 | the left-to-right scan that stops at the first `d` computes Parse |
| Aoi.DropIsOnce | aoi.c:401-406 | the first drop sets the flags to exactly `MODE_DROP` and gives up one reference, changing nothing else; a second drop changes nothing |
| Aoi.UpdateSetsRoles | aoi.c:410-417 | any other update leaves the entity not dropped, with exactly the requested roles, at the new position; a dropped entity takes one reference back |
| Aoi.UpdateReportsMoves | aoi.c:415-424 | the version grows by one, the last reported spot becomes the position and the moved flag is set exactly when a role changed or the squared move from the last spot is at least 25; otherwise version, spot and moved flag stay |
| Aoi.UpdateStaysNear | aoi.c:417-424 | after an update the position is near the last reported spot |
| Aoi.UpdateIsIdempotent | aoi.c:385-425 | repeating an update with the same mode string and position changes nothing |
| Aoi.UpdateAccounted | aoi.c:396-413 | an update keeps the reference count accounted for: a drop releases the entity only when no tracked pair holds it, any other update leaves it accounted with the same pairs, and a new entity starts accounted |
| Aoi.UpdateTracks | aoi.c:410-424 | an update that keeps an entity's version keeps the role a tracked pair uses it in: losing that role, or recovering from a drop, starts a new version |
| Aoi.Refresh | aoi.c:410-424 | a non-drop request changes the entity as the update function says |
| Aoi.Recover | aoi.c:410-413 | a dropped entity loses the drop flag and takes one reference |
| Aoi.Place | aoi.c:415-424 | sets the roles and the position and reports a move when there is one |
| Aoi.Mark | aoi.c:418-424 | a reported move flags the entity, records the spot and starts a new version |
| Aoi.PickedMembers | aoi.c:479-499 | a buffer holds an entity exactly when the flags it had when visited file it there: watcher (or marker) bit set, moved bit as the buffer's kind; so a dual-role mover joins both moving buffers |
| Aoi.PickedStep | aoi.c:204-207 | sorting one more entity adds it, or nothing, at the end of each buffer |
| Aoi.SortedStep | aoi.c:204-207 | the four buffers after one more entity are those before with its picks appended |
| Aoi.Settled | aoi.c:479-499 | sorting keeps the roles and the drop flag; an entity with a role loses the moved flag, one without keeps every flag |
| Aoi.SettledTracks | aoi.c:479-499 | settling the flags keeps a tracked pair end's version and role |
| Aoi.PickedView | aoi.c:479-499 | an entity whose entry flags file it into a buffer has its view there |
| Aoi.PickedUnique | aoi.c:479-499 | a buffer sorted from entities with distinct ids holds distinct ids |
| Aoi.BuffersDistinct | aoi.c:479-499 | the static and the moving buffer of one role never hold the same id twice between them |
| Aoi.SortedRole | aoi.c:479-499 | an entity with a role is in exactly one of that role's two buffers, the moving one exactly when it had moved |
| Aoi.ViewFiled | aoi.c:479-499 | a view in a buffer is of a visited entity, at its current version, with the buffer's role and no moved flag |
| Aoi.ViewPicked | aoi.c:479-499 | a view in a buffer is of an entity visited with that buffer's role |
| Aoi.ModesOf | aoi.c:482 | the flags each entity has when it is visited |
| Aoi.CandidateHolds | aoi.c:515-523 | a tracked pair takes one reference on each of its two ends and none on anything else |
| Aoi.HoldsAppend | aoi.c:515-523 | the references two lists of pairs hold add up |
| Aoi.RowHoldsNone | aoi.c:530-532 | judging one watcher starts no pair on an entity it does not judge |
| Aoi.CrossHoldsNone | aoi.c:526-534 | `gen_pair_list` starts no pair on an entity in neither buffer |
| Aoi.TickHoldsNone | aoi.c:544-546 | a tick's three pair lists take no reference on an entity in none of the buffers |
| Aoi.HoldsEnd | aoi.c:517-521 | a tracked pair holds at least one reference on each of its ends |
| Aoi.HoldsPushAll | aoi.c:517-523 | pushing pairs onto the hot list adds their references |
| Aoi.PushAllMembers | aoi.c:522-523 | after pushing, the hot list holds exactly the pushed pairs and the pairs it had |
| Aoi.SettledAccounted | aoi.c:536-547 | a tick keeps a registered entity accounted for: it loses the retired pairs' references, which leave it at least one, gains the new pairs' and its flags settle |
| Aoi.RowPairsFrom | aoi.c:501-524 | a row tracks its watcher only with another entity among its markers, recording the versions they had |
| Aoi.CrossPairsFrom | aoi.c:526-534 | `gen_pair_list` pairs only a watcher of its first buffer with a different marker of its second |
| Aoi.TickPairsMove | aoi.c:544-546 | a tick never tracks two static entities: every pair it starts has a moving watcher or a moving marker, and never pairs an entity with itself |
| Aoi.RowPairsJudged | aoi.c:530-532 | every pair a row starts joins its watcher to one of its markers, at the versions of their views |
| Aoi.CrossPairsJudged | aoi.c:526-534 | every pair `gen_pair_list` starts joins one of its watchers to one of its markers, at the versions of their views |
| Aoi.TickPairsJudged | aoi.c:544-546 | every pair a tick starts joins a watcher view and a marker view of the lists it judges |
| Aoi.TickPairsRoles | aoi.c:543-546 | every pair a tick starts joins a sorted watcher to a sorted marker, both at their current versions and without the moved flag |
| Aoi.RowEventsFrom | aoi.c:530-532 | every event of a row names its watcher and one of its markers |
| Aoi.CrossEventsFrom | aoi.c:526-534 | every event of `gen_pair_list` names one of its watchers and one of its markers |
| Aoi.TickEventsFrom | aoi.c:544-546 | every event of a tick names a watcher view and a marker view it judges |
| Aoi.TickEventsRoles | aoi.c:543-546 | every event a tick's judging reports goes from an entity visited as a watcher to one visited as a marker |
| Aoi.VerdictBetween | aoi.c:501-523 | judging a watcher against a marker speaks only of the watcher's id as watcher and the marker's id as marker |
| Aoi.RowMiss | aoi.c:530-532 | a row reports and tracks nothing for another watcher id, or for a marker id among none of its markers |
| Aoi.RowHit | aoi.c:530-532 | a row over markers with distinct ids reports, for one of them, exactly their verdict and tracks exactly their candidate |
| Aoi.CrossMiss | aoi.c:526-534 | `gen_pair_list` reports and tracks nothing for a watcher id among none of its watchers or a marker id among none of its markers |
| Aoi.CrossHit | aoi.c:526-534 | `gen_pair_list` over distinct ids reports, for one watcher and one marker, exactly their verdict and tracks exactly their candidate |
| Aoi.TickParts | aoi.c:544-546 | between two ids, a tick's events and pairs are those of its three pair lists, in order |
| Aoi.StaticWatcherHit | aoi.c:544-546 | a static watcher is judged only against the moving markers, once each |
| Aoi.MovingWatcherHit | aoi.c:545-546 | a moving watcher is judged against every marker, once each |
| Aoi.TickHit | aoi.c:544-546 | between a buffered watcher and a buffered marker a tick reports exactly their verdict and tracks exactly their candidate when one of them is in a moving buffer, and nothing otherwise |
| Aoi.SortedMeet | aoi.c:543-546 | between an entity sorted as a watcher and one sorted as a marker, a tick reports exactly their verdict and tracks exactly their candidate when one had moved, and nothing otherwise |
| Aoi.PushAllAppend | aoi.c:522-523 | pushing two lists one after the other pushes their concatenation |
| Aoi.FateCases | aoi.c:440-459 | flush_pair's chain of tests gives the fate: discard when stale or dropped, else LEAVE beyond 400, MOVE below 100, keep otherwise |
| Aoi.RetiredWithin | aoi.c:434-463 | every pair a flush discards was on the list |
| Aoi.FlushSplits | aoi.c:434-463 | each pair either survives or is discarded: no pair is lost or made up |
| Aoi.FlushCounts | aoi.c:434-463 | the surviving and the discarded pairs together number the pairs |
| Aoi.AllKept | aoi.c:457-459 | when every pair is kept, all survive in order and nothing is reported |
| Aoi.SurvivorsKept | aoi.c:457-459 | every surviving pair was one whose fate is keep |
| Aoi.FlushTwice | aoi.c:434-463 | flushing again with nothing changed keeps every survivor and reports nothing |
| Aoi.FlushStep | aoi.c:438-462 | one more pair adds its survival, its discard and its report at the end |
| Aoi.HoldsSplit | aoi.c:434-463 | the references the hot list holds are those of the pairs flushing keeps plus those of the pairs it retires |
| Aoi.FlushEventsFrom | aoi.c:449-456 | every event `flush_pair` reports names the two ends of a pair whose fate reports |
| Aoi.FlushSilent | aoi.c:440-459 | flushing reports nothing between two ids when no pair between them has a fate that reports |
| Aoi.FlushSurvivorsBetween | aoi.c:440-459 | when every pair between two ids is kept they all survive, in order; when every one is discarded none does |
| Aoi.MeetMoved | aoi.c:536-547 | with one of a watcher and a marker moved and every older pair between them stale, a tick reports between them exactly their verdict and then tracks exactly their candidate |
| Aoi.MeetStill | aoi.c:536-547 | with neither moved, a tick between them reports and keeps only what flushing does; when flushing keeps every pair between them, nothing is reported and those pairs stay |
| Aoi.ExhaustedNow | aoi.c:264-271 | the ids whose every reference the pairs hold are the same judged against a snapshot of the counts |
| Aoi.ExhaustedStep | aoi.c:427-432 | giving up one more pair's references exhausts at most its own two ends |
| Aoi.Space.constructor | aoi.c:283-295 | a new scene has an empty registry, four empty buffers and no tracked pair |
| Aoi.Space.DropObject | aoi.c:264-271 | the reference count falls by one; the entity leaves the registry exactly when it reaches 0 or below; nothing else of it changes |
| Aoi.Space.Update | aoi.c:385-425 | the id's entity, registered fresh when it had none, changes as the update function says for the parsed mode string, and no other entity changes; the registry loses the id exactly when a first drop gives up the last reference; the scene stays coherent |
| Aoi.Space.Handle | aoi.c:392-424 | applies the parsed request; the id leaves the registry exactly when the update releases the entity |
| Aoi.Space.Apply | aoi.c:385-425 | the lookup and the update: the id's entity, created when it had none, changes as the update function says and no other entity changes |
| Aoi.Space.UpdateKeeps | aoi.c:385-425 | an update that changes only the id's entity, as the update function says, keeps the scene coherent |
| Aoi.Space.Withdraw | aoi.c:401-406 | the first drop flags the entity and gives up one reference, and the id leaves the registry when that was the last one; a later drop changes nothing |
| Aoi.Space.Push | aoi.c:465-477 | the entity is appended to one of the four buffers |
| Aoi.Space.PushMoved | aoi.c:484-486 | the entity is appended and loses the moved flag |
| Aoi.Space.SetPush | aoi.c:479-499 | the entity goes into the buffers its flags on entry choose, and then has settled flags |
| Aoi.Space.FileWatcher | aoi.c:483-490 | a watcher goes into the moving or the static watcher buffer as its entry flags say |
| Aoi.Space.FileMarker | aoi.c:491-498 | a marker goes into the moving or the static marker buffer as its entry flags say |
| Aoi.Space.Partition | aoi.c:543 | sorting the visited entities in order leaves the buffers as the sorting function of their entry flags says, and each entity settled |
| Aoi.Space.SortNext | aoi.c:204-207 | one more entity is sorted and the rest are untouched |
| Aoi.Space.GenPair | aoi.c:501-524 | nothing for an entity against itself; MOVE below 100; LEAVE above 400; otherwise one pair, with both versions, goes on the front of the hot list and each end takes one reference; no view changes |
| Aoi.Space.GenPairList | aoi.c:526-534 | every watcher in order judged against every marker in order: the events and the pairs pushed are those of the cross product, and each entity gains one reference per end of a new pair |
| Aoi.Space.ListNext | aoi.c:529-533 | one more watcher's row is judged |
| Aoi.Space.GenRow | aoi.c:530-532 | one watcher judged against every marker in order |
| Aoi.Space.RowNext | aoi.c:531 | one more marker is judged |
| Aoi.Space.Judge | aoi.c:531 | gen_pair with the references it takes counted |
| Aoi.Space.DropPair | aoi.c:427-432 | each end gives up the references the pair held on it, and an end whose count reaches 0 leaves the registry |
| Aoi.Space.Retire | aoi.c:445-456 | discarding one more pair keeps the flush's reference and registry accounting |
| Aoi.Space.FlushPair | aoi.c:434-463 | the events are those of the fates in list order; the survivors stay in their original order; each entity loses one reference per end of a discarded pair; exactly the entities whose every reference was held by discarded pairs leave the registry; no view changes |
| Aoi.Space.Sift | aoi.c:438-462 | the loop of flush_pair reports, keeps and discards as the fates say |
| Aoi.Space.FlushNext | aoi.c:439-461 | one more pair is flushed |
| Aoi.Space.FlushOne | aoi.c:440-460 | the pair is kept exactly when its fate is keep, and reports what its fate says |
| Aoi.Space.Message | aoi.c:536-547 | one tick: the flush's events and then the three pair lists' events, in callback order; the visited entities are exactly the registered ones, each once; the buffers hold them as sorted by their flags on entry; the hot list is the new pairs pushed onto the survivors; each entity's count loses the discarded pairs' references and gains the new pairs'; the scene stays coherent; every event goes from an entity that was a watcher to one that was a marker; between a watcher and a marker one of which had moved, the events are exactly their verdict and the tracked pairs exactly their candidate; between two that had not moved, only the flush speaks, and when it keeps every pair between them there is no event and those pairs stay |
| Aoi.Space.FlushAndTick | aoi.c:536-547 | the flush and the sorting and judging of one tick, with the facts about events, buffers, hot list, registry and counts that Message states |
| Aoi.Space.MessageKeeps | aoi.c:536-547 | a tick keeps the scene coherent |
| Aoi.Space.TickAccounts | aoi.c:536-547 | after a tick every registered entity is filed under its own id and its count is accounted for by the new hot list |
| Aoi.Space.SurvivorsStay | aoi.c:445-463 | the ends of the pairs flushing keeps stay registered |
| Aoi.Space.SurvivorsTrack | aoi.c:479-499 | settling the flags keeps every surviving pair joined to a watcher and a marker while its versions are current |
| Aoi.Space.UndroppedStay | aoi.c:264-271 | a tick takes only dropped entities out of the registry; every other registered entity stays, unchanged |
| Aoi.Space.RolesStay | aoi.c:264-271 | a registered watcher and a registered marker stay registered across a tick |
| Aoi.Space.StaleBetween | aoi.c:440-448 | when a watcher or a marker had moved, every pair tracked between them has a stale version and is discarded without a report |
| Aoi.Space.FlushVoices | aoi.c:449-456 | every event flushing reports goes from a registered watcher to a registered marker |
| Aoi.Space.TickVoices | aoi.c:543-546 | every event the tick's judging reports goes from an entity that was a watcher before the tick to one that was a marker |
| Aoi.Space.TickMovedMeet | aoi.c:536-547 | for a watcher and a marker that stay registered, one of which had moved, with every older pair between them stale: the tick's events between them are exactly their verdict and the pairs tracked between them exactly their candidate |
| Aoi.Space.TickStillMeet | aoi.c:536-547 | for a registered watcher and marker neither of which had moved: between them the tick reports and keeps only what flushing does, and nothing is reported when flushing keeps every pair between them |
| Aoi.Space.Meetings | aoi.c:536-547 | the moved case of TickMovedMeet for every registered watcher and marker |
| Aoi.Space.QuietMeetings | aoi.c:536-547 | the cases of TickStillMeet for every registered watcher and marker |
| Aoi.Space.Tick | aoi.c:539-546 | the second half of a tick, after the flush, with the same facts about the visited entities, the buffers, the events and the pairs |
| Aoi.Space.Enrolled | aoi.c:543 | every visited entity is among the registered ones |
| Aoi.Space.Sweep | aoi.c:539-546 | the entities are sorted into the emptied buffers and the three pair lists are judged on the resulting views |
| Aoi.Space.Refill | aoi.c:539-543 | the buffers are emptied and then hold the entities as sorted by their entry flags |
| Aoi.Space.BufferedFrom | aoi.c:543 | every buffered entity was sorted from the visited ones |
| Aoi.Space.JudgeAll | aoi.c:544-546 | the three pair lists: their events and pairs, and each entity's count gains the new pairs' references, none for an entity in no buffer |
| Aoi.Space.Judged | aoi.c:544-546 | an entity in no buffer gains no reference |
| Aoi.Space.ClearAll | aoi.c:539-542 | the four buffers are emptied and keep their cells |
| Aoi.Space.GenAll | aoi.c:544-546 | static watchers against moving markers, then moving watchers against static markers, then moving watchers against moving markers, in that order |
| Aoi.Space.Phase | aoi.c:544 | one of the three pair lists |

## Left out

- Floating point: coordinates are exact reals, so `float` rounding in the
  squared distance and at the thresholds is not modelled.
- The allocator is left out: `aoi_Alloc`, `default_alloc` and
  malloc/free. `aoi_release`, `map_delete`, `delete_set`,
  `delete_pair_list` and `delete_object` are left out too. Allocation is
  `new` and cannot fail. An entity whose last reference is given up
  leaves the registry but is not freed, so later reads of a freed entity
  are not modelled.
- The callback is modelled as the returned event sequence. Its `ud`
  argument is not modelled, and neither is a callback that calls back
  into the engine.
- `perf.c` is a benchmark driver and is not part of this model.
- Ids are modelled as integers below 0xFFFFFFFF. The all-ones id, which
  the registry uses to mark a free slot, is never a caller id, so a
  caller passing it is not modelled.
- Integers are unbounded: a `version` or `ref` overflowing `int` is not
  modelled.
- The hot list is a sequence, not a linked list. `flush_pair` unlinks
  nodes through a pointer-to-pointer; the model rebuilds the survivors
  in order, which is the same list.
- Aoi.Space.Tick visits the registry through the function `LiveObjects`
  rather than through `Registry.EntityMap.Objects`. The two agree by the
  method's contract.
- Aoi.Space.Message states each entity's new reference count only for
  entities that existed before the tick. No entity is created during a
  tick.
- Entities.Entity.constructor starts positions at the origin. The engine
  leaves them unset, and the first update writes them before they are
  read.
- Aoi.Space.Message states the meeting facts tick by tick. Between a
  watcher and a marker that neither moved, it promises silence through
  that tick's flush fates: pairs the flush keeps yield no events and
  stay current. It does not state a multi-tick property such as "two
  entities that stay in the band never hear of each other again".
