# Drawing-scene topology of ispd-exa-gui, in Dafny

This project models the part of the iSPD drawing scene that changes the
topology of a simulated grid. It covers:

- how machines, switches and nested schemas are joined by links;
- how the LINK tool creates a link from two clicks;
- how the Delete key removes the selected entities together with every link
  that touches them.

It also proves properties of each of these.

- `topology.dfy` (module `Topology`) holds the value model.
  - An entity is named by an `Endpoint`, a pair of kind and id.
  - A `Link` has an id and two endpoints.
  - A `Graph` holds every registered entity's link map and the schema's link
    registry.
  - `Wf` is the consistency invariant. Every registered link joins two
    distinct registered entities, and each of them lists it under its own id.
    An entity lists only registered links that touch it.
  - `Cascade(g, d)` is the intended effect of deleting the entities `d`.
- `cascade.dfy` (module `CascadeDelete`) proves the cascade delete
  consistent, complete, framed and compositional. It also proves that the
  source's per-entity loop computes it. It holds the switch-pass finding
  below.
- `connection.dfy` (module `Connections`) is the `Connection` record, that
  is `Machine`, `Switch` or `Schema` seen as a link endpoint. It owns a
  `connectedLinks` map that its methods change in place.
- `schema.dfy` (module `Schemas`) is the `Schema` class.
  - It holds the three registries, the link registry and the next link id.
  - The abstract `View()` is a `Graph`, and every method is proved against
    it.
  - The schema's own method bodies are not part of the repository. So
    `deleteLink`, `deleteMachine`, `deleteSwitch` and `deleteSchema` each
    erase one id from one map and do nothing when the id is absent. The
    table's `addLink` and its factories get the smallest contracts their
    callers need.
- `linktool.dfy` (module `LinkTool`) is the two-click state machine of the
  LINK tool as a pure function over `(lBegin, lEnd)`.
- `scene.dfy` (module `Scenes`) is the `Scene` class. It covers
  `whichConnection`, the LINK case of `mousePressEvent`, `deleteItems`,
  `removeMachine` and `removeLink`. The LINK case is proved against
  `LinkTool.Step` and `deleteItems` against `Topology.Cascade`.
  `whichConnection` is proved against `Scenes.FirstMatch`. `removeMachine`
  is proved against the plain erase `Topology.Erase`, and `removeLink`
  against an erase from the link registry alone. Each of these two also
  says exactly when the schema stays consistent.

## Model

| member | source | states |
|---|---|---|
| Topology.DropLink | src/window/drawingtable/scene.cpp:93-95 | One step of the detach loop: the other endpoint no longer lists the link, and the registry no longer holds it. Every entity stays registered, every other entry of every map is kept, and every other link stays registered. |
| Topology.DeleteEntity | src/window/drawingtable/scene.cpp:86-99 | One entity's turn of a pass: the entity leaves the registries and no other entity does. Exactly the links its own map listed leave the link registry, and nothing changes in the registry when it was not registered. |
| Topology.Other | src/window/drawingtable/scene.cpp:87-91 | For a link touching `e`, the chosen endpoint also touches the link. It is `e` itself only for a self-link. For a proper link, `e` and the chosen endpoint are exactly its two ends. |
| CascadeDelete.CascadeKeepsWf | src/window/drawingtable/scene.cpp:79-144 | Deleting any set of entities with their links keeps a consistent topology consistent. |
| CascadeDelete.CascadeLeavesNoDangling | src/window/drawingtable/scene.cpp:86-96 | After the delete, no deleted entity is registered. No registered link touches a deleted entity, and no surviving link map lists such a link. |
| CascadeDelete.CascadeRemovesIncidentLinks | src/window/drawingtable/scene.cpp:82-101 | Every link touching a deleted entity leaves the registry and every surviving link map. |
| CascadeDelete.CascadeFrame | src/window/drawingtable/scene.cpp:85-100 | Every unselected entity survives, and its map only loses entries; every entry it keeps is unchanged. It keeps its map unchanged when none of its links reaches a deleted entity. A link touching no deleted entity stays registered unchanged, and only links touching a deleted entity leave the registry. |
| CascadeDelete.CascadeCompose | src/window/drawingtable/scene.cpp:103-107 | Deleting `a` and then `b` equals deleting `a + b`. So a link shared with an entity of an earlier pass is already gone when a later pass starts, and no link id is deleted twice. |
| CascadeDelete.CascadeIdempotent | src/window/drawingtable/scene.cpp:79-144 | Deleting the same selection a second time changes nothing. |
| CascadeDelete.CascadeOfPresent | src/window/drawingtable/scene.cpp:82-85 | Selected names that are not registered have no effect on the delete. |
| CascadeDelete.DeleteEntityIsCascade | src/window/drawingtable/scene.cpp:86-99 | The per-entity loop equals the cascade delete of that entity alone. It detaches every link of the entity's map from the other endpoint and the registry, then erases the entity. |
| CascadeDelete.DetachStep | src/window/drawingtable/scene.cpp:87-95 | In a consistent topology, one step of that loop acts on a proper link (its key is its id) and on another endpoint that is registered. Removing the link there and from the registry extends the set of detached links by exactly that link. |
| CascadeDelete.ConnectKeepsWf | src/window/drawingtable/scene.cpp:195-196 | Adding a link with a fresh id between two distinct registered entities to both maps and to the registry keeps the topology consistent. |
| CascadeDelete.AddIsolatedKeepsWf | src/window/drawingtable/scene.cpp:161-161 | Registering a new entity with an empty link map keeps the topology consistent. |
| CascadeDelete.EraseKeepsWfIffIsolated | src/window/drawingtable/scene.cpp:335-342 | Erasing an entity without the cascade keeps the topology consistent if and only if the entity is absent or has no link. |
| CascadeDelete.UnregisterKeepsWfIffAbsent | src/window/drawingtable/scene.cpp:349-356 | Erasing a link id from the registry alone keeps the topology consistent if and only if the id was not registered. |
| CascadeDelete.SwitchDeleteAsWritten | src/window/drawingtable/scene.cpp:103-120 | The switch pass as written: a registered switch stays registered with its link map untouched, while the nested schema that carries the same id is erased. |
| CascadeDelete.SwitchDeleteAsWrittenLeavesStaleLink | src/window/drawingtable/scene.cpp:120-120 | A consistent topology has a machine and a switch joined by link 1. Running the switch pass as written on it leaves the switch registered and listing link 1, which the registry no longer holds, so the topology is inconsistent. |
| CascadeDelete.SwitchDeleteCorrected | src/window/drawingtable/scene.cpp:103-122 | With `deleteSwitch`, the switch pass is the cascade delete of the switch. The result is consistent and the switch is gone. |
| Connections.Connection.constructor | include/components/machine.h:18-18 | A new entity has the given kind and id and an empty link map. |
| Connections.Connection.SetConnectedLinks | include/components/machine.h:23-23 | The whole link map is replaced by the given map. |
| Connections.Connection.AddConnectedLink | include/components/machine.h:25-25 | The link is listed under its id, and every other entry is kept. |
| Connections.Connection.RemoveConnectedLink | include/components/machine.h:24-24 | The link's id is no longer listed, and every other entry is kept. Only this entity's map changes. |
| Schemas.Schema.DetachFrom | src/window/drawingtable/scene.cpp:93-93 | `removeConnectedLink` on a registered entity drops the link from that entity's map in the view. Every other map and the registry are unchanged. |
| Schemas.Schema.AddLink | src/window/drawingtable/scene.cpp:195-196 | A link is created exactly for two distinct registered entities. It gets the next id, runs from the first to the second, and is added to both maps and to the registry. The schema stays consistent. Otherwise nothing changes. |
| Schemas.Schema.RegisterMachine | src/window/drawingtable/scene.cpp:161-161 | A new machine is stored under its id with an empty map, and the index stays exact. A consistent schema stays consistent. |
| Schemas.Schema.RegisterSwitch | src/window/drawingtable/scene.cpp:207-207 | A new switch is stored under its id with an empty map, and the index stays exact. A consistent schema stays consistent. |
| Schemas.Schema.RegisterSchema | src/window/drawingtable/scene.cpp:168-168 | A new nested schema is stored under its id with an empty map, and the index stays exact. A consistent schema stays consistent. |
| Schemas.Schema.DeleteLink | src/window/drawingtable/scene.cpp:95-95 | The id leaves the link registry, and no link map is touched. An absent id is a no-op. |
| Schemas.Schema.DeleteMachine | src/window/drawingtable/scene.cpp:99-99 | The id leaves `machines`, and no link map is touched. An absent id is a no-op. |
| Schemas.Schema.DeleteSwitch | src/window/drawingtable/scene.cpp:120-120 | The id leaves `switches`. This is the corrected eraser of the switch pass. |
| Schemas.Schema.DeleteSchema | src/window/drawingtable/scene.cpp:141-141 | The id leaves `schemas`, and no link map is touched. An absent id is a no-op. |
| LinkTool.Step | src/window/drawingtable/scene.cpp:177-204 | A click on nothing changes nothing. A link is requested if and only if a second hit lands on another entity. The request is `(lBegin, hit)` and returns to idle, so no self-link is ever requested. The first hit is remembered. A second hit on `lBegin` changes nothing. `lEnd` is never left set. |
| LinkTool.RunKeepsInvariant | src/window/drawingtable/scene.cpp:184-201 | Over any sequence of clicks, `lEnd` stays unset and no request joins an entity to itself. Every request costs two hits, and clicks that hit nothing change nothing. |
| LinkTool.TwoClicksMakeOneLink | src/window/drawingtable/scene.cpp:184-201 | Two hits on different entities request exactly one link, from the first to the second, and return to idle. |
| LinkTool.SameConnectionTwiceMakesNothing | src/window/drawingtable/scene.cpp:188-192 | Two hits on the same entity request nothing and keep it remembered. |
| Scenes.FirstHit | src/window/drawingtable/scene.cpp:315-319 | Over ids in ascending order, it returns the least id that is hit. It returns nothing if and only if no id is hit. |
| Scenes.FirstMatch | src/window/drawingtable/scene.cpp:313-333 | It returns a hit machine with no lower hit machine, else a hit nested schema (no machine hit, none lower), else a hit switch (no machine or schema hit, none lower). It returns nothing if and only if nothing is hit. |
| Scenes.ThreePassesCascade | src/window/drawingtable/scene.cpp:79-144 | The machine pass, then the switch pass, then the schema pass, each deleting the selected entities of its kind still present, together delete exactly the selection. |
| Scenes.PassesRemoveSelection | src/window/drawingtable/scene.cpp:79-144 | If each of the three passes unregisters the selected names of its kind still registered, the three together unregister exactly the selection, and every other entity keeps its object. |
| Scenes.Scene.constructor | src/window/drawingtable/scene.cpp:26-32 | A new scene has no `lBegin`, no `lEnd` and no tool picked. |
| Scenes.Scene.WhichConnection | src/window/drawingtable/scene.cpp:313-333 | The result is the registered entity named by `FirstMatch` over the three registries. It is null exactly when `FirstMatch` finds nothing. |
| Scenes.Scene.WhichConnectionHits | src/window/drawingtable/scene.cpp:313-333 | The hit-test returns null if and only if no registered entity is hit. What it returns is registered under its own name, and its icon is hit. |
| Scenes.Scene.LinkClick | src/window/drawingtable/scene.cpp:177-204 | The new `(lBegin, lEnd)` is `LinkTool.Step` of the old state and the hit-test. A link is created only when `Step` requests one. It is the requested pair under the next id, and it is added to the topology with `Connect`. Otherwise the topology and the next link id are unchanged. |
| Scenes.Scene.Complete | src/window/drawingtable/scene.cpp:193-201 | The table is asked for the link `{lBegin, lEnd}`, and both fields are reset. A link is created exactly when the two are distinct and both still registered, under the next id and with `Connect`. Otherwise the topology and the next link id are unchanged. |
| Scenes.Scene.EraseEntity | src/window/drawingtable/scene.cpp:99-99 | The entity leaves its own registry with no cascade, and the index stays exact. A switch is erased with `deleteSwitch`, the corrected eraser of the finding on scene.cpp:120, not with the `deleteSchema` call as written. |
| Scenes.Scene.DetachAll | src/window/drawingtable/scene.cpp:86-96 | After the loop over the entity's link map, every one of its links is gone from the other endpoints' maps and from the registry. The entity's own map is left as it was. |
| Scenes.Scene.DeleteEntity | src/window/drawingtable/scene.cpp:85-100 | Deleting one selected entity is the cascade delete of that entity, and the schema stays consistent. |
| Scenes.Scene.Visit | src/window/drawingtable/scene.cpp:85-100 | One registered entity of a pass is deleted with its links exactly when it is selected. The result is the cascade delete of everything deleted so far, including it, and the schema stays consistent. |
| Scenes.Scene.DeletePass | src/window/drawingtable/scene.cpp:82-101 | One pass in ascending id order is the cascade delete of the selected entities of its kind. Exactly those entities leave the index, and every other entity stays registered as the same object. The switch pass is the corrected one of the finding on scene.cpp:120: it erases the switch, not a nested schema with its id. |
| Scenes.Scene.DeleteItems | src/window/drawingtable/scene.cpp:79-144 | `deleteItems`, with the switch pass corrected as in the finding on scene.cpp:120, is the cascade delete of the selection, and the schema stays consistent. Exactly the selected entities leave the index, and every other entity stays registered as the same object. As written, a selected switch stays registered (see "## Findings"). |
| Scenes.Scene.RemoveMachine | src/window/drawingtable/scene.cpp:335-342 | The machine leaves its registry and the index, and nothing else changes: every other entity stays registered as the same object. The schema stays consistent exactly when the machine had no link. |
| Scenes.Scene.RemoveLink | src/window/drawingtable/scene.cpp:349-356 | The link leaves the registry, and both endpoints still list it. The schema stays consistent exactly when the id was not registered. |

## Left out

- Presentation is not modelled. This covers the icons and `icon.h`, `addIcon`, `addLink` on the scene, `removeItem`, `removeItemIcon`, labels, the background grid, the selection rectangle and `qDebug`. `icon->links->clear()` at scene.cpp:97 clears a presentation list only, so it has no counterpart. The entity's own `connected_links` map is not cleared, and the model keeps that.
- The geometric test `sceneBoundingRect().contains(pos)` is not modelled. It is the parameter `hit`, a predicate on endpoint names. Icon selection (`isSelected`) is the parameter `selection`, a set of endpoint names.
- Only the LINK case of `mousePressEvent` is modelled. The PC, SCHEMA and SWITCH cases call the table's factories, whose bodies are not part of this model. They are represented by `Schemas.Schema.RegisterMachine`, `RegisterSwitch` and `RegisterSchema`, each of which keeps a consistent schema consistent. `keyPressEvent` only routes the Delete key to `deleteItems`.
- Schemas.Schema.AddLink: the table's `addLink` is not part of this model. The contract chosen is the smallest one that keeps the schema consistent. It rejects a self-link or an endpoint that is no longer registered, returning no link, where the source would use whatever the table returns.
- Parallel links are allowed. `Schemas.Schema.AddLink` accepts a second link between a pair that is already linked, under a fresh id, since nothing in the scene's LINK case checks for an existing link between the two.
- `deleteItems` erases entries from the very `std::map` it is iterating, which invalidates the iterator in C++. The model iterates over a snapshot of each registry's ids, in ascending order.
- Link endpoints are compared by name (kind and id), not by pointer. The schema's index keeps exactly one registered object per name, so the two agree on registered entities.
- `getConnectedLinks` returns a pointer to the entity's own map. It is modelled as reading the `connectedLinks` field, so changes through it are changes to the entity.
- The owner back-pointer of a `Machine` (`schema`), its configuration, its cloner and its icon are not modelled.
- A nested schema is modelled as a link endpoint only. Its own registries are not modelled.
- Scenes.Scene.LinkClick: `lBegin` may still name an entity that a later delete removed. The model keeps that stale reference, as the source does, and relies on `AddLink` rejecting it.
- Integer widths are not modelled. Ids are `nat`, and the source's `unsigned` ids are never near wrap-around in this logic.

## Findings

| source | as written | input that shows it | evidently intended | confidence | as-written member | corrected member |
|---|---|---|---|---|---|---|
| src/window/drawingtable/scene.cpp:120 | The switch pass erases the selected switch with `deleteSchema(switchId)`. | A machine 1 and a switch 1 joined by link 1, with switch 1 selected. Afterwards switch 1 is still registered and still lists link 1, which is no longer in the registry. A nested schema with id 1 would be erased instead. | `deleteSwitch(switchId)`, which makes the switch pass the cascade delete of the switch. | not executed | CascadeDelete.SwitchDeleteAsWrittenLeavesStaleLink | CascadeDelete.SwitchDeleteCorrected, Scenes.Scene.DeleteItems |
