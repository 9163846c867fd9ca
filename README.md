# Vega canvas handler: the interaction dispatcher, in Dafny

This project models the canvas interaction dispatcher of Vega's scene graph
(`CanvasHandler`). The dispatcher sits between the native pointer and touch
events of a `<canvas>` element and the items of the scene graph. Its state is:

- the items currently under the pointer (`_actives`);
- a snapshot of them taken at the last press (`_down`);
- the items hit at the last touchstart (`_touch`);
- a one-shot flag cleared by the first touchstart (`_first`);
- the record of native listeners already attached (`_events`);
- the registered handlers (`_handlers`).

Each native event arrives at a router method, and the router turns it into
semantic events through `fire`.

The model is a class `CanvasHandler.Dispatcher` with those fields. For each
native event there is a router method, taking the result of the geometry
test as a `PickResult` parameter. Two logs record what happens:

- `fired` holds every `fire(type, evt, item)` call, in order.
- `effects` holds what each call makes observable: the href and tooltip side
  channels, and every handler invocation in registration order.

Each router method is proved against pure functions of the old state:

- `Tracker.MoveFirings` and `Tracker.NextActives` for the move diff;
- `Tracker.Each` for deactivation, press and touch;
- `Tracker.ClickFirings` for click;
- `Registry.FireEffects` and `Registry.EffectsOf` for what `fire` does;
- `Registry.Add` and `Registry.Remove` for the registry;
- `Listeners.AttachAll` for listener attachment.

Lemmas about those functions state what the dispatcher promises: move order,
exit suppression, no duplicates, click filtering, registry idempotence, fire
order and at-most-once attachment.

The modules split the handler by concern:

- `Seqs`: generic sequence filters, written `filter`/`some` in the source.
- `Events`: the event types, bundles and side-channel aliases. An event type is a canonical spelling: `Other` never spells a name that has its own constructor, so each native name has one value.
- `Scene`: scene items and pick normalisation.
- `Tracker`: the pure active-set diffing.
- `Registry`: handler lists and what one `fire` does with them.
- `Listeners`: the native listener record.
- `CanvasHandler`: the imperative dispatcher.

`pickEvent` is modelled as the code does it. A value with a `length` is kept
as it is. Anything else is wrapped in a one-element list. A pick that hits
nothing therefore yields `[null]`, not an empty list, so later moves fire
for `null`.

## Model

| member | source | states |
|---|---|---|
| CanvasHandler.Dispatcher.constructor | packages/vega-scenegraph/src/CanvasHandler.js:13-20 | A new handler has empty active, down and touch lists, the first-touch flag set, no listeners attached and no handlers; it satisfies the class invariant |
| CanvasHandler.Dispatcher.AddEventListener | packages/vega-scenegraph/src/CanvasHandler.js:47-56 | The listener record becomes `Attach` of the old one: the type is marked and logged only when a canvas exists and it was not marked; the invariant (each type attached at most once, record = attached types) is kept |
| CanvasHandler.Dispatcher.EventListenerCheck | packages/vega-scenegraph/src/CanvasHandler.js:43-45 | The listener record becomes `AttachAll` of the type's bundle, attached one type after the other; the invariant is kept |
| CanvasHandler.Dispatcher.Initialize | packages/vega-scenegraph/src/CanvasHandler.js:24-32 | Records whether the element holds a canvas and attaches the five bootstrap types in order, each through `eventListenerCheck`; the invariant is kept |
| CanvasHandler.Dispatcher.Fire | packages/vega-scenegraph/src/CanvasHandler.js:155-174 | Logs one firing and appends its side channel followed by one invocation per handler listed under the type's own name, in list order |
| CanvasHandler.Dispatcher.FireEach | packages/vega-scenegraph/src/CanvasHandler.js:104 | A `forEach` over items firing one type: the logs grow by `Each` of the items and its effects |
| CanvasHandler.Dispatcher.Move | packages/vega-scenegraph/src/CanvasHandler.js:71-100 | The new active list is the still-picked items, in old order, followed by the newly picked items; the firings are move for the still-picked items, then out for the no-longer-picked items not marked exit, then over and move for each new item; the result is duplicate-free when the old list and the pick are |
| CanvasHandler.Dispatcher.FireOuts | packages/vega-scenegraph/src/CanvasHandler.js:84-91 | The out loop fires out for each no-longer-picked item, in order, except the items whose exit marker is set |
| CanvasHandler.Dispatcher.FireOut | packages/vega-scenegraph/src/CanvasHandler.js:86-90 | One out step fires exactly when the item is null or its exit marker is clear |
| CanvasHandler.Dispatcher.FireEnters | packages/vega-scenegraph/src/CanvasHandler.js:93-96 | The enter loop fires over then move for each new item, in pick order |
| CanvasHandler.Dispatcher.FireEnter | packages/vega-scenegraph/src/CanvasHandler.js:94-95 | One enter step fires over, then move, for the item |
| CanvasHandler.Dispatcher.MouseMove | packages/vega-scenegraph/src/CanvasHandler.js:114 | Hover tracking is a move with mousemove, mouseover and mouseout |
| CanvasHandler.Dispatcher.DragOver | packages/vega-scenegraph/src/CanvasHandler.js:115 | Drag tracking is a move with dragover, dragenter and dragleave |
| CanvasHandler.Dispatcher.Inactive | packages/vega-scenegraph/src/CanvasHandler.js:102-107 | Fires the type for every active item, in order and with no exit suppression, then empties the active list |
| CanvasHandler.Dispatcher.MouseOut | packages/vega-scenegraph/src/CanvasHandler.js:117 | Deactivation with mouseout |
| CanvasHandler.Dispatcher.DragLeave | packages/vega-scenegraph/src/CanvasHandler.js:118 | Deactivation with dragleave |
| CanvasHandler.Dispatcher.DomMouseScroll | packages/vega-scenegraph/src/CanvasHandler.js:110-112 | Fires the wheel event for every active item; only the logs change |
| CanvasHandler.Dispatcher.MouseDown | packages/vega-scenegraph/src/CanvasHandler.js:120-123 | The press snapshot becomes the active list; mousedown fires for each active item |
| CanvasHandler.Dispatcher.Click | packages/vega-scenegraph/src/CanvasHandler.js:125-132 | Click fires exactly for the active items that are also in the press snapshot, in active order; the snapshot is then emptied |
| CanvasHandler.Dispatcher.FireAmong | packages/vega-scenegraph/src/CanvasHandler.js:126-130 | The click loop fires for the items of one list that occur in another, in the first list's order |
| CanvasHandler.Dispatcher.FireIfIn | packages/vega-scenegraph/src/CanvasHandler.js:127-129 | One click step fires exactly when the item occurs in the snapshot |
| CanvasHandler.Dispatcher.TouchStart | packages/vega-scenegraph/src/CanvasHandler.js:134-143 | The touch list becomes the normalised pick; on the first touchstart only, the active list becomes the touch list; the first-touch flag is clear afterwards; touchstart fires for each touched item |
| CanvasHandler.Dispatcher.TouchMove | packages/vega-scenegraph/src/CanvasHandler.js:145-147 | Touchmove fires for each touched item; the touch list is unchanged |
| CanvasHandler.Dispatcher.TouchEnd | packages/vega-scenegraph/src/CanvasHandler.js:149-152 | Touchend fires for each touched item, then the touch list is emptied |
| CanvasHandler.Dispatcher.On | packages/vega-scenegraph/src/CanvasHandler.js:177-191 | The table becomes `Add` of the record under the type's event name. Only a new record first attaches the type's listener bundle. Returns the dispatcher and keeps the invariant |
| CanvasHandler.Dispatcher.Off | packages/vega-scenegraph/src/CanvasHandler.js:194-204 | The table becomes `Remove` of the record under the type's event name; returns the dispatcher and keeps the invariant |
| Seqs.Among | packages/vega-scenegraph/src/CanvasHandler.js:75 | The intersection holds exactly the elements of the first list that occur in the second, is no longer than the first, and is duplicate-free when the first is |
| Seqs.Outside | packages/vega-scenegraph/src/CanvasHandler.js:76-77 | The difference holds exactly the elements of the first list that do not occur in the second, and is duplicate-free when the first is |
| Seqs.AmongOutsidePartition | packages/vega-scenegraph/src/CanvasHandler.js:75-76 | Every old active item lands in exactly one of the intersection and the no-longer-active list (multiset union) |
| Seqs.SpliceIsFilter | packages/vega-scenegraph/src/CanvasHandler.js:199-201 | Splicing out position `i` of a duplicate-free list equals filtering out the element at `i` |
| Events.TypeName | packages/vega-scenegraph/src/CanvasHandler.js:155-156 | The key a type's handlers are looked up under; it is a reserved native name exactly for the types with their own constructor |
| Events.TypeNameInjective | packages/vega-scenegraph/src/CanvasHandler.js:155-156 | Two types have the same name exactly when they are the same type, so each native name has one value in the model |
| Events.EventBundle | packages/vega-scenegraph/src/CanvasHandler.js:34-40 | A touch type brings the three touch types; any other type brings only itself; the bundle holds the type and no duplicates |
| Events.BootstrapShape | packages/vega-scenegraph/src/CanvasHandler.js:28 | The bootstrap list has five distinct types, none of them a touch type |
| Events.Unattached | packages/vega-scenegraph/src/CanvasHandler.js:49 | The types of a list that are not yet attached, in order: exactly the list's types outside the record, duplicate-free when the list is |
| Listeners.Attach | packages/vega-scenegraph/src/CanvasHandler.js:47-56 | After one attach the type is marked if it was marked already or a canvas exists; no mark is removed; the log grows by at most one |
| Listeners.AttachKeepsConsistent | packages/vega-scenegraph/src/CanvasHandler.js:49-50 | One attach keeps every type attached at most once and the record equal to the attached types |
| Listeners.AttachAll | packages/vega-scenegraph/src/CanvasHandler.js:43-45 | Attaching a list never removes a mark and logs at most one attachment per listed type |
| Listeners.AttachAllMarks | packages/vega-scenegraph/src/CanvasHandler.js:43-56 | With a canvas, attaching a list marks exactly the old marks plus the listed types; without one, nothing changes |
| Listeners.AttachAllLog | packages/vega-scenegraph/src/CanvasHandler.js:43-56 | Attaching a duplicate-free list logs, in order, exactly the listed types that were not marked before, and only when a canvas exists |
| Listeners.AttachAllKeepsConsistent | packages/vega-scenegraph/src/CanvasHandler.js:43-56 | The at-most-once invariant survives any sequence of attachments |
| Listeners.AttachAllAgain | packages/vega-scenegraph/src/CanvasHandler.js:49 | Attaching the same list twice is the same as attaching it once |
| Listeners.AttachAllMarked | packages/vega-scenegraph/src/CanvasHandler.js:49 | Attaching only marked types, or attaching with no canvas, changes nothing |
| Listeners.TouchBundleAttachesAll | packages/vega-scenegraph/src/CanvasHandler.js:34-45 | With a canvas, requesting any touch type leaves touchstart, touchmove and touchend all attached |
| Listeners.BootstrapMarks | packages/vega-scenegraph/src/CanvasHandler.js:24-32 | With a canvas, initialisation adds exactly click, mousedown, mousemove, mouseout and dragleave to the record; without one it adds nothing |
| Scene.ExitMarked | packages/vega-scenegraph/src/CanvasHandler.js:86 | Exactly the non-null items of the list whose exit marker is set |
| Scene.PickEvent | packages/vega-scenegraph/src/CanvasHandler.js:206-211 | A list pick is kept as it is; a single item becomes a one-element list; no pick becomes `[null]` |
| Tracker.Each | packages/vega-scenegraph/src/CanvasHandler.js:104 | One firing per item |
| Tracker.EachAt | packages/vega-scenegraph/src/CanvasHandler.js:104 | The `i`-th firing is for the `i`-th item, so firings follow the list order |
| Tracker.EachMember | packages/vega-scenegraph/src/CanvasHandler.js:104 | A firing occurs exactly when it has the type and its item is in the list |
| Tracker.Outs | packages/vega-scenegraph/src/CanvasHandler.js:84-91 | Every out firing is for a gone item; every gone item that is null or not exited gets one; no exited item gets one; duplicate-free when the gone list is |
| Tracker.OutsNoneExited | packages/vega-scenegraph/src/CanvasHandler.js:84-91 | With no item exited, the out step fires for every gone item |
| Tracker.Enter | packages/vega-scenegraph/src/CanvasHandler.js:93-96 | Two firings per new item |
| Tracker.EnterAt | packages/vega-scenegraph/src/CanvasHandler.js:93-96 | The `i`-th new item owns positions `2i` (over) and `2i+1` (move) |
| Tracker.EnterMember | packages/vega-scenegraph/src/CanvasHandler.js:93-96 | A firing occurs exactly when it is over or move for a new item |
| Tracker.EnterNoDup | packages/vega-scenegraph/src/CanvasHandler.js:93-96 | Distinct new items and distinct over and move types give no repeated firing |
| Tracker.MoveFirings | packages/vega-scenegraph/src/CanvasHandler.js:78-96 | What one move fires: at most one firing per old active item and two per newly picked item; MoveFiresFor, MoveFiresOnce and ExitSuppressed say which |
| Tracker.NextActives | packages/vega-scenegraph/src/CanvasHandler.js:98 | The new active list holds exactly the picked items, and its two parts are disjoint |
| Tracker.NextActivesRearrangesPick | packages/vega-scenegraph/src/CanvasHandler.js:75-98 | With a duplicate-free old list and pick, the new active list is duplicate-free and a rearrangement of the pick |
| Tracker.MoveFiresFor | packages/vega-scenegraph/src/CanvasHandler.js:71-99 | For each item, with distinct types: move is fired exactly when it is picked. Over is fired exactly when it is picked and was not active. Out is fired exactly when it was active, is not picked, and is null or not exited |
| Tracker.ExitSuppressed | packages/vega-scenegraph/src/CanvasHandler.js:84-98 | An item that was active, is not picked and has its exit marker set gets no out firing and is not in the new active list |
| Tracker.MoveFiresOnce | packages/vega-scenegraph/src/CanvasHandler.js:71-99 | With a duplicate-free old list and pick and distinct types, a move never fires the same (type, item) twice |
| Tracker.HoverScenario | packages/vega-scenegraph/src/CanvasHandler.js:71-99 | From actives [A, B] with pick [B, C], hovering fires move B, out A, over C, move C, in that order, and keeps [B, C] |
| Tracker.FiltersOnScenario | packages/vega-scenegraph/src/CanvasHandler.js:75-77 | From [A, B] with pick [B, C]: the intersection is [B], the no-longer-active list is [A], the new items are [C] |
| Tracker.DeactivationIsUnsuppressedEmptyMove | packages/vega-scenegraph/src/CanvasHandler.js:102-107 | Deactivation fires what a move to an empty pick fires when no item counts as exited, and leaves the same empty active list |
| Tracker.ClickFiresFor | packages/vega-scenegraph/src/CanvasHandler.js:125-132 | A click fires for an item exactly when it is active and in the press snapshot |
| Tracker.ClickFirings | packages/vega-scenegraph/src/CanvasHandler.js:126-130 | What a click fires: at most one click per active item, and nothing when the press snapshot is empty; ClickFiresFor says which items |
| Registry.Lookup | packages/vega-scenegraph/src/CanvasHandler.js:156-169 | The list stored under a name, and the empty list when no list is stored, as the `if (h)` guard treats a missing entry |
| Registry.IndexOf | packages/vega-scenegraph/src/CanvasHandler.js:180-197 | The position is -1 exactly when the record is absent; otherwise the record sits there and not earlier |
| Registry.Add | packages/vega-scenegraph/src/CanvasHandler.js:177-191 | After `on` the record is listed under the name, appended only if it was absent; no other list changes |
| Registry.Remove | packages/vega-scenegraph/src/CanvasHandler.js:194-204 | An absent record leaves the table as it is; otherwise the list loses exactly one entry and no other list changes |
| Registry.AddIdempotent | packages/vega-scenegraph/src/CanvasHandler.js:182-189 | A second identical `on` changes nothing |
| Registry.RemoveIsFilter | packages/vega-scenegraph/src/CanvasHandler.js:194-204 | In a duplicate-free list, `off` removes exactly the record and keeps the order of the rest |
| Registry.RemoveUndoesAdd | packages/vega-scenegraph/src/CanvasHandler.js:177-204 | `on` followed by `off` for a new record leaves every list as it was |
| Registry.AddKeepsWellFormed | packages/vega-scenegraph/src/CanvasHandler.js:177-191 | `on` keeps every list duplicate-free and filed under its records' event name |
| Registry.RemoveKeepsWellFormed | packages/vega-scenegraph/src/CanvasHandler.js:194-204 | `off` keeps the table well formed |
| Registry.SideChannel | packages/vega-scenegraph/src/CanvasHandler.js:161-166 | At most one side-channel effect per `fire`; SideChannelCases says which |
| Registry.SideChannelCases | packages/vega-scenegraph/src/CanvasHandler.js:161-166 | At most one side-channel effect. A followed link exactly for the href type and an item with a link. A tooltip toggle exactly for the two tooltip types, showing unless the type is the hide type. Never a handler call |
| Registry.Invocations | packages/vega-scenegraph/src/CanvasHandler.js:168-173 | One invocation per registered record |
| Registry.InvocationsAt | packages/vega-scenegraph/src/CanvasHandler.js:168-173 | The `i`-th invocation calls the `i`-th registered handler |
| Registry.FireOrder | packages/vega-scenegraph/src/CanvasHandler.js:155-174 | One `fire`: at most one side effect comes first, then one invocation per record listed under the type, in registration order; a link is followed only for an item with a link target; a tooltip toggle shows exactly for the show type |
| Registry.FireEffects | packages/vega-scenegraph/src/CanvasHandler.js:155-174 | One `fire` makes one invocation per record under the type's own name, plus at most one side effect; FireOrder gives the order |
| Registry.EffectsOfSnoc | packages/vega-scenegraph/src/CanvasHandler.js:155-174 | The effects of a sequence of firings are those of the earlier firings followed by the effects of the last `fire` |
| Registry.EffectsOfAppend | packages/vega-scenegraph/src/CanvasHandler.js:79-96 | The effects of consecutive firing sequences concatenate |
| Registry.NotInvoked | packages/vega-scenegraph/src/CanvasHandler.js:168-173 | A handler with no record in the list is never invoked |
| Registry.RegisteringTwiceInvokesOnce | packages/vega-scenegraph/src/CanvasHandler.js:168-191 | Registering the same handler twice for a type and then firing that type invokes it exactly once |
| Registry.OnTwiceThenFireInvokesOnce | packages/vega-scenegraph/src/CanvasHandler.js:155-191 | When the type's event name is its own name, two identical `on` calls filed under the event name followed by a `fire` invoke the handler exactly once |

## Left out

- DOM and canvas plumbing is not modelled: `domFind`, `canvas.addEventListener`, the listener closures, the canvas context, and `canvas()`. The model keeps only whether a canvas exists and the record of attached types.
- Geometry is not modelled: `point()` (floating-point coordinates) and `Marks[...].pick`. The pick result is an input to each router.
- `Handler.js` is not part of this model. The model assumes the following for what it supplies:
  - `eventName` is a fixed function given to the constructor.
  - `_handlerIndex` is exact equality on the (type, handler) record, so the search direction does not matter in a duplicate-free list.
  - `handleHref` and `handleTooltip` are recorded as effects, not carried out.
  - `fire` looks up exactly the list stored under the raw type's name, as line 156 does, while `on` and `off` file under `eventName(type)`. The registry lemmas that combine `on` and `fire` (Registry.RegisteringTwiceInvokesOnce, Registry.OnTwiceThenFireInvokesOnce) hold when the two names agree; for a type whose event name differs, `fire` does not find the records `on` filed.
  - `Handler.prototype.initialize` (origin, scene and `_obj` binding) is not modelled.
- `util/events.js` is not part of this model. The model assumes Vega's aliases: the href type is click, tooltip show is mousemove, tooltip hide is mouseout.
- `evt.vegaType` stamping, the event object itself and the `this` binding of handlers (`_obj`) are left out. Only handlers can see them.
- Re-entrancy is left out: a handler that changes the dispatcher, the scene or an item's exit marker from inside `fire`. The model's `Fire` changes only the two logs.
  - CanvasHandler.Dispatcher.Move: because of this, the exit markers are read from the state before the event. The source reads each one during the out loop; the two agree because no handler runs model code.
- Array aliasing is left out: `_down = _actives` and `_actives = _touch` share arrays in the source. No method mutates those arrays in place (each is reassigned), so plain sequence copies behave the same.
- Scene.SceneItem: `href` is a constant of the item. The dispatcher only reads it. An unset href is the empty string; both are falsy in the source.
- Registry.HandlerId: handler functions are compared by identity, modelled as natural-number identities.
- CanvasHandler.Dispatcher.FireEach, FireOuts, FireOut, FireEnters, FireEnter, FireAmong and FireIfIn are helper methods. They model the `forEach` loops and their arrow functions, which the source writes inline.
