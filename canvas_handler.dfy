/**
 * The canvas handler: the interaction dispatcher between the canvas's
 * native pointer and touch events and the scene graph. Every native event
 * the canvas delivers arrives at one router method below, with the result
 * of the geometry test at the event's position as a `PickResult`; the
 * router fires semantic events through `Fire`, which records each call in
 * `fired` and what it makes observable in `effects`.
 */
module CanvasHandler {
  import opened Seqs
  import opened Events
  import opened Scene
  import opened Tracker
  import opened Registry
  import opened Listeners

  /** Logging one more firing: both logs grow by exactly what that `fire` does. */
  lemma Logged(f0: seq<Firing>, e0: seq<Effect>, fs: seq<Firing>, x: Firing, t: Table, f: seq<Firing>, e: seq<Effect>)
    requires f == f0 + fs && e == e0 + EffectsOf(fs, t)
    ensures f + [x] == f0 + (fs + [x])
    ensures e + FireEffects(x.kind, x.item, t) == e0 + EffectsOf(fs + [x], t)
  {
    EffectsOfSnoc(fs, x, t);
    AppendAssoc(f0, fs, [x]);
    AppendAssoc(e0, EffectsOf(fs, t), FireEffects(x.kind, x.item, t));
  }

  /** Logging two firing sequences one after the other. */
  lemma LoggedThen(f0: seq<Firing>, e0: seq<Effect>, gs: seq<Firing>, hs: seq<Firing>, t: Table,
                   f1: seq<Firing>, e1: seq<Effect>, f2: seq<Firing>, e2: seq<Effect>)
    requires f1 == f0 + gs && e1 == e0 + EffectsOf(gs, t)
    requires f2 == f1 + hs && e2 == e1 + EffectsOf(hs, t)
    ensures f2 == f0 + (gs + hs) && e2 == e0 + EffectsOf(gs + hs, t)
  {
    EffectsOfAppend(gs, hs, t);
    AppendAssoc(f0, gs, hs);
    AppendAssoc(e0, EffectsOf(gs, t), EffectsOf(hs, t));
  }

  class Dispatcher {
    /** Items currently under the pointer. */
    var actives: seq<SceneItem?>
    /** The active list as it was at the last mousedown. */
    var down: seq<SceneItem?>
    /** Items hit at the last touchstart. */
    var touch: seq<SceneItem?>
    /** Set until the first touchstart. */
    var first: bool
    /** Whether the bound element holds a canvas. */
    var hasCanvas: bool
    /** Native types whose listener is attached to the canvas. */
    var attached: set<EventType>
    /** Every listener attachment, in order. */
    ghost var attachLog: seq<EventType>
    /** Registered handlers, keyed by event name. */
    var handlers: Table
    /** Every `fire` call, in order. */
    var fired: seq<Firing>
    /** Side-channel calls and handler invocations, in order. */
    var effects: seq<Effect>
    /** Maps a registered type to the key of its handler list. */
    const eventName: EventType -> string

    /** The listener record together with the attachment log. */
    ghost function Listening(): Record
      reads this`attached, this`attachLog
    {
      Record(attached, attachLog)
    }

    /**
     * Each native type is attached at most once and the attachment record
     * is exactly the set of types attached; the handler table is well formed.
     */
    ghost predicate Valid()
      reads this`attached, this`attachLog, this`handlers
    {
      Consistent(Listening()) && WellFormed(handlers, eventName)
    }

    /** A fresh handler: nothing active, pressed or touched, no listeners, no handlers. */
    constructor (eventName: EventType -> string)
      ensures Valid()
      ensures actives == [] && down == [] && touch == [] && first
      ensures !hasCanvas && attached == {} && attachLog == [] && handlers == map[]
      ensures fired == [] && effects == []
      ensures this.eventName == eventName
    {
      actives, down, touch, first := [], [], [], true;
      hasCanvas, attached, attachLog, handlers := false, {}, [], map[];
      fired, effects := [], [];
      this.eventName := eventName;
    }

    /** Attaches the listener for `kind` unless there is no canvas or it is attached already. */
    method AddEventListener(kind: EventType)
      requires Valid()
      modifies this`attached, this`attachLog
      ensures Valid()
      ensures Listening() == Attach(hasCanvas, old(Listening()), kind)
    {
      AttachKeepsConsistent(hasCanvas, Listening(), kind);
      if hasCanvas && kind !in attached {
        attached := attached + {kind};
        attachLog := attachLog + [kind];
      }
    }

    /** Attaches the listeners of `kind`'s bundle, in order, each unless attached already. */
    method EventListenerCheck(kind: EventType)
      requires Valid()
      modifies this`attached, this`attachLog
      ensures Valid()
      ensures Listening() == AttachAll(hasCanvas, old(Listening()), EventBundle(kind))
    {
      var bundle := EventBundle(kind);
      ghost var r0 := Listening();
      var i := 0;
      while i < |bundle|
        invariant 0 <= i <= |bundle|
        invariant Valid()
        invariant Listening() == AttachAll(hasCanvas, r0, bundle[..i])
      {
        TakeSnoc(bundle, i);
        AttachAllSnoc(hasCanvas, r0, bundle[..i], bundle[i]);
        AddEventListener(bundle[i]);
        i := i + 1;
      }
      assert bundle[..i] == bundle;
    }

    /**
     * Binds the handler to an element (`canvasFound`: it holds a canvas) and
     * attaches the bootstrap listeners: click, mousedown, mousemove,
     * mouseout and dragleave.
     */
    method Initialize(canvasFound: bool)
      requires Valid()
      modifies this`hasCanvas, this`attached, this`attachLog
      ensures Valid() && hasCanvas == canvasFound
      ensures Listening() == AttachAll(canvasFound, old(Listening()), Bootstrap)
    {
      hasCanvas := canvasFound;
      BootstrapShape();
      ghost var r0 := Listening();
      var i := 0;
      while i < |Bootstrap|
        invariant 0 <= i <= |Bootstrap|
        invariant hasCanvas == canvasFound
        invariant Valid()
        invariant Listening() == AttachAll(hasCanvas, r0, Bootstrap[..i])
      {
        TakeSnoc(Bootstrap, i);
        AttachAllSnoc(hasCanvas, r0, Bootstrap[..i], Bootstrap[i]);
        assert Bootstrap[i] !in TouchKinds;
        AttachAllSingle(hasCanvas, Listening(), Bootstrap[i]);
        EventListenerCheck(Bootstrap[i]);
        i := i + 1;
      }
      assert Bootstrap[..i] == Bootstrap;
    }

    /**
     * `fire(kind, evt, item)`: runs the side channel, then invokes every
     * handler stored under `kind`, in registration order.
     */
    method Fire(kind: EventType, item: SceneItem?)
      modifies this`fired, this`effects
      ensures fired == old(fired) + [Firing(kind, item)]
      ensures effects == old(effects) + FireEffects(kind, item, handlers)
    {
      fired := fired + [Firing(kind, item)];
      var side: seq<Effect> := [];
      if kind == HrefEvent && item != null && item.href != "" {
        side := [HrefFollowed(item, item.href)];
      } else if kind == TooltipShow || kind == TooltipHide {
        side := [TooltipToggled(item, kind != TooltipHide)];
      }
      var h := Lookup(handlers, TypeName(kind));
      var calls: seq<Effect> := [];
      var i := 0;
      while i < |h|
        invariant 0 <= i <= |h|
        invariant calls == Invocations(kind, item, h[..i])
      {
        assert h[..i + 1][..i] == h[..i];
        calls := calls + [Invoked(h[i].handler, kind, item)];
        i := i + 1;
      }
      assert h[..i] == h;
      effects := effects + (side + calls);
    }

    /** Fires `kind` for each of `items`, in order. */
    method FireEach(kind: EventType, items: seq<SceneItem?>)
      modifies this`fired, this`effects
      ensures fired == old(fired) + Each(kind, items)
      ensures effects == old(effects) + EffectsOf(Each(kind, items), handlers)
    {
      ghost var f0, e0 := fired, effects;
      ghost var fs: seq<Firing> := [];
      var i := 0;
      while i < |items|
        invariant 0 <= i <= |items|
        invariant fs == Each(kind, items[..i])
        invariant fired == f0 + fs
        invariant effects == e0 + EffectsOf(fs, handlers)
      {
        var item := items[i];
        TakeSnoc(items, i);
        EachSnoc(kind, items[..i], item);
        EffectsOfOne(Firing(kind, item), handlers);
        ghost var f1, e1 := fired, effects;
        Fire(kind, item);
        LoggedThen(f0, e0, fs, [Firing(kind, item)], handlers, f1, e1, fired, effects);
        fs := fs + [Firing(kind, item)];
        i := i + 1;
      }
      assert items[..i] == items;
    }

    /**
     * `move(moveEvent, overEvent, outEvent)`: diffs the active list against
     * the pick, fires move for the items still picked, out for the items no
     * longer picked unless their exit marker is set, over then move for the
     * newly picked items, and keeps the still-picked then the new items.
     */
    method Move(kinds: MoveKinds, picked: PickResult)
      modifies this`actives, this`fired, this`effects
      ensures actives == NextActives(old(actives), PickEvent(picked))
      ensures fired == old(fired) + MoveFirings(old(actives), PickEvent(picked), kinds, old(ExitMarked(actives)))
      ensures effects == old(effects) +
        EffectsOf(MoveFirings(old(actives), PickEvent(picked), kinds, old(ExitMarked(actives))), handlers)
      ensures NoDup(old(actives)) && NoDup(PickEvent(picked)) ==> NoDup(actives)
    {
      var a := actives;
      var p := PickEvent(picked);
      var intersect := Among(a, p);
      var noLongerActive := Outside(a, p);
      var newItems := Outside(p, a);
      ghost var exited := ExitMarked(a);
      ghost var f0, e0 := fired, effects;
      FireEach(kinds.move, intersect);
      ghost var f1, e1 := fired, effects;
      FireOuts(kinds.out, noLongerActive, exited);
      ghost var f2, e2 := fired, effects;
      FireEnters(kinds.over, kinds.move, newItems);
      actives := intersect + newItems;

      ghost var m1, m2, m3 := Each(kinds.move, intersect), Outs(kinds.out, noLongerActive, exited), Enter(kinds.over, kinds.move, newItems);
      LoggedThen(f0, e0, m1, m2, handlers, f1, e1, f2, e2);
      LoggedThen(f0, e0, m1 + m2, m3, handlers, f2, e2, fired, effects);
      if NoDup(a) && NoDup(p) {
        NextActivesRearrangesPick(a, p);
      }
    }

    /**
     * The out step of a move: fires `out` for each item of `gone`, in order,
     * skipping the items whose exit marker is set (`exited` names them).
     */
    method FireOuts(out: EventType, gone: seq<SceneItem?>, ghost exited: set<SceneItem>)
      requires forall x: SceneItem :: x in gone ==> (x in exited <==> x.exit)
      modifies this`fired, this`effects
      ensures fired == old(fired) + Outs(out, gone, exited)
      ensures effects == old(effects) + EffectsOf(Outs(out, gone, exited), handlers)
    {
      ghost var f0, e0 := fired, effects;
      ghost var fs: seq<Firing> := [];
      var i := 0;
      while i < |gone|
        invariant 0 <= i <= |gone|
        invariant fs == Outs(out, gone[..i], exited)
        invariant fired == f0 + fs
        invariant effects == e0 + EffectsOf(fs, handlers)
      {
        TakeSnoc(gone, i);
        OutsSnoc(out, gone[..i], gone[i], exited);
        ghost var step := if gone[i] == null || gone[i] !in exited then [Firing(out, gone[i])] else [];
        ghost var f1, e1 := fired, effects;
        FireOut(out, gone[i], exited);
        LoggedThen(f0, e0, fs, step, handlers, f1, e1, fired, effects);
        fs := fs + step;
        i := i + 1;
      }
      assert gone[..i] == gone;
    }

    /** One item of the out step: fires `out` for `item` unless its exit marker is set. */
    method FireOut(out: EventType, item: SceneItem?, ghost exited: set<SceneItem>)
      requires item != null ==> (item in exited <==> item.exit)
      modifies this`fired, this`effects
      ensures var step := if item == null || item !in exited then [Firing(out, item)] else [];
        fired == old(fired) + step && effects == old(effects) + EffectsOf(step, handlers)
    {
      EffectsOfOne(Firing(out, item), handlers);
      if item == null || !item.exit {
        Fire(out, item);
      }
    }

    /** The enter step of a move: for each of `items`, in order, fires `over` then `move`. */
    method FireEnters(over: EventType, move: EventType, items: seq<SceneItem?>)
      modifies this`fired, this`effects
      ensures fired == old(fired) + Enter(over, move, items)
      ensures effects == old(effects) + EffectsOf(Enter(over, move, items), handlers)
    {
      ghost var f0, e0 := fired, effects;
      ghost var fs: seq<Firing> := [];
      var j := 0;
      while j < |items|
        invariant 0 <= j <= |items|
        invariant fs == Enter(over, move, items[..j])
        invariant fired == f0 + fs
        invariant effects == e0 + EffectsOf(fs, handlers)
      {
        TakeSnoc(items, j);
        EnterSnoc(over, move, items[..j], items[j]);
        ghost var f1, e1 := fired, effects;
        FireEnter(over, move, items[j]);
        LoggedThen(f0, e0, fs, [Firing(over, items[j]), Firing(move, items[j])], handlers, f1, e1, fired, effects);
        fs := fs + [Firing(over, items[j]), Firing(move, items[j])];
        j := j + 1;
      }
      assert items[..j] == items;
    }

    /** One new item of a move: fires `over`, then `move`, for `item`. */
    method FireEnter(over: EventType, move: EventType, item: SceneItem?)
      modifies this`fired, this`effects
      ensures fired == old(fired) + [Firing(over, item), Firing(move, item)]
      ensures effects == old(effects) + EffectsOf([Firing(over, item), Firing(move, item)], handlers)
    {
      ghost var f0, e0 := fired, effects;
      ghost var o, m := Firing(over, item), Firing(move, item);
      Fire(over, item);
      Fire(move, item);
      EffectsOfPair(o, m, handlers);
      AppendAssoc(f0, [o], [m]);
      AppendAssoc(e0, FireEffects(over, item, handlers), FireEffects(move, item, handlers));
    }

    /** The `mousemove` router: hover tracking. */
    method MouseMove(picked: PickResult)
      modifies this`actives, this`fired, this`effects
      ensures actives == NextActives(old(actives), PickEvent(picked))
      ensures fired == old(fired) + MoveFirings(old(actives), PickEvent(picked), Hover, old(ExitMarked(actives)))
      ensures effects == old(effects) +
        EffectsOf(MoveFirings(old(actives), PickEvent(picked), Hover, old(ExitMarked(actives))), handlers)
    {
      Move(Hover, picked);
    }

    /** The `dragover` router: drag tracking over the same active list. */
    method DragOver(picked: PickResult)
      modifies this`actives, this`fired, this`effects
      ensures actives == NextActives(old(actives), PickEvent(picked))
      ensures fired == old(fired) + MoveFirings(old(actives), PickEvent(picked), Drag, old(ExitMarked(actives)))
      ensures effects == old(effects) +
        EffectsOf(MoveFirings(old(actives), PickEvent(picked), Drag, old(ExitMarked(actives))), handlers)
    {
      Move(Drag, picked);
    }

    /**
     * `inactive(type)`: fires `kind` for every active item, in order and
     * without exit suppression, and empties the active list.
     */
    method Inactive(kind: EventType)
      modifies this`actives, this`fired, this`effects
      ensures actives == []
      ensures fired == old(fired) + Each(kind, old(actives))
      ensures effects == old(effects) + EffectsOf(Each(kind, old(actives)), handlers)
    {
      FireEach(kind, actives);
      actives := [];
    }

    /** The `mouseout` router: the pointer left the canvas. */
    method MouseOut()
      modifies this`actives, this`fired, this`effects
      ensures actives == []
      ensures fired == old(fired) + Each(EventType.MouseOut, old(actives))
      ensures effects == old(effects) + EffectsOf(Each(EventType.MouseOut, old(actives)), handlers)
    {
      Inactive(EventType.MouseOut);
    }

    /** The `dragleave` router: a drag left the canvas. */
    method DragLeave()
      modifies this`actives, this`fired, this`effects
      ensures actives == []
      ensures fired == old(fired) + Each(EventType.DragLeave, old(actives))
      ensures effects == old(effects) + EffectsOf(Each(EventType.DragLeave, old(actives)), handlers)
    {
      Inactive(EventType.DragLeave);
    }

    /** The `DOMMouseScroll` router: a wheel event for every active item; no state changes. */
    method DomMouseScroll()
      modifies this`fired, this`effects
      ensures fired == old(fired) + Each(MouseWheel, actives)
      ensures effects == old(effects) + EffectsOf(Each(MouseWheel, actives), handlers)
    {
      FireEach(MouseWheel, actives);
    }

    /** The `mousedown` router: snapshots the active list, then fires mousedown for each active item. */
    method MouseDown()
      modifies this`down, this`fired, this`effects
      ensures down == actives
      ensures fired == old(fired) + Each(EventType.MouseDown, actives)
      ensures effects == old(effects) + EffectsOf(Each(EventType.MouseDown, actives), handlers)
    {
      down := actives;
      FireEach(EventType.MouseDown, actives);
    }

    /**
     * The `click` router: fires click for each active item that was also
     * active at the last mousedown, in active order, then clears the snapshot.
     */
    method Click()
      modifies this`down, this`fired, this`effects
      ensures down == []
      ensures fired == old(fired) + ClickFirings(actives, old(down))
      ensures effects == old(effects) + EffectsOf(ClickFirings(actives, old(down)), handlers)
    {
      FireAmong(EventType.Click, actives, down);
      down := [];
    }

    /** Fires `kind` for each of `items` that also occurs in `keep`, in the order of `items`. */
    method FireAmong(kind: EventType, items: seq<SceneItem?>, keep: seq<SceneItem?>)
      modifies this`fired, this`effects
      ensures fired == old(fired) + Each(kind, Among(items, keep))
      ensures effects == old(effects) + EffectsOf(Each(kind, Among(items, keep)), handlers)
    {
      ghost var f0, e0 := fired, effects;
      ghost var fs: seq<Firing> := [];
      var i := 0;
      while i < |items|
        invariant 0 <= i <= |items|
        invariant fs == Each(kind, Among(items[..i], keep))
        invariant fired == f0 + fs
        invariant effects == e0 + EffectsOf(fs, handlers)
      {
        TakeSnoc(items, i);
        EachAmongSnoc(kind, items[..i], items[i], keep);
        ghost var step := if items[i] in keep then [Firing(kind, items[i])] else [];
        ghost var f1, e1 := fired, effects;
        FireIfIn(kind, items[i], keep);
        LoggedThen(f0, e0, fs, step, handlers, f1, e1, fired, effects);
        fs := fs + step;
        i := i + 1;
      }
      assert items[..i] == items;
    }

    /** One item of a click: fires `kind` for `item` when it occurs in `keep`. */
    method FireIfIn(kind: EventType, item: SceneItem?, keep: seq<SceneItem?>)
      modifies this`fired, this`effects
      ensures var step := if item in keep then [Firing(kind, item)] else [];
        fired == old(fired) + step && effects == old(effects) + EffectsOf(step, handlers)
    {
      EffectsOfOne(Firing(kind, item), handlers);
      if item in keep {
        Fire(kind, item);
      }
    }

    /**
     * The `touchstart` router: the pick becomes the touch list; on the first
     * touchstart it also becomes the active list; touchstart fires for each
     * touched item.
     */
    method TouchStart(picked: PickResult)
      modifies this`touch, this`actives, this`first, this`fired, this`effects
      ensures touch == PickEvent(picked)
      ensures actives == if old(first) then touch else old(actives)
      ensures !first
      ensures fired == old(fired) + Each(EventType.TouchStart, touch)
      ensures effects == old(effects) + EffectsOf(Each(EventType.TouchStart, touch), handlers)
    {
      touch := PickEvent(picked);
      if first {
        actives := touch;
        first := false;
      }
      FireEach(EventType.TouchStart, touch);
    }

    /** The `touchmove` router: touchmove for each item of the touch list, which is kept. */
    method TouchMove()
      modifies this`fired, this`effects
      ensures fired == old(fired) + Each(EventType.TouchMove, touch)
      ensures effects == old(effects) + EffectsOf(Each(EventType.TouchMove, touch), handlers)
    {
      FireEach(EventType.TouchMove, touch);
    }

    /** The `touchend` router: touchend for each item of the touch list, which is then emptied. */
    method TouchEnd()
      modifies this`touch, this`fired, this`effects
      ensures touch == []
      ensures fired == old(fired) + Each(EventType.TouchEnd, old(touch))
      ensures effects == old(effects) + EffectsOf(Each(EventType.TouchEnd, old(touch)), handlers)
    {
      FireEach(EventType.TouchEnd, touch);
      touch := [];
    }

    /**
     * `on(type, handler)`: registers the record unless it is registered
     * already, attaching the listeners of the type's bundle first; returns
     * the dispatcher.
     */
    method On(kind: EventType, handler: HandlerId) returns (self: Dispatcher)
      requires Valid()
      modifies this`handlers, this`attached, this`attachLog
      ensures Valid() && self == this
      ensures handlers == Add(old(handlers), eventName(kind), Registration(kind, handler))
      ensures Listening() == if Registration(kind, handler) in Lookup(old(handlers), eventName(kind)) then old(Listening())
        else AttachAll(hasCanvas, old(Listening()), EventBundle(kind))
    {
      var name := eventName(kind);
      var r := Registration(kind, handler);
      var i := IndexOf(Lookup(handlers, name), r);
      if i < 0 {
        EventListenerCheck(kind);
        AddKeepsWellFormed(handlers, eventName, r);
        handlers := handlers[name := Lookup(handlers, name) + [r]];
      }
      self := this;
    }

    /** `off(type, handler)`: removes the record if it is registered; returns the dispatcher. */
    method Off(kind: EventType, handler: HandlerId) returns (self: Dispatcher)
      requires Valid()
      modifies this`handlers
      ensures Valid() && self == this
      ensures handlers == Remove(old(handlers), eventName(kind), Registration(kind, handler))
    {
      var name := eventName(kind);
      var r := Registration(kind, handler);
      var h := Lookup(handlers, name);
      var i := IndexOf(h, r);
      RemoveKeepsWellFormed(handlers, eventName, r);
      if i >= 0 {
        handlers := handlers[name := h[..i] + h[i + 1..]];
      }
      self := this;
    }
  }
}
