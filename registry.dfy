/**
 * The handler registry and what one `fire` does with it: the href and
 * tooltip side channels, then every handler registered for the type, in
 * registration order.
 */
module Registry {
  import opened Seqs
  import opened Events
  import opened Scene
  import opened Tracker

  /** A handler function, compared by identity. */
  type HandlerId = nat

  /** One `{type, handler}` record of a handler list. */
  datatype Registration = Registration(kind: EventType, handler: HandlerId)

  /** Handler lists, keyed by event name. */
  type Table = map<string, seq<Registration>>

  /** What a `fire` makes observable to the outside. */
  datatype Effect =
    | HrefFollowed(link: SceneItem, href: string)
    | TooltipToggled(item: SceneItem?, show: bool)
    | Invoked(handler: HandlerId, kind: EventType, item: SceneItem?)

  /** The handler list stored under `name`; a missing entry behaves as an empty list. */
  function Lookup(t: Table, name: string): (r: seq<Registration>)
    ensures name in t ==> r == t[name]
    ensures name !in t ==> r == []
  {
    if name in t then t[name] else []
  }

  /** Every list is duplicate-free and holds only records whose type maps to its key. */
  predicate WellFormed(t: Table, eventName: EventType -> string)
  {
    forall name :: name in t ==>
      NoDup(t[name]) && forall r :: r in t[name] ==> eventName(r.kind) == name
  }

  /** Position of `r` in `regs`, or -1 when `r` is not registered there. */
  function IndexOf(regs: seq<Registration>, r: Registration): (i: int)
    ensures -1 <= i < |regs|
    ensures i < 0 <==> r !in regs
    ensures 0 <= i ==> regs[i] == r && r !in regs[..i]
    decreases |regs|
  {
    if regs == [] then -1
    else if regs[0] == r then 0
    else
      var j := IndexOf(regs[1..], r);
      assert regs == [regs[0]] + regs[1..];
      if j < 0 then -1
      else
        assert regs[..j + 1] == [regs[0]] + regs[1..][..j];
        j + 1
  }

  /**
   * `on`'s update of the table: the record is appended to the list for
   * `name` only when it is not there already; no other list changes.
   */
  function Add(t: Table, name: string, r: Registration): (t': Table)
    ensures r in Lookup(t', name)
    ensures Lookup(t', name) == if r in Lookup(t, name) then Lookup(t, name) else Lookup(t, name) + [r]
    ensures forall n :: n != name ==> Lookup(t', n) == Lookup(t, n)
  {
    var h := Lookup(t, name);
    if IndexOf(h, r) < 0 then t[name := h + [r]] else t
  }

  /**
   * `off`'s update of the table: the record's entry is spliced out of the
   * list for `name`; an absent record leaves the table as it is.
   */
  function Remove(t: Table, name: string, r: Registration): (t': Table)
    ensures r !in Lookup(t, name) ==> t' == t
    ensures forall n :: n != name ==> Lookup(t', n) == Lookup(t, n)
    ensures |Lookup(t', name)| == if r in Lookup(t, name) then |Lookup(t, name)| - 1 else |Lookup(t, name)|
  {
    var h := Lookup(t, name);
    var i := IndexOf(h, r);
    if i < 0 then t else t[name := h[..i] + h[i + 1..]]
  }

  /** A second identical registration changes nothing. */
  lemma AddIdempotent(t: Table, name: string, r: Registration)
    ensures Add(Add(t, name, r), name, r) == Add(t, name, r)
  {
  }

  /** In a duplicate-free list, removal takes out exactly the record and keeps the order of the rest. */
  lemma {:induction false} RemoveIsFilter(t: Table, name: string, r: Registration)
    requires NoDup(Lookup(t, name))
    ensures Lookup(Remove(t, name, r), name) == Outside(Lookup(t, name), [r])
    ensures r !in Lookup(Remove(t, name, r), name)
  {
    var h := Lookup(t, name);
    var i := IndexOf(h, r);
    if i >= 0 {
      assert Lookup(Remove(t, name, r), name) == h[..i] + h[i + 1..];
      SpliceIsFilter(h, i);
    } else {
      OutsideMissing(h, r);
    }
  }

  /** Registering a record and then unregistering it leaves every handler list as it was. */
  lemma RemoveUndoesAdd(t: Table, name: string, r: Registration)
    requires r !in Lookup(t, name)
    ensures forall n :: Lookup(Remove(Add(t, name, r), name, r), n) == Lookup(t, n)
  {
    var h := Lookup(t, name);
    assert Lookup(Add(t, name, r), name) == h + [r];
    assert IndexOf(h + [r], r) == |h|;
    assert (h + [r])[..|h|] + (h + [r])[|h| + 1..] == h;
  }

  /** `on` keeps the table well formed. */
  lemma AddKeepsWellFormed(t: Table, eventName: EventType -> string, r: Registration)
    requires WellFormed(t, eventName)
    ensures WellFormed(Add(t, eventName(r.kind), r), eventName)
  {
    var name := eventName(r.kind);
    var h := Lookup(t, name);
    if r !in h {
      assert NoDup(h) by {
        if name in t { assert h == t[name]; }
      }
      NoDupAppend(h, [r]);
    }
  }

  /** `off` keeps the table well formed. */
  lemma RemoveKeepsWellFormed(t: Table, eventName: EventType -> string, r: Registration)
    requires WellFormed(t, eventName)
    ensures WellFormed(Remove(t, eventName(r.kind), r), eventName)
  {
    var name := eventName(r.kind);
    var h := Lookup(t, name);
    if name in t {
      RemoveIsFilter(t, name, r);
    }
  }

  /**
   * The side channel `fire` runs before the handlers: a followed link for
   * the href type when the item has a link target, otherwise, for the two
   * tooltip types, a tooltip toggle showing unless the type is the hide type.
   */
  function SideChannel(kind: EventType, item: SceneItem?): (r: seq<Effect>)
    ensures |r| <= 1
  {
    if kind == HrefEvent && item != null && item.href != "" then [HrefFollowed(item, item.href)]
    else if kind == TooltipShow || kind == TooltipHide then [TooltipToggled(item, kind != TooltipHide)]
    else []
  }

  /**
   * The side channel holds at most one effect: a followed link exactly for
   * the href type and an item with a link target, a tooltip toggle exactly
   * for the two tooltip types (showing unless the type is the hide type),
   * and never a handler invocation.
   */
  lemma SideChannelCases(kind: EventType, item: SceneItem?)
    ensures var r := SideChannel(kind, item);
      && |r| <= 1
      && ((r != [] && r[0].HrefFollowed?) <==> kind == HrefEvent && item != null && item.href != "")
      && (r != [] && r[0].HrefFollowed? ==> r[0] == HrefFollowed(item, item.href))
      && ((r != [] && r[0].TooltipToggled?) <==> kind == TooltipShow || kind == TooltipHide)
      && (r != [] && r[0].TooltipToggled? ==> r[0] == TooltipToggled(item, kind == TooltipShow))
      && (forall e :: e in r ==> !e.Invoked?)
  {
  }

  /** Each handler of `regs`, in order, called with the event of type `kind` and `item`. */
  function Invocations(kind: EventType, item: SceneItem?, regs: seq<Registration>): (r: seq<Effect>)
    ensures |r| == |regs|
    decreases |regs|
  {
    if regs == [] then []
    else Invocations(kind, item, regs[..|regs| - 1]) + [Invoked(regs[|regs| - 1].handler, kind, item)]
  }

  /** The `i`-th invocation calls the `i`-th registered handler. */
  lemma {:induction false} InvocationsAt(kind: EventType, item: SceneItem?, regs: seq<Registration>, i: nat)
    requires i < |regs|
    ensures Invocations(kind, item, regs)[i] == Invoked(regs[i].handler, kind, item)
    decreases |regs|
  {
    if i < |regs| - 1 {
      InvocationsAt(kind, item, regs[..|regs| - 1], i);
    }
  }

  /**
   * Everything one `fire(kind, evt, item)` does: the side channel, then the
   * handlers of the list stored under the type's own name (not its event
   * name), in registration order.
   */
  function FireEffects(kind: EventType, item: SceneItem?, t: Table): (r: seq<Effect>)
    ensures |Lookup(t, TypeName(kind))| <= |r| <= |Lookup(t, TypeName(kind))| + 1
  {
    SideChannel(kind, item) + Invocations(kind, item, Lookup(t, TypeName(kind)))
  }

  /**
   * Fire order: at most one side-channel effect comes first, then one
   * invocation per record of the list stored under the type, in
   * registration order; a href effect needs an item with a link.
   */
  lemma FireOrder(kind: EventType, item: SceneItem?, t: Table)
    ensures var r, k := FireEffects(kind, item, t), |SideChannel(kind, item)|;
      && k <= 1
      && |r| == k + |Lookup(t, TypeName(kind))|
      && (forall i :: 0 <= i < |Lookup(t, TypeName(kind))| ==> r[k + i] == Invoked(Lookup(t, TypeName(kind))[i].handler, kind, item))
      && (k == 1 && r[0].HrefFollowed? ==> kind == HrefEvent && item != null && item.href != "")
      && (k == 1 && r[0].TooltipToggled? ==> r[0].show == (kind == TooltipShow))
  {
    var r, S, L := FireEffects(kind, item, t), SideChannel(kind, item), Lookup(t, TypeName(kind));
    SideChannelCases(kind, item);
    forall i | 0 <= i < |L| ensures r[|S| + i] == Invoked(L[i].handler, kind, item) {
      assert r[|S| + i] == Invocations(kind, item, L)[i];
      InvocationsAt(kind, item, L, i);
    }
  }

  /** The effects of the firings `fs`, one `fire` after the other, with the table `t`. */
  function EffectsOf(fs: seq<Firing>, t: Table): (r: seq<Effect>)
    decreases |fs|
  {
    if fs == [] then []
    else
      var init, f := fs[..|fs| - 1], fs[|fs| - 1];
      assert fs == init + [f];
      EffectsOf(init, t) + FireEffects(f.kind, f.item, t)
  }

  /** One more firing adds its own effects at the end. */
  lemma EffectsOfSnoc(fs: seq<Firing>, f: Firing, t: Table)
    ensures EffectsOf(fs + [f], t) == EffectsOf(fs, t) + FireEffects(f.kind, f.item, t)
  {
    assert (fs + [f])[..|fs|] == fs;
  }

  /** A single firing has exactly the effects of its own `fire`. */
  lemma EffectsOfOne(f: Firing, t: Table)
    ensures EffectsOf([f], t) == FireEffects(f.kind, f.item, t)
  {
    EffectsOfSnoc([], f, t);
    assert [] + [f] == [f];
  }

  /** Two firings have the effects of the first followed by those of the second. */
  lemma EffectsOfPair(f: Firing, g: Firing, t: Table)
    ensures [f] + [g] == [f, g]
    ensures EffectsOf([f, g], t) == FireEffects(f.kind, f.item, t) + FireEffects(g.kind, g.item, t)
  {
    EffectsOfOne(f, t);
    EffectsOfSnoc([f], g, t);
  }

  /** Firing one sequence after another has the effects of the one followed by those of the other. */
  lemma {:induction false} EffectsOfAppend(fs: seq<Firing>, gs: seq<Firing>, t: Table)
    ensures EffectsOf(fs + gs, t) == EffectsOf(fs, t) + EffectsOf(gs, t)
    decreases |gs|
  {
    if gs != [] {
      var init, g := gs[..|gs| - 1], gs[|gs| - 1];
      assert gs == init + [g];
      assert (fs + gs)[..|fs + gs| - 1] == fs + init;
      EffectsOfAppend(fs, init, t);
    } else {
      assert fs + gs == fs;
    }
  }

  /** One more record adds its invocation at the end. */
  lemma InvocationsSnoc(kind: EventType, item: SceneItem?, regs: seq<Registration>, q: Registration)
    ensures Invocations(kind, item, regs + [q]) == Invocations(kind, item, regs) + [Invoked(q.handler, kind, item)]
  {
    assert (regs + [q])[..|regs|] == regs;
  }

  /** A handler none of whose records is in `regs` is not invoked by them. */
  lemma {:induction false} NotInvoked(kind: EventType, item: SceneItem?, regs: seq<Registration>, h: HandlerId)
    requires forall q :: q in regs ==> q.handler != h
    ensures Invoked(h, kind, item) !in Invocations(kind, item, regs)
    decreases |regs|
  {
    if regs != [] {
      var init, q := regs[..|regs| - 1], regs[|regs| - 1];
      assert regs == init + [q];
      NotInvoked(kind, item, init, h);
    }
  }

  /**
   * Registering the same handler twice for a type and then firing that type
   * invokes the handler exactly once (when no other record of the list
   * holds that handler).
   */
  lemma RegisteringTwiceInvokesOnce(t: Table, kind: EventType, h: HandlerId, item: SceneItem?)
    requires forall q :: q in Lookup(t, TypeName(kind)) ==> q.handler != h
    ensures
      var r := Registration(kind, h);
      multiset(FireEffects(kind, item, Add(Add(t, TypeName(kind), r), TypeName(kind), r)))[Invoked(h, kind, item)] == 1
  {
    var r := Registration(kind, h);
    var e := Invoked(h, kind, item);
    AddIdempotent(t, TypeName(kind), r);
    var L := Lookup(t, TypeName(kind));
    var S, I := SideChannel(kind, item), Invocations(kind, item, L);
    assert Lookup(Add(t, TypeName(kind), r), TypeName(kind)) == L + [r];
    InvocationsSnoc(kind, item, L, r);
    NotInvoked(kind, item, L, h);
    SideChannelCases(kind, item);
    CountOnce(S, I, e);
  }

  /**
   * The same at the dispatcher's level: `on` files records under the type's
   * event name, and `fire` looks handlers up under the type's own name; when
   * the two agree, two identical `on` calls followed by a `fire` invoke the
   * handler exactly once.
   */
  lemma OnTwiceThenFireInvokesOnce(t: Table, eventName: EventType -> string, kind: EventType, h: HandlerId, item: SceneItem?)
    requires eventName(kind) == TypeName(kind)
    requires forall q :: q in Lookup(t, TypeName(kind)) ==> q.handler != h
    ensures
      var r, name := Registration(kind, h), eventName(kind);
      multiset(FireEffects(kind, item, Add(Add(t, name, r), name, r)))[Invoked(h, kind, item)] == 1
  {
    RegisteringTwiceInvokesOnce(t, kind, h, item);
  }
}
