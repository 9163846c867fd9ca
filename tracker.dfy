/**
 * The active-set tracker: the pure part of the move, deactivation and click
 * algorithms. A firing is one call of `fire(type, evt, item)`; the functions
 * below give, for the state before an event, the firings in the order the
 * handler makes them and the active list it keeps afterwards.
 */
module Tracker {
  import opened Seqs
  import opened Events
  import opened Scene

  /** One call of `fire`: the semantic type and the item it is fired for. */
  datatype Firing = Firing(kind: EventType, item: SceneItem?)

  /** The three types a move-like event fires for. */
  datatype MoveKinds = MoveKinds(move: EventType, over: EventType, out: EventType)
  {
    predicate Distinct() { move != over && move != out && over != out }
  }

  /** Hover tracking, bound to `mousemove`. */
  const Hover: MoveKinds := MoveKinds(MouseMove, MouseOver, MouseOut)

  /** Drag tracking, bound to `dragover`. */
  const Drag: MoveKinds := MoveKinds(DragOver, DragEnter, DragLeave)

  /** `kind` fired once for each item, in order. */
  function Each(kind: EventType, items: seq<SceneItem?>): (r: seq<Firing>)
    ensures |r| == |items|
    decreases |items|
  {
    if items == [] then []
    else Each(kind, items[..|items| - 1]) + [Firing(kind, items[|items| - 1])]
  }

  /** The `i`-th firing of `Each` is for the `i`-th item. */
  lemma {:induction false} EachAt(kind: EventType, items: seq<SceneItem?>, i: nat)
    requires i < |items|
    ensures Each(kind, items)[i] == Firing(kind, items[i])
    decreases |items|
  {
    if i < |items| - 1 {
      EachAt(kind, items[..|items| - 1], i);
    }
  }

  /** One more item adds its firing at the end. */
  lemma EachSnoc(kind: EventType, items: seq<SceneItem?>, x: SceneItem?)
    ensures Each(kind, items + [x]) == Each(kind, items) + [Firing(kind, x)]
  {
    assert (items + [x])[..|items|] == items;
  }

  /**
   * Out firings for items that stopped being picked: an item whose exit
   * marker is set (it is in `exited`) gets none; a null item always gets one.
   */
  function Outs(out: EventType, gone: seq<SceneItem?>, exited: set<SceneItem>): (r: seq<Firing>)
    ensures |r| <= |gone|
    ensures forall f :: f in r ==> f.kind == out && f.item in gone
    ensures forall x :: x in gone && (x == null || x !in exited) ==> Firing(out, x) in r
    ensures forall x: SceneItem :: x in exited ==> Firing(out, x) !in r
    ensures NoDup(gone) ==> NoDup(r)
    decreases |gone|
  {
    if gone == [] then []
    else
      var init, x := gone[..|gone| - 1], gone[|gone| - 1];
      assert gone == init + [x];
      var r0 := Outs(out, init, exited);
      if x == null || x !in exited then
        assert forall f :: f in r0 ==> f.item in init;
        r0 + [Firing(out, x)]
      else r0
  }

  /** One more gone item adds its out firing at the end, unless it is exited. */
  lemma OutsSnoc(out: EventType, gone: seq<SceneItem?>, x: SceneItem?, exited: set<SceneItem>)
    ensures Outs(out, gone + [x], exited) ==
      Outs(out, gone, exited) + if x == null || x !in exited then [Firing(out, x)] else []
  {
    assert (gone + [x])[..|gone|] == gone;
  }

  /** For each newly picked item, `over` immediately followed by `move`. */
  function Enter(over: EventType, move: EventType, items: seq<SceneItem?>): (r: seq<Firing>)
    ensures |r| == 2 * |items|
    decreases |items|
  {
    if items == [] then []
    else Enter(over, move, items[..|items| - 1]) + [Firing(over, items[|items| - 1]), Firing(move, items[|items| - 1])]
  }

  /** One more new item adds its over and move firings at the end. */
  lemma EnterSnoc(over: EventType, move: EventType, items: seq<SceneItem?>, x: SceneItem?)
    ensures Enter(over, move, items + [x]) == Enter(over, move, items) + [Firing(over, x), Firing(move, x)]
  {
    assert (items + [x])[..|items|] == items;
  }

  /** Over precedes move on entry: the `i`-th new item owns positions `2i` (over) and `2i + 1` (move). */
  lemma {:induction false} EnterAt(over: EventType, move: EventType, items: seq<SceneItem?>, i: nat)
    requires i < |items|
    ensures Enter(over, move, items)[2 * i] == Firing(over, items[i])
    ensures Enter(over, move, items)[2 * i + 1] == Firing(move, items[i])
    decreases |items|
  {
    if i < |items| - 1 {
      EnterAt(over, move, items[..|items| - 1], i);
    }
  }

  /**
   * The firings of `move(moveEvent, overEvent, outEvent)` with previous
   * actives `a` and pick `p`: at most one per old active item (a move or
   * an out) and two per newly picked item.
   */
  function MoveFirings(a: seq<SceneItem?>, p: seq<SceneItem?>, kinds: MoveKinds, exited: set<SceneItem>): (r: seq<Firing>)
    ensures |r| <= |a| + 2 * |p|
  {
    AmongOutsidePartition(a, p);
    assert |multiset(a)| == |multiset(Among(a, p))| + |multiset(Outside(a, p))|;
    Each(kinds.move, Among(a, p)) + Outs(kinds.out, Outside(a, p), exited) + Enter(kinds.over, kinds.move, Outside(p, a))
  }

  /**
   * The active list a move leaves behind: the items still picked, in their
   * old order, then the newly picked ones, in pick order. It holds exactly
   * the picked items, and its two parts are disjoint.
   */
  function NextActives(a: seq<SceneItem?>, p: seq<SceneItem?>): (r: seq<SceneItem?>)
    ensures forall x :: x in r ==> x in p
    ensures forall x :: x in p ==> x in r
    ensures forall x :: x in Among(a, p) ==> x !in Outside(p, a)
  {
    Among(a, p) + Outside(p, a)
  }

  /**
   * No duplicates: when neither the old active list nor the pick repeats an
   * item, the new active list repeats none either and is a rearrangement of
   * the pick.
   */
  lemma NextActivesRearrangesPick(a: seq<SceneItem?>, p: seq<SceneItem?>)
    requires NoDup(a) && NoDup(p)
    ensures NoDup(NextActives(a, p))
    ensures multiset(NextActives(a, p)) == multiset(p)
  {
    var r := NextActives(a, p);
    NoDupAppend(Among(a, p), Outside(p, a));
    NoDupSameElements(r, p);
  }

  /** Firings of a given type for a given item in `Each`. */
  lemma EachMember(kind: EventType, items: seq<SceneItem?>, f: Firing)
    ensures f in Each(kind, items) <==> f.kind == kind && f.item in items
  {
    var r := Each(kind, items);
    if f in r {
      var i :| 0 <= i < |r| && r[i] == f;
      EachAt(kind, items, i);
    }
    if f.kind == kind && f.item in items {
      var i :| 0 <= i < |items| && items[i] == f.item;
      EachAt(kind, items, i);
    }
  }

  /** Firings of a given type for a given item in `Enter`. */
  lemma EnterMember(over: EventType, move: EventType, items: seq<SceneItem?>, f: Firing)
    ensures f in Enter(over, move, items) <==> (f.kind == over || f.kind == move) && f.item in items
  {
    var r := Enter(over, move, items);
    if f in r {
      var k :| 0 <= k < |r| && r[k] == f;
      var i := k / 2;
      assert k == 2 * i || k == 2 * i + 1;
      EnterAt(over, move, items, i);
    }
    if (f.kind == over || f.kind == move) && f.item in items {
      var i :| 0 <= i < |items| && items[i] == f.item;
      EnterAt(over, move, items, i);
    }
  }

  /**
   * Which firings a move makes, per item: a move for every picked item, an
   * over exactly for the items picked now but not active before, and an out
   * exactly for the items active before, not picked now, and not marked exit
   * (a null item counts as unmarked).
   */
  lemma MoveFiresFor(a: seq<SceneItem?>, p: seq<SceneItem?>, kinds: MoveKinds, exited: set<SceneItem>, x: SceneItem?)
    requires kinds.Distinct()
    ensures Firing(kinds.move, x) in MoveFirings(a, p, kinds, exited) <==> x in p
    ensures Firing(kinds.over, x) in MoveFirings(a, p, kinds, exited) <==> x in p && x !in a
    ensures Firing(kinds.out, x) in MoveFirings(a, p, kinds, exited) <==>
      x in a && x !in p && (x == null || x !in exited)
  {
    var e1, e2, e3 := Each(kinds.move, Among(a, p)), Outs(kinds.out, Outside(a, p), exited), Enter(kinds.over, kinds.move, Outside(p, a));
    assert MoveFirings(a, p, kinds, exited) == e1 + e2 + e3;
    EachMember(kinds.move, Among(a, p), Firing(kinds.move, x));
    EachMember(kinds.move, Among(a, p), Firing(kinds.over, x));
    EachMember(kinds.move, Among(a, p), Firing(kinds.out, x));
    EnterMember(kinds.over, kinds.move, Outside(p, a), Firing(kinds.move, x));
    EnterMember(kinds.over, kinds.move, Outside(p, a), Firing(kinds.over, x));
    EnterMember(kinds.over, kinds.move, Outside(p, a), Firing(kinds.out, x));
  }

  /**
   * Exit suppression: an item that stops being picked while its exit marker
   * is set gets no out firing and is still dropped from the active list.
   */
  lemma ExitSuppressed(a: seq<SceneItem?>, p: seq<SceneItem?>, kinds: MoveKinds, x: SceneItem)
    requires kinds.Distinct()
    requires x in a && x !in p && x.exit
    ensures Firing(kinds.out, x) !in MoveFirings(a, p, kinds, ExitMarked(a))
    ensures x !in NextActives(a, p)
  {
    MoveFiresFor(a, p, kinds, ExitMarked(a), x);
  }

  /** `Enter` never repeats a firing when its items are distinct. */
  lemma {:induction false} EnterNoDup(over: EventType, move: EventType, items: seq<SceneItem?>)
    requires over != move && NoDup(items)
    ensures NoDup(Enter(over, move, items))
    decreases |items|
  {
    if items != [] {
      var init, x := items[..|items| - 1], items[|items| - 1];
      assert items == init + [x];
      assert NoDup(init);
      EnterNoDup(over, move, init);
      forall f | f in Enter(over, move, init) ensures f != Firing(over, x) && f != Firing(move, x) {
        EnterMember(over, move, init, f);
      }
      NoDupAppend(Enter(over, move, init), [Firing(over, x), Firing(move, x)]);
    }
  }

  /**
   * When neither the old active list nor the pick repeats an item and the
   * three types differ, a move fires no (type, item) pair twice.
   */
  lemma MoveFiresOnce(a: seq<SceneItem?>, p: seq<SceneItem?>, kinds: MoveKinds, exited: set<SceneItem>)
    requires kinds.Distinct() && NoDup(a) && NoDup(p)
    ensures NoDup(MoveFirings(a, p, kinds, exited))
  {
    var e1, e2, e3 := Each(kinds.move, Among(a, p)), Outs(kinds.out, Outside(a, p), exited), Enter(kinds.over, kinds.move, Outside(p, a));
    assert NoDup(e1) by {
      forall i, j | 0 <= i < j < |e1| ensures e1[i] != e1[j] {
        EachAt(kinds.move, Among(a, p), i);
        EachAt(kinds.move, Among(a, p), j);
      }
    }
    EnterNoDup(kinds.over, kinds.move, Outside(p, a));
    forall f | f in e1 ensures f !in e2 {
      EachMember(kinds.move, Among(a, p), f);
    }
    NoDupAppend(e1, e2);
    forall f | f in e1 + e2 ensures f !in e3 {
      EnterMember(kinds.over, kinds.move, Outside(p, a), f);
      if f in e1 {
        EachMember(kinds.move, Among(a, p), f);
      }
    }
    NoDupAppend(e1 + e2, e3);
  }

  /**
   * Move order on a concrete case: with actives [A, B] and pick [B, C],
   * hovering fires move(B), out(A), over(C), move(C) and keeps [B, C].
   */
  lemma HoverScenario(A: SceneItem, B: SceneItem, C: SceneItem)
    requires A != B && B != C && A != C
    ensures MoveFirings([A, B], [B, C], Hover, {}) ==
      [Firing(MouseMove, B), Firing(MouseOut, A), Firing(MouseOver, C), Firing(MouseMove, C)]
    ensures NextActives([A, B], [B, C]) == [B, C]
  {
    FiltersOnScenario(A, B, C);
    assert Each(MouseMove, [B]) == [Firing(MouseMove, B)];
    assert Outs(MouseOut, [A], {}) == [Firing(MouseOut, A)];
    assert Enter(MouseOver, MouseMove, [C]) == [Firing(MouseOver, C), Firing(MouseMove, C)];
  }

  /** The three filters of a move from [A, B] to [B, C]. */
  lemma FiltersOnScenario(A: SceneItem?, B: SceneItem?, C: SceneItem?)
    requires A != B && B != C && A != C
    ensures Among([A, B], [B, C]) == [B]
    ensures Outside([A, B], [B, C]) == [A]
    ensures Outside([B, C], [A, B]) == [C]
  {
    var ab, bc := [A, B], [B, C];
    assert ab[..1] == [A] && bc[..1] == [B] && [A][..0] == [] && [B][..0] == [];
    assert Among([A], bc) == [];
    assert Outside([A], bc) == [A];
    assert Outside([B], ab) == [];
  }

  /** With no item exited, the out step fires for every gone item. */
  lemma {:induction false} OutsNoneExited(out: EventType, gone: seq<SceneItem?>)
    ensures Outs(out, gone, {}) == Each(out, gone)
    decreases |gone|
  {
    if gone != [] {
      OutsNoneExited(out, gone[..|gone| - 1]);
    }
  }

  /**
   * Leaving the canvas is a full deactivation: its firings are those of a
   * move to an empty pick in which no item counts as exited.
   */
  lemma DeactivationIsUnsuppressedEmptyMove(a: seq<SceneItem?>, kinds: MoveKinds)
    ensures Each(kinds.out, a) == MoveFirings(a, [], kinds, {})
    ensures NextActives(a, []) == []
  {
    AmongNothing(a);
    OutsideNothing(a);
    OutsNoneExited(kinds.out, a);
    assert Outside([], a) == [];
    assert [] + Each(kinds.out, a) + [] == Each(kinds.out, a);
  }

  /**
   * The firings of `click`: one click for each active item that was also
   * active at the last press, in the order of the active list.
   */
  function ClickFirings(actives: seq<SceneItem?>, down: seq<SceneItem?>): (r: seq<Firing>)
    ensures |r| <= |actives|
    ensures down == [] ==> r == []
  {
    AmongNothing(actives);
    Each(Click, Among(actives, down))
  }

  /** One more item fires after the others exactly when it is kept. */
  lemma EachAmongSnoc(kind: EventType, s: seq<SceneItem?>, x: SceneItem?, keep: seq<SceneItem?>)
    ensures Each(kind, Among(s + [x], keep)) == Each(kind, Among(s, keep)) + if x in keep then [Firing(kind, x)] else []
  {
    AmongSnoc(s, x, keep);
    if x in keep {
      EachSnoc(kind, Among(s, keep), x);
    } else {
      assert Among(s + [x], keep) == Among(s, keep) + [];
    }
  }

  /** A click fires for `x` exactly when `x` is active now and was active at the last press. */
  lemma ClickFiresFor(actives: seq<SceneItem?>, down: seq<SceneItem?>, x: SceneItem?)
    ensures Firing(Click, x) in ClickFirings(actives, down) <==> x in actives && x in down
  {
    EachMember(Click, Among(actives, down), Firing(Click, x));
  }
}
