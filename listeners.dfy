/**
 * The native listener record of the canvas handler (`_events`): which
 * types have a listener on the canvas, and, as a ghost of the model, the
 * order in which the listeners were attached.
 */
module Listeners {
  import opened Seqs
  import opened Events

  /** The attached types, and every attachment in order. */
  datatype Record = Record(attached: set<EventType>, log: seq<EventType>)

  /** Each type was attached at most once, and the record marks exactly the attached types. */
  predicate Consistent(r: Record)
  {
    NoDup(r.log) && r.attached == (set k | k in r.log)
  }

  /**
   * `addEventListener(k)`: when a canvas exists and `k` is not marked yet,
   * marks it and attaches its listener; otherwise changes nothing.
   */
  function Attach(canvas: bool, r: Record, k: EventType): (r': Record)
    ensures k in r'.attached <==> k in r.attached || canvas
    ensures r.attached <= r'.attached
    ensures |r'.log| <= |r.log| + 1
  {
    if canvas && k !in r.attached then Record(r.attached + {k}, r.log + [k]) else r
  }

  /** Attaching one type keeps the record consistent with the log. */
  lemma AttachKeepsConsistent(canvas: bool, r: Record, k: EventType)
    requires Consistent(r)
    ensures Consistent(Attach(canvas, r, k))
  {
    if canvas && k !in r.attached {
      NoDupAppend(r.log, [k]);
    }
  }

  /** `addEventListener` for each of `kinds`, in order. */
  function AttachAll(canvas: bool, r: Record, kinds: seq<EventType>): (r': Record)
    ensures r.attached <= r'.attached
    ensures |r'.log| <= |r.log| + |kinds|
    decreases |kinds|
  {
    if kinds == [] then r
    else Attach(canvas, AttachAll(canvas, r, kinds[..|kinds| - 1]), kinds[|kinds| - 1])
  }

  /** One more type is one more `addEventListener`. */
  lemma AttachAllSnoc(canvas: bool, r: Record, kinds: seq<EventType>, k: EventType)
    ensures AttachAll(canvas, r, kinds + [k]) == Attach(canvas, AttachAll(canvas, r, kinds), k)
  {
    assert (kinds + [k])[..|kinds|] == kinds;
  }

  /** Attaching a one-type bundle is one `addEventListener`. */
  lemma AttachAllSingle(canvas: bool, r: Record, k: EventType)
    ensures AttachAll(canvas, r, [k]) == Attach(canvas, r, k)
  {
    assert [k][..0] == [];
  }

  /**
   * Attaching `kinds` marks exactly the types of `kinds` when a canvas
   * exists, and nothing otherwise; marks are never removed.
   */
  lemma {:induction false} AttachAllMarks(canvas: bool, r: Record, kinds: seq<EventType>)
    ensures AttachAll(canvas, r, kinds).attached == if canvas then r.attached + (set k | k in kinds) else r.attached
    decreases |kinds|
  {
    if kinds != [] {
      var init, k := kinds[..|kinds| - 1], kinds[|kinds| - 1];
      assert kinds == init + [k];
      AttachAllMarks(canvas, r, init);
    }
  }

  /**
   * Attaching duplicate-free `kinds` adds to the log, in order, exactly the
   * types that were not marked before: each listener is attached once.
   */
  lemma {:induction false} AttachAllLog(canvas: bool, r: Record, kinds: seq<EventType>)
    requires NoDup(kinds)
    ensures AttachAll(canvas, r, kinds).log == r.log + (if canvas then Unattached(kinds, r.attached) else [])
    decreases |kinds|
  {
    if kinds != [] {
      var init, k := kinds[..|kinds| - 1], kinds[|kinds| - 1];
      assert kinds == init + [k];
      assert NoDup(init);
      assert k !in init;
      AttachAllLog(canvas, r, init);
      AttachAllMarks(canvas, r, init);
      UnattachedSnoc(init, k, r.attached);
      if canvas {
        AppendAssoc(r.log, Unattached(init, r.attached), if k in r.attached then [] else [k]);
      }
    }
  }

  /** Attaching any types keeps the record consistent with the log. */
  lemma {:induction false} AttachAllKeepsConsistent(canvas: bool, r: Record, kinds: seq<EventType>)
    requires Consistent(r)
    ensures Consistent(AttachAll(canvas, r, kinds))
    decreases |kinds|
  {
    if kinds != [] {
      var init, k := kinds[..|kinds| - 1], kinds[|kinds| - 1];
      AttachAllKeepsConsistent(canvas, r, init);
      AttachKeepsConsistent(canvas, AttachAll(canvas, r, init), k);
    }
  }

  /** Attaching the same types again changes nothing: attachment is idempotent. */
  lemma {:induction false} AttachAllAgain(canvas: bool, r: Record, kinds: seq<EventType>)
    ensures AttachAll(canvas, AttachAll(canvas, r, kinds), kinds) == AttachAll(canvas, r, kinds)
  {
    AttachAllMarks(canvas, r, kinds);
    AttachAllMarked(canvas, AttachAll(canvas, r, kinds), kinds);
  }

  /** Attaching types all of which are marked, or with no canvas, changes nothing. */
  lemma {:induction false} AttachAllMarked(canvas: bool, r: Record, kinds: seq<EventType>)
    requires canvas ==> forall k :: k in kinds ==> k in r.attached
    ensures AttachAll(canvas, r, kinds) == r
    decreases |kinds|
  {
    if kinds != [] {
      var init, k := kinds[..|kinds| - 1], kinds[|kinds| - 1];
      assert kinds == init + [k];
      AttachAllMarked(canvas, r, init);
    }
  }

  /** With a canvas, requesting any touch type attaches the whole touch lifecycle. */
  lemma TouchBundleAttachesAll(r: Record, kind: EventType)
    requires kind in TouchKinds
    ensures var r' := AttachAll(true, r, EventBundle(kind));
      TouchStart in r'.attached && TouchMove in r'.attached && TouchEnd in r'.attached
  {
    AttachAllMarks(true, r, EventBundle(kind));
  }

  /**
   * The bootstrap attachment marks exactly click, mousedown, mousemove,
   * mouseout and dragleave in addition to what was marked, when a canvas exists.
   */
  lemma BootstrapMarks(canvas: bool, r: Record)
    ensures AttachAll(canvas, r, Bootstrap).attached ==
      if canvas then r.attached + {Click, MouseDown, MouseMove, MouseOut, DragLeave} else r.attached
  {
    AttachAllMarks(canvas, r, Bootstrap);
    assert (set k | k in Bootstrap) == {Click, MouseDown, MouseMove, MouseOut, DragLeave};
  }
}
