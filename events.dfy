/**
 * The semantic event types the canvas handler routes and fires, and the
 * listener bundles it attaches to the canvas.
 */
module Events {
  import opened Seqs

  /**
   * A spelling of an event type: one constructor per DOM event name the
   * handler uses, and `Other` for any further type a handler may be
   * registered for.
   */
  datatype TypeSpelling =
    | Click | MouseDown | MouseMove | MouseOut | MouseOver | MouseWheel
    | DragEnter | DragLeave | DragOver
    | TouchStart | TouchMove | TouchEnd
    | Other(name: string)

  /** The names the handler itself handles, each spelled by its own constructor. */
  const Reserved: set<string> :=
    {"click", "mousedown", "mousemove", "mouseout", "mouseover", "mousewheel",
     "dragenter", "dragleave", "dragover", "touchstart", "touchmove", "touchend"}

  /** `Other` never spells a name that has its own constructor. */
  predicate Canonical(k: TypeSpelling)
  {
    k.Other? ==> k.name !in Reserved
  }

  /**
   * An event type: a canonical spelling, so that each type has exactly one
   * value, as each has exactly one name in the source.
   */
  type EventType = k: TypeSpelling | Canonical(k) witness Click

  /**
   * The type's name: the key `fire` looks its handlers up under. The name
   * is reserved exactly for the types with their own constructor.
   */
  function TypeName(kind: EventType): (r: string)
    ensures kind.Other? <==> r !in Reserved
  {
    match kind
    case Click => "click"
    case MouseDown => "mousedown"
    case MouseMove => "mousemove"
    case MouseOut => "mouseout"
    case MouseOver => "mouseover"
    case MouseWheel => "mousewheel"
    case DragEnter => "dragenter"
    case DragLeave => "dragleave"
    case DragOver => "dragover"
    case TouchStart => "touchstart"
    case TouchMove => "touchmove"
    case TouchEnd => "touchend"
    case Other(name) => name
  }

  /** Distinct types have distinct names: the model's types are the source's strings. */
  lemma TypeNameInjective(a: EventType, b: EventType)
    ensures TypeName(a) == TypeName(b) <==> a == b
  {
  }

  /** Side-channel types: vega aliases them to click, mousemove and mouseout. */
  const HrefEvent: EventType := Click
  const TooltipShow: EventType := MouseMove
  const TooltipHide: EventType := MouseOut

  /** The touch lifecycle, attached as one bundle. */
  const TouchKinds: seq<EventType> := [TouchStart, TouchMove, TouchEnd]

  /** Listeners attached at initialisation, before any handler is registered. */
  const Bootstrap: seq<EventType> := [Click, MouseDown, MouseMove, MouseOut, DragLeave]

  /**
   * The native types whose listeners must be attached together with `kind`:
   * any touch type brings in the whole touch lifecycle, every other type
   * only itself.
   */
  function EventBundle(kind: EventType): (r: seq<EventType>)
    ensures kind in r && NoDup(r)
    ensures kind in TouchKinds ==> r == TouchKinds
    ensures kind !in TouchKinds ==> r == [kind]
  {
    if kind == TouchStart || kind == TouchMove || kind == TouchEnd then TouchKinds else [kind]
  }

  /** The bootstrap set lists five distinct types, none of them a touch type. */
  lemma BootstrapShape()
    ensures NoDup(Bootstrap) && |Bootstrap| == 5
    ensures forall k :: k in Bootstrap ==> k !in TouchKinds
  {
  }

  /**
   * The types of `kinds` not yet in `attached`, in order: the listeners
   * that attaching `kinds` one after the other adds.
   */
  function Unattached(kinds: seq<EventType>, attached: set<EventType>): (r: seq<EventType>)
    ensures forall k :: k in r ==> k in kinds && k !in attached
    ensures forall k :: k in kinds && k !in attached ==> k in r
    ensures NoDup(kinds) ==> NoDup(r)
    decreases |kinds|
  {
    if kinds == [] then []
    else
      var init, k := kinds[..|kinds| - 1], kinds[|kinds| - 1];
      assert kinds == init + [k];
      var r0 := Unattached(init, attached);
      if k in attached then r0 else r0 + [k]
  }

  /** One more type adds itself at the end exactly when it is not attached yet. */
  lemma UnattachedSnoc(kinds: seq<EventType>, k: EventType, attached: set<EventType>)
    ensures Unattached(kinds + [k], attached) == Unattached(kinds, attached) + if k in attached then [] else [k]
  {
    assert (kinds + [k])[..|kinds|] == kinds;
  }
}
