/**
 * Scene items as the dispatcher sees them, and the normalisation of a pick
 * result into an ordered list of items.
 */
module Scene {

  /**
   * An opaque handle into the scene graph. Identity is reference identity.
   * `exit` is set by application code when the item leaves the scene; `href`
   * is the item's link target, the empty string standing for "none"; the
   * dispatcher only reads both.
   */
  class SceneItem {
    var exit: bool
    const href: string

    constructor (exit: bool, href: string)
      ensures this.exit == exit && this.href == href
    {
      this.exit := exit;
      this.href := href;
    }
  }

  /** The non-null items of a list, as a frame. */
  function Objects(s: seq<SceneItem?>): (r: set<SceneItem>)
  {
    set x: SceneItem | x in s
  }

  /** The items of `s` whose exit marker is currently set. */
  function ExitMarked(s: seq<SceneItem?>): (r: set<SceneItem>)
    reads Objects(s)
    ensures forall x: SceneItem :: x in r ==> x in s && x.exit
    ensures forall x: SceneItem :: x in s && x.exit ==> x in r
  {
    set x: SceneItem | x in s && x.exit
  }

  /**
   * What the mark's geometry test hands back: nothing (null or undefined),
   * a single item, or a list (anything with a `length`).
   */
  datatype PickResult =
    | NothingPicked
    | PickedItem(item: SceneItem)
    | PickedList(items: seq<SceneItem?>)

  /**
   * `pickEvent`'s normalisation: a list is kept as it is, any other value is
   * wrapped in a one-element list, so picking nothing yields `[null]`.
   */
  function PickEvent(picked: PickResult): (r: seq<SceneItem?>)
    ensures picked.PickedList? ==> r == picked.items
    ensures picked.PickedItem? ==> r == [picked.item]
    ensures picked.NothingPicked? ==> r == [null]
    ensures !picked.PickedList? ==> |r| == 1
  {
    match picked
    case NothingPicked => [null]
    case PickedItem(item) => [item]
    case PickedList(items) => items
  }
}
