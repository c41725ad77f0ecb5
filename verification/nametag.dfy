/**
 The name label that follows the player, `Text.update` (js/index.js:103-131),
 without its drawing.
 */
module Nametag {
  import opened Physics

  /** `pos` is recomputed from the bound entity every frame; the rest is fixed
      display data. */
  datatype Label = Label(pos: Vec, offset: Vec, text: string, font: string, color: string)

  /** The point a label tracks on `e`: the middle of its top edge. */
  function Anchor(e: Entity): (p: Vec)
    ensures p.y == e.pos.y
    ensures p.x - e.pos.x == e.pos.x + e.width - p.x
  {
    Vec(e.pos.x + e.width / 2.0, e.pos.y)
  }

  /** The part of `Text.update` after the draw: move the label to the entity. */
  function Track(l: Label, e: Entity): (r: Label)
    ensures r.pos == Anchor(e)
    ensures r.offset == l.offset && r.text == l.text && r.font == l.font && r.color == l.color
  {
    l.(pos := Vec(e.pos.x + e.width / 2.0, e.pos.y))
  }

  /** True when the label sits on the entity's anchor. */
  predicate OnEntity(l: Label, e: Entity) {
    l.pos == Anchor(e)
  }

  /** The label ends up over the entity's top edge, whatever it held before, and
      tracking twice is tracking once. */
  lemma TrackCentres(l: Label, e: Entity)
    requires e.width >= 0.0
    ensures OnEntity(Track(l, e), e)
    ensures e.pos.x <= Track(l, e).pos.x <= e.pos.x + e.width
    ensures Track(Track(l, e), e) == Track(l, e)
  {
  }

  /** The label depends on the entity only through its position and width. */
  lemma TrackReadsPositionAndWidth(l: Label, e: Entity, e': Entity)
    requires e.pos == e'.pos && e.width == e'.width
    ensures Track(l, e) == Track(l, e')
  {
  }
}
