/** The table of contents of a conference as gc/extractor.py and cr/cr.py read
    it: `div.section` elements, each with its header title and its
    `lumen-tile__content` speaker tiles. Both files walk the same layout. */
module Toc {

  /** A speaker tile: its text (the speaker), the text of the element two
      siblings before it (the talk title, not yet stripped) and the `href` of
      its grandparent link. */
  datatype Tile = Tile(speaker: string, heading: string, href: string)

  /** A section: the text of its first `section__header__title` span and its
      tiles, in document order. */
  datatype Section = Section(title: string, tiles: seq<Tile>)

  /** The `index`-th tile of the section titled `section`, as
      `enumerate(speakers)` yields it. */
  datatype Slot = Slot(section: string, index: nat, tile: Tile)

  /** `enumerate(speakers)` for one section. */
  function Slots(s: Section): (r: seq<Slot>)
    ensures |r| == |s.tiles|
    ensures forall k :: 0 <= k < |r| ==> r[k] == Slot(s.title, k, s.tiles[k])
  {
    seq(|s.tiles|, k requires 0 <= k < |s.tiles| => Slot(s.title, k, s.tiles[k]))
  }
}
