/**
  The canvas and layout sizes chosen by `renderTree` from the orientation flag
  and the height of the tree (d3's `root.height`, taken here as an input).
 */
module Canvas {

  const BaseWidth := 960
  const BaseHeight := 600
  /** Horizontal room given to each level of the tree in horizontal mode. */
  const LevelWidth := 200

  /** The svg size and the `size([..])` passed to the tree layout. */
  datatype Dimensions = Dimensions(width: int, height: int, layoutX: int, layoutY: int)

  /** Only the exact string "horizontal" selects the horizontal layout;
      every other value takes the vertical branch. */
  predicate IsHorizontal(orientation: string)
  {
    orientation == "horizontal"
  }

  function MaxInt(a: int, b: int): (m: int)
  {
    if a >= b then a else b
  }

  /** `width`, `height` and the tree layout's extents. */
  function Size(orientation: string, treeHeight: nat): (d: Dimensions)
    ensures d.height == 600
    ensures !IsHorizontal(orientation) ==> d.width == 960
    ensures IsHorizontal(orientation) ==>
      && d.width >= 960
      && d.width >= 200 * treeHeight
      && (d.width == 960 || d.width == 200 * treeHeight)
    ensures IsHorizontal(orientation) ==> d.layoutX == d.height - 100 && d.layoutY == d.width - 200
    ensures !IsHorizontal(orientation) ==> d.layoutX == d.width - 100 && d.layoutY == d.height - 100
    ensures d.layoutX > 0 && d.layoutY > 0
  {
    var width := if IsHorizontal(orientation) then MaxInt(BaseWidth, treeHeight * LevelWidth) else BaseWidth;
    var height := BaseHeight;
    if IsHorizontal(orientation) then Dimensions(width, height, height - 100, width - 200)
    else Dimensions(width, height, width - 100, height - 100)
  }

  /** A taller tree never gets a narrower canvas, and the width stays at the
      base width until the tree is more than 4 levels high. */
  lemma WidthGrowsWithHeight(orientation: string, h1: nat, h2: nat)
    requires h1 <= h2
    ensures Size(orientation, h1).width <= Size(orientation, h2).width
    ensures h2 <= 4 ==> Size(orientation, h2).width == 960
    ensures IsHorizontal(orientation) && h2 > 4 ==> Size(orientation, h2).width == 200 * h2
  {
  }

  /** In horizontal mode the layout's depth extent is at least
      200 * (treeHeight - 1) pixels; spread evenly over the `treeHeight` levels
      below the root, it gives each level at least 160 pixels (the minimum,
      reached at height 5). */
  lemma HorizontalRoomPerLevel(treeHeight: nat)
    ensures Size("horizontal", treeHeight).layoutY >= 200 * (treeHeight - 1)
    ensures Size("horizontal", treeHeight).layoutY >= 160 * treeHeight
    ensures treeHeight == 5 ==> Size("horizontal", treeHeight).layoutY == 160 * treeHeight
  {
  }
}
