/** The click behaviour of one tile of the grid (the `Tile` script component).
    The two sprite assets are enum constants; `Unset` is the renderer's sprite
    before anything has been assigned to it. */
module TileScript {

  datatype Sprite = Unset | Blue | Red

  /** A world position. Every offset the game uses is a whole number of units. */
  datatype Point = Point(x: int, y: int)

  /** The sprite a click leaves behind: red becomes blue, anything else becomes red. */
  function Toggled(s: Sprite): (r: Sprite)
    ensures r == Blue <==> s == Red
    ensures r == Red <==> s != Red
    ensures r != Unset
  {
    if s == Red then Blue else Red
  }

  /** Two clicks restore a tile that shows one of the two sprites. */
  lemma ToggleSelfInverse(s: Sprite)
    requires s != Unset
    ensures Toggled(Toggled(s)) == s
  {
  }

  /** A tile whose sprite was never set shows blue after two clicks, not its original state. */
  lemma ToggleTwiceFromUnset()
    ensures Toggled(Toggled(Unset)) == Blue
  {
  }

  /** The sprite after `n` successive clicks. */
  function AfterClicks(s: Sprite, n: nat): Sprite
  {
    if n == 0 then s else Toggled(AfterClicks(s, n - 1))
  }

  /** On a blue or red tile only the parity of the number of clicks matters. */
  lemma {:induction false} ClicksParity(s: Sprite, n: nat)
    requires s != Unset
    ensures AfterClicks(s, n) == if n % 2 == 0 then s else Toggled(s)
  {
    if n > 0 {
      ClicksParity(s, n - 1);
      ToggleSelfInverse(s);
    }
  }

  /** On any tile, at least one click leaves a blue or red sprite, and from then on
      the sprite alternates with every click. */
  lemma ClicksAlternate(s: Sprite, n: nat)
    requires n >= 1
    ensures AfterClicks(s, n) != Unset
    ensures AfterClicks(s, n + 1) != AfterClicks(s, n)
    ensures AfterClicks(s, n + 2) == AfterClicks(s, n)
  {
  }

  class Tile {
    /** The sprite of the tile's SpriteRenderer. */
    var sprite: Sprite
    /** The position of the tile's transform. */
    var position: Point

    /** A freshly added component: no sprite yet, at the origin. */
    constructor ()
      ensures sprite == Unset && position == Point(0, 0)
    {
      sprite := Unset;
      position := Point(0, 0);
    }

    /** The click handler: swaps red for blue, and anything else for red. */
    method OnMouseDown()
      modifies this`sprite
      ensures sprite == Toggled(old(sprite))
      ensures position == old(position)
    {
      if sprite == Red {
        sprite := Blue;
      } else {
        sprite := Red;
      }
    }
  }
}
