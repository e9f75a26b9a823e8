/** Building the 5x5 grid of tiles (the `Game` script component): where each tile
    is placed, which cell of `tileMap` holds it, and which sprite it starts with. */
module GameScript {
  import opened TileScript

  /** Bounds of the outer loop index i (the first index of `tileMap`). */
  const Rows := 5
  /** Bounds of the inner loop index j (the second index of `tileMap`). */
  const Cols := 5
  /** `topLeftTileLocation`: the grid hangs to the right of and below this point. */
  const TopLeftTileLocation := Point(2, 8)

  /** The world position given to the tile stored at cell (r, c), that is at loop
      indices i = r + 1 and j = c + 1: x grows with i, y falls with j. */
  function TilePosition(r: nat, c: nat): (p: Point)
    requires r < Rows && c < Cols
    ensures 3 <= p.x <= 7 && 3 <= p.y <= 7
  {
    Point(TopLeftTileLocation.x + (r + 1), TopLeftTileLocation.y - (c + 1))
  }

  datatype Option<T> = None | Some(value: T)

  /** The cell whose tile sits at world point p, if any: the inverse of TilePosition. */
  function CellAt(p: Point): (cell: Option<(nat, nat)>)
  {
    var r := p.x - TopLeftTileLocation.x - 1;
    var c := TopLeftTileLocation.y - p.y - 1;
    if 0 <= r < Rows && 0 <= c < Cols then Some((r, c)) else None
  }

  /** Every cell's tile is found back at its own position, so no two tiles share one. */
  lemma CellAtTilePosition(r: nat, c: nat)
    requires r < Rows && c < Cols
    ensures CellAt(TilePosition(r, c)) == Some((r, c))
  {
  }

  /** Every point that CellAt maps to a cell is the position of that cell's tile. */
  lemma TilePositionCellAt(p: Point)
    requires CellAt(p).Some?
    ensures CellAt(p).value.0 < Rows && CellAt(p).value.1 < Cols
    ensures TilePosition(CellAt(p).value.0, CellAt(p).value.1) == p
  {
  }

  /** No two cells share a position. */
  lemma TilePositionInjective(r1: nat, c1: nat, r2: nat, c2: nat)
    requires r1 < Rows && c1 < Cols && r2 < Rows && c2 < Cols
    ensures TilePosition(r1, c1) == TilePosition(r2, c2) <==> r1 == r2 && c1 == c2
  {
  }

  /** The 0-based number of the loop iteration that fills cell (r, c):
      the nested loops visit the cells row by row. */
  function CreationIndex(r: nat, c: nat): (k: nat)
    requires r < Rows && c < Cols
    ensures k < Rows * Cols
  {
    Cols * r + c
  }

  /** Each of the 25 iterations fills cell (k / Cols, k % Cols), which lies inside the map. */
  lemma CellOfIteration(k: nat)
    requires k < Rows * Cols
    ensures k / Cols < Rows && k % Cols < Cols
    ensures CreationIndex(k / Cols, k % Cols) == k
  {
  }

  /** Cell (r, c) is filled by iteration k exactly when it is cell (k / Cols, k % Cols),
      so each cell is filled by one iteration only. */
  lemma CreationIndexBijective(k: nat, r: nat, c: nat)
    requires r < Rows && c < Cols
    ensures CreationIndex(r, c) == k <==> r == k / Cols && c == k % Cols
  {
  }

  /** `spriteColorToggle` after n calls of createTile, starting from `start`. */
  function FlagAfter(start: bool, n: nat): bool
  {
    if n == 0 then start else !FlagAfter(start, n - 1)
  }

  /** The flag is back at its starting value exactly after an even number of flips. */
  lemma {:induction false} FlagAfterParity(start: bool, n: nat)
    ensures FlagAfter(start, n) == (start == (n % 2 == 0))
  {
    if n > 0 {
      FlagAfterParity(start, n - 1);
    }
  }

  /** The sprite createTile assigns for a given value of `spriteColorToggle`. */
  function SpriteFor(toggle: bool): (s: Sprite)
    ensures s == Blue <==> toggle
    ensures s == Red <==> !toggle
  {
    if toggle then Blue else Red
  }

  /** The sprite of the k-th tile created (0-based) when the flag starts at `start`. */
  function StartingSprite(start: bool, k: nat): (s: Sprite)
    ensures s != Unset
  {
    SpriteFor(FlagAfter(start, k))
  }

  /** From the initial flag `true`, the k-th tile is blue exactly when k is even. */
  lemma AlternationByCreationOrder(k: nat)
    ensures StartingSprite(true, k) == Blue <==> k % 2 == 0
    ensures StartingSprite(true, k) == Red <==> k % 2 == 1
  {
    FlagAfterParity(true, k);
  }

  /** Because a row holds an odd number of cells, the alternation by creation order is a
      checkerboard: the tile at loop indices (i, j) = (r + 1, c + 1) is blue exactly when
      i + j is even. */
  lemma Checkerboard(r: nat, c: nat)
    requires r < Rows && c < Cols
    ensures StartingSprite(true, CreationIndex(r, c)) == Blue <==> ((r + 1) + (c + 1)) % 2 == 0
  {
    AlternationByCreationOrder(CreationIndex(r, c));
    assert CreationIndex(r, c) == (r + c) + 4 * r;
  }

  /** A full build flips the flag 25 times, so the flag that starts `true` ends `false`. */
  lemma FullBuildFlag(start: bool)
    ensures FlagAfter(start, Rows * Cols) == !start
  {
    FlagAfterParity(start, Rows * Cols);
  }

  class Game {
    var tileMap: array2<Tile?>
    var spriteColorToggle: bool

    /** The field initialisers: an empty 5x5 map and the flag set. */
    constructor ()
      ensures fresh(tileMap)
      ensures tileMap.Length0 == Rows && tileMap.Length1 == Cols
      ensures forall r, c :: 0 <= r < Rows && 0 <= c < Cols ==> tileMap[r, c] == null
      ensures spriteColorToggle
    {
      tileMap := new Tile?[Rows, Cols]((r, c) => null);
      spriteColorToggle := true;
    }

    /** Makes one tile, gives it the sprite the flag selects, and flips the flag. */
    method CreateTile() returns (tile: Tile)
      modifies this`spriteColorToggle
      ensures fresh(tile)
      ensures tile.sprite == SpriteFor(old(spriteColorToggle))
      ensures tile.position == Point(0, 0)
      ensures spriteColorToggle == !old(spriteColorToggle)
    {
      tile := new Tile();
      if spriteColorToggle {
        tile.sprite := Blue;
        spriteColorToggle := false;
      } else {
        tile.sprite := Red;
        spriteColorToggle := true;
      }
    }

    /** Fills every cell of `tileMap` with its own new tile, positioned by TilePosition,
        its sprite chosen by the running flag. The ghost `created` lists the tiles in the
        order they were made: iteration k fills exactly the cell with CreationIndex k. */
    method CreateAndArrangeTiles() returns (ghost created: seq<Tile>)
      requires tileMap.Length0 == Rows && tileMap.Length1 == Cols
      modifies this`spriteColorToggle, tileMap
      ensures |created| == Rows * Cols
      ensures forall k :: 0 <= k < |created| ==> fresh(created[k])
      ensures forall k1, k2 :: 0 <= k1 < k2 < |created| ==> created[k1] != created[k2]
      ensures forall k :: 0 <= k < |created| ==>
        created[k].sprite == StartingSprite(old(spriteColorToggle), k)
      ensures forall r, c :: 0 <= r < Rows && 0 <= c < Cols ==>
        tileMap[r, c] == created[CreationIndex(r, c)] && tileMap[r, c].position == TilePosition(r, c)
      ensures spriteColorToggle == FlagAfter(old(spriteColorToggle), Rows * Cols)
    {
      ghost var start := spriteColorToggle;
      created := [];
      var i := 1;
      while i <= Rows
        invariant 1 <= i <= Rows + 1
        invariant |created| == Cols * (i - 1)
        invariant spriteColorToggle == FlagAfter(start, |created|)
        invariant forall k :: 0 <= k < |created| ==> fresh(created[k])
        invariant forall k1, k2 :: 0 <= k1 < k2 < |created| ==> created[k1] != created[k2]
        invariant forall k :: 0 <= k < |created| ==> created[k].sprite == StartingSprite(start, k)
        invariant forall r, c :: 0 <= r < Rows && 0 <= c < Cols && CreationIndex(r, c) < |created| ==>
          tileMap[r, c] == created[CreationIndex(r, c)] && tileMap[r, c].position == TilePosition(r, c)
      {
        var j := 1;
        while j <= Cols
          invariant 1 <= j <= Cols + 1
          invariant |created| == Cols * (i - 1) + (j - 1)
          invariant spriteColorToggle == FlagAfter(start, |created|)
          invariant forall k :: 0 <= k < |created| ==> fresh(created[k])
          invariant forall k1, k2 :: 0 <= k1 < k2 < |created| ==> created[k1] != created[k2]
          invariant forall k :: 0 <= k < |created| ==> created[k].sprite == StartingSprite(start, k)
          invariant forall r, c :: 0 <= r < Rows && 0 <= c < Cols && CreationIndex(r, c) < |created| ==>
            tileMap[r, c] == created[CreationIndex(r, c)] && tileMap[r, c].position == TilePosition(r, c)
        {
          var tile := CreateTile();
          tile.position := Point(TopLeftTileLocation.x + i * 1, TopLeftTileLocation.y - j * 1);
          tileMap[i - 1, j - 1] := tile;
          created := created + [tile];
          j := j + 1;
        }
        i := i + 1;
      }
    }
  }

  /** A new Game component running its start-up hook (the camera is not modelled):
      25 distinct tiles in a blue/red checkerboard, blue at the first cell, and the flag
      left `false`. */
  method StartGame() returns (game: Game)
    ensures fresh(game) && fresh(game.tileMap)
    ensures game.tileMap.Length0 == Rows && game.tileMap.Length1 == Cols
    ensures forall r, c :: 0 <= r < Rows && 0 <= c < Cols ==>
      game.tileMap[r, c] != null && fresh(game.tileMap[r, c]) &&
      game.tileMap[r, c].position == TilePosition(r, c) &&
      game.tileMap[r, c].sprite == (if (r + c) % 2 == 0 then Blue else Red)
    ensures forall r1, c1, r2, c2 ::
      0 <= r1 < Rows && 0 <= c1 < Cols && 0 <= r2 < Rows && 0 <= c2 < Cols && (r1, c1) != (r2, c2) ==>
      game.tileMap[r1, c1] != game.tileMap[r2, c2]
    ensures !game.spriteColorToggle
  {
    game := new Game();
    ghost var created := game.CreateAndArrangeTiles();
    FullBuildFlag(true);
    forall r, c | 0 <= r < Rows && 0 <= c < Cols
      ensures game.tileMap[r, c] != null
      ensures game.tileMap[r, c].sprite == (if (r + c) % 2 == 0 then Blue else Red)
    {
      Checkerboard(r, c);
    }
    forall r1, c1, r2, c2 | 0 <= r1 < Rows && 0 <= c1 < Cols && 0 <= r2 < Rows && 0 <= c2 < Cols &&
      (r1, c1) != (r2, c2)
      ensures game.tileMap[r1, c1] != game.tileMap[r2, c2]
    {
      CreationIndexBijective(CreationIndex(r2, c2), r1, c1);
    }
  }

  /** The engine delivering a click to the tile stored at cell (r, c): only that tile's
      sprite changes; the map, the flag and every other tile are untouched. */
  method DeliverClick(game: Game, r: nat, c: nat)
    requires r < game.tileMap.Length0 && c < game.tileMap.Length1
    requires game.tileMap[r, c] != null
    modifies game.tileMap[r, c]`sprite
    ensures game.tileMap[r, c].sprite == Toggled(old(game.tileMap[r, c].sprite))
    ensures game.spriteColorToggle == old(game.spriteColorToggle)
    ensures forall r', c' :: 0 <= r' < game.tileMap.Length0 && 0 <= c' < game.tileMap.Length1 ==>
      game.tileMap[r', c'] == old(game.tileMap[r', c'])
    ensures forall r', c' ::
      0 <= r' < game.tileMap.Length0 && 0 <= c' < game.tileMap.Length1 &&
      game.tileMap[r', c'] != null && game.tileMap[r', c'] != game.tileMap[r, c] ==>
      game.tileMap[r', c'].sprite == old(game.tileMap[r', c'].sprite) &&
      game.tileMap[r', c'].position == old(game.tileMap[r', c'].position)
  {
    game.tileMap[r, c].OnMouseDown();
  }
}
