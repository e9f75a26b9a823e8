# UnityTileDemo: the tile grid and its click toggle

This project models the two pieces of sequential logic in the UnityTileDemo tutorial:

- **Building the grid** (`Game`, Assets/Game.cs). Two nested loops run `i` and `j`
  over 1..5. Each iteration makes a tile with `createTile`, places it at
  `(topLeftTileLocation.x + i, topLeftTileLocation.y - j)` with `topLeftTileLocation = (2, 8)`,
  and stores it in `tileMap[i-1, j-1]`. `createTile` gives the tile the blue sprite when the
  field `spriteColorToggle` is set and the red one otherwise, then flips the field. The field
  starts `true` and is never reset between rows.
- **Clicking a tile** (`Tile.OnMouseDown`, Assets/Tile.cs). A red tile turns blue, and any
  other tile (blue, or one whose renderer has no sprite yet) turns red.

`TileScript` (tile_script.dfy) holds the sprite enum (`Unset | Blue | Red`), the `Tile` class
with its `sprite` and transform `position`, and the pure function `Toggled` that specifies the
click. `GameScript` (game_script.dfy) holds the `Game` class, which has the fields
`tileMap: array2<Tile?>` and `spriteColorToggle: bool`. The loops are written out as in the
source and proved against specification functions:
- `TilePosition` gives each cell's position, and its inverse `CellAt` maps a point back to a cell.
- `CreationIndex` gives the row-by-row iteration number of each cell.
- `FlagAfter` gives the flag's value after n flips.
- `StartingSprite` gives the sprite of the k-th tile created.
- `AfterClicks` gives a tile's sprite after n clicks.

Positions use integers. Every offset in the source is a whole number of units, so the float
`Vector2` arithmetic loses nothing here.

The grid's first index `i` sets x and its second index `j` sets y, because that is what the code
does (Assets/Game.cs:97-98). So `tileMap[0, 1]` sits at (3, 6), not at (4, 7) as a
row/column reading of the grid would suggest. Tiles are alternated by creation order. Each row
has an odd number of cells (5), so this alternation is the same as a checkerboard keyed on the
parity of `i + j` (lemma `Checkerboard`).

## Model

| member | source | states |
|---|---|---|
| TileScript.Toggled | Assets/Tile.cs:11-15 | a click yields blue exactly when the sprite was red, red exactly when it was anything else, and never leaves the sprite unset |
| TileScript.ToggleSelfInverse | Assets/Tile.cs:11-15 | two clicks on a blue or red tile restore its sprite |
| TileScript.ToggleTwiceFromUnset | Assets/Tile.cs:11-15 | a tile with no sprite yet shows blue after two clicks, so self-inverse holds only for blue and red |
| TileScript.ClicksParity | Assets/Tile.cs:11-15 | after n clicks on a blue or red tile the sprite is the original one when n is even and the toggled one when n is odd |
| TileScript.ClicksAlternate | Assets/Tile.cs:11-15 | from the first click on, the sprite is blue or red, changes on every click and repeats every two clicks |
| TileScript.Tile.constructor | Assets/Game.cs:127-148 | a freshly added tile component has no sprite and sits at the origin |
| TileScript.Tile.OnMouseDown | Assets/Tile.cs:6-16 | the new sprite is `Toggled` of the old one (red to blue, anything else to red), only this tile's sprite changes, and its position stays |
| GameScript.TilePosition | Assets/Game.cs:97-99 | the tile of cell (i-1, j-1) sits at (2 + i, 8 - j), and both coordinates lie in 3..7 |
| GameScript.CellAtTilePosition | Assets/Game.cs:97-105 | each cell's tile position maps back to that cell |
| GameScript.TilePositionCellAt | Assets/Game.cs:97-105 | each point that maps to a cell is that cell's tile position, and the cell is inside the 5x5 map |
| GameScript.TilePositionInjective | Assets/Game.cs:97-98 | two cells share a position exactly when they are the same cell, so no two tiles overlap |
| GameScript.CreationIndex | Assets/Game.cs:86-87 | the iteration that fills a cell is one of the 25 iterations of the nested loops |
| GameScript.CreationIndexBijective | Assets/Game.cs:86-105 | cell (r, c) is filled by iteration k exactly when (r, c) is (k / 5, k % 5), so each cell is filled by exactly one iteration |
| GameScript.CellOfIteration | Assets/Game.cs:86-105 | each of the 25 iterations k fills cell (k / 5, k % 5), a cell inside the 5x5 map |
| GameScript.FlagAfterParity | Assets/Game.cs:152-158 | after n flips the flag equals its start value exactly when n is even |
| GameScript.SpriteFor | Assets/Game.cs:152-159 | createTile picks blue exactly when the flag is set and red exactly when it is clear |
| GameScript.StartingSprite | Assets/Game.cs:152-159 | every created tile starts blue or red, never unset |
| GameScript.AlternationByCreationOrder | Assets/Game.cs:152-158 | with the initial flag `true` (Assets/Game.cs:26) and one flip per tile created by the loops (Assets/Game.cs:86-87), the k-th tile created is blue exactly when k is even and red exactly when k is odd |
| GameScript.Checkerboard | Assets/Game.cs:86-105 | the tile at loop indices (i, j) starts blue exactly when i + j is even |
| GameScript.FullBuildFlag | Assets/Game.cs:86-87 | 25 flips leave the flag at the negation of its start value, so `true` becomes `false` |
| GameScript.Game.constructor | Assets/Game.cs:24-26 | a new game has an empty 5x5 tile map and the flag set |
| GameScript.Game.CreateTile | Assets/Game.cs:111-166 | returns a new tile whose sprite is chosen by the old flag (blue if set, red otherwise), at the origin, and flips the flag exactly once |
| GameScript.Game.CreateAndArrangeTiles | Assets/Game.cs:79-109 | creates 25 distinct new tiles; the k-th gets `StartingSprite(flag, k)`; cell (r, c) holds tile number `CreationIndex(r, c)` at `TilePosition(r, c)`; the flag ends flipped 25 times |
| GameScript.StartGame | Assets/Game.cs:29-41 | after start-up every cell holds its own new tile at its position, blue where i + j is even and red elsewhere, and the flag is `false` |
| GameScript.DeliverClick | Assets/Tile.cs:6-16 | a click on one cell's tile toggles that tile only; the map, the flag and every other tile's sprite and position are unchanged |

## Left out

- Camera setup (`createAndConfigureCamera`): it only sets engine properties, and its position depends on the float screen aspect ratio.
- Asset loading with `Resources.Load`: the two sprites are the enum constants `Blue` and `Red`. The model assumes both loads succeed, return two distinct sprites, and return the same asset every time, so a red tile is recognised as red. With a missing asset the source behaves differently: if `redSquare` is null, the comparison in Assets/Tile.cs:11 is against null, so a tile with no sprite turns blue and a blue tile loses its sprite; `Toggled` does not describe that.
- Engine object creation (`new GameObject`, `AddComponent`, `GetComponent`): a tile is a plain object with a sprite and a position. The box collider is not modelled.
- Click dispatch and hit-testing: `DeliverClick` calls `OnMouseDown` on a cell's tile directly.
- The unused fields `whiteSquare` and `blackSquare`; `config_orthographicSize` and `aspect`, which only the left-out camera uses (Assets/Game.cs:64, 71); and the float `Vector2` arithmetic, since every offset is an integer.
- GameScript.Game.CreateAndArrangeTiles: "each cell is written exactly once" is stated through the ghost creation order: each cell holds the tile of its own iteration, and the 25 tiles are distinct. The number of writes per cell is not counted.
