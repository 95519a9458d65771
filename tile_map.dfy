/** The tile grid of the text-mode roguelike: tiles, building the map, the
    three walls placed at start-up, and the text the grid renders to. */
module TileMap {

  /** Largest column and row index of the map; both ranges are inclusive. */
  const MapWidth: nat := 140
  const MapHeight: nat := 40

  /** Characters in one rendered line: one glyph per column plus the newline. */
  const LineLength: nat := MapWidth + 2

  /** One grid cell: the glyph it is drawn with and whether it can be walked on. */
  datatype Tile = Tile(ascii: char, walkable: bool)

  function Empty(): Tile { Tile('.', true) }
  function Wall(): Tile { Tile('#', false) }

  lemma TileKinds()
    ensures Empty().ascii == '.' && Empty().walkable
    ensures Wall().ascii == '#' && !Wall().walkable
    ensures Empty() != Wall()
  {
  }

  /** The map, indexed as map[y][x]: a sequence of rows, each a sequence of tiles. */
  type Map = seq<seq<Tile>>

  /** The game state: just the map (the source calls the field `map`, a Dafny keyword). */
  datatype Game = Game(tiles: Map)

  /** Exactly MapHeight + 1 rows of exactly MapWidth + 1 tiles each. */
  ghost predicate HasMapDimensions(m: Map) {
    |m| == MapHeight + 1 && forall y :: 0 <= y < |m| ==> |m[y]| == MapWidth + 1
  }

  /** Every index (y, x) with y <= MapHeight and x <= MapWidth is inside the map. */
  ghost predicate Renderable(m: Map) {
    |m| > MapHeight && forall y :: 0 <= y <= MapHeight ==> |m[y]| > MapWidth
  }

  /** Builds the map: first MapHeight + 1 empty rows, then MapWidth + 1 empty
      tiles pushed onto each row in turn. */
  method MakeMap() returns (m: Map)
    ensures HasMapDimensions(m)
    ensures forall y, x :: 0 <= y < |m| && 0 <= x < |m[y]| ==> m[y][x] == Empty()
  {
    m := [];
    for i := 0 to MapHeight + 1
      invariant |m| == i
      invariant forall y :: 0 <= y < i ==> m[y] == []
    {
      m := m + [[]];
    }
    for row := 0 to MapHeight + 1
      invariant |m| == MapHeight + 1
      invariant forall y :: 0 <= y < row ==> |m[y]| == MapWidth + 1
      invariant forall y, x :: 0 <= y < row && 0 <= x < |m[y]| ==> m[y][x] == Empty()
      invariant forall y :: row <= y < |m| ==> m[y] == []
    {
      for i := 0 to MapWidth + 1
        invariant |m| == MapHeight + 1
        invariant |m[row]| == i
        invariant forall x :: 0 <= x < i ==> m[row][x] == Empty()
        invariant forall y :: 0 <= y < row ==> |m[y]| == MapWidth + 1
        invariant forall y, x :: 0 <= y < row && 0 <= x < |m[y]| ==> m[y][x] == Empty()
        invariant forall y :: row < y < |m| ==> m[y] == []
      {
        m := m[row := m[row] + [Empty()]];
      }
    }
  }

  /** The assignment map[y][x] = t: exactly that cell changes. */
  function SetTile(m: Map, y: nat, x: nat, t: Tile): (r: Map)
    requires y < |m| && x < |m[y]|
    ensures |r| == |m|
    ensures forall j :: 0 <= j < |r| ==> |r[j]| == |m[j]|
    ensures r[y][x] == t
    ensures forall j, i :: 0 <= j < |r| && 0 <= i < |r[j]| && (j, i) != (y, x) ==> r[j][i] == m[j][i]
  {
    m[y := m[y][x := t]]
  }

  /** The start-up map: walls on the first three cells of the diagonal, empty elsewhere. */
  ghost predicate IsStartMap(m: Map) {
    HasMapDimensions(m) &&
    forall y, x :: 0 <= y < |m| && 0 <= x < |m[y]| ==>
      m[y][x] == if y == x && x < 3 then Wall() else Empty()
  }

  /** Builds the game as start-up does before rendering it. */
  method NewGame() returns (game: Game)
    ensures HasMapDimensions(game.tiles)
    ensures game.tiles[0][0] == Wall() && game.tiles[1][1] == Wall() && game.tiles[2][2] == Wall()
    ensures forall y, x :: 0 <= y < |game.tiles| && 0 <= x < |game.tiles[y]| && !(y == x && x < 3) ==>
      game.tiles[y][x] == Empty()
    ensures IsStartMap(game.tiles)
  {
    var m := MakeMap();
    m := SetTile(m, 0, 0, Wall());
    m := SetTile(m, 1, 1, Wall());
    m := SetTile(m, 2, 2, Wall());
    game := Game(m);
  }

  /** The glyphs of the first n tiles of a row, in column order. */
  function RowText(row: seq<Tile>, n: nat): string
    requires n <= |row|
  {
    if n == 0 then [] else RowText(row, n - 1) + [row[n - 1].ascii]
  }

  /** The text of the first n rendered lines: each row's glyphs up to column
      MapWidth followed by a newline. */
  function Text(m: Map, n: nat): string
    requires Renderable(m) && n <= MapHeight + 1
  {
    if n == 0 then [] else Text(m, n - 1) + RowText(m[n - 1], MapWidth + 1) + "\n"
  }

  /** The text written by render: rows 0..=MapHeight, columns 0..=MapWidth. */
  method Render(game: Game) returns (out: string)
    requires Renderable(game.tiles)
    ensures out == Text(game.tiles, MapHeight + 1)
  {
    out := [];
    for y := 0 to MapHeight + 1
      invariant out == Text(game.tiles, y)
    {
      for x := 0 to MapWidth + 1
        invariant out == Text(game.tiles, y) + RowText(game.tiles[y], x)
      {
        out := out + [game.tiles[y][x].ascii];
      }
      out := out + "\n";
    }
  }

  /** Every index render reads is inside the map that MakeMap builds. */
  lemma MapDimensionsRenderable(m: Map, y: nat, x: nat)
    requires HasMapDimensions(m)
    requires y <= MapHeight && x <= MapWidth
    ensures Renderable(m)
    ensures y < |m| && x < |m[y]|
  {
  }

  lemma {:induction false} RowTextAt(row: seq<Tile>, n: nat, x: nat)
    requires n <= |row| && x < n
    ensures |RowText(row, n)| == n
    ensures RowText(row, n)[x] == row[x].ascii
  {
    RowTextLength(row, n - 1);
    if x < n - 1 {
      RowTextAt(row, n - 1, x);
    }
  }

  lemma {:induction false} RowTextLength(row: seq<Tile>, n: nat)
    requires n <= |row|
    ensures |RowText(row, n)| == n
  {
    if n > 0 {
      RowTextLength(row, n - 1);
    }
  }

  /** The rendered text has LineLength characters per line. */
  lemma {:induction false} TextLength(m: Map, n: nat)
    requires Renderable(m) && n <= MapHeight + 1
    ensures |Text(m, n)| == n * LineLength
  {
    if n > 0 {
      TextLength(m, n - 1);
      RowTextLength(m[n - 1], MapWidth + 1);
    }
  }

  /** Character x of line y is the glyph of map[y][x], and the last one is the newline. */
  lemma {:induction false} TextAt(m: Map, n: nat, y: nat, x: nat)
    requires Renderable(m) && n <= MapHeight + 1
    requires y < n && x < LineLength
    ensures y * LineLength + x < |Text(m, n)|
    ensures Text(m, n)[y * LineLength + x] == if x <= MapWidth then m[y][x].ascii else '\n'
  {
    TextLength(m, n - 1);
    RowTextLength(m[n - 1], MapWidth + 1);
    if y < n - 1 {
      TextAt(m, n - 1, y, x);
    } else {
      assert y * LineLength == |Text(m, n - 1)|;
      if x <= MapWidth {
        RowTextAt(m[n - 1], MapWidth + 1, x);
      }
    }
  }

  /** The whole screen: (MapHeight + 1) lines, each the row's MapWidth + 1 glyphs
      and a newline. */
  lemma RenderedScreen(m: Map, y: nat, x: nat)
    requires Renderable(m)
    requires y <= MapHeight && x < LineLength
    ensures |Text(m, MapHeight + 1)| == (MapHeight + 1) * LineLength
    ensures Text(m, MapHeight + 1)[y * LineLength + x] == if x <= MapWidth then m[y][x].ascii else '\n'
  {
    TextLength(m, MapHeight + 1);
    TextAt(m, MapHeight + 1, y, x);
  }

  /** What start-up prints: '#' at the three diagonal cells, '.' elsewhere. */
  lemma StartScreen(game: Game, y: nat, x: nat)
    requires IsStartMap(game.tiles)
    requires y <= MapHeight && x <= MapWidth
    ensures Renderable(game.tiles)
    ensures |Text(game.tiles, MapHeight + 1)| == 41 * 142
    ensures Text(game.tiles, MapHeight + 1)[y * LineLength + x] == if y == x && x < 3 then '#' else '.'
  {
    RenderedScreen(game.tiles, y, x);
  }
}
