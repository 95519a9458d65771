# Roguelike tile grid and player movement, in Dafny

This project models two early snapshots of a text-mode roguelike written in Rust.

- `tile_map.dfy`, module `TileMap`, models `rlt/src/main.rs`.
  - A `Tile` is a glyph plus a `walkable` flag. `Empty()` is `'.'` and walkable. `Wall()` is `'#'` and not walkable.
  - `MakeMap` builds the `Map` (a sequence of rows of tiles, indexed `map[y][x]`) the way the source does. It first pushes `MAP_HEIGHT + 1` empty rows. Then it pushes `MAP_WIDTH + 1` empty tiles onto each row.
  - `NewGame` is start-up before rendering: it builds the map and overwrites the cells (0,0), (1,1) and (2,2) with walls. `SetTile` is the single assignment `map[y][x] = t`.
  - `Render` is the nested render loop. It returns the text that the loop prints instead of printing it. `Text` and `RowText` define that text line by line. The lemmas give its length and the character at every position.
- `objects.dfy`, module `Objects`, models `rl2/src/main.rs`.
  - An `Object` is a class with a mutable position, a glyph and a colour. `MoveBy` shifts the position.
  - `HandleKeys` takes the key press as a parameter instead of reading it from the console. It moves the player for an arrow key and returns `true` only for Escape.

The Rust `i32` is the newtype `int32`. `MoveBy` and `HandleKeys` require that the new coordinate stays inside `i32`. Overflow panics in a debug build, and the source never clamps.

`rl2/src/main.rs` does not compile as written:
- line 14 reads `y, i32`;
- line 20 reads `- Self` instead of `-> Self`;
- `main` uses the undefined `player_x`/`player_y` and calls `handle_keys` with three arguments.

The model follows the declared `Object` and `handle_keys` (lines 12-66), with `y: i32` and `-> Self` as evidently intended.

The larger game described for later snapshots is not in these two files and is not modelled. That game has rooms, corridors, field of view, combat, teleport and fire tiles.

## Model

| member | source | states |
|---|---|---|
| `TileMap.TileKinds` | rlt/src/main.rs:15-27 | the empty tile is `'.'` and walkable, the wall is `'#'` and not walkable, and the two differ |
| `TileMap.MakeMap` | rlt/src/main.rs:33-45 | the map has exactly MAP_HEIGHT+1 = 41 rows, every row has exactly MAP_WIDTH+1 = 141 tiles (the outer loop variable `x` runs over rows), and every tile is the empty tile |
| `TileMap.SetTile` | rlt/src/main.rs:62 | assigning `map[y][x]` sets that cell to the new tile and keeps the row count, every row length and every other cell |
| `TileMap.NewGame` | rlt/src/main.rs:58-64 | after start-up's three assignments, (0,0), (1,1) and (2,2) are walls, every other cell is still empty and the dimensions are those of `make_map` |
| `TileMap.MapDimensionsRenderable` | rlt/src/main.rs:48-50 | on a map with `make_map`'s dimensions, every index `map[y][x]` that render reads (`y <= MAP_HEIGHT`, `x <= MAP_WIDTH`) is in bounds |
| `TileMap.Render` | rlt/src/main.rs:47-55 | the emitted text is the rows in order, each row's glyphs in column order followed by one newline |
| `TileMap.RowTextLength` | rlt/src/main.rs:49-52 | the glyphs of the first n tiles of a row are n characters |
| `TileMap.RowTextAt` | rlt/src/main.rs:49-52 | character x of a row's text is the glyph of tile x |
| `TileMap.TextLength` | rlt/src/main.rs:48-54 | n rendered lines are n * (MAP_WIDTH+2) characters long |
| `TileMap.TextAt` | rlt/src/main.rs:48-54 | in the first n lines, character y*(MAP_WIDTH+2)+x is the glyph of `map[y][x]` for x <= MAP_WIDTH, and the newline for x = MAP_WIDTH+1 |
| `TileMap.RenderedScreen` | rlt/src/main.rs:47-55 | the whole rendered text is (MAP_HEIGHT+1) * (MAP_WIDTH+2) characters, with each cell's glyph at its row-major position and a newline ending each line |
| `TileMap.StartScreen` | rlt/src/main.rs:58-65 | the start-up screen is 41 * 142 characters, with `'#'` at the three diagonal cells and `'.'` at every other cell |
| `Objects.Object.constructor` | rl2/src/main.rs:20-22 | a new object stores exactly the given position, glyph and colour |
| `Objects.Object.MoveBy` | rl2/src/main.rs:23-26 | x becomes old x + dx and y becomes old y + dy, and glyph and colour are unchanged (provided the sums fit in `i32`) |
| `Objects.HandleKeys` | rl2/src/main.rs:39-66 | the result is `true` exactly for Escape, with or without Alt; Up, Down, Left and Right move the player by (0,-1), (0,1), (-1,0) and (1,0), whatever the Alt state; Escape, Alt+Enter and every other key leave the position unchanged; glyph and colour never change |

## Left out

- Printing: `render` writes with `print!`/`println!`. The model returns the text that those calls would write.
- Tcod console setup (FPS limit, font, root and offscreen consoles, rl2/src/main.rs:69-79): a foreign library and I/O.
- Drawing: `Object::draw`, `clear`, `put_char`, `blit` and `flush` (rl2/src/main.rs:28-31, 98-110): display only.
- Reading the key: `wait_for_keypress` (rl2/src/main.rs:43) is replaced by the `key` parameter of `HandleKeys`. Key fields other than the code and Alt are not modelled, because no pattern of the handler looks at them.
- The fullscreen toggle on Alt+Enter (rl2/src/main.rs:51-52) is a window side effect. The model only states that this key neither moves the player nor exits.
- The game loop in rl2's `main` and the creation of the player and the NPC (rl2/src/main.rs:81-117): the loop is driven by window events, and the code does not compile.
- `Objects.Object.MoveBy`: does not model the `i32` wrap-around of a release build. The model requires that the sums stay in range, which is what a debug build enforces by panicking.
- `Objects.HandleKeys`: the same in-range requirement applies to the one-cell move that an arrow key makes.
- `Color` is an RGB triple of bytes. No operation looks inside it.
