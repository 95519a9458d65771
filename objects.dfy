/** Game objects that sit at a screen position, and the key handling that
    moves the player or ends the game. */
module Objects {

  const Int32Min: int := -0x8000_0000
  const Int32Max: int := 0x7FFF_FFFF

  /** Rust's i32. Arithmetic that leaves this range panics in a debug build,
      so the operations below require that it stays inside. */
  newtype int32 = n: int | Int32Min <= n <= Int32Max

  newtype byte = n: int | 0 <= n < 256

  /** An RGB colour, as the console library's Color holds it. */
  datatype Color = Color(r: byte, g: byte, b: byte)

  /** A drawable object: position, glyph and colour. */
  class Object {
    var x: int32
    var y: int32
    var glyph: char
    var color: Color

    constructor (x: int32, y: int32, glyph: char, color: Color)
      ensures this.x == x && this.y == y
      ensures this.glyph == glyph && this.color == color
    {
      this.x := x;
      this.y := y;
      this.glyph := glyph;
      this.color := color;
    }

    /** Shifts the position by (dx, dy) and leaves glyph and colour alone. */
    method MoveBy(dx: int32, dy: int32)
      requires Int32Min <= x as int + dx as int <= Int32Max
      requires Int32Min <= y as int + dy as int <= Int32Max
      modifies this
      ensures x as int == old(x) as int + dx as int
      ensures y as int == old(y) as int + dy as int
      ensures glyph == old(glyph) && color == old(color)
    {
      x := x + dx;
      y := y + dy;
    }
  }

  /** The key codes the handler tells apart; every other code is OtherCode. */
  datatype KeyCode = Enter | Escape | Up | Down | Left | Right | OtherCode

  /** A key press: its code and whether Alt was held. Other modifiers are
      ignored by every pattern of the handler. */
  datatype Key = Key(code: KeyCode, alt: bool)

  /** Handles one key press for the player and returns whether to exit.
      Alt+Enter toggles fullscreen (a display side effect that is not
      modelled), Escape exits, the arrows move the player by one cell. */
  method HandleKeys(key: Key, player: Object) returns (exit: bool)
    requires key.code == Up ==> player.y as int > Int32Min
    requires key.code == Down ==> player.y as int < Int32Max
    requires key.code == Left ==> player.x as int > Int32Min
    requires key.code == Right ==> player.x as int < Int32Max
    modifies player
    ensures exit <==> key.code == Escape
    ensures key.code == Up ==> player.x == old(player.x) && player.y as int == old(player.y) as int - 1
    ensures key.code == Down ==> player.x == old(player.x) && player.y as int == old(player.y) as int + 1
    ensures key.code == Left ==> player.x as int == old(player.x) as int - 1 && player.y == old(player.y)
    ensures key.code == Right ==> player.x as int == old(player.x) as int + 1 && player.y == old(player.y)
    ensures key.code !in {Up, Down, Left, Right} ==> player.x == old(player.x) && player.y == old(player.y)
    ensures player.glyph == old(player.glyph) && player.color == old(player.color)
  {
    match key {
      case Key(Enter, true) =>
      case Key(Escape, _) =>
        return true;
      case Key(Up, _) =>
        player.MoveBy(0, -1);
      case Key(Down, _) =>
        player.MoveBy(0, 1);
      case Key(Left, _) =>
        player.MoveBy(-1, 0);
      case Key(Right, _) =>
        player.MoveBy(1, 0);
      case _ =>
    }
    return false;
  }
}
