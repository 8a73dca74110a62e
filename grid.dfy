// Keyboard navigation over the 3x3 grid of coffins. Cell `c` sits in row
// `c / 3` and column `c % 3`; WASD moves one cell and wraps at the edges.

module Grid {
  import opened Pieces

  /** The keys the game reacts to; any other key is `OtherKey`. */
  datatype Key = KeyA | KeyD | KeyW | KeyS | OtherKey

  /** A window-system event: a key press, or anything else. */
  datatype Event = KeyDown(key: Key) | OtherEvent

  /**
   * The cell a key press selects from `current`. A and D step the column left
   * and right, W and S step the row up and down, each wrapping at the edge; any
   * other key keeps the current cell. The result is stored in a `uint8_t`.
   */
  function Navigate(current: Byte, key: Key): (next: Byte)
    ensures current < Cells ==> next < Cells
    ensures current < Cells && (key == KeyA || key == KeyD) ==> next / 3 == current / 3
    ensures current < Cells && (key == KeyW || key == KeyS) ==> next % 3 == current % 3
    ensures key == OtherKey ==> next == current
  {
    var row, col := current / 3, current % 3;
    var col' :=
      match key
      case KeyA => if col == 0 then 2 else col - 1
      case KeyD => if col == 2 then 0 else if col < 2 then col + 1 else col
      case _ => col;
    var row' :=
      match key
      case KeyW => if row == 0 then 2 else row - 1
      case KeyS => if row == 2 then 0 else if row < 2 then row + 1 else row
      case _ => row;
    (3 * row' + col') % 256
  }

  /** Each key moves one step around a ring of three: the column for A/D, the row for W/S. */
  lemma NavigateWraps(current: Byte)
    requires current < Cells
    ensures Navigate(current, KeyA) == 3 * (current / 3) + (current % 3 + 2) % 3
    ensures Navigate(current, KeyD) == 3 * (current / 3) + (current % 3 + 1) % 3
    ensures Navigate(current, KeyW) == 3 * ((current / 3 + 2) % 3) + current % 3
    ensures Navigate(current, KeyS) == 3 * ((current / 3 + 1) % 3) + current % 3
  {
    // one case per cell keeps the division and remainder on constants
    assert current in {0, 1, 2, 3, 4, 5, 6, 7, 8};
  }

  /** Opposite keys undo each other. */
  lemma NavigateUndo(current: Byte)
    requires current < Cells
    ensures Navigate(Navigate(current, KeyA), KeyD) == current
    ensures Navigate(Navigate(current, KeyD), KeyA) == current
    ensures Navigate(Navigate(current, KeyW), KeyS) == current
    ensures Navigate(Navigate(current, KeyS), KeyW) == current
  {
  }

  /** Three presses of the same key come back to the start. */
  lemma NavigateCycles(current: Byte, key: Key)
    requires current < Cells
    ensures Navigate(Navigate(Navigate(current, key), key), key) == current
  {
  }
}
