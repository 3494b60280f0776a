/** Shared vocabulary of the woodland engine model: optional values, board
    positions, and the outcome of an engine step that may end in a Java
    exception. */
module Common {

  datatype Option<+T> = None | Some(value: T)

  /** Side length of the square board (Game.ROW and Game.COL). */
  const Size: int := 20

  /** Highest valid row or column index. */
  const Last: int := 19

  /** A board coordinate; Java Squares never change their row and column,
      so a reference to a Square is modelled by its coordinates. */
  datatype Pos = Pos(row: int, col: int)

  predicate InBoard(p: Pos) {
    0 <= p.row < Size && 0 <= p.col < Size
  }

  /** Math.abs on values that are already within the board range. */
  function Abs(x: int): nat {
    if x < 0 then -x else x
  }

  /** An animal is identified by its roster position 0..4 (Java compares
      Animal objects by reference, and the roster never changes). */
  type AnimalId = nat

  /** A creature is identified by its position in the creature list. */
  type CreatureId = nat

  /** The Java exceptions the engine can raise on its own. */
  datatype Fault =
    | BoardIndexOutOfRange   // an array access board[r][c] outside 0..19
    | RosterIndexOutOfRange  // animals.get(i) with i outside 0..4
    | ConcurrentModification // a HashMap changed while its key set is iterated

  /** The result of an engine operation: either it ran to completion and
      answered `accepted`, or it threw, leaving `state` as it was at the
      moment of the throw (the Java server keeps that same game object). */
  datatype Outcome<S> =
    | Done(state: S, accepted: bool)
    | Failed(state: S, fault: Fault)
}
