/** The straight-line scans of Animal.animalInPath / creatureInPath and of
    Game.getNextSquareWithCreature. */
module Paths {
  import opened Common
  import opened Squares
  import opened Boards

  /** What a scan looks for. */
  datatype Probe = ForAnimal | ForCreature

  predicate Holds(c: Cell, probe: Probe) {
    match probe
    case ForAnimal => c.hasAnimal
    case ForCreature => c.hasCreature
  }

  /** The cells animalInPath and creatureInPath examine: increasing columns
      on the destination row when the columns differ, otherwise increasing
      rows on the destination column; the start is excluded and the
      destination included, and a leftward or upward move examines nothing. */
  predicate OnForwardPath(oldRow: int, oldCol: int, newRow: int, newCol: int, p: Pos) {
    if oldCol != newCol then p.row == newRow && oldCol < p.col <= newCol
    else p.col == newCol && oldRow < p.row <= newRow
  }

  /** The loop `for (col = from; col <= stop; col++)` on one row. */
  function ScanRow(b: Board, row: int, from: int, stop: int, probe: Probe): (r: bool)
    requires WellFormed(b) && 0 <= row < Size && 0 <= from && stop < Size
    ensures r <==> exists c :: from <= c <= stop && Holds(b[row][c], probe)
    decreases stop + 1 - from
  {
    if from > stop then false
    else Holds(b[row][from], probe) || ScanRow(b, row, from + 1, stop, probe)
  }

  /** The loop `for (row = from; row <= stop; row++)` on one column. */
  function ScanCol(b: Board, col: int, from: int, stop: int, probe: Probe): (r: bool)
    requires WellFormed(b) && 0 <= col < Size && 0 <= from && stop < Size
    ensures r <==> exists i :: from <= i <= stop && Holds(b[i][col], probe)
    decreases stop + 1 - from
  {
    if from > stop then false
    else Holds(b[from][col], probe) || ScanCol(b, col, from + 1, stop, probe)
  }

  /** Animal.animalInPath (probe ForAnimal) and the inherited
      Animal.creatureInPath (probe ForCreature): some examined cell holds
      what the probe looks for. */
  function InPath(b: Board, oldRow: int, oldCol: int, newRow: int, newCol: int, probe: Probe): (r: bool)
    requires WellFormed(b) && InBoard(Pos(oldRow, oldCol)) && InBoard(Pos(newRow, newCol))
    ensures r <==> exists p :: InBoard(p) && OnForwardPath(oldRow, oldCol, newRow, newCol, p) && Holds(At(b, p), probe)
    ensures (newCol < oldCol || (newCol == oldCol && newRow <= oldRow)) ==> !r
  {
    if oldCol != newCol then
      var r := ScanRow(b, newRow, oldCol + 1, newCol, probe);
      RowWitness(b, newRow, oldCol + 1, newCol, probe);
      r
    else
      var r := ScanCol(b, newCol, oldRow + 1, newRow, probe);
      ColWitness(b, newCol, oldRow + 1, newRow, probe);
      r
  }

  lemma RowWitness(b: Board, row: int, from: int, stop: int, probe: Probe)
    requires WellFormed(b) && 0 <= row < Size && 0 <= from && stop < Size
    ensures (exists c :: from <= c <= stop && Holds(b[row][c], probe))
        ==> exists p :: InBoard(p) && p.row == row && from <= p.col <= stop && Holds(At(b, p), probe)
  {
    if exists c :: from <= c <= stop && Holds(b[row][c], probe) {
      var c :| from <= c <= stop && Holds(b[row][c], probe);
      assert At(b, Pos(row, c)) == b[row][c];
    }
  }

  lemma ColWitness(b: Board, col: int, from: int, stop: int, probe: Probe)
    requires WellFormed(b) && 0 <= col < Size && 0 <= from && stop < Size
    ensures (exists i :: from <= i <= stop && Holds(b[i][col], probe))
        ==> exists p :: InBoard(p) && p.col == col && from <= p.row <= stop && Holds(At(b, p), probe)
  {
    if exists i :: from <= i <= stop && Holds(b[i][col], probe) {
      var i :| from <= i <= stop && Holds(b[i][col], probe);
      assert At(b, Pos(i, col)) == b[i][col];
    }
  }

  /** The cells getNextSquareWithCreature examines: columns from just past
      the start toward the destination column, in either direction, on the
      destination row when the columns differ; otherwise increasing rows on
      the destination column. */
  predicate OnScanLine(oldRow: int, oldCol: int, newRow: int, newCol: int, p: Pos) {
    if oldCol != newCol then
      p.row == newRow && (if oldCol < newCol then oldCol < p.col <= newCol else newCol <= p.col < oldCol)
    else p.col == newCol && oldRow < p.row <= newRow
  }

  /** How many steps along the scan line `p` lies from the start. */
  function Dist(oldRow: int, oldCol: int, newCol: int, p: Pos): int {
    if oldCol != newCol then Abs(p.col - oldCol) else p.row - oldRow
  }

  /** `p` is the first creature cell the scan meets. */
  ghost predicate FirstCreatureOnLine(b: Board, oldRow: int, oldCol: int, newRow: int, newCol: int, p: Pos)
    requires WellFormed(b)
  {
    && InBoard(p)
    && OnScanLine(oldRow, oldCol, newRow, newCol, p)
    && At(b, p).hasCreature
    && forall q | InBoard(q) && OnScanLine(oldRow, oldCol, newRow, newCol, q)
                  && Dist(oldRow, oldCol, newCol, q) < Dist(oldRow, oldCol, newCol, p) ::
         !At(b, q).hasCreature
  }

  /** `c` lies between `from` and `stop` inclusive, in the direction of `step`. */
  predicate Within(from: int, stop: int, step: int, c: int) {
    if step == 1 then from <= c <= stop else stop <= c <= from
  }

  /** The column loop of getNextSquareWithCreature, from `col` toward `stop`. */
  function FirstInRow(b: Board, row: int, col: int, stop: int, step: int): (r: Option<Pos>)
    requires WellFormed(b) && 0 <= row < Size && (step == 1 || step == -1)
    requires step == 1 ==> 0 <= col && stop < Size
    requires step == -1 ==> col < Size && 0 <= stop
    ensures r.Some? ==> && r.value.row == row && Within(col, stop, step, r.value.col)
                        && b[row][r.value.col].hasCreature
                        && forall c | Within(col, r.value.col, step, c) && c != r.value.col :: !b[row][c].hasCreature
    ensures r.None? ==> forall c | Within(col, stop, step, c) :: !b[row][c].hasCreature
    decreases if step == 1 then stop + 1 - col else col + 1 - stop
  {
    if (step == 1 && col > stop) || (step == -1 && col < stop) then None
    else if b[row][col].hasCreature then Some(Pos(row, col))
    else FirstInRow(b, row, col + step, stop, step)
  }

  /** The row loop of getNextSquareWithCreature, downward only. */
  function FirstInCol(b: Board, col: int, row: int, stop: int): (r: Option<Pos>)
    requires WellFormed(b) && 0 <= col < Size && 0 <= row && stop < Size
    ensures r.Some? ==> && r.value.col == col && row <= r.value.row <= stop
                        && b[r.value.row][col].hasCreature
                        && forall i | row <= i < r.value.row :: !b[i][col].hasCreature
    ensures r.None? ==> forall i | row <= i <= stop :: !b[i][col].hasCreature
    decreases stop + 1 - row
  {
    if row > stop then None
    else if b[row][col].hasCreature then Some(Pos(row, col))
    else FirstInCol(b, col, row + 1, stop)
  }

  /** Game.getNextSquareWithCreature: the first creature cell on the scan
      line, or None (Java null) when there is none. */
  function NextCreatureSquare(b: Board, oldRow: int, oldCol: int, newRow: int, newCol: int): (r: Option<Pos>)
    requires WellFormed(b) && InBoard(Pos(oldRow, oldCol)) && InBoard(Pos(newRow, newCol))
    ensures r.Some? ==> FirstCreatureOnLine(b, oldRow, oldCol, newRow, newCol, r.value)
    ensures r.None? ==> forall q | InBoard(q) && OnScanLine(oldRow, oldCol, newRow, newCol, q) :: !At(b, q).hasCreature
  {
    if oldCol != newCol then
      var step := if oldCol < newCol then 1 else -1;
      FirstInRow(b, newRow, oldCol + step, newCol, step)
    else
      FirstInCol(b, newCol, oldRow + 1, newRow)
  }

  /** Whenever the inherited creatureInPath holds, getNextSquareWithCreature
      finds a square, and that square is on the examined path: the
      interrupted branch of moveAnimal never stores null. */
  lemma InterruptionFindsCreature(b: Board, oldRow: int, oldCol: int, newRow: int, newCol: int)
    requires WellFormed(b) && InBoard(Pos(oldRow, oldCol)) && InBoard(Pos(newRow, newCol))
    requires InPath(b, oldRow, oldCol, newRow, newCol, ForCreature)
    ensures NextCreatureSquare(b, oldRow, oldCol, newRow, newCol).Some?
    ensures OnForwardPath(oldRow, oldCol, newRow, newCol, NextCreatureSquare(b, oldRow, oldCol, newRow, newCol).value)
  {
    var p :| InBoard(p) && OnForwardPath(oldRow, oldCol, newRow, newCol, p) && Holds(At(b, p), ForCreature);
    assert OnScanLine(oldRow, oldCol, newRow, newCol, p);
  }

  /** The creature scan reads only the creature layer of the board. */
  lemma CreatureScanReadsCreaturesOnly(b: Board, b': Board, oldRow: int, oldCol: int, newRow: int, newCol: int)
    requires WellFormed(b) && WellFormed(b') && SameCreatures(b, b')
    requires InBoard(Pos(oldRow, oldCol)) && InBoard(Pos(newRow, newCol))
    ensures InPath(b, oldRow, oldCol, newRow, newCol, ForCreature) == InPath(b', oldRow, oldCol, newRow, newCol, ForCreature)
  {
    if InPath(b, oldRow, oldCol, newRow, newCol, ForCreature) {
      var p :| InBoard(p) && OnForwardPath(oldRow, oldCol, newRow, newCol, p) && Holds(At(b, p), ForCreature);
      assert Holds(At(b', p), ForCreature);
    }
    if InPath(b', oldRow, oldCol, newRow, newCol, ForCreature) {
      var p :| InBoard(p) && OnForwardPath(oldRow, oldCol, newRow, newCol, p) && Holds(At(b', p), ForCreature);
      assert Holds(At(b, p), ForCreature);
    }
  }

  /** The first creature on a scan line is unique, and boards with the same
      creature layer agree on it. */
  lemma FirstCreatureUnique(b: Board, b': Board, oldRow: int, oldCol: int, newRow: int, newCol: int, p: Pos, q: Pos)
    requires WellFormed(b) && WellFormed(b') && SameCreatures(b, b')
    requires FirstCreatureOnLine(b, oldRow, oldCol, newRow, newCol, p)
    requires FirstCreatureOnLine(b', oldRow, oldCol, newRow, newCol, q)
    ensures p == q
  {
    assert At(b', p).hasCreature && At(b, q).hasCreature;
    assert Dist(oldRow, oldCol, newCol, p) == Dist(oldRow, oldCol, newCol, q);
  }
}
