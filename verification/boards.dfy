/** The 20x20 board (Game.board) as a sequence of rows of cells. */
module Boards {
  import opened Common
  import opened Squares

  type Board = seq<seq<Cell>>

  /** Twenty rows of twenty cells, each knowing its own coordinates. */
  predicate WellFormed(b: Board) {
    && |b| == Size
    && (forall i | 0 <= i < Size :: |b[i]| == Size)
    && (forall i, j | 0 <= i < Size && 0 <= j < Size :: b[i][j].row == i && b[i][j].col == j)
  }

  /** board[p.row][p.col]. */
  function At(b: Board, p: Pos): Cell
    requires WellFormed(b) && InBoard(p)
  {
    b[p.row][p.col]
  }

  /** The board with the cell at `p` replaced by `c`. */
  function Put(b: Board, p: Pos, c: Cell): (r: Board)
    requires WellFormed(b) && InBoard(p)
    requires c.row == p.row && c.col == p.col
    ensures WellFormed(r)
    ensures At(r, p) == c
    ensures forall q {:trigger At(r, q)} | InBoard(q) && q != p :: At(r, q) == At(b, q)
    ensures Coherent(b) && CellOk(c) ==> Coherent(r)
    ensures c.hasCreature == At(b, p).hasCreature && c.creature == At(b, p).creature ==> SameCreatures(b, r)
  {
    b[p.row := b[p.row][p.col := c]]
  }

  /** A cell's flags agree with its slots, and the slots name one of the
      five animals and one of the five creatures. */
  predicate CellOk(c: Cell) {
    && Consistent(c)
    && (c.animal.Some? ==> c.animal.value < 5)
    && (c.creature.Some? ==> c.creature.value < 5)
  }

  /** Every cell of a well-formed board is CellOk. */
  predicate Coherent(b: Board) {
    && WellFormed(b)
    && (forall i, j | 0 <= i < Size && 0 <= j < Size :: CellOk(b[i][j]))
  }

  /** Creatures never move: both boards have the same creature layer. */
  ghost predicate SameCreatures(b: Board, b': Board)
    requires WellFormed(b) && WellFormed(b')
  {
    forall p {:trigger At(b', p)} | InBoard(p) :: At(b', p).hasCreature == At(b, p).hasCreature && At(b', p).creature == At(b, p).creature
  }

  /** The board built by the nested loop at the top of the Game constructor. */
  function EmptyBoard(): (b: Board)
    ensures WellFormed(b) && Coherent(b)
    ensures forall p | InBoard(p) :: At(b, p) == NewCell(p.row, p.col)
  {
    seq(Size, i => seq(Size, j => NewCell(i, j)))
  }

  /** Two well-formed boards that agree on every square are equal. */
  lemma SameCells(b: Board, b': Board)
    requires WellFormed(b) && WellFormed(b')
    requires forall p | InBoard(p) :: At(b, p) == At(b', p)
    ensures b == b'
  {
    forall i | 0 <= i < Size
      ensures b[i] == b'[i]
    {
      forall j | 0 <= j < Size
        ensures b[i][j] == b'[i][j]
      {
        assert At(b, Pos(i, j)) == At(b', Pos(i, j));
      }
    }
  }
}
