/** Per-species movement legality (Rabbit.jump, Fox.jump, Deer.jump, Owl.fly,
    Badger.dig) and each species' path rules, dispatched on the species tag
    instead of through the Moveables interfaces. */
module Movement {
  import opened Common
  import opened Animals

  /** Rabbit.jump: up to two squares straight, or one diagonal step. */
  predicate RabbitJump(dr: nat, dc: nat) {
    (dr <= 2 && dc == 0) || (dr == 0 && dc <= 2) || (dr == 1 && dc == 1)
  }

  /** Fox.jump: up to three squares straight, never diagonal. */
  predicate FoxJump(dr: nat, dc: nat) {
    (dr <= 3 && dc == 0) || (dr == 0 && dc <= 3)
  }

  /** Deer.jump: up to three squares straight, or one diagonal step. */
  predicate DeerJump(dr: nat, dc: nat) {
    (dr <= 3 && dc == 0) || (dr == 0 && dc <= 3) || (dr == 1 && dc == 1)
  }

  /** Owl.fly: anywhere in the same row or column, or one diagonal step. */
  predicate OwlFly(oldRow: int, oldCol: int, newRow: int, newCol: int) {
    var dr := Abs(newRow - oldRow);
    var dc := Abs(newCol - oldCol);
    oldRow == newRow || newCol == oldCol || (dr == 1 && dc == 1)
  }

  /** Badger.dig: any neighbouring square, or exactly two squares straight
      or diagonal. */
  predicate BadgerDig(dr: nat, dc: nat) {
    (dr == 2 && dc == 2) || (dr == 0 && dc == 2) || (dr == 2 && dc == 0) || (dr <= 1 && dc <= 1)
  }

  /** The species' own shape test, as its `move` calls it. Every species
      accepts standing still; all but the owl stay within three rows and
      three columns, and every diagonal shape is at most two squares. */
  function LegalShape(sp: Species, oldRow: int, oldCol: int, newRow: int, newCol: int): (r: bool)
    ensures oldRow == newRow && oldCol == newCol ==> r
    ensures r && sp != Owl ==> Abs(newRow - oldRow) <= 3 && Abs(newCol - oldCol) <= 3
    ensures r && oldRow != newRow && oldCol != newCol ==> Abs(newRow - oldRow) <= 2 && Abs(newCol - oldCol) <= 2
  {
    var dr := Abs(newRow - oldRow);
    var dc := Abs(newCol - oldCol);
    match sp
    case Rabbit => RabbitJump(dr, dc)
    case Fox => FoxJump(dr, dc)
    case Deer => DeerJump(dr, dc)
    case Owl => OwlFly(oldRow, oldCol, newRow, newCol)
    case Badger => BadgerDig(dr, dc)
  }

  /** Rabbit.move and Fox.move reject a move with an animal on the path;
      Deer, Owl and Badger do not look. */
  predicate ChecksAnimalsInPath(sp: Species) {
    sp == Rabbit || sp == Fox
  }

  /** Of the two, only Fox writes the invalid-move status when blocked. */
  predicate BlockedMoveMarksInvalid(sp: Species) {
    sp == Fox
  }

  /** Badger overrides creatureInPath to answer false: digging ignores
      creatures on the way. */
  predicate IgnoresCreaturesInPath(sp: Species) {
    sp == Badger
  }

  // ----- Reference tables of the accepted (|drow|, |dcol|) pairs -----

  lemma RabbitShapes(dr: nat, dc: nat)
    ensures RabbitJump(dr, dc) <==> (dr, dc) in {(0, 0), (1, 0), (2, 0), (0, 1), (0, 2), (1, 1)}
  {
  }

  lemma FoxShapes(dr: nat, dc: nat)
    ensures FoxJump(dr, dc) <==> (dr, dc) in {(0, 0), (1, 0), (2, 0), (3, 0), (0, 1), (0, 2), (0, 3)}
  {
  }

  lemma DeerShapes(dr: nat, dc: nat)
    ensures DeerJump(dr, dc) <==> (dr, dc) in {(0, 0), (1, 0), (2, 0), (3, 0), (0, 1), (0, 2), (0, 3), (1, 1)}
  {
  }

  lemma BadgerShapes(dr: nat, dc: nat)
    ensures BadgerDig(dr, dc) <==> (dr, dc) in {(0, 0), (0, 1), (1, 0), (1, 1), (0, 2), (2, 0), (2, 2)}
  {
  }

  /** Owl accepts a shape exactly when one difference is zero or both are one. */
  lemma OwlShapes(oldRow: int, oldCol: int, newRow: int, newCol: int)
    ensures OwlFly(oldRow, oldCol, newRow, newCol)
        <==> (var dr := Abs(newRow - oldRow); var dc := Abs(newCol - oldCol);
              dr == 0 || dc == 0 || (dr == 1 && dc == 1))
  {
  }

  /** Every species' shape test uses only absolute differences, so the
      shape from A to B is legal exactly when the shape from B to A is. */
  lemma ShapeSymmetric(sp: Species, r1: int, c1: int, r2: int, c2: int)
    ensures LegalShape(sp, r1, c1, r2, c2) <==> LegalShape(sp, r2, c2, r1, c1)
  {
    assert Abs(r2 - r1) == Abs(r1 - r2) && Abs(c2 - c1) == Abs(c1 - c2);
  }

  /** Fox rejects every move with both differences non-zero. */
  lemma FoxNeverDiagonal(oldRow: int, oldCol: int, newRow: int, newCol: int)
    requires oldRow != newRow && oldCol != newCol
    ensures !LegalShape(Fox, oldRow, oldCol, newRow, newCol)
  {
  }

  /** Every shape Fox accepts, Deer accepts too; Deer additionally takes the
      single diagonal step. */
  lemma DeerExtendsFox(oldRow: int, oldCol: int, newRow: int, newCol: int)
    ensures LegalShape(Fox, oldRow, oldCol, newRow, newCol) ==> LegalShape(Deer, oldRow, oldCol, newRow, newCol)
    ensures LegalShape(Deer, oldRow, oldCol, newRow, newCol) && !LegalShape(Fox, oldRow, oldCol, newRow, newCol)
        ==> Abs(newRow - oldRow) == 1 && Abs(newCol - oldCol) == 1
  {
  }

  /** Owl rejects diagonals of two or more squares and all off-line shapes. */
  lemma OwlRejectsLongDiagonals(oldRow: int, oldCol: int, newRow: int, newCol: int)
    requires oldRow != newRow && oldCol != newCol
    requires Abs(newRow - oldRow) >= 2 || Abs(newCol - oldCol) >= 2
    ensures !LegalShape(Owl, oldRow, oldCol, newRow, newCol)
  {
  }

  /** Badger rejects the knight-like shapes (1,2) and (2,1). */
  lemma BadgerRejectsKnight(oldRow: int, oldCol: int, newRow: int, newCol: int)
    requires (Abs(newRow - oldRow), Abs(newCol - oldCol)) in {(1, 2), (2, 1)}
    ensures !LegalShape(Badger, oldRow, oldCol, newRow, newCol)
  {
  }

  /** Rabbit's shapes are the Deer's shapes within two squares. */
  lemma RabbitWithinDeer(oldRow: int, oldCol: int, newRow: int, newCol: int)
    ensures LegalShape(Rabbit, oldRow, oldCol, newRow, newCol)
        <==> LegalShape(Deer, oldRow, oldCol, newRow, newCol) && Abs(newRow - oldRow) <= 2 && Abs(newCol - oldCol) <= 2
  {
  }
}
