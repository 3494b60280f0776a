/** The Game constructor and the server's /reset. The random draws are not
    replayed: the positions and spell picks the rejection loops finally
    accept are a parameter, and PlacementOk states what those loops
    guarantee about them. */
module Setup {
  import opened Common
  import opened Spells
  import opened Squares
  import opened Animals
  import opened Creatures
  import opened Boards
  import opened Engine
  import opened Server

  /** Number of spells the constructor scatters. */
  const SpellCount: nat := 10

  /** The draws the constructor keeps: the start column of each animal on
      the last row, the square of each creature, and for each of the ten
      spells its square and its index into the spell list. */
  datatype Placement = Placement(
    animalCols: seq<int>,
    creatureAt: seq<Pos>,
    spellAt: seq<Pos>,
    spellPick: seq<int>)

  /** A square of rows 1..18 (nextInt(ROW - 2) + 1 and nextInt(COL)). */
  predicate Inner(p: Pos) {
    1 <= p.row <= Last - 1 && 0 <= p.col <= Last
  }

  /** What the three rejection loops guarantee: animal columns on the board
      and pairwise distinct; creatures on inner squares, pairwise distinct;
      spells on inner squares, off every creature and pairwise distinct. */
  predicate PlacementOk(p: Placement) {
    && |p.animalCols| == 5 && |p.creatureAt| == 5
    && |p.spellAt| == SpellCount && |p.spellPick| == SpellCount
    && (forall i | 0 <= i < 5 :: 0 <= p.animalCols[i] <= Last)
    && (forall i, j | 0 <= i < j < 5 :: p.animalCols[i] != p.animalCols[j])
    && (forall i | 0 <= i < 5 :: Inner(p.creatureAt[i]))
    && (forall i, j | 0 <= i < j < 5 :: p.creatureAt[i] != p.creatureAt[j])
    && (forall i | 0 <= i < SpellCount :: Inner(p.spellAt[i]) && 0 <= p.spellPick[i] < 5)
    && (forall i, j | 0 <= i < j < SpellCount :: p.spellAt[i] != p.spellAt[j])
    && (forall i, j | 0 <= i < SpellCount && 0 <= j < 5 :: p.spellAt[i] != p.creatureAt[j])
  }

  // ----- The creature roster -----

  /** The names the five creature classes give themselves (each
      constructor overwrites the name passed in with setName). */
  function CreatureName(k: nat): string
    requires k < 5
  {
    ["Under-appreciated Unicorn", "Complicated Centaur", "Deceptive Dragon", "Precocious Phoenix", "Sassy Sphinx"][k]
  }

  /** Their attack values, as each class sets them with setAttackValue
      (the same values the Game constructor passes in). */
  function CreatureAttack(k: nat): int
    requires k < 5
  {
    [14, 36, 29, 42, 21][k]
  }

  /** The creature list, in insertion order. */
  function InitialCreatures(): (cs: seq<Creature>)
    ensures |cs| == 5
    ensures forall k | 0 <= k < 5 :: cs[k] == NewCreature(CreatureName(k), CreatureAttack(k))
  {
    seq(5, k requires 0 <= k < 5 => NewCreature(CreatureName(k), CreatureAttack(k)))
  }

  /** The animal roster, each animal standing on its start column of the
      last row. */
  function InitialAnimals(cols: seq<int>): (as_: seq<Animal>)
    requires |cols| == 5
    ensures |as_| == 5
    ensures forall k | 0 <= k < 5 :: as_[k] == NewAnimal(RosterName(k), RosterSpecies(k), Pos(Last, cols[k]))
  {
    seq(5, k requires 0 <= k < 5 => NewAnimal(RosterName(k), RosterSpecies(k), Pos(Last, cols[k])))
  }

  // ----- The three placement loops -----

  /** The animal the first `n` placements leave on `q` (the latest wins). */
  function AnimalOn(cols: seq<int>, n: nat, q: Pos): (r: Option<AnimalId>)
    requires n <= |cols|
    ensures r.Some? ==> r.value < n && q == Pos(Last, cols[r.value])
    ensures r.None? ==> forall k | 0 <= k < n :: q != Pos(Last, cols[k])
  {
    if n == 0 then None
    else if q == Pos(Last, cols[n - 1]) then Some(n - 1)
    else AnimalOn(cols, n - 1, q)
  }

  /** The first loop, after `n` rounds: animal k is set on (19, cols[k])
      and that square is made visible. */
  function PlaceAnimals(b: Board, cols: seq<int>, n: nat): (r: Board)
    requires Coherent(b) && n <= |cols| <= 5
    requires forall i | 0 <= i < |cols| :: 0 <= cols[i] <= Last
    ensures Coherent(r)
    ensures forall q {:trigger At(r, q)} | InBoard(q) ::
              At(r, q)
              == (match AnimalOn(cols, n, q)
                  case None => At(b, q)
                  case Some(k) => At(b, q).(hasAnimal := true, animal := Some(k), visible := true))
  {
    if n == 0 then b
    else
      var b1 := PlaceAnimals(b, cols, n - 1);
      var p := Pos(Last, cols[n - 1]);
      assert CellOk(b1[p.row][p.col]);
      Put(b1, p, SetVisible(SetAnimal(At(b1, p), n - 1), true))
  }

  /** The creature the first `n` placements leave on `q`. */
  function CreatureOn(at: seq<Pos>, n: nat, q: Pos): (r: Option<CreatureId>)
    requires n <= |at|
    ensures r.Some? ==> r.value < n && q == at[r.value]
    ensures r.None? ==> forall k | 0 <= k < n :: q != at[k]
  {
    if n == 0 then None
    else if q == at[n - 1] then Some(n - 1)
    else CreatureOn(at, n - 1, q)
  }

  /** The second loop, after `n` rounds: setCreature and setHasCreature(true)
      on the square of creature k. */
  function PlaceCreatures(b: Board, at: seq<Pos>, n: nat): (r: Board)
    requires Coherent(b) && n <= |at| <= 5
    requires forall i | 0 <= i < |at| :: Inner(at[i])
    ensures Coherent(r)
    ensures forall q {:trigger At(r, q)} | InBoard(q) ::
              At(r, q)
              == (match CreatureOn(at, n, q)
                  case None => At(b, q)
                  case Some(k) => At(b, q).(hasCreature := true, creature := Some(k)))
    ensures forall q {:trigger At(r, q)} | InBoard(q) ::
              At(r, q).animal == At(b, q).animal && At(r, q).visible == At(b, q).visible
  {
    if n == 0 then b
    else
      var b1 := PlaceCreatures(b, at, n - 1);
      var p := at[n - 1];
      assert CellOk(b1[p.row][p.col]);
      Put(b1, p, SetHasCreature(SetCreature(At(b1, p), n - 1), true))
  }

  /** The spell the first `n` placements leave on `q`. */
  function SpellOn(at: seq<Pos>, pick: seq<int>, n: nat, q: Pos): (r: Option<Spell>)
    requires n <= |at| == |pick|
    requires forall i | 0 <= i < |pick| :: 0 <= pick[i] < 5
    ensures r.Some? <==> exists k | 0 <= k < n :: q == at[k]
  {
    if n == 0 then None
    else if q == at[n - 1] then Some(SpellOfIndex(pick[n - 1]))
    else SpellOn(at, pick, n - 1, q)
  }

  /** The third loop, after `n` rounds: setSpell(spells.get(pick[k])) on the
      square of spell k. */
  function PlaceSpells(b: Board, at: seq<Pos>, pick: seq<int>, n: nat): (r: Board)
    requires Coherent(b) && n <= |at| == |pick|
    requires forall i | 0 <= i < |at| :: Inner(at[i]) && 0 <= pick[i] < 5
    ensures Coherent(r)
    ensures forall q {:trigger At(r, q)} | InBoard(q) ::
              At(r, q)
              == (match SpellOn(at, pick, n, q)
                  case None => At(b, q)
                  case Some(s) => At(b, q).(hasSpell := true, spell := Some(s)))
    ensures forall q {:trigger At(r, q)} | InBoard(q) ::
              At(r, q).animal == At(b, q).animal && At(r, q).visible == At(b, q).visible
              && At(r, q).creature == At(b, q).creature
  {
    if n == 0 then b
    else
      var b1 := PlaceSpells(b, at, pick, n - 1);
      var p := at[n - 1];
      assert CellOk(b1[p.row][p.col]);
      Put(b1, p, SetSpell(At(b1, p), SpellOfIndex(pick[n - 1])))
  }

  /** The board after the constructor's three placement loops. */
  function InitialBoard(p: Placement): (b: Board)
    requires PlacementOk(p)
    ensures Coherent(b)
  {
    var b0 := PlaceAnimals(EmptyBoard(), p.animalCols, 5);
    var b1 := PlaceCreatures(b0, p.creatureAt, 5);
    PlaceSpells(b1, p.spellAt, p.spellPick, SpellCount)
  }

  /** new Game(seed), with the accepted draws in `p`. */
  function Construct(p: Placement): (g: Game)
    requires PlacementOk(p)
    ensures Valid(g)
  {
    Game("", InitialBoard(p), false, InitialAnimals(p.animalCols), InitialCreatures(), 0, false, false, false, false, false)
  }

  /** The first loop alone, on one square: the animal placed there, shown
      exactly when there is one, and no creature or spell yet. */
  lemma AnimalLayer(cols: seq<int>, q: Pos)
    requires |cols| == 5 && InBoard(q)
    requires forall i | 0 <= i < 5 :: 0 <= cols[i] <= Last
    ensures At(PlaceAnimals(EmptyBoard(), cols, 5), q).animal == AnimalOn(cols, 5, q)
    ensures At(PlaceAnimals(EmptyBoard(), cols, 5), q).visible <==> AnimalOn(cols, 5, q).Some?
  {
    assert At(EmptyBoard(), q) == NewCell(q.row, q.col);
  }

  /** The animal layer of one square after the three loops: the animal
      placed there, and visible exactly when there is one. */
  lemma InitialCellAnimal(p: Placement, q: Pos)
    requires PlacementOk(p) && InBoard(q)
    ensures At(InitialBoard(p), q).animal == AnimalOn(p.animalCols, 5, q)
    ensures At(InitialBoard(p), q).visible <==> AnimalOn(p.animalCols, 5, q).Some?
  {
    AnimalLayer(p.animalCols, q);
  }

  /** The creature and spell of one square after the three loops: the ones
      placed there. */
  lemma InitialCellItems(p: Placement, q: Pos)
    requires PlacementOk(p) && InBoard(q)
    ensures At(InitialBoard(p), q).creature == CreatureOn(p.creatureAt, 5, q)
    ensures At(InitialBoard(p), q).spell == SpellOn(p.spellAt, p.spellPick, SpellCount, q)
  {
    var b0 := PlaceAnimals(EmptyBoard(), p.animalCols, 5);
    assert At(EmptyBoard(), q) == NewCell(q.row, q.col);
    assert At(b0, q).creature.None? && At(b0, q).spell.None?;
  }

  /** With distinct columns, the latest animal placed on a start square is
      the one whose square it is. */
  lemma {:induction false} AnimalOnOwnSquare(cols: seq<int>, n: nat, k: nat)
    requires k < n <= |cols|
    requires forall i, j | 0 <= i < j < n :: cols[i] != cols[j]
    ensures AnimalOn(cols, n, Pos(Last, cols[k])) == Some(k)
  {
    if k < n - 1 {
      AnimalOnOwnSquare(cols, n - 1, k);
    }
  }

  /** With distinct squares, the latest creature placed on a creature's
      square is that creature. */
  lemma {:induction false} CreatureOnOwnSquare(at: seq<Pos>, n: nat, k: nat)
    requires k < n <= |at|
    requires forall i, j | 0 <= i < j < n :: at[i] != at[j]
    ensures CreatureOn(at, n, at[k]) == Some(k)
  {
    if k < n - 1 {
      CreatureOnOwnSquare(at, n - 1, k);
    }
  }

  // ----- The initial state, independently of the draws -----

  /** A freshly constructed game: the roster in order, each animal new and
      alone on a visible square of the last row; the five creatures new,
      with their attack values, on inner squares and on no spell; spells
      only on inner squares; every other square hidden and empty; turn 0
      and every flag clear. */
  ghost predicate IsInitial(g: Game) {
    && Valid(g)
    && g.status == "" && !g.gameOver && g.current == 0
    && !g.hasMoved && !g.currentUsedSpell && !g.nextUsedSpell && !g.thisTurn && !g.nextTurn
    && (forall k | 0 <= k < 5 ::
          && g.animals[k] == NewAnimal(RosterName(k), RosterSpecies(k), g.animals[k].at)
          && g.animals[k].at.row == Last
          && At(g.board, g.animals[k].at).animal == Some(k))
    && (forall k | 0 <= k < 5 :: g.creatures[k] == NewCreature(CreatureName(k), CreatureAttack(k)))
    && (forall k | 0 <= k < 5 :: exists q | Inner(q) :: At(g.board, q).creature == Some(k))
    && (forall q | InBoard(q) ::
          && (At(g.board, q).visible <==> At(g.board, q).hasAnimal)
          && (At(g.board, q).hasAnimal ==> q.row == Last)
          && (At(g.board, q).hasCreature ==> Inner(q) && !At(g.board, q).hasSpell)
          && (At(g.board, q).hasSpell ==> Inner(q)))
  }

  /** Each animal stands on the square it was placed on. */
  lemma InitialAnimalsPlaced(p: Placement, k: nat)
    requires PlacementOk(p) && k < 5
    ensures At(InitialBoard(p), Pos(Last, p.animalCols[k])).animal == Some(k)
  {
    AnimalOnOwnSquare(p.animalCols, 5, k);
    InitialCellAnimal(p, Pos(Last, p.animalCols[k]));
  }

  /** With distinct squares, the spell left on a spell's square is the one
      picked for it. */
  lemma {:induction false} SpellOnOwnSquare(at: seq<Pos>, pick: seq<int>, n: nat, k: nat)
    requires k < n <= |at| == |pick|
    requires forall i | 0 <= i < |pick| :: 0 <= pick[i] < 5
    requires forall i, j | 0 <= i < j < n :: at[i] != at[j]
    ensures SpellOn(at, pick, n, at[k]) == Some(SpellOfIndex(pick[k]))
  {
    if k < n - 1 {
      SpellOnOwnSquare(at, pick, n - 1, k);
    }
  }

  /** Each of the ten spells lies on its square: the spell list entry
      picked for it. */
  lemma InitialSpellsPlaced(p: Placement, k: nat)
    requires PlacementOk(p) && k < SpellCount
    ensures At(InitialBoard(p), p.spellAt[k]).spell == Some(SpellOfIndex(p.spellPick[k]))
  {
    SpellOnOwnSquare(p.spellAt, p.spellPick, SpellCount, k);
    InitialCellItems(p, p.spellAt[k]);
  }

  /** Each creature stands on an inner square. */
  lemma InitialCreaturesPlaced(p: Placement, k: nat)
    requires PlacementOk(p) && k < 5
    ensures exists q | Inner(q) :: At(InitialBoard(p), q).creature == Some(k)
  {
    CreatureOnOwnSquare(p.creatureAt, 5, k);
    InitialCellItems(p, p.creatureAt[k]);
  }

  /** Every square of the initial board: visible exactly under an animal,
      animals only on the last row, creatures and spells only on inner
      squares and never together. */
  lemma InitialSquare(p: Placement, q: Pos)
    requires PlacementOk(p) && InBoard(q)
    ensures var c := At(InitialBoard(p), q);
      && (c.visible <==> c.hasAnimal)
      && (c.hasAnimal ==> q.row == Last)
      && (c.hasCreature ==> Inner(q) && !c.hasSpell)
      && (c.hasSpell ==> Inner(q))
  {
    InitialCellAnimal(p, q);
    InitialCellItems(p, q);
    var b := InitialBoard(p);
    assert CellOk(b[q.row][q.col]);
  }

  /** The constructor builds an initial game, whatever the draws. */
  lemma ConstructIsInitial(p: Placement)
    requires PlacementOk(p)
    ensures IsInitial(Construct(p))
  {
    var g := Construct(p);
    forall k | 0 <= k < 5
      ensures At(g.board, g.animals[k].at).animal == Some(k)
    {
      InitialAnimalsPlaced(p, k);
    }
    forall k | 0 <= k < 5
      ensures exists q | Inner(q) :: At(g.board, q).creature == Some(k)
    {
      InitialCreaturesPlaced(p, k);
    }
    forall q | InBoard(q)
      ensures && (At(g.board, q).visible <==> At(g.board, q).hasAnimal)
              && (At(g.board, q).hasAnimal ==> q.row == Last)
              && (At(g.board, q).hasCreature ==> Inner(q) && !At(g.board, q).hasSpell)
              && (At(g.board, q).hasSpell ==> Inner(q))
    {
      InitialSquare(p, q);
    }
  }

  // ----- /reset -----

  /** The /reset request: a new game from the stored seed, so from the same
      draws, and the phase back to "move". Nothing of the previous state
      survives. */
  function Reset(s: ServerState, p: Placement): (r: ServerState)
    requires PlacementOk(p)
    ensures r.phase == MovePhase && IsInitial(r.game)
  {
    ConstructIsInitial(p);
    ServerState(Construct(p), MovePhase)
  }
}
