/** The game record and the move/attack/turn transitions of Game.java, with
    the per-species `move` methods of the animal classes. */
module Engine {
  import opened Common
  import opened Spells
  import opened Squares
  import opened Animals
  import opened Creatures
  import opened Boards
  import opened Paths
  import opened Movement

  // ----- Status messages, verbatim (including the source's spelling) -----

  const MsgInvalid: string := "The last move was invalid."
  const MsgSuccessful: string := "The last move was successful."
  const MsgSuccessfulOnCreature: string := "The last move was sucessful"
  const MsgInterrupted: string := "The last move was interrupted by a creature."
  const MsgSpellDone: string := "The last spell was successful."

  /** The roster, in the order the constructor adds the animals. */
  function RosterName(k: nat): string
    requires k < 5
  {
    ["Rabbit", "Fox", "Deer", "Owl", "Badger"][k]
  }

  function RosterSpecies(k: nat): Species
    requires k < 5
  {
    [Rabbit, Fox, Deer, Owl, Badger][k]
  }

  /** Game.java's mutable fields that influence behaviour. */
  datatype Game = Game(
    status: string,
    board: Board,
    gameOver: bool,
    animals: seq<Animal>,
    creatures: seq<Creature>,
    current: int,
    hasMoved: bool,
    currentUsedSpell: bool,
    nextUsedSpell: bool,
    thisTurn: bool,
    nextTurn: bool)

  /** The state invariant every transition keeps: a coherent 20x20 board,
      the fixed five-animal roster standing on the board with positive spell
      counts, five creatures, and a turn index in 0..4. */
  predicate Valid(g: Game) {
    && Coherent(g.board)
    && |g.animals| == 5
    && |g.creatures| == 5
    && (forall k | 0 <= k < 5 ::
          && g.animals[k].name == RosterName(k)
          && g.animals[k].species == RosterSpecies(k)
          && InBoard(g.animals[k].at)
          && PositiveCounts(g.animals[k].spells))
    && 0 <= g.current < 5
  }

  /** Roster names are pairwise distinct. */
  lemma RosterNamesDistinct(i: nat, j: nat)
    requires i < 5 && j < 5
    ensures RosterName(i) == RosterName(j) <==> i == j
  {
  }

  /** The creatureInPath an animal of species `sp` answers with. */
  function CreatureInPath(sp: Species, b: Board, oldRow: int, oldCol: int, newRow: int, newCol: int): (r: bool)
    requires WellFormed(b) && InBoard(Pos(oldRow, oldCol)) && InBoard(Pos(newRow, newCol))
    ensures r <==> !IgnoresCreaturesInPath(sp) && InPath(b, oldRow, oldCol, newRow, newCol, ForCreature)
    ensures sp == Badger ==> !r
  {
    if IgnoresCreaturesInPath(sp) then false else InPath(b, oldRow, oldCol, newRow, newCol, ForCreature)
  }

  // ----- Animal.validMove -----

  /** Animal.validMove: the destination is below both upper bounds and holds
      no animal. A destination past row or column 19 is refused with the
      invalid status; an occupied one is refused silently; a negative index
      passes the upper-bound test and then fails the array access. The
      explicit lower-bound test cannot succeed and is kept as written. */
  function ValidMove(g: Game, newRow: int, newCol: int): (r: Outcome<Game>)
    requires Valid(g)
    ensures r.Failed? <==> newRow <= Last && newCol <= Last && (newRow < 0 || newCol < 0)
    ensures r.Failed? ==> r.state == g && r.fault == BoardIndexOutOfRange
    ensures r.Done? && r.accepted <==> InBoard(Pos(newRow, newCol)) && !At(g.board, Pos(newRow, newCol)).hasAnimal
    ensures r.Done? && r.accepted ==> r.state == g
    ensures r.Done? && !r.accepted && (newRow > Last || newCol > Last) ==> r.state == g.(status := MsgInvalid)
    ensures r.Done? && !r.accepted && newRow <= Last && newCol <= Last ==> r.state == g
  {
    if newRow <= Last && newCol <= Last then
      if newRow < 0 || newCol < 0 then Failed(g, BoardIndexOutOfRange)
      else if At(g.board, Pos(newRow, newCol)).hasAnimal then Done(g, false)
      else if (newRow < 0 && newRow > Last) || (newCol > Last && newCol < 0) then Done(g.(status := MsgInvalid), false)
      else Done(g, true)
    else Done(g.(status := MsgInvalid), false)
  }

  // ----- Game.moveAnimal -----

  /** The game with roster entry `k` replaced by `x`, which keeps the
      entry's name and species and stands on the board. */
  function WithAnimal(g: Game, k: nat, x: Animal): (r: Game)
    requires Valid(g) && k < 5
    requires x.name == g.animals[k].name && x.species == g.animals[k].species
    requires InBoard(x.at) && PositiveCounts(x.spells)
    ensures Valid(r)
    ensures r.animals[k] == x
    ensures forall j | 0 <= j < 5 && j != k :: r.animals[j] == g.animals[j]
    ensures r.(animals := g.animals) == g
  {
    g.(animals := g.animals[k := x])
  }

  /** Where a move ends, the status it writes and the mover's spells after it. */
  datatype Landing = Landing(at: Pos, status: string, spells: map<Spell, int>)

  /** The three-way decision at the top of moveAnimal. */
  function Resolve(g: Game, a: AnimalId, oldRow: int, oldCol: int, newRow: int, newCol: int): (l: Landing)
    requires Valid(g) && a < 5
    requires InBoard(Pos(oldRow, oldCol)) && InBoard(Pos(newRow, newCol))
    ensures InBoard(l.at) && PositiveCounts(l.spells)
    ensures At(g.board, Pos(newRow, newCol)).hasCreature
        ==> l == Landing(Pos(newRow, newCol), MsgSuccessfulOnCreature, g.animals[a].spells)
    ensures !At(g.board, Pos(newRow, newCol)).hasCreature
            && CreatureInPath(g.animals[a].species, g.board, oldRow, oldCol, newRow, newCol)
        ==> && FirstCreatureOnLine(g.board, oldRow, oldCol, newRow, newCol, l.at)
            && OnForwardPath(oldRow, oldCol, newRow, newCol, l.at)
            && l.status == MsgInterrupted
            && l.spells == g.animals[a].spells
    ensures !At(g.board, Pos(newRow, newCol)).hasCreature
            && !CreatureInPath(g.animals[a].species, g.board, oldRow, oldCol, newRow, newCol)
        ==> && l.at == Pos(newRow, newCol)
            && l.status == MsgSuccessful
            && l.spells
               == (if At(g.board, Pos(newRow, newCol)).hasSpell
                   then AddSpell(g.animals[a].spells, At(g.board, Pos(newRow, newCol)).spell.value)
                   else g.animals[a].spells)
  {
    var me := g.animals[a];
    var target := Pos(newRow, newCol);
    var tc := At(g.board, target);
    if tc.hasCreature then Landing(target, MsgSuccessfulOnCreature, me.spells)
    else if CreatureInPath(me.species, g.board, oldRow, oldCol, newRow, newCol) then
      InterruptionFindsCreature(g.board, oldRow, oldCol, newRow, newCol);
      Landing(NextCreatureSquare(g.board, oldRow, oldCol, newRow, newCol).value, MsgInterrupted, me.spells)
    else if tc.hasSpell then
      assert CellOk(g.board[newRow][newCol]);
      Landing(target, MsgSuccessful, AddSpell(me.spells, tc.spell.value))
    else Landing(target, MsgSuccessful, me.spells)
  }

  /** The board half of moveAnimal: clear the old square, then put the mover
      on the landing square and make it visible. */
  function Relocate(b: Board, a: AnimalId, from: Pos, dest: Pos): (r: Board)
    requires Coherent(b) && a < 5 && InBoard(from) && InBoard(dest)
    ensures Coherent(r)
    ensures At(r, dest) == SetVisible(SetAnimal(At(b, dest), a), true)
    ensures from != dest ==> At(r, from) == RemoveAnimal(At(b, from))
    ensures forall p {:trigger At(r, p)} | InBoard(p) && p != dest && p != from :: At(r, p) == At(b, p)
    ensures SameCreatures(b, r)
  {
    assert CellOk(b[from.row][from.col]) && CellOk(b[dest.row][dest.col]);
    var b1 := Put(b, from, RemoveAnimal(At(b, from)));
    assert CellOk(b1[dest.row][dest.col]);
    Put(b1, dest, SetVisible(SetAnimal(At(b1, dest), a), true))
  }

  /** Game.moveAnimal. The mover lands on the requested square if a creature
      sits there; otherwise, if its creatureInPath holds, on the first
      creature square of the scan; otherwise on the requested square,
      collecting one charge of a spell lying there (the spell stays on the
      square). In every case the old square loses its animal, the landing
      square gains the mover and becomes visible, the mover's position is
      the landing square, and no other square, animal or creature changes. */
  function MoveAnimal(g: Game, a: AnimalId, oldRow: int, oldCol: int, newRow: int, newCol: int): (r: Game)
    requires Valid(g) && a < 5
    requires InBoard(Pos(oldRow, oldCol)) && InBoard(Pos(newRow, newCol))
    ensures Valid(r)
    ensures r.hasMoved && r.thisTurn && !r.nextTurn
    ensures r.creatures == g.creatures && r.gameOver == g.gameOver && r.current == g.current
    ensures r.currentUsedSpell == g.currentUsedSpell && r.nextUsedSpell == g.nextUsedSpell
    ensures forall k | 0 <= k < 5 && k != a :: r.animals[k] == g.animals[k]
    ensures r.animals[a].life == g.animals[a].life
    ensures var l := Resolve(g, a, oldRow, oldCol, newRow, newCol);
            && r.animals[a].at == l.at && r.animals[a].spells == l.spells && r.status == l.status
    ensures At(r.board, r.animals[a].at) == SetVisible(SetAnimal(At(g.board, r.animals[a].at), a), true)
    ensures Pos(oldRow, oldCol) != r.animals[a].at
        ==> At(r.board, Pos(oldRow, oldCol)) == RemoveAnimal(At(g.board, Pos(oldRow, oldCol)))
    ensures forall p {:trigger At(r.board, p)} | InBoard(p) && p != r.animals[a].at && p != Pos(oldRow, oldCol) :: At(r.board, p) == At(g.board, p)
    ensures SameCreatures(g.board, r.board)
  {
    var l := Resolve(g, a, oldRow, oldCol, newRow, newCol);
    var g1 := WithAnimal(g, a, g.animals[a].(spells := l.spells, at := l.at));
    g1.(status := l.status, hasMoved := true, thisTurn := true, nextTurn := false,
        board := Relocate(g.board, a, Pos(oldRow, oldCol), l.at))
  }

  /** Two states that differ at most in their status text agree once the
      same status is written to both. */
  lemma Restamp(g: Game, h: Game, t: string)
    requires h == g || h == g.(status := h.status)
    ensures h.(status := t) == g.(status := t)
  {
  }

  // ----- The species' move methods -----

  /** A move that lands on the square of another animal `b` leaves two
      animals claiming that square: `b` still names it as its position, while
      the cell's animal slot now names only the mover. */
  lemma MoveOverwritesAnimal(g: Game, a: AnimalId, b: AnimalId, oldRow: int, oldCol: int, newRow: int, newCol: int)
    requires Valid(g) && a < 5 && b < 5 && a != b
    requires InBoard(Pos(oldRow, oldCol)) && InBoard(Pos(newRow, newCol))
    requires Resolve(g, a, oldRow, oldCol, newRow, newCol).at == g.animals[b].at
    ensures var r := MoveAnimal(g, a, oldRow, oldCol, newRow, newCol);
            && r.animals[b].at == g.animals[b].at
            && r.animals[a].at == g.animals[b].at
            && At(r.board, g.animals[b].at).animal == Some(a)
  {
  }

  /** Rabbit.move, Fox.move, Deer.move, Owl.move and Badger.move, dispatched
      on the mover's species. The old square is passed in, as in the source,
      rather than read from the animal. The move is accepted exactly when the
      destination passes validMove, Rabbit and Fox see no animal on the
      path, and the species' shape test holds; only then is moveAnimal run.
      A refused move changes at most the status message. */
  function Move(g: Game, a: AnimalId, oldRow: int, oldCol: int, newRow: int, newCol: int): (r: Outcome<Game>)
    requires Valid(g) && a < 5 && InBoard(Pos(oldRow, oldCol))
    ensures r.Failed? <==> newRow <= Last && newCol <= Last && (newRow < 0 || newCol < 0)
    ensures r.Failed? ==> r.state == g && r.fault == BoardIndexOutOfRange
    ensures r.Done? && r.accepted
        <==> && InBoard(Pos(newRow, newCol))
             && !At(g.board, Pos(newRow, newCol)).hasAnimal
             && !(ChecksAnimalsInPath(g.animals[a].species) && InPath(g.board, oldRow, oldCol, newRow, newCol, ForAnimal))
             && LegalShape(g.animals[a].species, oldRow, oldCol, newRow, newCol)
    ensures r.Done? && r.accepted ==> InBoard(Pos(newRow, newCol)) && r.state == MoveAnimal(g, a, oldRow, oldCol, newRow, newCol)
    ensures r.Done? && !r.accepted ==> r.state == g || r.state == g.(status := MsgInvalid)
    ensures Valid(r.state)
  {
    match ValidMove(g, newRow, newCol)
    case Failed(g1, f) => Failed(g1, f)
    case Done(g1, ok) =>
      if !ok then Done(g1, false)
      else Done(Attempt(g, a, oldRow, oldCol, newRow, newCol), Pass(g, a, oldRow, oldCol, newRow, newCol))
  }

  /** A move, accepted or not, ends no game and passes no turn. */
  lemma MoveKeepsTurn(g: Game, a: AnimalId, oldRow: int, oldCol: int, newRow: int, newCol: int)
    requires Valid(g) && a < 5 && InBoard(Pos(oldRow, oldCol))
    ensures var r := Move(g, a, oldRow, oldCol, newRow, newCol).state;
            r.current == g.current && r.gameOver == g.gameOver
  {
  }

  /** A move, accepted or not, hurts no animal: the life of any animal `k`
      is what it was. */
  lemma MoveKeepsLives(g: Game, a: AnimalId, oldRow: int, oldCol: int, newRow: int, newCol: int, k: AnimalId)
    requires Valid(g) && a < 5 && InBoard(Pos(oldRow, oldCol)) && k < 5
    ensures Move(g, a, oldRow, oldCol, newRow, newCol).state.animals[k].life == g.animals[k].life
  {
  }

  /** Whether a destination that passed validMove is accepted: Rabbit and
      Fox refuse a path blocked by an animal, and every species refuses a
      destination outside its shape. */
  function Pass(g: Game, a: AnimalId, oldRow: int, oldCol: int, newRow: int, newCol: int): (r: bool)
    requires Valid(g) && a < 5 && InBoard(Pos(oldRow, oldCol)) && InBoard(Pos(newRow, newCol))
    ensures r ==> LegalShape(g.animals[a].species, oldRow, oldCol, newRow, newCol)
    ensures !ChecksAnimalsInPath(g.animals[a].species) ==> (r <==> LegalShape(g.animals[a].species, oldRow, oldCol, newRow, newCol))
    ensures ChecksAnimalsInPath(g.animals[a].species) && InPath(g.board, oldRow, oldCol, newRow, newCol, ForAnimal) ==> !r
  {
    var sp := g.animals[a].species;
    !(ChecksAnimalsInPath(sp) && InPath(g.board, oldRow, oldCol, newRow, newCol, ForAnimal))
    && LegalShape(sp, oldRow, oldCol, newRow, newCol)
  }

  /** The part of a species' move after validMove accepted the destination:
      a blocked path (checked first, and only by Rabbit and Fox) or an
      illegal shape refuses the move, a Fox's blocked path silently; an
      accepted move runs moveAnimal. */
  function Attempt(g: Game, a: AnimalId, oldRow: int, oldCol: int, newRow: int, newCol: int): (r: Game)
    requires Valid(g) && a < 5 && InBoard(Pos(oldRow, oldCol)) && InBoard(Pos(newRow, newCol))
    ensures Valid(r)
    ensures Pass(g, a, oldRow, oldCol, newRow, newCol) ==> r == MoveAnimal(g, a, oldRow, oldCol, newRow, newCol)
    ensures !Pass(g, a, oldRow, oldCol, newRow, newCol) ==> r == g || r == g.(status := MsgInvalid)
  {
    var sp := g.animals[a].species;
    if ChecksAnimalsInPath(sp) && InPath(g.board, oldRow, oldCol, newRow, newCol, ForAnimal) then
      if BlockedMoveMarksInvalid(sp) then g.(status := MsgInvalid) else g
    else if LegalShape(sp, oldRow, oldCol, newRow, newCol) then
      MoveAnimal(g, a, oldRow, oldCol, newRow, newCol)
    else
      g.(status := MsgInvalid)
  }

  /** A move onto a square that already holds an animal is refused for every
      species, and the game is left exactly as it was. */
  lemma OccupiedDestinationRefused(g: Game, a: AnimalId, oldRow: int, oldCol: int, newRow: int, newCol: int)
    requires Valid(g) && a < 5 && InBoard(Pos(oldRow, oldCol)) && InBoard(Pos(newRow, newCol))
    requires At(g.board, Pos(newRow, newCol)).hasAnimal
    ensures Move(g, a, oldRow, oldCol, newRow, newCol) == Done(g, false)
  {
  }

  /** Per-species refusal statuses: a Rabbit blocked by an animal leaves the
      status alone, a blocked Fox writes the invalid status, and every
      species writes it for an illegal shape. */
  lemma RefusalStatus(g: Game, a: AnimalId, oldRow: int, oldCol: int, newRow: int, newCol: int)
    requires Valid(g) && a < 5 && InBoard(Pos(oldRow, oldCol)) && InBoard(Pos(newRow, newCol))
    requires !At(g.board, Pos(newRow, newCol)).hasAnimal
    ensures g.animals[a].species == Rabbit && InPath(g.board, oldRow, oldCol, newRow, newCol, ForAnimal)
        ==> Move(g, a, oldRow, oldCol, newRow, newCol) == Done(g, false)
    ensures g.animals[a].species == Fox && InPath(g.board, oldRow, oldCol, newRow, newCol, ForAnimal)
        ==> Move(g, a, oldRow, oldCol, newRow, newCol) == Done(g.(status := MsgInvalid), false)
    ensures !(ChecksAnimalsInPath(g.animals[a].species) && InPath(g.board, oldRow, oldCol, newRow, newCol, ForAnimal))
            && !LegalShape(g.animals[a].species, oldRow, oldCol, newRow, newCol)
        ==> Move(g, a, oldRow, oldCol, newRow, newCol) == Done(g.(status := MsgInvalid), false)
  {
  }

  /** A Badger is never interrupted: an accepted Badger move always lands on
      the requested square, creatures on the way notwithstanding. */
  lemma BadgerLandsOnTarget(g: Game, a: AnimalId, oldRow: int, oldCol: int, newRow: int, newCol: int)
    requires Valid(g) && a < 5 && InBoard(Pos(oldRow, oldCol))
    requires g.animals[a].species == Badger
    requires Move(g, a, oldRow, oldCol, newRow, newCol).Done? && Move(g, a, oldRow, oldCol, newRow, newCol).accepted
    ensures Move(g, a, oldRow, oldCol, newRow, newCol).state.animals[a].at == Pos(newRow, newCol)
  {
  }

  // ----- Game.attackAnimal -----

  /** The creature on the square of the animal whose turn it is, if any. */
  function CreatureUnder(g: Game): (r: Option<Creature>)
    requires Valid(g)
    ensures r.Some? <==> At(g.board, g.animals[g.current].at).hasCreature
    ensures r.Some? ==> r.value == g.creatures[At(g.board, g.animals[g.current].at).creature.value]
  {
    var cell := At(g.board, g.animals[g.current].at);
    assert CellOk(g.board[cell.row][cell.col]);
    if cell.hasCreature then Some(g.creatures[cell.creature.value]) else None
  }

  /** Game.attackAnimal, always aimed at the animal whose turn it is. If it
      stands on a creature that is not suppressed for it, it loses the
      creature's attack value. The suppressed case returns before the
      liveness check; otherwise a non-positive life sets gameOver. Nothing
      but that animal's life and the gameOver latch changes. */
  function AttackAnimal(g: Game): (r: Game)
    requires Valid(g)
    ensures Valid(r)
    ensures g.gameOver ==> r.gameOver
    ensures CreatureUnder(g).Some? && Suppressed(CreatureUnder(g).value, g.current) ==> r == g
    ensures CreatureUnder(g).Some? && !Suppressed(CreatureUnder(g).value, g.current)
        ==> r.animals[g.current] == Attacked(g.animals[g.current], CreatureUnder(g).value.attack)
    ensures CreatureUnder(g).None? ==> r.animals == g.animals
    ensures !(CreatureUnder(g).Some? && Suppressed(CreatureUnder(g).value, g.current))
        ==> (r.gameOver <==> g.gameOver || r.animals[g.current].life <= 0)
  {
    match CreatureUnder(g)
    case Some(c) =>
      if IsCharmed(c, g.current) || c.confused || IsShieldAnimal(c, g.current) then g
      else CheckAlive(WithAnimal(g, g.current, Attacked(g.animals[g.current], c.attack)))
    case None => CheckAlive(g)
  }

  /** attackAnimal touches nothing but the life of the animal whose turn
      it is and the gameOver latch. */
  lemma AttackFrame(g: Game)
    requires Valid(g)
    ensures AttackAnimal(g) == g.(animals := AttackAnimal(g).animals, gameOver := AttackAnimal(g).gameOver)
    ensures forall k | 0 <= k < 5 && k != g.current :: AttackAnimal(g).animals[k] == g.animals[k]
  {
  }

  /** The liveness test that ends attackAnimal: gameOver latches once the
      animal whose turn it is has no life left. */
  function CheckAlive(g: Game): (r: Game)
    requires Valid(g)
    ensures Valid(r)
    ensures r.gameOver <==> g.gameOver || g.animals[g.current].life <= 0
    ensures r == g.(gameOver := r.gameOver)
  {
    if !IsAlive(g.animals[g.current]) then g.(gameOver := true) else g
  }

  // ----- Turn order -----

  /** Game.updateCurrentAnimalIndex. Its first test compares the roster
      entry after the old index with the roster entry at the new index,
      which is the same entry, so the tie-break branches on nextTurn and the
      used-spell flags never run: the index always advances by one, modulo
      five, and hasMoved is cleared. */
  function UpdateCurrentAnimalIndex(g: Game): (r: Game)
    requires Valid(g)
    ensures Valid(r)
    ensures r.current == Mod5(g.current + 1)
    ensures r == g.(current := r.current, hasMoved := false)
  {
    var last := g.current;
    var cur := Mod5(g.current + 1);
    var next :=
      if g.animals[Mod5(last + 1)].name == g.animals[cur].name then Mod5(cur)
      else if g.nextTurn then Mod5(cur + 1)
      else if g.currentUsedSpell then Mod5(cur)
      else if g.nextUsedSpell then Mod5(cur + 1)
      else cur;
    g.(current := next, hasMoved := false)
  }

  /** Java's `% five` on the non-negative indices the turn order uses.
      The indices fed to it lie in 0..9, where the remainder is a single
      conditional subtraction; that case is spelled out for the solver. */
  function Mod5(k: int): (r: int)
    ensures 0 <= k < 10 ==> 0 <= r < 5
  {
    if 0 <= k < 5 then k else if 5 <= k < 10 then k - 5 else k % 5
  }

  /** Mod5 is the remainder of division by five. */
  lemma Mod5IsRemainder(k: int)
    ensures Mod5(k) == k % 5
  {
  }

  /** Game.getCurrentAnimalName. */
  function CurrentAnimalName(g: Game): (r: string)
    requires Valid(g)
    ensures r == RosterName(g.current)
  {
    g.animals[g.current].name
  }

  /** Game.getNextAnimalName: the roster entry after the current one. */
  function NextAnimalName(g: Game): (r: string)
    requires Valid(g)
    ensures r == RosterName(Mod5(g.current + 1))
    ensures r != CurrentAnimalName(g)
  {
    g.animals[Mod5(g.current + 1)].name
  }

  /** After the index advances, the animal announced as next is the one
      whose turn it is. */
  lemma NextBecomesCurrent(g: Game)
    requires Valid(g)
    ensures CurrentAnimalName(UpdateCurrentAnimalIndex(g)) == NextAnimalName(g)
  {
  }

  /** The end of a turn handed over by the next animal's move: the animal
      whose turn it was is attacked and the index advances. Only the
      attacked animal's record can change, and a finished game stays
      finished. */
  lemma HandOver(g: Game)
    requires Valid(g)
    ensures var h := UpdateCurrentAnimalIndex(AttackAnimal(g));
            && h.current == Mod5(g.current + 1)
            && (forall k | 0 <= k < 5 && k != g.current :: h.animals[k] == g.animals[k])
            && (g.gameOver ==> h.gameOver)
  {
    AttackFrame(g);
  }

  /** `n` consecutive turn advances. */
  function AdvanceTurns(g: Game, n: nat): (r: Game)
    requires Valid(g)
    ensures Valid(r)
    ensures r.current == (g.current + n) % 5
    ensures r.board == g.board && r.animals == g.animals && r.creatures == g.creatures
  {
    if n == 0 then g else UpdateCurrentAnimalIndex(AdvanceTurns(g, n - 1))
  }

  /** Every animal gets a turn once in five: five advances bring the turn
      back to the same animal, and fewer do not. */
  lemma TurnCycleOfFive(g: Game, n: nat)
    requires Valid(g)
    ensures AdvanceTurns(g, n).current == g.current <==> n % 5 == 0
  {
    CycleOfFive(g.current, n);
  }

  /** Counting `n` steps round a ring of five from `c` comes back to `c`
      exactly when `n` is a multiple of five. */
  lemma {:induction false} CycleOfFive(c: int, n: nat)
    requires 0 <= c < 5
    ensures (c + n) % 5 == c <==> n % 5 == 0
  {
    if n >= 5 {
      CycleOfFive(c, n - 5);
      assert (c + n) % 5 == (c + (n - 5)) % 5;
      assert n % 5 == (n - 5) % 5;
    }
  }
}
