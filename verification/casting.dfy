/** Game.castSpell: the used-spell bookkeeping and the five spell effects. */
module Casting {
  import opened Common
  import opened Spells
  import opened Squares
  import opened Animals
  import opened Creatures
  import opened Boards
  import opened Engine

  // ----- The 3x3 neighbourhood loops -----

  /** The positions the double loop `for i in R-1..R+1, for j in C-1..C+1`
      visits, row by row. */
  function Neighbourhood(centre: Pos): (s: seq<Pos>)
    ensures |s| == 9
    ensures forall k | 0 <= k < 9 :: Near(centre, s[k])
  {
    var (r, c) := (centre.row, centre.col);
    [ Pos(r - 1, c - 1), Pos(r - 1, c), Pos(r - 1, c + 1),
      Pos(r, c - 1),     Pos(r, c),     Pos(r, c + 1),
      Pos(r + 1, c - 1), Pos(r + 1, c), Pos(r + 1, c + 1) ]
  }

  /** The `i != currentRow && j != currentCol` filter of CHARM and CONFUSE. */
  predicate OffAxis(centre: Pos, p: Pos) {
    p.row != centre.row && p.col != centre.col
  }

  /** One of the four squares diagonally adjacent to `centre`. */
  predicate DiagonalNeighbour(centre: Pos, p: Pos) {
    Abs(p.row - centre.row) == 1 && Abs(p.col - centre.col) == 1
  }

  /** A position whose diagonal neighbourhood leaves the board. */
  predicate OnBorder(p: Pos) {
    p.row == 0 || p.row == Last || p.col == 0 || p.col == Last
  }

  /** The filter keeps exactly the four diagonal neighbours, and each of
      them is visited. */
  lemma OffAxisAreDiagonals(centre: Pos)
    ensures forall k | 0 <= k < 9 :: OffAxis(centre, Neighbourhood(centre)[k]) <==> DiagonalNeighbour(centre, Neighbourhood(centre)[k])
    ensures forall p | DiagonalNeighbour(centre, p) :: exists k | 0 <= k < 9 :: Neighbourhood(centre)[k] == p
  {
    var n := Neighbourhood(centre);
    forall p | DiagonalNeighbour(centre, p)
      ensures exists k | 0 <= k < 9 :: n[k] == p
    {
      var k := 3 * (p.row - centre.row + 1) + (p.col - centre.col + 1);
      assert n[k] == p;
    }
  }

  /** For a square on the board, some diagonal neighbour is off the board
      exactly when the square is on the border. */
  lemma BorderIffDiagonalOffBoard(centre: Pos)
    requires InBoard(centre)
    ensures OnBorder(centre) <==> exists p | DiagonalNeighbour(centre, p) :: !InBoard(p)
  {
    if OnBorder(centre) {
      var dr := if centre.row == 0 then -1 else 1;
      var dc := if centre.col == 0 then -1 else 1;
      if centre.row == 0 || centre.row == Last {
        assert !InBoard(Pos(centre.row + dr, centre.col + dc));
      } else {
        assert !InBoard(Pos(centre.row + 1, centre.col + dc));
      }
    }
  }

  // ----- CHARM and CONFUSE -----

  /** What CHARM or CONFUSE does to one creature. */
  function Affect(c: Creature, caster: AnimalId, spell: Spell): (r: Creature)
    requires spell == Charm || spell == Confuse
    ensures Suppressed(r, caster)
    ensures spell == Charm ==> IsCharmed(r, caster) && r == AddCharmAnimal(c, caster)
    ensures spell == Confuse ==> r.confused && r.confusedBy == Some(caster) && r.charm == c.charm && r.shield == c.shield
    ensures r.name == c.name && r.attack == c.attack
  {
    if spell == Charm then AddCharmAnimal(c, caster)
    else SetConfusedAnimal(SetConfused(c, true), caster)
  }

  /** Applying the effect twice is applying it once. */
  lemma AffectIdempotent(c: Creature, caster: AnimalId, spell: Spell)
    requires spell == Charm || spell == Confuse
    ensures Affect(Affect(c, caster, spell), caster, spell) == Affect(c, caster, spell)
  {
  }

  /** Some off-axis position of `cells` on the board holds creature `k`. */
  predicate Hits(b: Board, centre: Pos, cells: seq<Pos>, k: CreatureId)
    requires WellFormed(b)
  {
    exists i | 0 <= i < |cells| :: OffAxis(centre, cells[i]) && InBoard(cells[i]) && At(b, cells[i]).creature == Some(k)
  }

  /** Some off-axis position of `cells` lies off the board. */
  predicate Escapes(centre: Pos, cells: seq<Pos>) {
    exists i | 0 <= i < |cells| :: OffAxis(centre, cells[i]) && !InBoard(cells[i])
  }

  /** The CHARM/CONFUSE loop over `cells`, on the creature list: every
      off-axis position is read from the board, so the first one off the
      board throws, keeping the effects already applied. When the loop
      completes, each creature that stands on an off-axis position has been
      affected and every other creature is untouched. */
  function AreaEffect(b: Board, cs: seq<Creature>, caster: AnimalId, spell: Spell, centre: Pos, cells: seq<Pos>)
    : (r: Outcome<seq<Creature>>)
    requires Coherent(b) && |cs| == 5 && (spell == Charm || spell == Confuse)
    ensures |r.state| == 5
    ensures r.Failed? <==> Escapes(centre, cells)
    ensures r.Failed? ==> r.fault == BoardIndexOutOfRange
    ensures forall k | 0 <= k < 5 :: r.state[k] == cs[k] || r.state[k] == Affect(cs[k], caster, spell)
    ensures r.Done? ==> forall k | 0 <= k < 5 ::
              r.state[k] == (if Hits(b, centre, cells, k) then Affect(cs[k], caster, spell) else cs[k])
    decreases |cells|
  {
    if cells == [] then Done(cs, true)
    else
      var p := cells[0];
      AreaTail(b, centre, cells);
      if !OffAxis(centre, p) then AreaEffect(b, cs, caster, spell, centre, cells[1..])
      else if !InBoard(p) then Failed(cs, BoardIndexOutOfRange)
      else
        var cell := At(b, p);
        assert CellOk(b[p.row][p.col]);
        var cs1 := if cell.hasCreature then cs[cell.creature.value := Affect(cs[cell.creature.value], caster, spell)] else cs;
        var r := AreaEffect(b, cs1, caster, spell, centre, cells[1..]);
        forall k | 0 <= k < 5
          ensures r.state[k] == cs[k] || r.state[k] == Affect(cs[k], caster, spell)
          ensures r.Done? ==> r.state[k] == (if Hits(b, centre, cells, k) then Affect(cs[k], caster, spell) else cs[k])
        {
          AffectIdempotent(cs[k], caster, spell);
        }
        r
  }

  /** Hits and Escapes on `cells` split into the head and the tail. */
  lemma AreaTail(b: Board, centre: Pos, cells: seq<Pos>)
    requires WellFormed(b) && |cells| > 0
    ensures forall k: CreatureId :: (Hits(b, centre, cells, k)
        <==> (OffAxis(centre, cells[0]) && InBoard(cells[0]) && At(b, cells[0]).creature == Some(k)) || Hits(b, centre, cells[1..], k))
    ensures Escapes(centre, cells) <==> (OffAxis(centre, cells[0]) && !InBoard(cells[0])) || Escapes(centre, cells[1..])
  {
    forall k: CreatureId | Hits(b, centre, cells, k)
      ensures (OffAxis(centre, cells[0]) && InBoard(cells[0]) && At(b, cells[0]).creature == Some(k)) || Hits(b, centre, cells[1..], k)
    {
      var i :| 0 <= i < |cells| && OffAxis(centre, cells[i]) && InBoard(cells[i]) && At(b, cells[i]).creature == Some(k);
      if i > 0 {
        assert cells[1..][i - 1] == cells[i];
      }
    }
    forall k: CreatureId | Hits(b, centre, cells[1..], k)
      ensures Hits(b, centre, cells, k)
    {
      var i :| 0 <= i < |cells[1..]| && OffAxis(centre, cells[1..][i]) && InBoard(cells[1..][i]) && At(b, cells[1..][i]).creature == Some(k);
      assert cells[i + 1] == cells[1..][i];
    }
    if Escapes(centre, cells) {
      var i :| 0 <= i < |cells| && OffAxis(centre, cells[i]) && !InBoard(cells[i]);
      if i > 0 {
        assert cells[1..][i - 1] == cells[i];
      }
    }
    if Escapes(centre, cells[1..]) {
      var i :| 0 <= i < |cells[1..]| && OffAxis(centre, cells[1..][i]) && !InBoard(cells[1..][i]);
      assert cells[i + 1] == cells[1..][i];
    }
  }

  /** Over the full neighbourhood, the loop throws exactly from a border
      square, and it reaches exactly the creatures on the diagonal
      neighbours. */
  lemma AreaOverNeighbourhood(b: Board, centre: Pos)
    requires WellFormed(b) && InBoard(centre)
    ensures Escapes(centre, Neighbourhood(centre)) <==> OnBorder(centre)
    ensures forall k: CreatureId :: Hits(b, centre, Neighbourhood(centre), k) <==> OnDiagonal(b, centre, k)
  {
    var n := Neighbourhood(centre);
    OffAxisAreDiagonals(centre);
    BorderIffDiagonalOffBoard(centre);
    if OnBorder(centre) {
      var p :| DiagonalNeighbour(centre, p) && !InBoard(p);
      var k :| 0 <= k < 9 && n[k] == p;
      assert OffAxis(centre, n[k]) && !InBoard(n[k]);
    }
    forall k: CreatureId | OnDiagonal(b, centre, k)
      ensures Hits(b, centre, n, k)
    {
      var p :| DiagonalNeighbour(centre, p) && InBoard(p) && At(b, p).creature == Some(k);
      var i :| 0 <= i < 9 && n[i] == p;
      assert OffAxis(centre, n[i]);
    }
  }

  /** Creature `k` stands on a diagonal neighbour of `centre`. */
  ghost predicate OnDiagonal(b: Board, centre: Pos, k: CreatureId)
    requires WellFormed(b)
  {
    exists p | DiagonalNeighbour(centre, p) && InBoard(p) :: At(b, p).creature == Some(k)
  }

  // ----- DETECT -----

  /** Math.min(Math.max(x, 0), 19). */
  function Clamp(x: int): (r: int)
    ensures 0 <= r <= Last
    ensures 0 <= x <= Last ==> r == x
  {
    if x < 0 then 0 else if x > Last then Last else x
  }

  /** The clamped square the DETECT loop reveals for position `p`. */
  function ClampPos(p: Pos): (q: Pos)
    ensures InBoard(q)
  {
    Pos(Clamp(p.row), Clamp(p.col))
  }

  /** The DETECT loop over `cells`: the clamped square of every position is
      revealed; nothing else on the board changes. */
  function RevealAll(b: Board, cells: seq<Pos>): (r: Board)
    requires Coherent(b)
    ensures Coherent(r)
    ensures forall q {:trigger At(r, q)} | InBoard(q) ::
              At(r, q) == (if exists i | 0 <= i < |cells| :: ClampPos(cells[i]) == q then Reveal(At(b, q)) else At(b, q))
    decreases |cells|
  {
    if cells == [] then b
    else
      var q0 := ClampPos(cells[0]);
      assert CellOk(b[q0.row][q0.col]);
      var b1 := Put(b, q0, Reveal(At(b, q0)));
      var r := RevealAll(b1, cells[1..]);
      forall q | InBoard(q)
        ensures At(r, q) == (if exists i | 0 <= i < |cells| :: ClampPos(cells[i]) == q then Reveal(At(b, q)) else At(b, q))
      {
        RevealIdempotent(At(b, q));
        if exists i | 0 <= i < |cells| :: ClampPos(cells[i]) == q {
          var i :| 0 <= i < |cells| && ClampPos(cells[i]) == q;
          if i > 0 {
            assert cells[1..][i - 1] == cells[i];
          }
        } else {
          assert q != q0;
          forall i | 0 <= i < |cells[1..]|
            ensures ClampPos(cells[1..][i]) != q
          {
            assert cells[1..][i] == cells[i + 1];
          }
        }
      }
      r
  }

  /** The squares DETECT reveals from a square on the board are exactly the
      board squares at most one step away in each direction. */
  lemma DetectArea(centre: Pos, q: Pos)
    requires InBoard(centre) && InBoard(q)
    ensures (exists i | 0 <= i < 9 :: ClampPos(Neighbourhood(centre)[i]) == q)
        <==> Abs(q.row - centre.row) <= 1 && Abs(q.col - centre.col) <= 1
  {
    var n := Neighbourhood(centre);
    if Abs(q.row - centre.row) <= 1 && Abs(q.col - centre.col) <= 1 {
      var k := 3 * (q.row - centre.row + 1) + (q.col - centre.col + 1);
      assert n[k] == q;
      assert ClampPos(n[k]) == q;
    }
  }

  // ----- castSpell -----

  /** The used-spell bookkeeping at the top of castSpell. The caster is
      compared with the roster entry at the current index and then with the
      entry at the current index plus one, taken without wrapping, so when
      the Badger's turn is current and another animal casts, the roster
      lookup throws before anything else happens. */
  function MarkCaster(g: Game, caster: AnimalId): (r: Outcome<Game>)
    requires Valid(g) && caster < 5
    ensures r.Failed? <==> caster != g.current && g.current == 4
    ensures r.Failed? ==> r.state == g && r.fault == RosterIndexOutOfRange
    ensures r.Done? ==> r.accepted && Valid(r.state)
    ensures r.Done? && caster == g.current ==> r.state == g.(currentUsedSpell := true)
    ensures r.Done? && caster == g.current + 1 ==> r.state == g.(nextUsedSpell := true)
    ensures r.Done? && caster != g.current && caster != g.current + 1 ==> r.state == g
  {
    if caster == g.current then Done(g.(currentUsedSpell := true), true)
    else if g.current + 1 >= 5 then Failed(g, RosterIndexOutOfRange)
    else if caster == g.current + 1 then Done(g.(nextUsedSpell := true), true)
    else Done(g, true)
  }

  /** One charge of `spell` taken from the caster. */
  function Spend(g: Game, caster: AnimalId, spell: Spell): (r: Game)
    requires Valid(g) && caster < 5
    ensures Valid(r)
    ensures r.animals[caster].spells == UpdateSpell(g.animals[caster].spells, spell)
    ensures r.animals[caster].(spells := g.animals[caster].spells) == g.animals[caster]
    ensures forall k | 0 <= k < 5 && k != caster :: r.animals[k] == g.animals[k]
    ensures r.(animals := g.animals) == g
  {
    WithAnimal(g, caster, g.animals[caster].(spells := UpdateSpell(g.animals[caster].spells, spell)))
  }

  /** The turn bookkeeping a spell effect leaves alone. */
  predicate KeepsTurn(g: Game, r: Game) {
    && r.current == g.current && r.gameOver == g.gameOver && r.hasMoved == g.hasMoved
    && r.currentUsedSpell == g.currentUsedSpell && r.nextUsedSpell == g.nextUsedSpell
    && r.thisTurn == g.thisTurn && r.nextTurn == g.nextTurn
  }

  /** The creature list after the creature `under` (if any) shields `caster`. */
  function ShieldBy(cs: seq<Creature>, under: Option<CreatureId>, caster: AnimalId): (r: seq<Creature>)
    requires |cs| == 5 && (under.Some? ==> under.value < 5)
    ensures |r| == 5
    ensures forall k | 0 <= k < 5 :: r[k] == (if under == Some(k) then AddShieldAnimal(cs[k], caster) else cs[k])
  {
    if under.Some? then cs[under.value := AddShieldAnimal(cs[under.value], caster)] else cs
  }

  /** SHIELD: the creature on the caster's square, if any, adds the caster
      to its shield list. No charge is spent. */
  function CastShield(g: Game, caster: AnimalId): (r: Game)
    requires Valid(g) && caster < 5
    ensures Valid(r)
    ensures KeepsTurn(g, r) && r.status == MsgSpellDone
    ensures r.board == g.board && r.animals == g.animals
    ensures forall k | 0 <= k < 5 ::
              r.creatures[k]
              == (if At(g.board, g.animals[caster].at).creature == Some(k) then AddShieldAnimal(g.creatures[k], caster) else g.creatures[k])
  {
    var at := g.animals[caster].at;
    assert CellOk(g.board[at.row][at.col]);
    WithCreatures(g, ShieldBy(g.creatures, At(g.board, at).creature, caster)).(status := MsgSpellDone)
  }

  /** CHARM and CONFUSE: the creatures on the caster's diagonal neighbours
      are charmed by, or confused by, the caster; then one charge is spent.
      From a border square the loop throws after affecting the creatures it
      reached, and no charge is spent. */
  function CastArea(g: Game, caster: AnimalId, spell: Spell): (r: Outcome<Game>)
    requires Valid(g) && caster < 5 && (spell == Charm || spell == Confuse)
    ensures Valid(r.state)
    ensures KeepsTurn(g, r.state) && r.state.board == g.board
    ensures r.Failed? <==> OnBorder(g.animals[caster].at)
    ensures r.Failed? ==> r.fault == BoardIndexOutOfRange
    ensures r.Done? ==> r.accepted && r.state.status == MsgSpellDone
  {
    var at := g.animals[caster].at;
    AreaOverNeighbourhood(g.board, at);
    match AreaEffect(g.board, g.creatures, caster, spell, at, Neighbourhood(at))
    case Failed(cs, f) => Failed(WithCreatures(g, cs), f)
    case Done(cs, _) => Done(WithCreatures(Spend(g, caster, spell), cs).(status := MsgSpellDone), true)
  }

  /** What a throwing CHARM or CONFUSE leaves behind: the animals and the
      status as they were, and each creature either untouched or affected. */
  lemma CastAreaThrows(g: Game, caster: AnimalId, spell: Spell)
    requires Valid(g) && caster < 5 && (spell == Charm || spell == Confuse)
    requires CastArea(g, caster, spell).Failed?
    ensures CastArea(g, caster, spell).state.animals == g.animals
    ensures CastArea(g, caster, spell).state.status == g.status
    ensures forall k | 0 <= k < 5 ::
              || CastArea(g, caster, spell).state.creatures[k] == g.creatures[k]
              || CastArea(g, caster, spell).state.creatures[k] == Affect(g.creatures[k], caster, spell)
  {
  }

  /** What a completed CHARM or CONFUSE does: exactly the creatures on the
      caster's diagonal neighbours are affected, and one charge is spent. */
  lemma CastAreaCompletes(g: Game, caster: AnimalId, spell: Spell)
    requires Valid(g) && caster < 5 && (spell == Charm || spell == Confuse)
    requires CastArea(g, caster, spell).Done?
    ensures CastArea(g, caster, spell).state.animals == Spend(g, caster, spell).animals
    ensures forall k | 0 <= k < 5 ::
              CastArea(g, caster, spell).state.creatures[k]
              == (if OnDiagonal(g.board, g.animals[caster].at, k) then Affect(g.creatures[k], caster, spell) else g.creatures[k])
  {
    AreaOverNeighbourhood(g.board, g.animals[caster].at);
  }

  /** The game with the creature list replaced. */
  function WithCreatures(g: Game, cs: seq<Creature>): (r: Game)
    requires Valid(g) && |cs| == 5
    ensures Valid(r) && KeepsTurn(g, r)
    ensures r.creatures == cs && r.board == g.board && r.animals == g.animals && r.status == g.status
  {
    g.(creatures := cs)
  }

  /** Squares at most one step away in each direction. */
  predicate Near(centre: Pos, q: Pos) {
    Abs(q.row - centre.row) <= 1 && Abs(q.col - centre.col) <= 1
  }

  /** DETECT: every board square around the caster, its own included, is
      revealed, nothing else on the board changes, and one charge is spent. */
  function CastDetect(g: Game, caster: AnimalId): (r: Game)
    requires Valid(g) && caster < 5
    ensures Valid(r)
    ensures KeepsTurn(g, r) && r.status == MsgSpellDone
    ensures r == Spend(g, caster, Detect).(board := r.board, status := MsgSpellDone)
    ensures forall q {:trigger At(r.board, q)} | InBoard(q) ::
              At(r.board, q) == (if Near(g.animals[caster].at, q) then Reveal(At(g.board, q)) else At(g.board, q))
  {
    var at := g.animals[caster].at;
    var b := RevealAll(g.board, Neighbourhood(at));
    forall q | InBoard(q)
      ensures At(b, q) == (if Near(at, q) then Reveal(At(g.board, q)) else At(g.board, q))
    {
      DetectArea(at, q);
    }
    Spend(g, caster, Detect).(board := b, status := MsgSpellDone)
  }

  /** HEAL: the caster gains the heal amount, and one charge is spent. */
  function CastHeal(g: Game, caster: AnimalId): (r: Game)
    requires Valid(g) && caster < 5
    ensures Valid(r)
    ensures KeepsTurn(g, r) && r.status == MsgSpellDone
    ensures r.animals[caster].life == g.animals[caster].life + HealAmount
    ensures r.animals[caster].spells == UpdateSpell(g.animals[caster].spells, Spell.Heal)
    ensures r.animals[caster].at == g.animals[caster].at
    ensures forall k | 0 <= k < 5 && k != caster :: r.animals[k] == g.animals[k]
    ensures r == g.(animals := r.animals, status := MsgSpellDone)
  {
    var g1 := WithAnimal(g, caster, Animals.Heal(g.animals[caster]));
    Spend(g1, caster, Spell.Heal).(status := MsgSpellDone)
  }

  /** The switch of castSpell, after the bookkeeping. */
  function Effect(g: Game, caster: AnimalId, spell: Spell): (r: Outcome<Game>)
    requires Valid(g) && caster < 5
    ensures Valid(r.state) && KeepsTurn(g, r.state)
    ensures r.Failed? <==> (spell == Charm || spell == Confuse) && OnBorder(g.animals[caster].at)
    ensures r.Failed? ==> r.fault == BoardIndexOutOfRange
    ensures r.Done? ==> r.accepted && r.state.status == MsgSpellDone
  {
    match spell
    case Shield => Done(CastShield(g, caster), true)
    case Charm => CastArea(g, caster, Charm)
    case Confuse => CastArea(g, caster, Confuse)
    case Detect => Done(CastDetect(g, caster), true)
    case Heal => Done(CastHeal(g, caster), true)
  }

  /** Game.castSpell(animal, spell): the bookkeeping, then the effect. The
      roster lookup throws before anything changes; CHARM and CONFUSE from
      a border square throw after the bookkeeping. */
  function CastSpell(g: Game, caster: AnimalId, spell: Spell): (r: Outcome<Game>)
    requires Valid(g) && caster < 5
    ensures Valid(r.state)
    ensures r.Failed? && r.fault == RosterIndexOutOfRange <==> caster != g.current && g.current == 4
    ensures r.Failed? && r.fault == RosterIndexOutOfRange ==> r.state == g
    ensures r.Failed? && r.fault == BoardIndexOutOfRange
        <==> !(caster != g.current && g.current == 4) && (spell == Charm || spell == Confuse) && OnBorder(g.animals[caster].at)
    ensures r.Done? ==> r.accepted && r.state.status == MsgSpellDone
    ensures caster == g.current ==> r.state.currentUsedSpell
    ensures r.Done? && caster == g.current + 1 ==> r.state.nextUsedSpell
    ensures r.state.current == g.current && r.state.gameOver == g.gameOver && r.state.hasMoved == g.hasMoved
    ensures r.state.thisTurn == g.thisTurn && r.state.nextTurn == g.nextTurn
  {
    match MarkCaster(g, caster)
    case Failed(g1, f) => Failed(g1, f)
    case Done(g1, _) => Effect(g1, caster, spell)
  }

  // ----- Properties across operations -----

  /** A completed cast uses one charge of its spell, except SHIELD, which
      uses none. */
  lemma CastSpends(g: Game, caster: AnimalId, spell: Spell)
    requires Valid(g) && caster < 5
    requires CastSpell(g, caster, spell).Done?
    ensures spell != Shield
        ==> CastSpell(g, caster, spell).state.animals[caster].spells == UpdateSpell(g.animals[caster].spells, spell)
    ensures spell == Shield ==> CastSpell(g, caster, spell).state.animals[caster].spells == g.animals[caster].spells
  {
    var g1 := MarkCaster(g, caster).state;
    assert g1.animals == g.animals;
    if spell == Charm || spell == Confuse {
      CastAreaCompletes(g1, caster, spell);
    }
  }

  /** A creature CHARM or CONFUSE reached will not attack the caster. */
  lemma AreaSpellSuppresses(g: Game, caster: AnimalId, spell: Spell, k: CreatureId)
    requires Valid(g) && caster < 5 && (spell == Charm || spell == Confuse) && k < 5
    requires CastArea(g, caster, spell).Done? && OnDiagonal(g.board, g.animals[caster].at, k)
    ensures Suppressed(CastArea(g, caster, spell).state.creatures[k], caster)
  {
    CastAreaCompletes(g, caster, spell);
  }

  /** An animal whose turn it is, standing on a creature and shielded by
      it, takes no damage from the following attack. */
  lemma ShieldProtects(g: Game)
    requires Valid(g) && At(g.board, g.animals[g.current].at).hasCreature
    ensures CastSpell(g, g.current, Shield).Done?
    ensures AttackAnimal(CastSpell(g, g.current, Shield).state) == CastSpell(g, g.current, Shield).state
  {
    var s := CastSpell(g, g.current, Shield).state;
    var cell := At(g.board, g.animals[g.current].at);
    assert CellOk(g.board[cell.row][cell.col]);
    assert s.board == g.board && s.animals == g.animals;
    assert IsShieldAnimal(s.creatures[cell.creature.value], g.current);
  }

  /** Revealing is idempotent: a second DETECT from the same square reveals
      nothing new. */
  lemma DetectTwiceRevealsNothingNew(g: Game, caster: AnimalId)
    requires Valid(g) && caster < 5
    ensures CastDetect(CastDetect(g, caster), caster).board == CastDetect(g, caster).board
  {
    var g1 := CastDetect(g, caster);
    var g2 := CastDetect(g1, caster);
    forall q | InBoard(q)
      ensures At(g2.board, q) == At(g1.board, q)
    {
      RevealIdempotent(At(g.board, q));
    }
    SameCells(g2.board, g1.board);
  }
}
