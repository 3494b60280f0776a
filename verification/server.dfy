/** GameServer.java: the turn phase, the move and spell actions of a POST
    to /game, and the animal lookup by name. */
module Server {
  import opened Common
  import opened Spells
  import opened Squares
  import opened Animals
  import opened Creatures
  import opened Boards
  import opened Paths
  import opened Movement
  import opened Engine
  import opened Casting
  import opened KeyLoop

  /** The server's turnType field: "move" or "spell". */
  datatype Phase = MovePhase | SpellPhase

  /** The server state that outlives a request. */
  datatype ServerState = ServerState(game: Game, phase: Phase)

  /** The phase an action with the given `action` field leads to: the
      literal "move" switches to the spell phase, anything else keeps it. */
  function PhaseAfterMove(action: string, p: Phase): (r: Phase)
    ensures r == SpellPhase <==> action == "move" || p == SpellPhase
    ensures action != "move" ==> r == p
  {
    if action == "move" then SpellPhase else p
  }

  // ----- getAnimalIndex -----

  /** GameServer.getAnimalIndex: the roster position of the first animal
      with the given name, or -1. */
  function AnimalIndex(g: Game, name: string): (i: int)
    requires Valid(g)
    ensures -1 <= i < 5
    ensures i >= 0 ==> RosterName(i) == name
    ensures i == -1 <==> forall k | 0 <= k < 5 :: RosterName(k) != name
  {
    FindName(g.animals, name, 0)
  }

  function FindName(animals: seq<Animal>, name: string, from: nat): (i: int)
    requires from <= |animals|
    ensures i == -1 || from <= i < |animals|
    ensures i >= 0 ==> animals[i].name == name
    ensures i == -1 <==> forall k | from <= k < |animals| :: animals[k].name != name
    decreases |animals| - from
  {
    if from == |animals| then -1
    else if animals[from].name == name then from
    else FindName(animals, name, from + 1)
  }

  /** Each roster name finds its own position. */
  lemma AnimalIndexOfRosterName(g: Game, k: nat)
    requires Valid(g) && k < 5
    ensures AnimalIndex(g, RosterName(k)) == k
  {
    RosterNamesDistinct(AnimalIndex(g, RosterName(k)), k);
  }

  // ----- The repeated move of the next-animal branch -----

  /** The Deer or Owl re-running an interrupted move from its stale start
      square reproduces the state the first run left. */
  lemma ReplayOfInterruptedMove(g: Game, a: AnimalId, nr: int, nc: int)
    requires Valid(g) && a < 5 && !ChecksAnimalsInPath(g.animals[a].species)
    requires InBoard(g.animals[a].at) && InBoard(Pos(nr, nc))
    requires !At(g.board, Pos(nr, nc)).hasAnimal
    requires Resolve(g, a, g.animals[a].at.row, g.animals[a].at.col, nr, nc).at != Pos(nr, nc)
    ensures var f := g.animals[a].at;
            var m := MoveAnimal(g, a, f.row, f.col, nr, nc);
            MoveAnimal(m, a, f.row, f.col, nr, nc) == m
  {
    var f := g.animals[a].at;
    var m := MoveAnimal(g, a, f.row, f.col, nr, nc);
    ReplayLandsAlike(g, a, nr, nc);
    var r := MoveAnimal(m, a, f.row, f.col, nr, nc);
    ReplayKeepsBoard(g, m, r, a, f, nr, nc);
    assert r.animals[a] == m.animals[a];
    assert r.animals == m.animals;
  }

  /** The replay stops where the first run stopped: the creature scan sees
      the same creatures, and the destination is still free of them. */
  lemma ReplayLandsAlike(g: Game, a: AnimalId, nr: int, nc: int)
    requires Valid(g) && a < 5 && !ChecksAnimalsInPath(g.animals[a].species)
    requires InBoard(g.animals[a].at) && InBoard(Pos(nr, nc))
    requires !At(g.board, Pos(nr, nc)).hasAnimal
    requires Resolve(g, a, g.animals[a].at.row, g.animals[a].at.col, nr, nc).at != Pos(nr, nc)
    ensures var f := g.animals[a].at;
            var m := MoveAnimal(g, a, f.row, f.col, nr, nc);
            && Resolve(m, a, f.row, f.col, nr, nc) == Resolve(g, a, f.row, f.col, nr, nc)
            && Resolve(g, a, f.row, f.col, nr, nc).at != f
  {
    var f := g.animals[a].at;
    var target := Pos(nr, nc);
    var m := MoveAnimal(g, a, f.row, f.col, nr, nc);
    var l := Resolve(g, a, f.row, f.col, nr, nc);
    assert !At(g.board, target).hasCreature;
    assert CreatureInPath(g.animals[a].species, g.board, f.row, f.col, nr, nc);
    assert l.at != f && target != f;
    assert At(m.board, target) == At(g.board, target);
    CreatureScanReadsCreaturesOnly(g.board, m.board, f.row, f.col, nr, nc);
    var l2 := Resolve(m, a, f.row, f.col, nr, nc);
    FirstCreatureUnique(g.board, m.board, f.row, f.col, nr, nc, l.at, l2.at);
  }

  /** A replay that lands where the first run landed leaves the board as
      the first run left it: the start square is already empty of the
      mover and the landing square already holds it. */
  lemma ReplayKeepsBoard(g: Game, m: Game, r: Game, a: AnimalId, f: Pos, nr: int, nc: int)
    requires Valid(g) && a < 5 && f == g.animals[a].at && InBoard(f) && InBoard(Pos(nr, nc))
    requires m == MoveAnimal(g, a, f.row, f.col, nr, nc)
    requires Resolve(m, a, f.row, f.col, nr, nc) == Resolve(g, a, f.row, f.col, nr, nc)
    requires Resolve(g, a, f.row, f.col, nr, nc).at != f
    requires r == MoveAnimal(m, a, f.row, f.col, nr, nc)
    ensures r.board == m.board
  {
    forall p | InBoard(p)
      ensures At(r.board, p) == At(m.board, p)
    {
    }
    SameCells(r.board, m.board);
  }

  /** GameServer.java repeats the next animal's move with the start square
      read before the first move. Whatever the species and the outcome of
      the first move, the repetition changes at most the status text, to the
      invalid one. */
  lemma RepeatedMoveChangesOnlyStatus(g: Game, a: AnimalId, nr: int, nc: int)
    requires Valid(g) && a < 5
    requires Move(g, a, g.animals[a].at.row, g.animals[a].at.col, nr, nc).Done?
    requires Move(g, a, g.animals[a].at.row, g.animals[a].at.col, nr, nc).accepted
    ensures var f := g.animals[a].at;
            var m := Move(g, a, f.row, f.col, nr, nc).state;
            && Move(m, a, f.row, f.col, nr, nc).Done?
            && (Move(m, a, f.row, f.col, nr, nc).state == m || Move(m, a, f.row, f.col, nr, nc).state == m.(status := MsgInvalid))
  {
    var f := g.animals[a].at;
    var target := Pos(nr, nc);
    assert InBoard(target);
    var m := MoveAnimal(g, a, f.row, f.col, nr, nc);
    var l := Resolve(g, a, f.row, f.col, nr, nc);
    if l.at == target {
      assert At(m.board, target).hasAnimal;
    } else if ChecksAnimalsInPath(g.animals[a].species) {
      PathBlockedOnReplay(g, a, nr, nc);
    } else {
      ReplayOfInterruptedMove(g, a, nr, nc);
    }
  }

  /** A Rabbit or Fox whose move was interrupted by a creature finds itself
      on the path when the move is repeated from the stale start square. */
  lemma PathBlockedOnReplay(g: Game, a: AnimalId, nr: int, nc: int)
    requires Valid(g) && a < 5 && ChecksAnimalsInPath(g.animals[a].species)
    requires InBoard(g.animals[a].at) && InBoard(Pos(nr, nc))
    requires Resolve(g, a, g.animals[a].at.row, g.animals[a].at.col, nr, nc).at != Pos(nr, nc)
    ensures var f := g.animals[a].at;
            var m := MoveAnimal(g, a, f.row, f.col, nr, nc);
            InPath(m.board, f.row, f.col, nr, nc, ForAnimal)
  {
    var f := g.animals[a].at;
    var target := Pos(nr, nc);
    var m := MoveAnimal(g, a, f.row, f.col, nr, nc);
    var l := Resolve(g, a, f.row, f.col, nr, nc);
    assert !At(g.board, target).hasCreature && CreatureInPath(g.animals[a].species, g.board, f.row, f.col, nr, nc);
    assert OnForwardPath(f.row, f.col, nr, nc, l.at) && l.at != f;
    assert Holds(At(m.board, l.at), ForAnimal);
  }

  // ----- parseMoveAction -----

  /** GameServer.parseMoveAction for the animal at roster position `idx`
      asking to move to (row, col). The current animal may move only in the
      move phase; the next animal may move in either phase, and its move
      ends the current animal's turn: the move is repeated from the stale
      start square, the current animal is attacked, and the turn advances.
      A move that is neither is refused with the invalid status and no
      other change. A position outside the roster throws on the lookup; a
      negative destination throws inside `move`, leaving the state alone. */
  method ParseMoveAction(s: ServerState, idx: int, row: int, col: int, action: string) returns (r: Outcome<ServerState>)
    requires Valid(s.game)
    ensures Valid(r.state.game)
    ensures s.game.gameOver ==> r.state.game.gameOver
    ensures !(0 <= idx < 5) ==> r == Failed(s, RosterIndexOutOfRange)
    ensures r.Done? && !r.accepted ==> r.state == s.(game := s.game.(status := MsgInvalid))
    ensures 0 <= idx < 5 && idx == s.game.current && s.phase != MovePhase
        ==> r == Done(s.(game := s.game.(status := MsgInvalid)), false)
    ensures 0 <= idx < 5 && idx == s.game.current && s.phase == MovePhase
        ==> var f := s.game.animals[idx].at;
            var mv := Move(s.game, idx, f.row, f.col, row, col);
            && (mv.Failed? ==> r == Failed(s, BoardIndexOutOfRange))
            && (mv.Done? && !mv.accepted ==> r == Done(s.(game := s.game.(status := MsgInvalid)), false))
            && (mv.Done? && mv.accepted
                ==> r == Done(ServerState(mv.state.(status := MsgSuccessful, thisTurn := true), PhaseAfterMove(action, s.phase)), true))
    ensures 0 <= idx < 5 && idx == Mod5(s.game.current + 1)
        ==> var f := s.game.animals[idx].at;
            var mv := Move(s.game, idx, f.row, f.col, row, col);
            && (mv.Failed? ==> r == Failed(s, BoardIndexOutOfRange))
            && (mv.Done? ==> r.Done? && (r.accepted <==> mv.accepted))
            && (mv.Done? && mv.accepted
                ==> var again := Move(mv.state, idx, f.row, f.col, row, col);
                    && again.Done?
                    && r.state == ServerState(
                         UpdateCurrentAnimalIndex(AttackAnimal(again.state.(status := MsgSuccessful, nextTurn := true))),
                         PhaseAfterMove(action, s.phase))
                    && r.state.game.current == idx
                    && r.state.game.animals[idx].life == s.game.animals[idx].life)
    ensures 0 <= idx < 5 && idx != s.game.current && idx != Mod5(s.game.current + 1)
        ==> r == Done(s.(game := s.game.(status := MsgInvalid)), false)
  {
    if !(0 <= idx < 5) {
      return Failed(s, RosterIndexOutOfRange);
    }
    var g := s.game;
    var f := g.animals[idx].at;
    assert Mod5(g.current + 1) != g.current;
    RosterNamesDistinct(idx, g.current);
    if g.animals[idx].name == CurrentAnimalName(g) && s.phase == MovePhase {
      r := CurrentMove(s, idx, row, col, action);
    } else {
      r := NextOrRefuse(s, idx, f, row, col, action);
    }
  }

  /** The first branch: the current animal moves during the move phase. An
      accepted move reports success and marks the turn as used; a refused
      one falls through the remaining tests, which all refuse it. */
  method CurrentMove(s: ServerState, idx: AnimalId, row: int, col: int, action: string) returns (r: Outcome<ServerState>)
    requires Valid(s.game) && idx == s.game.current
    ensures Valid(r.state.game)
    ensures s.game.gameOver ==> r.state.game.gameOver
    ensures var f := s.game.animals[idx].at;
            var mv := Move(s.game, idx, f.row, f.col, row, col);
            && (mv.Failed? ==> r == Failed(s, BoardIndexOutOfRange))
            && (mv.Done? && !mv.accepted ==> r == Done(s.(game := s.game.(status := MsgInvalid)), false))
            && (mv.Done? && mv.accepted
                ==> r == Done(ServerState(mv.state.(status := MsgSuccessful, thisTurn := true), PhaseAfterMove(action, s.phase)), true))
  {
    var g := s.game;
    var f := g.animals[idx].at;
    var mv := Move(g, idx, f.row, f.col, row, col);
    if mv.Failed? {
      return Failed(s.(game := mv.state), mv.fault);
    }
    if mv.accepted {
      return Done(ServerState(mv.state.(status := MsgSuccessful, thisTurn := true), PhaseAfterMove(action, s.phase)), true);
    }
    r := FallThrough(s, mv.state, idx, f, row, col, action);
  }

  /** A refused move of the current animal, on the state `g1` the refusal
      left, runs through the rest of the `else if` chain, which refuses it
      again: only the invalid status remains. */
  method FallThrough(s: ServerState, g1: Game, idx: AnimalId, f: Pos, row: int, col: int, action: string)
    returns (r: Outcome<ServerState>)
    requires Valid(s.game) && idx == s.game.current && InBoard(f)
    requires Valid(g1) && (g1 == s.game || g1 == s.game.(status := MsgInvalid))
    ensures r == Done(s.(game := s.game.(status := MsgInvalid)), false)
  {
    assert idx != Mod5(g1.current + 1);
    Restamp(s.game, g1, MsgInvalid);
    r := NextOrRefuse(s.(game := g1), idx, f, row, col, action);
  }

  /** The `else if` chain of parseMoveAction after the first test, on the
      state the first test left. */
  method NextOrRefuse(s: ServerState, idx: AnimalId, f: Pos, row: int, col: int, action: string) returns (r: Outcome<ServerState>)
    requires Valid(s.game) && idx < 5 && InBoard(f)
    ensures Valid(r.state.game)
    ensures s.game.gameOver ==> r.state.game.gameOver
    ensures r.Done? && !r.accepted ==> r.state == s.(game := s.game.(status := MsgInvalid))
    ensures idx != Mod5(s.game.current + 1) ==> r == Done(s.(game := s.game.(status := MsgInvalid)), false)
    ensures idx == Mod5(s.game.current + 1)
        ==> var mv := Move(s.game, idx, f.row, f.col, row, col);
            && (mv.Failed? ==> r == Failed(s, BoardIndexOutOfRange))
            && (mv.Done? ==> r.Done? && (r.accepted <==> mv.accepted))
            && (mv.Done? && mv.accepted
                ==> var again := Move(mv.state, idx, f.row, f.col, row, col);
                    && again.Done?
                    && r.state == ServerState(
                         UpdateCurrentAnimalIndex(AttackAnimal(again.state.(status := MsgSuccessful, nextTurn := true))),
                         PhaseAfterMove(action, s.phase))
                    && r.state.game.current == idx
                    && r.state.game.animals[idx].life == s.game.animals[idx].life)
  {
    var g := s.game;
    RosterNamesDistinct(idx, Mod5(g.current + 1));
    if g.animals[idx].name == NextAnimalName(g) {
      r := NextMove(s, idx, f, row, col, action);
    } else {
      r := Refuse(s, idx);
    }
  }

  /** The second branch: the next animal moves from `f`, the square read
      before the first test. An accepted move is repeated from `f`; then the
      current animal is attacked and the turn passes to the mover, whose
      own life is untouched. */
  method NextMove(s: ServerState, idx: AnimalId, f: Pos, row: int, col: int, action: string) returns (r: Outcome<ServerState>)
    requires Valid(s.game) && idx == Mod5(s.game.current + 1) && InBoard(f)
    ensures Valid(r.state.game)
    ensures s.game.gameOver ==> r.state.game.gameOver
    ensures r.Done? && !r.accepted ==> r.state == s.(game := s.game.(status := MsgInvalid))
    ensures var mv := Move(s.game, idx, f.row, f.col, row, col);
            && (mv.Failed? ==> r == Failed(s, BoardIndexOutOfRange))
            && (mv.Done? ==> r.Done? && (r.accepted <==> mv.accepted))
            && (mv.Done? && mv.accepted
                ==> var again := Move(mv.state, idx, f.row, f.col, row, col);
                    && again.Done?
                    && r.state == ServerState(
                         UpdateCurrentAnimalIndex(AttackAnimal(again.state.(status := MsgSuccessful, nextTurn := true))),
                         PhaseAfterMove(action, s.phase))
                    && r.state.game.current == idx
                    && r.state.game.animals[idx].life == s.game.animals[idx].life)
  {
    var g := s.game;
    var mv := Move(g, idx, f.row, f.col, row, col);
    if mv.Failed? {
      return Failed(s.(game := mv.state), mv.fault);
    }
    if !mv.accepted {
      Restamp(g, mv.state, MsgInvalid);
      r := Refuse(s.(game := mv.state), idx);
      return;
    }
    r := EndTurn(s, idx, f, mv.state, row, col, action);
  }

  /** The end of the second branch, once the next animal's move from `f`
      has been accepted and left `g1`: the move is repeated from `f` (it
      cannot throw, the destination being on the board), the current
      animal is attacked, and the turn passes to the mover. */
  method EndTurn(s: ServerState, idx: AnimalId, f: Pos, g1: Game, row: int, col: int, action: string)
    returns (r: Outcome<ServerState>)
    requires Valid(s.game) && idx == Mod5(s.game.current + 1) && InBoard(f) && InBoard(Pos(row, col))
    requires Valid(g1) && g1.current == s.game.current && g1.animals[idx].life == s.game.animals[idx].life
    requires s.game.gameOver ==> g1.gameOver
    ensures Valid(r.state.game)
    ensures s.game.gameOver ==> r.state.game.gameOver
    ensures var again := Move(g1, idx, f.row, f.col, row, col);
            && again.Done? && r.Done? && r.accepted
            && r.state == ServerState(
                 UpdateCurrentAnimalIndex(AttackAnimal(again.state.(status := MsgSuccessful, nextTurn := true))),
                 PhaseAfterMove(action, s.phase))
            && r.state.game.current == idx
            && r.state.game.animals[idx].life == s.game.animals[idx].life
  {
    var again := Move(g1, idx, f.row, f.col, row, col);
    MoveKeepsTurn(g1, idx, f.row, f.col, row, col);
    MoveKeepsLives(g1, idx, f.row, f.col, row, col, idx);
    var g3 := again.state.(status := MsgSuccessful, nextTurn := true);
    HandOver(g3);
    r := Done(ServerState(UpdateCurrentAnimalIndex(AttackAnimal(g3)), PhaseAfterMove(action, s.phase)), true);
  }

  /** The last two tests of parseMoveAction. The third test holds whenever
      it is reached, because the current and the next animal have different
      names; the fourth and the final `else` never run. */
  method Refuse(s: ServerState, idx: AnimalId) returns (r: Outcome<ServerState>)
    requires Valid(s.game) && idx < 5
    ensures r == Done(s.(game := s.game.(status := MsgInvalid)), false)
  {
    var g := s.game;
    var name := g.animals[idx].name;
    if name != CurrentAnimalName(g) || CurrentAnimalName(g) != NextAnimalName(g) {
      r := Done(s.(game := g.(status := MsgInvalid)), false);
    } else {
      assert false;
    }
  }

  // ----- parseSpellAction -----

  /** GameServer.parseSpellAction. The action "spell" switches the phase
      back to move before anything else, so even a refused or failing spell
      action does so. A position outside the roster throws on the lookup.
      The caster's name must equal the request's `animal` field, or the
      invalid status is set and nothing else changes. Then the key loop
      runs over `keys`, the iteration order of the caster's spell map; a
      spell name the caster holds no charge of is not an error, and only
      costs the animal whose turn it is one attack per key. */
  method ParseSpellAction(s: ServerState, idx: int, action: string, spell: string, animal: string, keys: seq<Spell>)
    returns (r: Outcome<ServerState>)
    requires Valid(s.game)
    requires 0 <= idx < 5 ==> KeyOrder(keys, s.game.animals[idx].spells)
    ensures Valid(r.state.game)
    ensures s.game.gameOver ==> r.state.game.gameOver
    ensures action == "spell" ==> r.state.phase == MovePhase
    ensures action != "spell" ==> r.state.phase == s.phase
    ensures !(0 <= idx < 5) ==> r.Failed? && r.fault == RosterIndexOutOfRange && r.state.game == s.game
    ensures 0 <= idx < 5 && RosterName(idx) != animal
        ==> r.Done? && !r.accepted && r.state.game == s.game.(status := MsgInvalid)
    ensures 0 <= idx < 5 && RosterName(idx) == animal
        ==> var loop := SpellLoop(s.game, idx, spell, keys);
            && r.state.game == loop.state
            && (r.Done? <==> loop.Done?)
            && (r.Done? ==> r.accepted)
            && (r.Failed? ==> r.fault == loop.fault)
    ensures 0 <= idx < 5 && RosterName(idx) == animal
            && (forall t | t in s.game.animals[idx].spells :: Name(t) != spell)
        ==> r.Done? && r.state.game == AttackTimes(s.game, |keys|)
    ensures 0 <= idx < 5 && RosterName(idx) == animal
        ==> forall i | 0 <= i < |keys| && Name(keys[i]) == spell ::
              var m := MatchedLoop(s.game, idx, keys, i);
              && r.state.game == m.state
              && (r.Done? <==> m.Done?)
              && (r.Failed? ==> r.fault == m.fault)
              && (r.Done? ==> r.state.game.status == MsgSpellDone
                              && !r.state.game.currentUsedSpell && !r.state.game.nextUsedSpell)
  {
    var s1 := s.(phase := if action == "spell" then MovePhase else s.phase);
    if !(0 <= idx < 5) {
      return Failed(s1, RosterIndexOutOfRange);
    }
    if s1.game.animals[idx].name != animal {
      return Done(s1.(game := s1.game.(status := MsgInvalid)), false);
    }
    UnheldRequest(s.game, idx, spell, keys);
    KeyedRequest(s.game, idx, spell, keys);
    var loop := SpellLoop(s.game, idx, spell, keys);
    if loop.Failed? {
      r := Failed(s1.(game := loop.state), loop.fault);
    } else {
      r := Done(s1.(game := loop.state), true);
    }
  }

  // ----- POST /game -----

  /** The fields of a POST /game body the engine reads. */
  datatype Request = Request(action: string, animal: string, row: int, col: int, spell: string)

  /** The POST /game dispatch: the roster position comes from the `animal`
      field, then "move" and "spell" go to their parsers; any other action
      leaves the state alone. `keys` is the iteration order of the caster's
      spell map. Since the same field selects the caster and is checked
      against its name, a spell action never fails that check. Once the
      game is over it stays over. */
  method PostGame(s: ServerState, q: Request, keys: seq<Spell>) returns (r: Outcome<ServerState>)
    requires Valid(s.game)
    requires AnimalIndex(s.game, q.animal) >= 0 ==> KeyOrder(keys, s.game.animals[AnimalIndex(s.game, q.animal)].spells)
    ensures Valid(r.state.game)
    ensures s.game.gameOver ==> r.state.game.gameOver
    ensures q.action != "move" && q.action != "spell" ==> r == Done(s, false)
    ensures AnimalIndex(s.game, q.animal) == -1 && (q.action == "move" || q.action == "spell")
        ==> r.Failed? && r.fault == RosterIndexOutOfRange && r.state.game == s.game
    ensures q.action == "move" && r.Done? && !r.accepted ==> r.state == s.(game := s.game.(status := MsgInvalid))
    ensures q.action == "spell" ==> r.state.phase == MovePhase
    ensures q.action == "spell" && r.Done? ==> r.accepted
  {
    var idx := AnimalIndex(s.game, q.animal);
    if q.action == "move" {
      r := ParseMoveAction(s, idx, q.row, q.col, q.action);
    } else if q.action == "spell" {
      r := ParseSpellAction(s, idx, q.action, q.spell, q.animal, keys);
    } else {
      r := Done(s, false);
    }
  }
}
