# Woodland: a Dafny model of the board-game engine

The woodland game is played on a 20×20 board. Five animals (Rabbit, Fox,
Deer, Owl, Badger, in that roster order) take turns moving and casting
spells. Five creatures sit still on the board and attack whichever animal
whose turn it is when it stands on them. Each animal species has its own
move shape and its own rule for being blocked on the way. Moving onto a
spell square collects one charge of that spell. The spells are Detect, Heal,
Shield, Confuse and Charm, and each acts on the caster or the 3×3 block
around it. A small HTTP server alternates a "move" phase and a "spell"
phase and forwards requests to the engine.

This project models that engine as pure functions on an immutable game
record. The server's move and spell dispatch are methods. A Java exception
the engine can raise on its own becomes an explicit `Failed` outcome, not a
precondition:
- an array access off the board;
- a roster lookup at index 5 or -1;
- a HashMap changed during iteration.

Each failure carries the state as it was when the exception unwound.

Modules follow the Java classes:

| module | file | models |
|---|---|---|
| `Common` | common.dfy | positions, board size, faults, `Outcome` |
| `Spells` | spells.dfy | the `Spell` enumeration and its display names |
| `Squares` | squares.dfy | `Square`: the occupancy flags and slots, visibility |
| `Animals` | animals.dfy | `Animal`: life points and the spell-count map |
| `Creatures` | creatures.dfy | `Creature`: charm countdowns, shield list, confusion |
| `Boards` | boards.dfy | the 20×20 board and single-cell updates |
| `Paths` | paths.dfy | the path scans and the first-creature search |
| `Movement` | movement.dfy | the per-species move shapes, dispatched on a species tag |
| `Engine` | engine.dfy | `Game`: `validMove`, species `move`, `moveAnimal`, `attackAnimal`, turn order |
| `Casting` | casting.dfy | `Game.castSpell` and its five spell effects |
| `KeyLoop` | keyloop.dfy | the loop over the caster's spell keys in `parseSpellAction`, and its closed form |
| `Server` | server.dfy | `GameServer`: `getAnimalIndex`, `parseMoveAction`, `parseSpellAction`, the POST dispatch |
| `Setup` | setup.dfy | the `Game` constructor's placement, and `/reset` |

Identity:
- An animal is its roster position 0..4. Java compares animals by reference, and the roster never changes.
- A creature is its position in the creature list.
- A cell refers to both by those indices.

Behaviours of the code that the model keeps as written:
- **Negative destinations throw.** `validMove` first refuses a row or column above 19. It tests for a negative row or column only after indexing `board[newRow][newCol]`. So a negative coordinate throws, unless the other coordinate is above 19, and the negative test can never hold (`Engine.ValidMove`).
- **Charm and Confuse read the board without clamping.** A caster on the border throws `ArrayIndexOutOfBoundsException` at the first diagonal neighbour, in row-major order, that lies off the board. Creatures on the diagonal squares visited before that one have already been affected; the rest have not. For a caster at (19, 0), the loop throws at (18, -1) before it reaches (18, 1). Every animal starts on row 19, so this is the border (`Casting.CastArea`, `Casting.AreaEffect`).
- **`castSpell` indexes the roster with `currentAnimalIndex + 1` and no `% 5`.** When Badger (index 4) holds the turn, a spell cast by any other animal throws (`Casting.MarkCaster`).
- **`updateCurrentAnimalIndex` always advances by exactly one.** Its first test compares an index with itself, so its other branches are dead (`Engine.UpdateCurrentAnimalIndex`).
- **The spell loop can throw `ConcurrentModificationException`.** Casting the last charge of a spell removes that key from the map being iterated. Unless that key came last, the next step of the loop throws (`KeyLoop.SpellLoop`, `KeyLoop.LastChargeMidLoopThrows`).
- **An interrupted move ignores animals already on the creature square.** Deer and Owl do not check the path for animals. An interrupted Deer or Owl move can therefore stop on a creature square that already holds another animal. The cell then refers only to the mover, as `setAnimal` overwrites the slot, while the other animal still names that square as its own (`Engine.MoveAnimal`, `Engine.MoveOverwritesAnimal`).
- **The move status says "sucessful" when landing on a creature.** A move onto a creature square writes the status "The last move was sucessful", misspelt and without a full stop (`Engine.MsgSuccessfulOnCreature`).

## Model

| member | source | states |
|---|---|---|
| Spells.SpellOfIndex | src/woodland/Game.java:134-139 | the construction list holds Detect, Heal, Shield, Confuse, Charm at positions 0..4, each position naming exactly one spell |
| Spells.Name | src/woodland/Spells/Spell.java:58-60 | a display name is one capitalised word, so a request must match its case; `Spells.NamesDistinct` shows no two spells share one |
| Spells.NamesDistinct | src/woodland/Spells/Spell.java:13-37 | two spells have the same display name exactly when they are the same spell |
| Squares.NewCell | src/woodland/Square.java:30-35 | a new square keeps its row and column, is hidden, and holds no animal, creature or spell |
| Squares.SetVisible | src/woodland/Square.java:64-66 | sets the visibility flag to the given value and changes nothing else |
| Squares.Reveal | src/woodland/Square.java:71-73 | makes the square visible and changes nothing else |
| Squares.RevealIdempotent | src/woodland/Square.java:71-73 | revealing twice is the same as revealing once |
| Squares.SetAnimal | src/woodland/Square.java:112-115 | the square holds exactly the given animal with its flag set; the creature and spell slots and visibility are untouched; flag/slot agreement is kept |
| Squares.RemoveAnimal | src/woodland/Square.java:121-124 | the animal slot is empty and its flag cleared; nothing else changes; flag/slot agreement is kept |
| Squares.RemoveAfterSetAnimal | src/woodland/Square.java:112-124 | on a consistent square with no animal, removing an animal just set restores the square |
| Squares.SetCreature | src/woodland/Square.java:141-144 | the square holds exactly the given creature with its flag set; nothing else changes; flag/slot agreement is kept |
| Squares.SetHasCreature | src/woodland/Square.java:84-86 | writes the creature flag alone and leaves the creature slot as it was |
| Squares.SetHasCreatureCanDesync | src/woodland/Square.java:84-86 | raising the creature flag on a square with no creature breaks flag/slot agreement |
| Squares.SetSpell | src/woodland/Square.java:179-182 | the square holds exactly the given spell with its flag set; nothing else changes; flag/slot agreement is kept |
| Squares.RemoveSpell | src/woodland/Square.java:130-133 | the spell slot is empty and its flag cleared; nothing else changes; flag/slot agreement is kept |
| Squares.RemoveAfterSetSpell | src/woodland/Square.java:130-133 | on a consistent square with no spell, removing a spell just set restores the square |
| Animals.IsAlive | src/woodland/Animals/Animal.java:150-155 | an animal is alive exactly while its life points are at least 1; at 0 it is dead |
| Animals.AttackedIsAlive | src/woodland/Animals/Animal.java:141-155 | after an attack the animal is alive exactly when its life exceeded the attack value |
| Animals.NewAnimal | src/woodland/Animals/Animal.java:42-46 | a new animal has 100 life points, holds no spell charge, and has the given name, species and square |
| Animals.Heal | src/woodland/Animals/Animal.java:132-134 | adds exactly 10 life points, with no cap, and changes nothing else |
| Animals.Attacked | src/woodland/Animals/Animal.java:141-143 | subtracts exactly the attack value and changes nothing else |
| Animals.HealUndoesAttack | src/woodland/Animals/Animal.java:132-143 | a heal and an attack of 10 undo each other in either order |
| Animals.AddSpell | src/woodland/Animals/Animal.java:163-170 | the spell becomes a key, its count rises by one, every other count is unchanged, and counts stay positive |
| Animals.UpdateSpell | src/woodland/Animals/Animal.java:179-187 | an absent spell leaves the map alone; otherwise the count drops by one and the key goes when it reaches zero; other counts are unchanged |
| Animals.UpdateAfterAdd | src/woodland/Animals/Animal.java:163-187 | on a map of positive counts, using a spell right after adding it restores the map |
| Creatures.NewCreature | src/woodland/Creatures/Creature.java:40-46 | a new creature is unconfused, with empty charm map and shield list, and charms or shields no animal |
| Creatures.IsCharmed | src/woodland/Creatures/Creature.java:81-83 | an animal is charmed only with an entry in the charm map, and then exactly while its countdown is at least 1 |
| Creatures.IsShieldAnimal | src/woodland/Creatures/Creature.java:100-102 | an animal is shielded exactly when it occurs in the shield list at least once |
| Creatures.AddShieldAnimal | src/woodland/Creatures/Creature.java:53-55 | appends one occurrence of the animal to the shield list (duplicates accumulate), which then shields it |
| Creatures.AddCharmAnimal | src/woodland/Creatures/Creature.java:62-64 | sets or overwrites the animal's countdown to 3, so the animal is then charmed; other countdowns are unchanged |
| Creatures.UpdateCharmAnimal | src/woodland/Creatures/Creature.java:109-118 | an absent animal changes nothing; otherwise its countdown drops by one and its key goes at zero or below; other countdowns are unchanged |
| Creatures.CharmLastsThreeUpdates | src/woodland/Creatures/Creature.java:109-118 | after a fresh charm the animal is still charmed after two updates and no longer after three |
| Creatures.RemoveFirst | src/woodland/Creatures/Creature.java:125-127 | list removal of one occurrence: the multiset of shielded animals loses one copy, or the list is unchanged when absent |
| Creatures.UpdateShieldAnimal | src/woodland/Creatures/Creature.java:125-127 | removes one occurrence of the animal from the shield list and changes nothing else |
| Creatures.ShieldIsAList | src/woodland/Creatures/Creature.java:100-102 | shielding twice and removing once still shields; adding then removing restores the shield multiset |
| Creatures.Suppressed | src/woodland/Game.java:265-268 | the three early-return guards of `attackAnimal`: a confused creature never attacks; otherwise it spares exactly the animals it charms or shields |
| Creatures.SetConfused | src/woodland/Creatures/Creature.java:71-73 | writes the confused flag alone |
| Creatures.SetConfusedAnimal | src/woodland/Creatures/Creature.java:149-151 | records the confuser alone |
| Creatures.UpdateConfused | src/woodland/Creatures/Creature.java:136-140 | clears confusion exactly when the given animal is the recorded confuser, and otherwise changes nothing |
| Creatures.ConfusionClearedOnlyByConfuser | src/woodland/Creatures/Creature.java:136-151 | after A confuses a creature, an update for A clears the confusion and an update for another animal does not |
| Boards.SameCells | src/woodland/Game.java:35 | two 20×20 boards that agree on every square are the same board |
| Boards.EmptyBoard | src/woodland/Game.java:86-93 | the new board is a well-formed 20×20 grid whose every square is a new square at its own coordinates |
| Paths.ScanRow | src/woodland/Animals/Animal.java:257-262 | the column loop finds a hit exactly when some column in the range holds the probed item |
| Paths.ScanCol | src/woodland/Animals/Animal.java:263-268 | the row loop finds a hit exactly when some row in the range holds the probed item |
| Paths.InPath | src/woodland/Animals/Animal.java:256-271 | holds exactly when an on-board square on the forward path (right along the destination row, else down the destination column, destination included) holds the probed item; false for any leftward or upward move |
| Engine.CreatureInPath | src/woodland/Animals/Animal.java:287-302 | the creature scan of the forward path, except that a Badger never sees creatures (Badger.java:47-49) |
| Paths.FirstInRow | src/woodland/Game.java:241-248 | finds the nearest creature square from the start column toward the destination column, in either direction, or reports that none lies in range |
| Paths.FirstInCol | src/woodland/Game.java:249-255 | finds the nearest creature square going down the destination column, or reports that none lies in range |
| Paths.NextCreatureSquare | src/woodland/Game.java:240-257 | returns the first creature square on the scan line, or nothing when the scan line holds no creature |
| Paths.InterruptionFindsCreature | src/woodland/Game.java:202-207 | whenever the creature scan reports a creature on the path, the first-creature search finds one, and it lies on that forward path |
| Paths.CreatureScanReadsCreaturesOnly | src/woodland/Animals/Animal.java:287-302 | two boards with the same creature layer give the same creature-scan answer |
| Paths.FirstCreatureUnique | src/woodland/Game.java:240-257 | on boards with the same creature layer, the first creature on a scan line is one and the same square |
| Movement.LegalShape | src/woodland/Animals/Rabbit.java:63-76 | the shape test each species' `move` calls: standing still always passes; every species but the owl stays within three rows and three columns; no accepted diagonal shape exceeds two squares |
| Movement.RabbitShapes | src/woodland/Animals/Rabbit.java:40-45 | the rabbit jump accepts exactly (0,0), (1,0), (2,0), (0,1), (0,2), (1,1) as absolute row and column differences |
| Movement.FoxShapes | src/woodland/Animals/Fox.java:38-42 | the fox jump accepts exactly up to three squares along a row or a column |
| Movement.DeerShapes | src/woodland/Animals/Deer.java:40-45 | the deer jump accepts exactly up to three squares straight, or one diagonal step |
| Movement.OwlShapes | src/woodland/Animals/Owl.java:70-78 | the owl flies to any square in its row or column, or one diagonal step |
| Movement.BadgerShapes | src/woodland/Animals/Badger.java:67-73 | the badger digs to any neighbouring square, or exactly two squares straight or diagonal |
| Movement.ShapeSymmetric | src/woodland/Animals/Rabbit.java:41-42 | every species' shape test is symmetric under swapping start and end |
| Movement.FoxNeverDiagonal | src/woodland/Animals/Fox.java:38-42 | a fox rejects every move that changes both row and column |
| Movement.DeerExtendsFox | src/woodland/Animals/Deer.java:43-44 | every fox shape is a deer shape, and the only extra deer shape is the single diagonal step |
| Movement.OwlRejectsLongDiagonals | src/woodland/Animals/Owl.java:73-77 | an off-line move of two or more squares in either direction is no owl flight |
| Movement.BadgerRejectsKnight | src/woodland/Animals/Badger.java:70-72 | the knight shapes (1,2) and (2,1) are no badger dig |
| Movement.RabbitWithinDeer | src/woodland/Animals/Rabbit.java:40-45 | the rabbit shapes are exactly the deer shapes of at most two squares each way |
| Engine.RosterNamesDistinct | src/woodland/Game.java:98-102 | the five roster names are pairwise distinct |
| Engine.ValidMove | src/woodland/Animals/Animal.java:95-109 | throws exactly for a negative coordinate that is not also beyond 19; accepts exactly an on-board square without an animal; beyond 19 sets the invalid status; an occupied square leaves the state alone |
| Engine.Resolve | src/woodland/Game.java:196-219 | the landing follows the priority creature on destination, creature on path (the first one, on the forward path), spell on destination (one more charge via saveSpell, Game.java:286-288), plain move, with its status message |
| Engine.Relocate | src/woodland/Game.java:220-222 | the landing square gains the animal and becomes visible, the old square loses it, no other square changes, and no creature moves |
| Engine.MoveAnimal | src/woodland/Game.java:195-224 | the mover lands where `Resolve` says, with the landing's spells and status; moved/this-turn are set and next-turn cleared; the old square is emptied, the landing square gains the animal and becomes visible and keeps any spell; no other square, animal, creature or life changes |
| Engine.Move | src/woodland/Animals/Rabbit.java:63-76 | for every species, `move` throws exactly when both coordinates are at most 19 and one is negative, and accepts exactly when `validMove` holds, the species' path rule does not block, and the shape is legal; acceptance runs `moveAnimal`; refusal changes at most the status to invalid |
| Engine.MoveOverwritesAnimal | src/woodland/Game.java:195-224 | a move that lands on another animal's square leaves that animal naming the square while the square's animal slot names only the mover |
| Engine.Pass | src/woodland/Animals/Fox.java:45-58 | after `validMove`, a move passes only with a legal shape; a Rabbit or Fox with an animal on the path fails; Deer, Owl and Badger pass exactly on a legal shape |
| Engine.Attempt | src/woodland/Animals/Fox.java:45-58 | an on-board move that passes the species' checks is `moveAnimal`; any other leaves the game alone or only marks it invalid |
| Engine.OccupiedDestinationRefused | src/woodland/Animals/Animal.java:95-109 | a move onto a square holding an animal is refused with the state unchanged |
| Engine.RefusalStatus | src/woodland/Animals/Fox.java:47-49 | a rabbit blocked by an animal is refused silently, a blocked fox marks the move invalid, and an illegal shape marks it invalid for every species |
| Engine.BadgerLandsOnTarget | src/woodland/Animals/Badger.java:46-49 | an accepted badger move always lands on the requested square |
| Engine.MoveKeepsTurn | src/woodland/Game.java:195-224 | a move never changes whose turn it is or the game-over flag |
| Engine.MoveKeepsLives | src/woodland/Game.java:195-224 | a move never changes any animal's life points |
| Engine.CreatureUnder | src/woodland/Game.java:263-264 | the creature on the current animal's square, present exactly when that square has the creature flag |
| Engine.AttackAnimal | src/woodland/Game.java:262-278 | a creature that charms, is confused, or shields the current animal leaves the game alone (even the liveness check); otherwise its attack value comes off the current animal; with no creature no life changes; unless suppressed, game over holds exactly when it held or life is at most 0; game over never resets |
| Engine.AttackFrame | src/woodland/Game.java:262-278 | an attack changes only the current animal and the game-over flag |
| Engine.CheckAlive | src/woodland/Game.java:275-277 | game over is set exactly when the current animal's life is at most 0, or it was set already; nothing else changes |
| Engine.UpdateCurrentAnimalIndex | src/woodland/Game.java:423-437 | the turn passes to the next animal modulo 5 and the moved flag is cleared; nothing else changes |
| Engine.CurrentAnimalName | src/woodland/Game.java:403-405 | the roster name at the current index |
| Engine.NextAnimalName | src/woodland/Game.java:412-414 | the roster name at the next index modulo 5, which differs from the current name |
| Engine.NextBecomesCurrent | src/woodland/Game.java:412-437 | after the turn advances, the current name is the name previously reported as next |
| Engine.HandOver | src/woodland/GameServer.java:121-122 | attacking and then advancing the turn moves the index on by one, changes no other animal, and keeps game over |
| Engine.AdvanceTurns | src/woodland/Game.java:423-437 | n turn advances move the index by n modulo 5 and leave board, animals and creatures alone |
| Engine.TurnCycleOfFive | src/woodland/Game.java:425 | the turn returns to the same animal exactly after a multiple of five advances |
| Casting.Neighbourhood | src/woodland/Game.java:324-325 | the nine positions the loops visit, each within one row and one column of the caster |
| Casting.OffAxisAreDiagonals | src/woodland/Game.java:326 | the `i != row && j != col` filter keeps exactly the four diagonal neighbours, and every diagonal neighbour is visited |
| Casting.BorderIffDiagonalOffBoard | src/woodland/Game.java:324-327 | some diagonal neighbour is off the board exactly when the caster is on the border |
| Casting.Affect | src/woodland/Game.java:328-343 | a charmed creature gets the caster's countdown; a confused one gets the flag and the caster recorded; either way it is suppressed for the caster, and name and attack are kept |
| Casting.AffectIdempotent | src/woodland/Game.java:328-343 | affecting a creature twice equals affecting it once |
| Casting.AreaEffect | src/woodland/Game.java:324-332 | the loop throws exactly when an off-axis visited position is off the board; each creature is either untouched or affected; on completion exactly the creatures on off-axis visited squares are affected |
| Casting.AreaOverNeighbourhood | src/woodland/Game.java:324-327 | over the nine visited positions, the loop throws exactly for a caster on the border, and hits exactly the creatures on diagonal neighbours |
| Casting.Clamp | src/woodland/Game.java:355-356 | the clamped index lies in 0..19 and equals the index when already in range |
| Casting.ClampPos | src/woodland/Game.java:355-356 | a clamped position is on the board |
| Casting.RevealAll | src/woodland/Game.java:353-359 | exactly the squares some clamped visited position lands on are revealed; every other square is unchanged |
| Casting.DetectArea | src/woodland/Game.java:353-359 | the clamped 3×3 block is exactly the on-board squares within one row and one column of the caster |
| Casting.MarkCaster | src/woodland/Game.java:308-312 | the current caster gets the current-used flag; otherwise the roster is read at index+1 without `% 5`, so with index 4 any other caster throws; caster index+1 gets the next-used flag |
| Casting.Spend | src/woodland/Game.java:333 | one charge of the spell is used from the caster's map; nothing else changes |
| Casting.ShieldBy | src/woodland/Game.java:316-319 | only the creature under the caster, if any, adds the caster to its shield list |
| Casting.CastShield | src/woodland/Game.java:315-321 | shield: the creature on the caster's square (if any) shields the caster, no charge is used, the board and animals are unchanged, status is the spell-success message |
| Casting.CastArea | src/woodland/Game.java:323-350 | charm or confuse: throws exactly for a caster on the border, never touches the board or the turn, and on completion sets the spell-success status |
| Casting.CastAreaThrows | src/woodland/Game.java:323-335 | when it throws, animals and status are unchanged and each creature is either untouched or already affected |
| Casting.CastAreaCompletes | src/woodland/Game.java:337-350 | when it completes, one charge is used and exactly the creatures on the caster's diagonal neighbours are affected |
| Casting.CastDetect | src/woodland/Game.java:352-362 | reveals exactly the on-board squares within one step of the caster, changes no other square, uses one charge, sets the success status |
| Casting.DetectTwiceRevealsNothingNew | src/woodland/Game.java:352-362 | detecting again from the same square changes no square |
| Casting.CastHeal | src/woodland/Game.java:364-368 | the caster gains 10 life points and uses one heal charge, keeping its square; no other animal changes |
| Casting.Effect | src/woodland/Game.java:314-368 | the switch on the spell: throws exactly for charm or confuse from the border, otherwise accepts with the success status, and never touches the turn |
| Casting.CastSpell | src/woodland/Game.java:304-378 | throws on the roster exactly when index 4 holds the turn and another animal casts (the game unchanged); throws on the board exactly for charm or confuse from the border otherwise; sets the used-spell flags; never touches the turn order |
| Casting.CastSpends | src/woodland/Game.java:314-368 | a completed cast uses exactly one charge of its spell from the caster's map, except Shield, which uses none |
| Casting.AreaSpellSuppresses | src/woodland/Game.java:262-269 | after charm or confuse completes, every creature on a diagonal neighbour of the caster is suppressed for the caster, so its attack returns early |
| Casting.ShieldProtects | src/woodland/Game.java:315-321 | the current animal casting Shield on a creature square always succeeds, and the next attack then changes nothing at all |
| Server.AnimalIndex | src/woodland/GameServer.java:328-342 | the first roster index carrying the name, or -1 exactly when no animal has that name |
| Server.FindName | src/woodland/GameServer.java:334-339 | a linear search that answers the first matching position, or -1 exactly when none from the start matches |
| Server.AnimalIndexOfRosterName | src/woodland/GameServer.java:334-339 | each roster name is found at its own index |
| Server.ReplayOfInterruptedMove | src/woodland/GameServer.java:117-118 | replaying `moveAnimal` with the stale start coordinates changes nothing further |
| Server.ReplayLandsAlike | src/woodland/GameServer.java:117-118 | the replay resolves to the same landing as the first move, which differs from the start |
| Server.ReplayKeepsBoard | src/woodland/GameServer.java:117-118 | the second `move` call at line 118 leaves the board unchanged |
| Server.RepeatedMoveChangesOnlyStatus | src/woodland/GameServer.java:117-118 | the second `move` never throws and changes at most the status |
| Server.PathBlockedOnReplay | src/woodland/GameServer.java:117-118 | after the first move, the mover itself blocks the animal scan of the replay |
| Server.PhaseAfterMove | src/woodland/GameServer.java:111-113 | the spell phase follows exactly when the action is "move" or the phase was already spell; any other action keeps the phase |
| Server.ParseMoveAction | src/woodland/GameServer.java:90-140 | an index off the roster throws; the current animal moves only in the move phase and then switches to the spell phase on action "move"; the next animal moves in any phase, and after the replay, attack and turn advance it holds the turn with its life unchanged; every other request is refused with the invalid status |
| Server.CurrentMove | src/woodland/GameServer.java:107-114 | a legal move by the current animal is accepted with the success status and this-turn set; an illegal one is refused with the invalid status |
| Server.NextOrRefuse | src/woodland/GameServer.java:115-137 | only the next animal in the roster may move out of turn; everyone else is refused with the invalid status |
| Server.NextMove | src/woodland/GameServer.java:115-126 | a move by the next animal is accepted exactly when its `move` accepts; a throw is passed on |
| Server.EndTurn | src/woodland/GameServer.java:118-126 | after an accepted out-of-turn move: replay, success status, next-turn flag, attack on the current animal, turn advance, phase switch on "move" |
| Server.FallThrough | src/woodland/GameServer.java:127-137 | the remaining branches all refuse with the invalid status |
| Server.Refuse | src/woodland/GameServer.java:130-131 | a refusal sets the invalid status and changes nothing else |
| KeyLoop.AttackTimes | src/woodland/GameServer.java:179-181 | repeated attacks keep the game valid, and game over stays set |
| KeyLoop.AttackTimesFrame | src/woodland/GameServer.java:179-181 | repeated attacks change no turn, status, flag, board, creature, spell map or position |
| KeyLoop.AttackTimesDamage | src/woodland/GameServer.java:179-181 | n unsuppressed attacks by the same creature take n times its attack value off the current animal |
| KeyLoop.SpellLoop | src/woodland/GameServer.java:172-182 | the key loop never changes whose turn it is, keeps game over, and answers true when it completes |
| KeyLoop.NoMatchOnlyAttacks | src/woodland/GameServer.java:172-182 | when no key has the requested name, the loop is one attack per key and answers true |
| KeyLoop.UnheldRequest | src/woodland/GameServer.java:172-182 | over the caster's own keys, a request naming no spell the caster holds is one attack per key and answers true |
| KeyLoop.SpellLoopMatchedAt | src/woodland/GameServer.java:172-182 | when exactly one key has the requested name, the loop is one attack per earlier key, then the cast; a failing cast passes its exception on; otherwise the success status, both used-spell flags cleared and an attack; then ConcurrentModificationException if the cast removed its key and keys remain, else one attack per later key |
| KeyLoop.MatchedLoopSettles | src/woodland/GameServer.java:174-177 | a matching request that completes leaves the spell-success status and both used-spell flags cleared |
| KeyLoop.KeyedRequest | src/woodland/GameServer.java:172-182 | over the caster's own keys, a request for a spell it holds is the loop's closed form at that spell's key, and leaves the success status and cleared flags when it completes |
| KeyLoop.LastChargeMidLoopThrows | src/woodland/GameServer.java:172-182 | for any key position and any spell, the request throws ConcurrentModificationException exactly when the key is not last, the spell is not Shield, its count is 1, the roster lookup at index+1 does not throw, and Charm or Confuse is not cast from the border |
| Server.ParseSpellAction | src/woodland/GameServer.java:155-185 | action "spell" switches to the move phase before any check; an index off the roster throws; a name mismatch is refused with the invalid status; otherwise the result is the key loop's; with no held spell of that name only the attacks happen; with one, the result is the closed form at its key, and a completed request leaves the success status with both used-spell flags cleared |
| Server.PostGame | src/woodland/GameServer.java:248-277 | the name picks the roster index (an unknown name throws on the lookup); "move" and "spell" go to their parsers; any other action changes nothing; game over stays set |
| Setup.InitialCreatures | src/woodland/Game.java:115-120 | five new creatures with the names their classes set and attack values 14, 36, 29, 42, 21 |
| Setup.InitialAnimals | src/woodland/Game.java:97-113 | the roster Rabbit, Fox, Deer, Owl, Badger, each new and standing on row 19 in its placed column |
| Setup.AnimalOn | src/woodland/Game.java:104-113 | the animal placed on a square, if any, is one whose column places it there |
| Setup.PlaceAnimals | src/woodland/Game.java:104-113 | each placed square gains its animal and becomes visible; every other square is unchanged |
| Setup.AnimalOnOwnSquare | src/woodland/Game.java:106-109 | with distinct columns, each animal is the one found on its own square |
| Setup.CreatureOn | src/woodland/Game.java:122-132 | the creature placed on a square, if any, is one whose position is that square |
| Setup.PlaceCreatures | src/woodland/Game.java:122-132 | each placed square gains its creature; animals and visibility are untouched; every other square is unchanged |
| Setup.CreatureOnOwnSquare | src/woodland/Game.java:125-130 | with distinct positions, each creature is the one found on its own square |
| Setup.SpellOn | src/woodland/Game.java:141-151 | a square holds a spell exactly when some placement targets it |
| Setup.PlaceSpells | src/woodland/Game.java:141-151 | each placed square gains its spell; animals, creatures and visibility are untouched |
| Setup.SpellOnOwnSquare | src/woodland/Game.java:142-150 | with distinct positions, each placed square holds the spell its draw picked from the construction list |
| Setup.InitialBoard | src/woodland/Game.java:86-151 | the constructed board keeps every square's flags in agreement with its slots |
| Setup.AnimalLayer | src/woodland/Game.java:104-113 | after placing animals, a square's animal is the one placed there, and it is visible exactly when it holds one |
| Setup.InitialCellAnimal | src/woodland/Game.java:104-151 | on the full initial board, the animal layer and visibility are still those of the animal placement |
| Setup.InitialCellItems | src/woodland/Game.java:122-151 | on the full initial board, the creature and spell slots are those of their placements |
| Setup.InitialAnimalsPlaced | src/woodland/Game.java:109-110 | each animal stands on row 19 at its placed column |
| Setup.InitialCreaturesPlaced | src/woodland/Game.java:129-131 | each creature stands on some square of rows 1..18 |
| Setup.InitialSpellsPlaced | src/woodland/Game.java:150 | each spell placement holds the spell drawn for it |
| Setup.InitialSquare | src/woodland/Game.java:104-151 | on the initial board a square is visible exactly when it holds an animal; animals are on row 19; creatures and spells are on rows 1..18; no spell shares a creature square |
| Setup.Construct | src/woodland/Game.java:82-152 | the constructed game satisfies the engine invariant |
| Setup.ConstructIsInitial | src/woodland/Game.java:82-152 | the constructed game is an initial state: empty status, not over, Rabbit to move, all flags clear, fresh animals on row 19 on their own squares, fresh creatures on rows 1..18, spells on rows 1..18 off creatures, only animal squares visible |
| Setup.Reset | src/woodland/GameServer.java:278-280 | `/reset` yields an initial game in the move phase |

## Left out

- JSON parsing and rendering (`toJson`, `getGameStateAsJson`, every `JsonReader`): the model takes the already-extracted request fields (`Server.Request`), and output is serialisation through a library.
- Sockets, HTTP framing and the process code (`runServer`, `clientRequest`, `stringHeaders`, `sendError`, `GameServerMain`): I/O. The mapping of caught exceptions to HTTP statuses is left out; the exceptions are the `Failed` outcomes.
- Seeded placement: the `java.util.Random` draws and rejection loops of the `Game` constructor are replaced by a `Setup.Placement` parameter, whose accepted draws `Setup.PlacementOk` describes. The stored `seed` is therefore not modelled, and `Setup.Reset` takes a placement instead of rereading it.
- Creature subclasses: their constructors only set the name and attack value, folded into `Setup.CreatureName` and `Setup.CreatureAttack`.
- The `Moveables` interfaces (`Jumpable`, `ShortJumpable`, `LongJumpable`, `Flyable`, `Digable`) are replaced by the `Species` tag.
- The base `Animal.move`, which always answers false: no animal has the base class at run time, since the species tag is closed.
- `Spell` descriptions: display text only.
- `castSpell`'s `default` branch (Game.java:370-376): no enum value reaches it.
- Fields with no effect on behaviour: `lastAnimalIndex`, `Animal.shielded`, `Animal.hasSpell`, `Animal.animalIdentifier`. `thisTurn` and `nextTurn` are kept, though nothing reads them.
- `updateCharmAnimal`, `updateShieldAnimal` and `updateConfused` are modelled, but the engine never calls them, so a charm, shield or confusion once set lasts for the rest of the game.
- Engine.AttackAnimal: Java `int` life points wrap around at 32 bits, while the model's are unbounded integers. No run of the game comes near the bound.
- KeyLoop.SpellLoop: the iteration order of the caster's `HashMap` is not known; it is a parameter, `keys`, constrained only to enumerate the keys once each (`KeyLoop.KeyOrder`).
- Server.ParseSpellAction: the `animal` field and the roster index come from the same request field in `PostGame`, so the name mismatch branch is reachable only through a direct call.
