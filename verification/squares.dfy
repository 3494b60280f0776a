/** One board cell (Square.java): fixed coordinates, a visibility flag, and
    an occupancy flag next to each of the animal, creature and spell slots.
    The flags are stored separately from the slots, as in the source, so that
    the one setter that can desynchronise them (setHasCreature) is visible. */
module Squares {
  import opened Common
  import opened Spells

  datatype Cell = Cell(
    row: int,
    col: int,
    visible: bool,
    hasAnimal: bool,
    hasCreature: bool,
    hasSpell: bool,
    animal: Option<AnimalId>,
    creature: Option<CreatureId>,
    spell: Option<Spell>)

  /** Each occupancy flag agrees with its slot. */
  predicate Consistent(c: Cell) {
    && (c.hasAnimal <==> c.animal.Some?)
    && (c.hasCreature <==> c.creature.Some?)
    && (c.hasSpell <==> c.spell.Some?)
  }

  /** Nothing but the visibility flag may differ. */
  predicate SameContents(c: Cell, d: Cell) {
    c.(visible := d.visible) == d
  }

  /** new Square(row, col). */
  function NewCell(row: int, col: int): (c: Cell)
    ensures c.row == row && c.col == col
    ensures !c.visible
    ensures !c.hasAnimal && !c.hasCreature && !c.hasSpell
    ensures c.animal.None? && c.creature.None? && c.spell.None?
  {
    Cell(row, col, false, false, false, false, None, None, None)
  }

  /** setVisible(v). */
  function SetVisible(c: Cell, v: bool): (r: Cell)
    ensures r.visible == v && SameContents(c, r)
  {
    c.(visible := v)
  }

  /** reveal(): visible afterwards, contents untouched. */
  function Reveal(c: Cell): (r: Cell)
    ensures r.visible && SameContents(c, r)
  {
    c.(visible := true)
  }

  /** setAnimal(a): the animal slot and its flag, nothing else. */
  function SetAnimal(c: Cell, a: AnimalId): (r: Cell)
    ensures r.hasAnimal && r.animal == Some(a)
    ensures r.(hasAnimal := c.hasAnimal, animal := c.animal) == c
    ensures Consistent(c) ==> Consistent(r)
  {
    c.(animal := Some(a), hasAnimal := true)
  }

  /** removeAnimal(): clears the animal slot and its flag, nothing else. */
  function RemoveAnimal(c: Cell): (r: Cell)
    ensures !r.hasAnimal && r.animal.None?
    ensures r.(hasAnimal := c.hasAnimal, animal := c.animal) == c
    ensures Consistent(c) ==> Consistent(r)
  {
    c.(animal := None, hasAnimal := false)
  }

  /** setCreature(k). */
  function SetCreature(c: Cell, k: CreatureId): (r: Cell)
    ensures r.hasCreature && r.creature == Some(k)
    ensures r.(hasCreature := c.hasCreature, creature := c.creature) == c
    ensures Consistent(c) ==> Consistent(r)
  {
    c.(creature := Some(k), hasCreature := true)
  }

  /** setHasCreature(b): writes the flag alone. */
  function SetHasCreature(c: Cell, b: bool): (r: Cell)
    ensures r.hasCreature == b && r.(hasCreature := c.hasCreature) == c
  {
    c.(hasCreature := b)
  }

  /** setSpell(s). */
  function SetSpell(c: Cell, s: Spell): (r: Cell)
    ensures r.hasSpell && r.spell == Some(s)
    ensures r.(hasSpell := c.hasSpell, spell := c.spell) == c
    ensures Consistent(c) ==> Consistent(r)
  {
    c.(spell := Some(s), hasSpell := true)
  }

  /** removeSpell(). */
  function RemoveSpell(c: Cell): (r: Cell)
    ensures !r.hasSpell && r.spell.None?
    ensures r.(hasSpell := c.hasSpell, spell := c.spell) == c
    ensures Consistent(c) ==> Consistent(r)
  {
    c.(spell := None, hasSpell := false)
  }

  /** Revealing twice is revealing once. */
  lemma RevealIdempotent(c: Cell)
    ensures Reveal(Reveal(c)) == Reveal(c)
  {
  }

  /** removeAnimal undoes setAnimal on a cell that held no animal. */
  lemma RemoveAfterSetAnimal(c: Cell, a: AnimalId)
    requires Consistent(c) && !c.hasAnimal
    ensures RemoveAnimal(SetAnimal(c, a)) == c
  {
  }

  /** removeSpell undoes setSpell on a cell that held no spell. */
  lemma RemoveAfterSetSpell(c: Cell, s: Spell)
    requires Consistent(c) && !c.hasSpell
    ensures RemoveSpell(SetSpell(c, s)) == c
  {
  }

  /** setHasCreature(true) on a cell without a creature breaks the agreement
      between the flag and the slot: hasCreature then holds while
      getCreature() is still null. */
  lemma SetHasCreatureCanDesync(c: Cell)
    requires Consistent(c) && !c.hasCreature
    ensures !Consistent(SetHasCreature(c, true))
  {
  }
}
