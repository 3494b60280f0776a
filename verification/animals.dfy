/** Animal state (Animal.java): life points with heal, damage and liveness,
    and the held-spell counts with insert and decrement-and-remove. */
module Animals {
  import opened Common
  import opened Spells

  /** The five concrete animal classes; the roster holds one of each. */
  datatype Species = Rabbit | Fox | Deer | Owl | Badger

  datatype Animal = Animal(
    name: string,
    species: Species,
    life: int,
    spells: map<Spell, int>,
    at: Pos)

  const StartLife: int := 100
  const HealAmount: int := 10

  /** The number of charges of `s` in a spell map (0 when absent). */
  function Count(m: map<Spell, int>, s: Spell): int {
    if s in m then m[s] else 0
  }

  /** Every held spell has at least one charge. */
  predicate PositiveCounts(m: map<Spell, int>) {
    forall s | s in m :: m[s] >= 1
  }

  /** new Rabbit("Rabbit") and friends, followed by setSquare(at). */
  function NewAnimal(name: string, species: Species, at: Pos): (a: Animal)
    ensures a.life == StartLife && a.spells == map[]
    ensures a.name == name && a.species == species && a.at == at
    ensures forall s :: Count(a.spells, s) == 0
  {
    Animal(name, species, StartLife, map[], at)
  }

  /** heal(): ten more life points, with no upper cap. */
  function Heal(a: Animal): (r: Animal)
    ensures r.life - a.life == HealAmount
    ensures r.(life := a.life) == a
  {
    a.(life := a.life + HealAmount)
  }

  /** attacked(v): exactly v life points fewer. */
  function Attacked(a: Animal, v: int): (r: Animal)
    ensures a.life - r.life == v
    ensures r.(life := a.life) == a
  {
    a.(life := a.life - v)
  }

  /** isAlive(): alive while life points are positive; zero is dead. */
  function IsAlive(a: Animal): (r: bool)
    ensures r <==> a.life >= 1
  {
    !(a.life <= 0)
  }

  /** An attack leaves the animal alive exactly when its life exceeded the
      attack value. */
  lemma AttackedIsAlive(a: Animal, v: int)
    ensures IsAlive(Attacked(a, v)) <==> a.life > v
  {
  }

  /** An attack of 10 is undone by one heal, and vice versa. */
  lemma HealUndoesAttack(a: Animal)
    ensures Heal(Attacked(a, HealAmount)) == a
    ensures Attacked(Heal(a), HealAmount) == a
  {
  }

  /** addSpell(s): one more charge of `s`; every other count unchanged. */
  function AddSpell(m: map<Spell, int>, s: Spell): (r: map<Spell, int>)
    ensures r.Keys == m.Keys + {s}
    ensures Count(r, s) == Count(m, s) + 1
    ensures forall t | t != s :: Count(r, t) == Count(m, t)
    ensures PositiveCounts(m) ==> PositiveCounts(r)
  {
    if s in m then m[s := m[s] + 1] else m[s := 1]
  }

  /** updateSpell(s): one charge of a held spell used up, the key dropped
      when its count reaches zero; an absent spell is left alone. */
  function UpdateSpell(m: map<Spell, int>, s: Spell): (r: map<Spell, int>)
    ensures s !in m ==> r == m
    ensures s in m && m[s] - 1 == 0 ==> r.Keys == m.Keys - {s}
    ensures s in m && m[s] - 1 != 0 ==> r.Keys == m.Keys && r[s] == m[s] - 1
    ensures forall t | t != s :: Count(r, t) == Count(m, t)
    ensures PositiveCounts(m) ==> PositiveCounts(r) && Count(r, s) == if s in m then m[s] - 1 else 0
  {
    if s in m then
      var m1 := m[s := m[s] - 1];
      if m[s] - 1 == 0 then m1 - {s} else m1
    else m
  }

  /** Using a charge right after gaining one restores the original counts. */
  lemma UpdateAfterAdd(m: map<Spell, int>, s: Spell)
    requires PositiveCounts(m)
    ensures UpdateSpell(AddSpell(m, s), s) == m
  {
    var r := UpdateSpell(AddSpell(m, s), s);
    assert r.Keys == m.Keys;
    forall t | t in m
      ensures r[t] == m[t]
    {
      assert Count(r, t) == Count(m, t);
    }
  }
}
