/** Creature suppression state (Creature.java): a charm countdown per animal,
    a shield list of animals, and a confusion flag with the animal that
    caused it. */
module Creatures {
  import opened Common

  datatype Creature = Creature(
    name: string,
    attack: int,
    charm: map<AnimalId, int>,
    confused: bool,
    shield: seq<AnimalId>,
    confusedBy: Option<AnimalId>)

  /** The countdown addCharmAnimal installs. */
  const CharmTurns: int := 3

  /** new Creature(name, attack), with the subclass renaming applied. */
  function NewCreature(name: string, attack: int): (c: Creature)
    ensures !c.confused && c.charm == map[] && c.shield == []
    ensures c.name == name && c.attack == attack && c.confusedBy.None?
    ensures forall a :: !IsCharmed(c, a) && !IsShieldAnimal(c, a)
  {
    Creature(name, attack, map[], false, [], None)
  }

  /** isCharmed(a): `a` has a live countdown. An animal with no entry is
      not charmed, and neither is one whose countdown has run out. */
  function IsCharmed(c: Creature, a: AnimalId): (r: bool)
    ensures r ==> a in c.charm
    ensures a in c.charm ==> (r <==> c.charm[a] >= 1)
  {
    a in c.charm && c.charm[a] > 0
  }

  /** isShieldAnimal(a): list membership. */
  function IsShieldAnimal(c: Creature, a: AnimalId): (r: bool)
    ensures r <==> exists i | 0 <= i < |c.shield| :: c.shield[i] == a
    ensures r <==> multiset(c.shield)[a] > 0
  {
    a in c.shield
  }

  /** addShieldAnimal(a): appends, so duplicates accumulate. */
  function AddShieldAnimal(c: Creature, a: AnimalId): (r: Creature)
    ensures IsShieldAnimal(r, a)
    ensures multiset(r.shield) == multiset(c.shield) + multiset{a}
    ensures r.(shield := c.shield) == c
  {
    c.(shield := c.shield + [a])
  }

  /** addCharmAnimal(a): sets or overwrites the countdown of `a` to three. */
  function AddCharmAnimal(c: Creature, a: AnimalId): (r: Creature)
    ensures IsCharmed(r, a) && r.charm[a] == CharmTurns
    ensures r.charm.Keys == c.charm.Keys + {a}
    ensures forall b | b in c.charm && b != a :: r.charm[b] == c.charm[b]
    ensures r.(charm := c.charm) == c
  {
    c.(charm := c.charm[a := CharmTurns])
  }

  /** updateCharmAnimal(a): one turn off the countdown, dropping the key once
      it reaches zero; an animal without a countdown is left alone. */
  function UpdateCharmAnimal(c: Creature, a: AnimalId): (r: Creature)
    ensures a !in c.charm ==> r == c
    ensures a in c.charm && c.charm[a] - 1 <= 0 ==> r.charm.Keys == c.charm.Keys - {a}
    ensures a in c.charm && c.charm[a] - 1 > 0 ==> r.charm.Keys == c.charm.Keys && r.charm[a] == c.charm[a] - 1
    ensures forall b | b in c.charm && b != a :: b in r.charm && r.charm[b] == c.charm[b]
    ensures r.(charm := c.charm) == c
  {
    if a in c.charm then
      var left := c.charm[a] - 1;
      if left <= 0 then c.(charm := c.charm - {a}) else c.(charm := c.charm[a := left])
    else c
  }

  /** The first occurrence of `a` removed from `s` (List.remove(Object)). */
  function RemoveFirst(s: seq<AnimalId>, a: AnimalId): (r: seq<AnimalId>)
    ensures a in s ==> multiset(r) == multiset(s) - multiset{a}
    ensures a !in s ==> r == s
  {
    if s == [] then []
    else
      assert s == [s[0]] + s[1..];
      if s[0] == a then s[1..] else [s[0]] + RemoveFirst(s[1..], a)
  }

  /** updateShieldAnimal(a): removes one occurrence of `a`. */
  function UpdateShieldAnimal(c: Creature, a: AnimalId): (r: Creature)
    ensures multiset(r.shield) == multiset(c.shield) - multiset{a}
    ensures r.(shield := c.shield) == c
  {
    c.(shield := RemoveFirst(c.shield, a))
  }

  /** setConfused(b). */
  function SetConfused(c: Creature, b: bool): (r: Creature)
    ensures r.confused == b && r.(confused := c.confused) == c
  {
    c.(confused := b)
  }

  /** setConfusedAnimal(a): records the confuser. */
  function SetConfusedAnimal(c: Creature, a: AnimalId): (r: Creature)
    ensures r.confusedBy == Some(a) && r.(confusedBy := c.confusedBy) == c
  {
    c.(confusedBy := Some(a))
  }

  /** updateConfused(a): confusion ends only when `a` is the recorded
      confuser; for any other animal nothing changes. */
  function UpdateConfused(c: Creature, a: AnimalId): (r: Creature)
    ensures c.confusedBy == Some(a) ==> !r.confused && r.(confused := c.confused) == c
    ensures c.confusedBy != Some(a) ==> r == c
  {
    if c.confusedBy == Some(a) then SetConfused(c, false) else c
  }

  /** A creature may never damage `a` while it is charmed by `a`, confused,
      or shielding `a` (the three guards of attackAnimal). */
  function Suppressed(c: Creature, a: AnimalId): (r: bool)
    ensures c.confused ==> r
    ensures !r ==> !IsCharmed(c, a) && !IsShieldAnimal(c, a)
    ensures r && !c.confused ==> IsCharmed(c, a) || IsShieldAnimal(c, a)
  {
    IsCharmed(c, a) || c.confused || IsShieldAnimal(c, a)
  }

  /** A fresh charm wears off after exactly three countdown updates. */
  lemma {:induction false} CharmLastsThreeUpdates(c: Creature, a: AnimalId)
    ensures IsCharmed(UpdateCharmAnimal(UpdateCharmAnimal(AddCharmAnimal(c, a), a), a), a)
    ensures !IsCharmed(UpdateCharmAnimal(UpdateCharmAnimal(UpdateCharmAnimal(AddCharmAnimal(c, a), a), a), a), a)
  {
    var c1 := AddCharmAnimal(c, a);
    var c2 := UpdateCharmAnimal(c1, a);
    assert c2.charm[a] == 2;
    var c3 := UpdateCharmAnimal(c2, a);
    assert c3.charm[a] == 1;
    var c4 := UpdateCharmAnimal(c3, a);
    assert a !in c4.charm;
  }

  /** Shielding twice and unshielding once still leaves the animal shielded,
      because the shield is a list rather than a set. */
  lemma ShieldIsAList(c: Creature, a: AnimalId)
    ensures IsShieldAnimal(UpdateShieldAnimal(AddShieldAnimal(AddShieldAnimal(c, a), a), a), a)
    ensures multiset(UpdateShieldAnimal(AddShieldAnimal(c, a), a).shield) == multiset(c.shield)
  {
    var r := UpdateShieldAnimal(AddShieldAnimal(AddShieldAnimal(c, a), a), a);
    assert multiset(r.shield)[a] == multiset(c.shield)[a] + 1;
  }

  /** A confusion caused by `a` is cleared by `a` and by nobody else. */
  lemma ConfusionClearedOnlyByConfuser(c: Creature, a: AnimalId, b: AnimalId)
    requires a != b
    ensures !UpdateConfused(SetConfusedAnimal(SetConfused(c, true), a), a).confused
    ensures UpdateConfused(SetConfusedAnimal(SetConfused(c, true), a), b).confused
  {
  }
}
