/** The five spell kinds (Spell.java) and their display names. */
module Spells {

  datatype Spell = Detect | Heal | Shield | Confuse | Charm

  /** Spell.getName(): the display name a spell request refers to, one
      capitalised word. A request must spell it with the same case. */
  function Name(s: Spell): (r: string)
    ensures |r| >= 4 && 'A' <= r[0] <= 'Z'
    ensures forall i | 1 <= i < |r| :: 'a' <= r[i] <= 'z'
  {
    match s
    case Detect => "Detect"
    case Heal => "Heal"
    case Shield => "Shield"
    case Confuse => "Confuse"
    case Charm => "Charm"
  }

  /** The construction list `spells` in Game, in insertion order; the
      placement loop picks an entry with generator.nextInt(5). */
  function SpellOfIndex(k: nat): (s: Spell)
    requires k < 5
    ensures k == 0 <==> s == Detect
    ensures k == 1 <==> s == Heal
    ensures k == 2 <==> s == Shield
    ensures k == 3 <==> s == Confuse
    ensures k == 4 <==> s == Charm
  {
    [Detect, Heal, Shield, Confuse, Charm][k]
  }

  /** Display names tell spells apart, so matching a request by name selects
      at most one held spell. */
  lemma NamesDistinct(s: Spell, t: Spell)
    ensures Name(s) == Name(t) <==> s == t
  {
  }
}
