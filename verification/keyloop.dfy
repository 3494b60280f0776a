/** The loop over the caster's spell keys at the heart of
    GameServer.parseSpellAction, and its closed forms. */
module KeyLoop {
  import opened Common
  import opened Spells
  import opened Squares
  import opened Animals
  import opened Creatures
  import opened Boards
  import opened Engine
  import opened Casting

  // ----- The loop -----

  /** `keys` enumerates the keys of `m` once each, in some iteration order. */
  predicate KeyOrder(keys: seq<Spell>, m: map<Spell, int>) {
    && (forall i, j | 0 <= i < j < |keys| :: keys[i] != keys[j])
    && (forall s :: s in m <==> s in keys)
  }

  /** What follows a cast inside the loop: the spell-success status, both
      used-spell flags cleared, then an attack. */
  function AfterSpell(g: Game): (r: Game)
    requires Valid(g)
    ensures Valid(r)
    ensures r.current == g.current && (g.gameOver ==> r.gameOver)
    ensures r.status == MsgSpellDone && !r.currentUsedSpell && !r.nextUsedSpell
    ensures forall k | 0 <= k < 5 :: r.animals[k].spells == g.animals[k].spells && r.animals[k].at == g.animals[k].at
  {
    var g1 := g.(status := MsgSpellDone, currentUsedSpell := false, nextUsedSpell := false);
    AttackKeeps(g1);
    AttackAnimal(g1)
  }

  /** The loop over the caster's spell keys in parseSpellAction. Each key
      whose display name is the requested one is cast, followed by the
      success status, both used-spell flags cleared and an attack; every
      other key costs an attack only. Casting the last charge of a spell
      removes its key from the map being iterated, so the loop's next step
      throws ConcurrentModificationException unless that key came last. */
  function SpellLoop(g: Game, caster: AnimalId, spell: string, keys: seq<Spell>): (r: Outcome<Game>)
    requires Valid(g) && caster < 5
    ensures Valid(r.state)
    ensures r.state.current == g.current
    ensures g.gameOver ==> r.state.gameOver
    ensures r.Done? ==> r.accepted
    decreases |keys|
  {
    if keys == [] then Done(g, true)
    else
      var k := keys[0];
      if Name(k) == spell then
        match CastSpell(g, caster, k)
        case Failed(g1, e) => Failed(g1, e)
        case Done(g1, _) =>
          var g2 := AfterSpell(g1);
          if k !in g1.animals[caster].spells && |keys| > 1 then Failed(g2, ConcurrentModification)
          else SpellLoop(g2, caster, spell, keys[1..])
      else SpellLoop(AttackAnimal(g), caster, spell, keys[1..])
  }

  /** `n` consecutive attacks on the animal whose turn it is. */
  function AttackTimes(g: Game, n: nat): (r: Game)
    requires Valid(g)
    ensures Valid(r)
    ensures g.gameOver ==> r.gameOver
    decreases n
  {
    if n == 0 then g else AttackTimes(AttackAnimal(g), n - 1)
  }

  /** The matching key's step of the loop, with `rest` keys still to come:
      the cast; then the success status, both used-spell flags cleared and
      an attack; then one attack per remaining key. A failing cast passes
      its exception on. A cast that used the spell's last charge removed
      its key from the map being iterated, so if keys remain the loop
      throws ConcurrentModificationException right after that attack. */
  function AfterCast(h: Game, caster: AnimalId, k: Spell, rest: nat): (r: Outcome<Game>)
    requires Valid(h) && caster < 5
    ensures Valid(r.state)
    ensures r.Done? ==> r.accepted
  {
    match CastSpell(h, caster, k)
    case Failed(g1, e) => Failed(g1, e)
    case Done(g1, _) =>
      var g2 := AfterSpell(g1);
      if k !in g1.animals[caster].spells && rest > 0 then Failed(g2, ConcurrentModification)
      else Done(AttackTimes(g2, rest), true)
  }

  /** The key loop in closed form when `keys[i]` is the one key carrying
      the requested name: one attack for each of the `i` keys before it,
      then that key's step. */
  function MatchedLoop(g: Game, caster: AnimalId, keys: seq<Spell>, i: nat): (r: Outcome<Game>)
    requires Valid(g) && caster < 5 && i < |keys|
    ensures Valid(r.state)
    ensures r.Done? ==> r.accepted
  {
    AfterCast(AttackTimes(g, i), caster, keys[i], |keys| - i - 1)
  }

  // ----- Attacks between casts -----

  /** One attack keeps every field the key loop reads afterwards. */
  lemma AttackKeeps(g: Game)
    requires Valid(g)
    ensures var r := AttackAnimal(g);
            && r.current == g.current && r.status == g.status && r.board == g.board && r.creatures == g.creatures
            && r.currentUsedSpell == g.currentUsedSpell && r.nextUsedSpell == g.nextUsedSpell
    ensures forall k | 0 <= k < 5 ::
              AttackAnimal(g).animals[k].spells == g.animals[k].spells && AttackAnimal(g).animals[k].at == g.animals[k].at
  {
    AttackFrame(g);
    var r := AttackAnimal(g);
    assert r.animals[g.current].spells == g.animals[g.current].spells;
    assert r.animals[g.current].at == g.animals[g.current].at;
  }

  /** Attacks change nothing but life points and the game-over flag. */
  lemma {:induction false} AttackTimesFrame(g: Game, n: nat)
    requires Valid(g)
    ensures var r := AttackTimes(g, n);
            && r.current == g.current && r.status == g.status && r.board == g.board && r.creatures == g.creatures
            && r.currentUsedSpell == g.currentUsedSpell && r.nextUsedSpell == g.nextUsedSpell
    ensures forall k | 0 <= k < 5 ::
              AttackTimes(g, n).animals[k].spells == g.animals[k].spells && AttackTimes(g, n).animals[k].at == g.animals[k].at
    decreases n
  {
    if n > 0 {
      AttackKeeps(g);
      AttackTimesFrame(AttackAnimal(g), n - 1);
    }
  }

  /** Repeated attacks from a creature that does not spare the animal whose
      turn it is take its attack value each time. */
  lemma {:induction false} AttackTimesDamage(g: Game, n: nat)
    requires Valid(g) && CreatureUnder(g).Some? && !Suppressed(CreatureUnder(g).value, g.current)
    ensures AttackTimes(g, n).animals[g.current].life == g.animals[g.current].life - n * CreatureUnder(g).value.attack
    decreases n
  {
    if n > 0 {
      var c := CreatureUnder(g).value;
      var h := AttackAnimal(g);
      AttackFrame(g);
      assert h.current == g.current && h.board == g.board && h.creatures == g.creatures;
      assert h.animals[g.current] == Attacked(g.animals[g.current], c.attack);
      assert CreatureUnder(h) == CreatureUnder(g);
      AttackTimesDamage(h, n - 1);
      assert (n - 1) * c.attack + c.attack == n * c.attack;
    }
  }

  // ----- One step at a time -----

  /** A key not carrying the requested name costs one attack. */
  lemma SpellLoopMiss(g: Game, caster: AnimalId, spell: string, keys: seq<Spell>)
    requires Valid(g) && caster < 5 && |keys| > 0 && Name(keys[0]) != spell
    ensures SpellLoop(g, caster, spell, keys) == SpellLoop(AttackAnimal(g), caster, spell, keys[1..])
  {
  }

  /** No key after the first carries `spell`, so none of the rest does. */
  lemma NoMatchTail(spell: string, keys: seq<Spell>)
    requires |keys| > 0
    requires forall j | 1 <= j < |keys| :: Name(keys[j]) != spell
    ensures forall j | 0 <= j < |keys[1..]| :: Name(keys[1..][j]) != spell
  {
    forall j | 0 <= j < |keys[1..]|
      ensures Name(keys[1..][j]) != spell
    {
      assert keys[1..][j] == keys[j + 1];
    }
  }

  /** Dropping the first key, which is not the one carrying `spell`,
      moves the one matching key down by one place. */
  lemma OnlyMatchTail(spell: string, keys: seq<Spell>, i: nat)
    requires 0 < i < |keys| && Name(keys[i]) == spell
    requires forall j | 0 <= j < |keys| && j != i :: Name(keys[j]) != spell
    ensures Name(keys[1..][i - 1]) == spell
    ensures forall j | 0 <= j < |keys[1..]| && j != i - 1 :: Name(keys[1..][j]) != spell
  {
    forall j | 0 <= j < |keys[1..]| && j != i - 1
      ensures Name(keys[1..][j]) != spell
    {
      assert keys[1..][j] == keys[j + 1];
    }
  }

  /** The matching key's step depends on its arguments only. */
  lemma AfterCastSame(h1: Game, h2: Game, caster: AnimalId, k1: Spell, k2: Spell, n1: nat, n2: nat)
    requires Valid(h1) && caster < 5 && h1 == h2 && k1 == k2 && n1 == n2
    ensures AfterCast(h1, caster, k1, n1) == AfterCast(h2, caster, k2, n2)
  {
  }

  /** With no attack before it, the closed form is the first key's step. */
  lemma MatchedLoopFirst(g: Game, caster: AnimalId, keys: seq<Spell>)
    requires Valid(g) && caster < 5 && |keys| > 0
    ensures MatchedLoop(g, caster, keys, 0) == AfterCast(g, caster, keys[0], |keys| - 1)
  {
    assert AttackTimes(g, 0) == g;
  }

  /** Dropping a leading key from the closed form moves one attack before
      it. */
  lemma MatchedLoopShift(g: Game, caster: AnimalId, keys: seq<Spell>, i: nat)
    requires Valid(g) && caster < 5 && 0 < i < |keys|
    ensures MatchedLoop(g, caster, keys, i) == MatchedLoop(AttackAnimal(g), caster, keys[1..], i - 1)
  {
    assert keys[1..][i - 1] == keys[i];
    assert AttackTimes(g, i) == AttackTimes(AttackAnimal(g), i - 1);
    AfterCastSame(AttackTimes(g, i), AttackTimes(AttackAnimal(g), i - 1), caster, keys[i], keys[1..][i - 1],
                  |keys| - i - 1, |keys[1..]| - (i - 1) - 1);
  }

  // ----- The loop in closed form -----

  /** When no key carries the requested name, the loop only attacks, once
      per key. */
  lemma {:induction false} NoMatchOnlyAttacks(g: Game, caster: AnimalId, spell: string, keys: seq<Spell>)
    requires Valid(g) && caster < 5
    requires forall i | 0 <= i < |keys| :: Name(keys[i]) != spell
    ensures SpellLoop(g, caster, spell, keys) == Done(AttackTimes(g, |keys|), true)
    decreases |keys|
  {
    if keys != [] {
      assert Name(keys[0]) != spell;
      NoMatchTail(spell, keys);
      NoMatchOnlyAttacks(AttackAnimal(g), caster, spell, keys[1..]);
    }
  }

  /** The loop whose first key is the only one carrying the requested name
      is that key's step. */
  lemma SpellLoopHit(g: Game, caster: AnimalId, spell: string, keys: seq<Spell>)
    requires Valid(g) && caster < 5 && |keys| > 0 && Name(keys[0]) == spell
    requires forall j | 1 <= j < |keys| :: Name(keys[j]) != spell
    ensures SpellLoop(g, caster, spell, keys) == MatchedLoop(g, caster, keys, 0)
  {
    MatchedLoopFirst(g, caster, keys);
    match CastSpell(g, caster, keys[0])
    case Failed(_, _) =>
    case Done(g1, _) =>
      var g2 := AfterSpell(g1);
      NoMatchTail(spell, keys);
      NoMatchOnlyAttacks(g2, caster, spell, keys[1..]);
  }

  /** The induction step of SpellLoopMatchedAt: a leading key without the
      requested name adds one attack in front of the closed form. */
  lemma SpellLoopMatchedNext(g: Game, caster: AnimalId, spell: string, keys: seq<Spell>, i: nat)
    requires Valid(g) && caster < 5 && 0 < i < |keys| && Name(keys[0]) != spell
    requires SpellLoop(AttackAnimal(g), caster, spell, keys[1..]) == MatchedLoop(AttackAnimal(g), caster, keys[1..], i - 1)
    ensures SpellLoop(g, caster, spell, keys) == MatchedLoop(g, caster, keys, i)
  {
    SpellLoopMiss(g, caster, spell, keys);
    MatchedLoopShift(g, caster, keys, i);
  }

  /** The loop is its closed form whenever exactly one key, `keys[i]`,
      carries the requested name. */
  lemma {:induction false} SpellLoopMatchedAt(g: Game, caster: AnimalId, spell: string, keys: seq<Spell>, i: nat)
    requires Valid(g) && caster < 5 && i < |keys| && Name(keys[i]) == spell
    requires forall j | 0 <= j < |keys| && j != i :: Name(keys[j]) != spell
    ensures SpellLoop(g, caster, spell, keys) == MatchedLoop(g, caster, keys, i)
    decreases i
  {
    if i == 0 {
      SpellLoopHit(g, caster, spell, keys);
    } else {
      OnlyMatchTail(spell, keys, i);
      SpellLoopMatchedAt(AttackAnimal(g), caster, spell, keys[1..], i - 1);
      SpellLoopMatchedNext(g, caster, spell, keys, i);
    }
  }

  /** A matching key's step that completes leaves the spell-success
      status, both used-spell flags cleared, and the turn where it was. */
  lemma AfterCastSettles(h: Game, caster: AnimalId, k: Spell, rest: nat)
    requires Valid(h) && caster < 5
    requires AfterCast(h, caster, k, rest).Done?
    ensures AfterCast(h, caster, k, rest).state.status == MsgSpellDone
    ensures !AfterCast(h, caster, k, rest).state.currentUsedSpell && !AfterCast(h, caster, k, rest).state.nextUsedSpell
    ensures AfterCast(h, caster, k, rest).state.current == h.current
  {
    var c := CastSpell(h, caster, k);
    assert c.Done?;
    var g2 := AfterSpell(c.state);
    assert AfterCast(h, caster, k, rest) == Done(AttackTimes(g2, rest), true);
    AttackTimesFrame(g2, rest);
  }

  /** A request whose matching key's step completes leaves the
      spell-success status and both used-spell flags cleared. */
  lemma MatchedLoopSettles(g: Game, caster: AnimalId, keys: seq<Spell>, i: nat)
    requires Valid(g) && caster < 5 && i < |keys|
    requires MatchedLoop(g, caster, keys, i).Done?
    ensures MatchedLoop(g, caster, keys, i).state.status == MsgSpellDone
    ensures !MatchedLoop(g, caster, keys, i).state.currentUsedSpell && !MatchedLoop(g, caster, keys, i).state.nextUsedSpell
  {
    AfterCastSettles(AttackTimes(g, i), caster, keys[i], |keys| - i - 1);
  }

  /** Over the caster's own keys, a request naming no spell the caster
      holds only attacks, once per key. */
  lemma UnheldRequest(g: Game, caster: AnimalId, spell: string, keys: seq<Spell>)
    requires Valid(g) && caster < 5 && KeyOrder(keys, g.animals[caster].spells)
    ensures (forall t | t in g.animals[caster].spells :: Name(t) != spell)
        ==> SpellLoop(g, caster, spell, keys) == Done(AttackTimes(g, |keys|), true)
  {
    if forall t | t in g.animals[caster].spells :: Name(t) != spell {
      assert forall i | 0 <= i < |keys| :: keys[i] in g.animals[caster].spells;
      NoMatchOnlyAttacks(g, caster, spell, keys);
    }
  }

  /** Over the caster's own keys, a request naming a spell the caster
      holds is the closed form at that spell's key, and leaves the
      spell-success status and both used-spell flags cleared when it
      completes. */
  lemma KeyedRequest(g: Game, caster: AnimalId, spell: string, keys: seq<Spell>)
    requires Valid(g) && caster < 5 && KeyOrder(keys, g.animals[caster].spells)
    ensures forall i | 0 <= i < |keys| && Name(keys[i]) == spell ::
              && SpellLoop(g, caster, spell, keys) == MatchedLoop(g, caster, keys, i)
              && (var m := MatchedLoop(g, caster, keys, i);
                  m.Done? ==> m.state.status == MsgSpellDone && !m.state.currentUsedSpell && !m.state.nextUsedSpell)
  {
    forall i | 0 <= i < |keys| && Name(keys[i]) == spell
      ensures SpellLoop(g, caster, spell, keys) == MatchedLoop(g, caster, keys, i)
      ensures var m := MatchedLoop(g, caster, keys, i);
              m.Done? ==> m.state.status == MsgSpellDone && !m.state.currentUsedSpell && !m.state.nextUsedSpell
    {
      forall j | 0 <= j < |keys| && j != i
        ensures Name(keys[j]) != spell
      {
        NamesDistinct(keys[j], keys[i]);
      }
      SpellLoopMatchedAt(g, caster, spell, keys, i);
      if MatchedLoop(g, caster, keys, i).Done? {
        MatchedLoopSettles(g, caster, keys, i);
      }
    }
  }

  /** Requesting a spell the caster holds throws
      ConcurrentModificationException exactly when the cast completes, it
      used the last charge (every spell but SHIELD uses one), and its key
      is not the last one iterated. */
  lemma LastChargeMidLoopThrows(g: Game, caster: AnimalId, keys: seq<Spell>, i: nat)
    requires Valid(g) && caster < 5 && KeyOrder(keys, g.animals[caster].spells) && i < |keys|
    ensures (var r := SpellLoop(g, caster, Name(keys[i]), keys); r.Failed? && r.fault == ConcurrentModification)
        <==> && i + 1 < |keys|
             && keys[i] != Shield
             && g.animals[caster].spells[keys[i]] == 1
             && !(caster != g.current && g.current == 4)
             && !((keys[i] == Charm || keys[i] == Confuse) && OnBorder(g.animals[caster].at))
  {
    var k := keys[i];
    forall j | 0 <= j < |keys| && j != i
      ensures Name(keys[j]) != Name(k)
    {
      NamesDistinct(keys[j], k);
    }
    SpellLoopMatchedAt(g, caster, Name(k), keys, i);
    var h := AttackTimes(g, i);
    AttackTimesFrame(g, i);
    assert h.current == g.current && h.animals[caster].spells == g.animals[caster].spells;
    assert h.animals[caster].at == g.animals[caster].at;
    match CastSpell(h, caster, k)
    case Failed(_, _) =>
    case Done(g1, _) =>
      CastSpends(h, caster, k);
  }
}
