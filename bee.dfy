/** The hive's combatants: their kinds, their combat values and the one
    field a fight changes in place, the hit points. */
module Bees {

  /** The three kinds of bee, in the order the source enumerates them. */
  datatype BeeType = Queen | Worker | Drone

  /** The name a kind is printed and tallied under. */
  function TypeName(t: BeeType): string
  {
    match t
    case Queen => "Queen"
    case Worker => "Worker"
    case Drone => "Drone"
  }

  /** The names tell the kinds apart, so a tally keyed by name is a tally by kind. */
  lemma TypeNameInjective(s: BeeType, t: BeeType)
    ensures TypeName(s) == TypeName(t) <==> s == t
  {
  }

  /** The three names, in the source's order. */
  lemma TypeNames()
    ensures TypeName(Queen) == "Queen" && TypeName(Worker) == "Worker" && TypeName(Drone) == "Drone"
  {
  }

  /** A bee as a value: what a reader of the hive sees at one instant. */
  datatype BeeStats = BeeStats(kind: BeeType, hp: int, attackDamage: int, hitDamage: int, missChance: real)
  {
    /** A bee is dead once its hit points reach zero or below; they are never clamped. */
    predicate IsDead() {
      hp <= 0
    }

    /** The damage the bee's attack does, given the generator's draw: the draw must
        lie strictly above the miss chance, otherwise the attack does nothing. */
    function Attack(draw: real): (damage: int)
      ensures damage == attackDamage || damage == 0
    {
      if draw > missChance then attackDamage else 0
    }

    /** The bee after the player strikes it: it loses its own hit damage. */
    function Struck(): (b: BeeStats)
      ensures b.hp == hp - hitDamage
      ensures b.kind == kind && b.attackDamage == attackDamage
      ensures b.hitDamage == hitDamage && b.missChance == missChance
    {
      this.(hp := hp - hitDamage)
    }
  }

  /** Death is exactly "hit points zero or below", both at zero and below it. */
  lemma DeadIffNoHitPoints(b: BeeStats)
    ensures b.IsDead() <==> b.hp <= 0
    ensures b.hp == 0 ==> b.IsDead()
    ensures b.hp < 0 ==> b.IsDead()
    ensures b.hp > 0 ==> !b.IsDead()
  {
  }

  /** The attack lands with the bee's own attack damage exactly when the draw is
      strictly above the miss chance. */
  lemma AttackLandsAboveMissChance(b: BeeStats, draw: real)
    ensures draw > b.missChance ==> b.Attack(draw) == b.attackDamage
    ensures draw <= b.missChance ==> b.Attack(draw) == 0
  {
  }

  /** With a miss chance of one or more, no draw of the generator (all lie in [0, 1))
      gets through. */
  lemma CertainMissNeverLands(b: BeeStats, draw: real)
    requires b.missChance >= 1.0
    requires 0.0 <= draw < 1.0
    ensures b.Attack(draw) == 0
  {
  }

  /** With a miss chance of zero every positive draw lands, but the draw 0.0 is still
      a miss, because the comparison is strict. */
  lemma ZeroMissChanceEdge(b: BeeStats, draw: real)
    requires b.missChance == 0.0
    requires 0.0 <= draw < 1.0
    ensures draw > 0.0 ==> b.Attack(draw) == b.attackDamage
    ensures draw == 0.0 ==> b.Attack(draw) == 0
  {
  }

  /** A bee in the hive. Only its hit points change after it is spawned, so the
      other fields are constants. */
  class Bee {
    const kind: BeeType
    var hp: int
    const attackDamage: int
    const hitDamage: int
    const missChance: real

    /** The bee's current value. */
    function View(): (b: BeeStats)
      reads this
      ensures b.kind == kind && b.hp == hp
    {
      BeeStats(kind, hp, attackDamage, hitDamage, missChance)
    }

    constructor (stats: BeeStats)
      ensures View() == stats
    {
      kind := stats.kind;
      hp := stats.hp;
      attackDamage := stats.attackDamage;
      hitDamage := stats.hitDamage;
      missChance := stats.missChance;
    }

    /** Whether the bee is dead: the object delegates to its value's IsDead, so
        both read the same hit points the same way. */
    predicate IsDead()
      reads this
    {
      View().IsDead()
    }

    /** The player's strike: the bee loses its own hit damage, which is also what
        the strike reports as dealt. */
    method Hit() returns (damage: int)
      modifies this
      ensures damage == hitDamage
      ensures hp == old(hp) - hitDamage
      ensures View() == old(View()).Struck()
    {
      hp := hp - hitDamage;
      damage := hitDamage;
    }
  }
}
