/** The player: hit points that the hive's stings lower, and a miss chance. */
module Players {

  /** The player as a value. */
  datatype PlayerStats = PlayerStats(hp: int, missChance: real)
  {
    /** The player is dead once hit points reach zero or below. */
    predicate IsDead() {
      hp <= 0
    }

    /** The attack roll exactly as the source writes it: true when the draw is
        below the miss chance. The engine reads true as "hit", which inverts the
        meaning of the miss chance (see AttackAsWrittenIsInverted). */
    predicate Attack(draw: real) {
      draw < missChance
    }

    /** The attack roll the engine evidently intends: the attack lands unless the
        draw falls below the miss chance. This is what the model's engine uses. */
    predicate Hits(draw: real) {
      !(draw < missChance)
    }

    /** The player after a sting of the given damage. */
    function Stung(damage: int): (p: PlayerStats)
      ensures p.hp == hp - damage && p.missChance == missChance
    {
      this.(hp := hp - damage)
    }
  }

  /** Death is exactly "hit points zero or below", both at zero and below it. */
  lemma DeadIffNoHitPoints(p: PlayerStats)
    ensures p.IsDead() <==> p.hp <= 0
    ensures p.hp == 0 ==> p.IsDead()
    ensures p.hp < 0 ==> p.IsDead()
  {
  }

  /** As written, a player who should never miss never hits, and a player who
      should always miss always hits, for every draw the generator can produce. */
  lemma AttackAsWrittenIsInverted(p: PlayerStats, draw: real)
    requires 0.0 <= draw < 1.0
    ensures p.missChance == 0.0 ==> !p.Attack(draw)
    ensures p.missChance == 1.0 ==> p.Attack(draw)
  {
  }

  /** The corrected roll: a miss chance of zero always hits, a miss chance of one
      or more never does, and in between the draw decides by the miss chance. */
  lemma HitsHonoursMissChance(p: PlayerStats, draw: real)
    requires 0.0 <= draw < 1.0
    ensures p.missChance <= 0.0 ==> p.Hits(draw)
    ensures p.missChance >= 1.0 ==> !p.Hits(draw)
    ensures p.Hits(draw) <==> draw >= p.missChance
    ensures p.Hits(draw) <==> !p.Attack(draw)
  {
  }

  /** The player after a series of stings, taken one after another. */
  function StungAll(p: PlayerStats, damages: seq<int>): (q: PlayerStats)
    ensures q.missChance == p.missChance
    decreases damages
  {
    if damages == [] then p else StungAll(p.Stung(damages[0]), damages[1..])
  }

  function Sum(xs: seq<int>): int
    decreases xs
  {
    if xs == [] then 0 else xs[0] + Sum(xs[1..])
  }

  /** Stings add up: the hit points after a series of stings are the starting hit
      points less their sum. */
  lemma {:induction false} StingsAccumulate(p: PlayerStats, damages: seq<int>)
    ensures StungAll(p, damages).hp == p.hp - Sum(damages)
    decreases damages
  {
    if damages != [] {
      StingsAccumulate(p.Stung(damages[0]), damages[1..]);
    }
  }

  /** The player of a running game. Only the hit points change. */
  class Player {
    var hp: int
    const missChance: real

    function View(): (p: PlayerStats)
      reads this
      ensures p.hp == hp && p.missChance == missChance
    {
      PlayerStats(hp, missChance)
    }

    constructor (hp: int, missChance: real)
      ensures View() == PlayerStats(hp, missChance)
    {
      this.hp := hp;
      this.missChance := missChance;
    }

    /** Whether the player is dead: the object delegates to its value's IsDead,
        so both read the same hit points the same way. */
    predicate IsDead()
      reads this
    {
      View().IsDead()
    }

    /** A sting lowers the hit points by exactly the damage; the miss chance is a
        constant and so untouched. */
    method Sting(damage: int)
      modifies this
      ensures hp == old(hp) - damage
      ensures View() == old(View()).Stung(damage)
    {
      hp := hp - damage;
    }
  }

  /** Three stings of 5, 7 and 3 bring 20 hit points down to 5. */
  method ThreeStings() returns (hp: int)
    ensures hp == 5
  {
    var p := new Player(20, 0.0);
    p.Sting(5);
    p.Sting(7);
    p.Sting(3);
    hp := p.hp;
  }
}
