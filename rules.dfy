/** The game's rules on values: a snapshot of a session, and what one player
    turn, one hive turn, the manual-mode command gate and the whole turn loop do
    to it. The engine's methods are proved to follow these functions. */
module GameRules {
  import opened Bees
  import opened Players

  /** The outcome signal; Running is the zero value and is never sent. */
  datatype GameState = Running | PlayerWin | PlayerLose

  /** What the engine sends on its output channel, one value per message. */
  datatype Event =
    | PlayerMissed                        // the player's attack missed
    | DirectHit(damage: int, kind: BeeType)
    | HiveCollapsed                       // a queen died and took the hive with her
    | BeeKilled(kind: BeeType)
    | BeeMissed(kind: BeeType)            // "Buzz!": the chosen bee did no damage
    | Stung(kind: BeeType, damage: int)
    | CommandPrompt                       // "Type 'hit' to attack..."
    | InvalidCommand(input: string)
    | Defeat                              // final message, player dead
    | Victory                             // final message, hive destroyed
  {
    predicate IsOutcome() {
      Defeat? || Victory?
    }
  }

  /** The configuration values the engine and the front end read. */
  datatype Config = Config(
    playerHealth: int,
    playerMissChance: real,
    beeMissChance: real,
    queenAmount: int, queenHealth: int, queenAttackDamage: int, queenHitDamage: int,
    workerAmount: int, workerHealth: int, workerAttackDamage: int, workerHitDamage: int,
    droneAmount: int, droneHealth: int, droneAttackDamage: int, droneHitDamage: int,
    logSize: int)

  /** Everything the engine's state consists of, as a value: the player, the hive
      in slice order, whose turn it is, the two counters, the messages sent so far
      and the outcome signals sent so far. */
  datatype Snapshot = Snapshot(
    player: PlayerStats,
    hive: seq<BeeStats>,
    playerTurn: bool,
    playerHits: int,
    beeStings: int,
    output: seq<Event>,
    signals: seq<GameState>)
  {
    /** The game is over once the player is dead or no bee is left. */
    predicate IsGameFinished() {
      player.IsDead() || |hive| == 0
    }
  }

  /** How the engine's loop ended: with an outcome, by cancellation, or because the
      supplied draws, commands or iteration budget ran out first. */
  datatype Exit = Finished(outcome: GameState) | Cancelled | OutOfScript

  /** The number of iterations of `for i := 0; i < n; i++`. */
  function Iterations(n: int): nat {
    if n > 0 then n else 0
  }

  /** The bees one append loop of NewGame adds: `amount` copies of one kind's stats. */
  function Spawn(stats: BeeStats, amount: int): (bees: seq<BeeStats>)
    ensures |bees| == Iterations(amount)
    ensures forall i :: 0 <= i < |bees| ==> bees[i] == stats
  {
    if amount <= 0 then [] else Spawn(stats, amount - 1) + [stats]
  }

  function WorkerStats(cfg: Config): BeeStats {
    BeeStats(Worker, cfg.workerHealth, cfg.workerAttackDamage, cfg.workerHitDamage, cfg.beeMissChance)
  }

  function DroneStats(cfg: Config): BeeStats {
    BeeStats(Drone, cfg.droneHealth, cfg.droneAttackDamage, cfg.droneHitDamage, cfg.beeMissChance)
  }

  function QueenStats(cfg: Config): BeeStats {
    BeeStats(Queen, cfg.queenHealth, cfg.queenAttackDamage, cfg.queenHitDamage, cfg.beeMissChance)
  }

  /** The hive a new game starts with: workers, then drones, then queens. */
  function InitialHive(cfg: Config): seq<BeeStats> {
    Spawn(WorkerStats(cfg), cfg.workerAmount)
      + Spawn(DroneStats(cfg), cfg.droneAmount)
      + Spawn(QueenStats(cfg), cfg.queenAmount)
  }

  /** The state of a new game. */
  function NewGame(cfg: Config): Snapshot {
    Snapshot(PlayerStats(cfg.playerHealth, cfg.playerMissChance), InitialHive(cfg), true, 0, 0, [], [])
  }

  /** A new game's hive holds as many bees as the three amounts ask for (a
      non-positive amount spawns none), workers first, then drones, then queens,
      each with its kind's configured values and the shared miss chance. The
      player starts with the configured health, on the move, with no hits, no
      stings and nothing sent yet. */
  lemma NewGameLayout(cfg: Config)
    ensures var g := NewGame(cfg);
      var w, d, q := Iterations(cfg.workerAmount), Iterations(cfg.droneAmount), Iterations(cfg.queenAmount);
      && |g.hive| == w + d + q
      && (forall i :: 0 <= i < w ==> g.hive[i] == WorkerStats(cfg))
      && (forall i :: w <= i < w + d ==> g.hive[i] == DroneStats(cfg))
      && (forall i :: w + d <= i < w + d + q ==> g.hive[i] == QueenStats(cfg))
      && (forall i :: 0 <= i < |g.hive| ==> g.hive[i].missChance == cfg.beeMissChance)
      && g.player.hp == cfg.playerHealth && g.player.missChance == cfg.playerMissChance
      && g.playerTurn && g.playerHits == 0 && g.beeStings == 0
      && g.output == [] && g.signals == []
  {
    var g := NewGame(cfg);
    var w, d, q := Iterations(cfg.workerAmount), Iterations(cfg.droneAmount), Iterations(cfg.queenAmount);
    var ws, ds, qs := Spawn(WorkerStats(cfg), cfg.workerAmount), Spawn(DroneStats(cfg), cfg.droneAmount), Spawn(QueenStats(cfg), cfg.queenAmount);
    assert g.hive == ws + ds + qs;
    forall i | 0 <= i < |g.hive|
      ensures i < w ==> g.hive[i] == WorkerStats(cfg)
      ensures w <= i < w + d ==> g.hive[i] == DroneStats(cfg)
      ensures w + d <= i ==> g.hive[i] == QueenStats(cfg)
    {
      if i < w {
        assert g.hive[i] == ws[i];
      } else if i < w + d {
        assert g.hive[i] == ds[i - w];
      } else {
        assert g.hive[i] == qs[i - w - d];
      }
    }
  }

  /** Removal by swap-with-last: the last bee moves into slot i and the hive
      shrinks by one. */
  function SwapRemove<T>(s: seq<T>, i: nat): (r: seq<T>)
    requires i < |s|
    ensures |r| == |s| - 1
  {
    s[i := s[|s| - 1]][..|s| - 1]
  }

  /** Swap-with-last removes exactly the element at i: the rest keep their
      places, except the last, which fills the gap, and what remains is the
      original collection less that one element. */
  lemma SwapRemoveRemovesExactlyOne<T>(s: seq<T>, i: nat)
    requires i < |s|
    ensures var r := SwapRemove(s, i);
      && (i < |r| ==> r[i] == s[|s| - 1])
      && (forall j :: 0 <= j < |r| && j != i ==> r[j] == s[j])
      && multiset(r) + multiset{s[i]} == multiset(s)
  {
    var r := SwapRemove(s, i);
    var last := |s| - 1;
    if i == last {
      assert s == r + [s[i]];
    } else {
      calc {
        multiset(s);
        { assert s == s[..i] + [s[i]] + s[i + 1..last] + [s[last]]; }
        multiset(s[..i]) + multiset{s[i]} + multiset(s[i + 1..last]) + multiset{s[last]};
        { assert r == s[..i] + [s[last]] + s[i + 1..last]; }
        multiset(r) + multiset{s[i]};
      }
    }
  }

  /** One player turn (after the command gate), given the attack draw and, when
      the attack lands, the index the generator picks. The player's own turn never
      changes the player, the sting counter, the signals or the turn owner; a hit
      is counted exactly when the attack lands; and the hive loses at most one bee
      unless a queen's death empties it. */
  function PlayerTurn(s: Snapshot, roll: real, pick: nat): (t: Snapshot)
    requires s.player.Hits(roll) ==> pick < |s.hive|
    ensures t.player == s.player && t.beeStings == s.beeStings
    ensures t.signals == s.signals && t.playerTurn == s.playerTurn
    ensures t.playerHits == s.playerHits + (if s.player.Hits(roll) then 1 else 0)
    ensures t.hive == [] || |s.hive| - 1 <= |t.hive| <= |s.hive|
    ensures !s.player.Hits(roll) ==> t.hive == s.hive
  {
    if !s.player.Hits(roll) then
      s.(output := s.output + [PlayerMissed])
    else
      var bee := s.hive[pick].Struck();
      var hit := s.(playerHits := s.playerHits + 1, output := s.output + [DirectHit(s.hive[pick].hitDamage, bee.kind)]);
      if bee.IsDead() && bee.kind == Queen then
        hit.(hive := [], output := hit.output + [HiveCollapsed])
      else if bee.IsDead() then
        hit.(hive := SwapRemove(s.hive[pick := bee], pick), output := hit.output + [BeeKilled(bee.kind)])
      else
        hit.(hive := s.hive[pick := bee])
  }

  /** A missed attack sends one miss message and changes nothing else. */
  lemma PlayerMissChangesNothing(s: Snapshot, roll: real, pick: nat)
    requires !s.player.Hits(roll)
    ensures var t := PlayerTurn(s, roll, pick);
      t.hive == s.hive && t.player == s.player && t.playerHits == s.playerHits
      && t.beeStings == s.beeStings && t.signals == s.signals
      && t.output == s.output + [PlayerMissed]
  {
  }

  /** A hit that leaves the bee alive lowers that bee's hit points by its own hit
      damage and touches no other bee; the hit counter goes up by one and one
      direct-hit message is sent. */
  lemma NonLethalHit(s: Snapshot, roll: real, pick: nat)
    requires s.player.Hits(roll) && pick < |s.hive|
    requires s.hive[pick].hp - s.hive[pick].hitDamage > 0
    ensures var t := PlayerTurn(s, roll, pick);
      && |t.hive| == |s.hive|
      && t.hive[pick] == s.hive[pick].(hp := s.hive[pick].hp - s.hive[pick].hitDamage)
      && (forall j :: 0 <= j < |s.hive| && j != pick ==> t.hive[j] == s.hive[j])
      && t.playerHits == s.playerHits + 1 && t.player == s.player && t.beeStings == s.beeStings
      && t.output == s.output + [DirectHit(s.hive[pick].hitDamage, s.hive[pick].kind)]
      && (t.IsGameFinished() <==> s.player.IsDead())
  {
  }

  /** Killing a queen, whatever the other bees' hit points, empties the hive and so
      ends the game. */
  lemma QueenKillCollapsesHive(s: Snapshot, roll: real, pick: nat)
    requires s.player.Hits(roll) && pick < |s.hive|
    requires s.hive[pick].kind == Queen && s.hive[pick].hp - s.hive[pick].hitDamage <= 0
    ensures var t := PlayerTurn(s, roll, pick);
      && t.hive == []
      && t.IsGameFinished()
      && t.playerHits == s.playerHits + 1 && t.player == s.player
      && t.output == s.output + [DirectHit(s.hive[pick].hitDamage, Queen), HiveCollapsed]
  {
  }

  /** Killing any other bee removes exactly that bee: the hive shrinks by one, the
      last bee takes the dead bee's slot, every other bee stays where it was, and
      the hive is the old one less the dead bee. */
  lemma KillRemovesExactlyThatBee(s: Snapshot, roll: real, pick: nat)
    requires s.player.Hits(roll) && pick < |s.hive|
    requires s.hive[pick].kind != Queen && s.hive[pick].hp - s.hive[pick].hitDamage <= 0
    ensures var t := PlayerTurn(s, roll, pick);
      && |t.hive| == |s.hive| - 1
      && (pick < |t.hive| ==> t.hive[pick] == s.hive[|s.hive| - 1])
      && (forall j :: 0 <= j < |t.hive| && j != pick ==> t.hive[j] == s.hive[j])
      && multiset(t.hive) + multiset{s.hive[pick]} == multiset(s.hive)
      && t.playerHits == s.playerHits + 1 && t.player == s.player
      && t.output == s.output + [DirectHit(s.hive[pick].hitDamage, s.hive[pick].kind), BeeKilled(s.hive[pick].kind)]
  {
    var t := PlayerTurn(s, roll, pick);
    assert t.hive == SwapRemove(s.hive, pick);
    SwapRemoveRemovesExactlyOne(s.hive, pick);
  }

  /** The hive holds live bees only. */
  ghost predicate AllAlive(hive: seq<BeeStats>) {
    forall i :: 0 <= i < |hive| ==> !hive[i].IsDead()
  }

  /** When every kind that is spawned has a positive configured health, a new
      game's hive holds live bees only; a kind with a non-positive amount adds no bee,
      so its health does not matter. */
  lemma InitialHiveAlive(cfg: Config)
    requires cfg.workerAmount > 0 ==> cfg.workerHealth > 0
    requires cfg.droneAmount > 0 ==> cfg.droneHealth > 0
    requires cfg.queenAmount > 0 ==> cfg.queenHealth > 0
    ensures AllAlive(InitialHive(cfg))
  {
    NewGameLayout(cfg);
  }

  /** A player turn keeps the hive free of dead bees: a bee is removed in the
      turn it dies (or the whole hive with a dead queen), and a bee that survives
      the hit stays alive. */
  lemma PlayerTurnKeepsHiveAlive(s: Snapshot, roll: real, pick: nat)
    requires s.player.Hits(roll) ==> pick < |s.hive|
    requires AllAlive(s.hive)
    ensures AllAlive(PlayerTurn(s, roll, pick).hive)
  {
    var t := PlayerTurn(s, roll, pick);
    if s.player.Hits(roll) {
      var bee := s.hive[pick].Struck();
      if bee.IsDead() && bee.kind != Queen {
        assert t.hive == SwapRemove(s.hive, pick);
        SwapRemoveRemovesExactlyOne(s.hive, pick);
      }
    }
  }

  /** One hive turn, given the index the generator picks and then the draw for
      that bee's attack. A zero damage counts as a miss. The hive, the hit counter,
      the signals and the turn owner never change, exactly one message is sent,
      and a sting is counted exactly when the player's hit points changed. */
  function BeeTurn(s: Snapshot, pick: nat, roll: real): (t: Snapshot)
    requires pick < |s.hive|
    ensures t.hive == s.hive && t.playerHits == s.playerHits
    ensures t.signals == s.signals && t.playerTurn == s.playerTurn
    ensures |t.output| == |s.output| + 1 && t.output[..|s.output|] == s.output
    ensures t.beeStings == s.beeStings + (if t.player == s.player then 0 else 1)
  {
    var bee := s.hive[pick];
    var damage := bee.Attack(roll);
    if damage == 0 then
      s.(output := s.output + [BeeMissed(bee.kind)])
    else
      s.(player := s.player.Stung(damage), beeStings := s.beeStings + 1,
         output := s.output + [Stung(bee.kind, damage)])
  }

  /** A hive turn never changes the hive. When the chosen bee's attack lands with
      a nonzero damage, the player loses exactly that bee's attack damage and the
      sting counter goes up by one; otherwise only a "Buzz" message is sent. */
  lemma BeeTurnEffect(s: Snapshot, pick: nat, roll: real)
    requires pick < |s.hive|
    ensures var t := BeeTurn(s, pick, roll);
      var bee := s.hive[pick];
      && t.hive == s.hive && t.playerHits == s.playerHits && t.signals == s.signals
      && t.player.missChance == s.player.missChance
      && (roll > bee.missChance && bee.attackDamage != 0 ==>
            t.player.hp == s.player.hp - bee.attackDamage && t.beeStings == s.beeStings + 1
            && t.output == s.output + [Stung(bee.kind, bee.attackDamage)])
      && (roll <= bee.missChance || bee.attackDamage == 0 ==>
            t.player == s.player && t.beeStings == s.beeStings
            && t.output == s.output + [BeeMissed(bee.kind)])
  {
  }

  /** A bee whose attack damage is zero never counts a sting, whatever the draw. */
  lemma HarmlessBeeNeverStings(s: Snapshot, pick: nat, roll: real)
    requires pick < |s.hive| && s.hive[pick].attackDamage == 0
    ensures BeeTurn(s, pick, roll).beeStings == s.beeStings
    ensures BeeTurn(s, pick, roll).player == s.player
  {
  }

  /** The messages the command gate sends while reading the given commands: a
      prompt, then for each command other than "hit" an invalid-command message
      and a new prompt. If the commands run out first, the last prompt is left
      waiting. So the messages begin and end with a prompt, and there are never
      more than two per command plus the first prompt. */
  function GateEvents(commands: seq<string>): (events: seq<Event>)
    ensures |events| % 2 == 1 && |events| <= 2 * |commands| + 1
    ensures events[0] == CommandPrompt && events[|events| - 1] == CommandPrompt
    decreases commands
  {
    if commands == [] || commands[0] == "hit" then [CommandPrompt]
    else [CommandPrompt, InvalidCommand(commands[0])] + GateEvents(commands[1..])
  }

  /** The commands left unread after the gate: those after the first "hit"
      (GateStopsAtFirstHit), and none without one (GateWithoutHit). */
  function GateRest(commands: seq<string>): seq<string>
    decreases commands
  {
    if commands == [] then []
    else if commands[0] == "hit" then commands[1..]
    else GateRest(commands[1..])
  }

  /** The gate reads the commands up to and including the first "hit", answers
      each earlier command with one invalid-command message, prompts before every
      read, and leaves the commands after that "hit" for later turns. */
  lemma {:induction false} GateStopsAtFirstHit(commands: seq<string>, k: nat)
    requires k < |commands| && commands[k] == "hit"
    requires forall j :: 0 <= j < k ==> commands[j] != "hit"
    ensures GateRest(commands) == commands[k + 1..]
    ensures |GateEvents(commands)| == 2 * k + 1
    ensures forall j :: 0 <= j < k ==>
      GateEvents(commands)[2 * j] == CommandPrompt && GateEvents(commands)[2 * j + 1] == InvalidCommand(commands[j])
    ensures GateEvents(commands)[2 * k] == CommandPrompt
    decreases k
  {
    if k > 0 {
      GateStopsAtFirstHit(commands[1..], k - 1);
      var rest := GateEvents(commands[1..]);
      assert GateEvents(commands) == [CommandPrompt, InvalidCommand(commands[0])] + rest;
      forall j | 0 <= j < k
        ensures GateEvents(commands)[2 * j] == CommandPrompt
        ensures GateEvents(commands)[2 * j + 1] == InvalidCommand(commands[j])
      {
        if j > 0 {
          assert GateEvents(commands)[2 * j] == rest[2 * (j - 1)];
          assert GateEvents(commands)[2 * j + 1] == rest[2 * (j - 1) + 1];
          assert commands[1..][j - 1] == commands[j];
        }
      }
    }
  }

  /** Without a "hit" the gate reads everything, rejects every command and is left
      waiting at a prompt. */
  lemma {:induction false} GateWithoutHit(commands: seq<string>)
    requires "hit" !in commands
    ensures GateRest(commands) == []
    ensures |GateEvents(commands)| == 2 * |commands| + 1
    ensures forall j :: 0 <= j < |commands| ==>
      GateEvents(commands)[2 * j] == CommandPrompt && GateEvents(commands)[2 * j + 1] == InvalidCommand(commands[j])
    ensures GateEvents(commands)[2 * |commands|] == CommandPrompt
    decreases commands
  {
    if commands != [] {
      assert "hit" !in commands[1..] by {
        assert forall x :: x in commands[1..] ==> x in commands;
      }
      GateWithoutHit(commands[1..]);
      var rest := GateEvents(commands[1..]);
      assert GateEvents(commands) == [CommandPrompt, InvalidCommand(commands[0])] + rest;
      forall j | 0 <= j < |commands|
        ensures GateEvents(commands)[2 * j] == CommandPrompt
        ensures GateEvents(commands)[2 * j + 1] == InvalidCommand(commands[j])
      {
        if j > 0 {
          assert GateEvents(commands)[2 * j] == rest[2 * (j - 1)];
          assert GateEvents(commands)[2 * j + 1] == rest[2 * (j - 1) + 1];
          assert commands[1..][j - 1] == commands[j];
        }
      }
    }
  }

  /** The gate sends no outcome message. */
  lemma {:induction false} GateSendsNoOutcome(commands: seq<string>)
    ensures forall e :: e in GateEvents(commands) ==> !e.IsOutcome()
    decreases commands
  {
    if commands != [] && commands[0] != "hit" {
      GateSendsNoOutcome(commands[1..]);
    }
  }

  /** The outcome the loop's epilogue chooses: defeat if the player is dead,
      checked first, otherwise victory. Running is never the outcome. */
  function Outcome(s: Snapshot): (g: GameState)
    ensures g == PlayerLose <==> s.player.IsDead()
    ensures g != Running
  {
    if s.player.IsDead() then PlayerLose else PlayerWin
  }

  /** The loop's epilogue: one final message and one outcome signal, the message
      defeat exactly when the signal is PlayerLose. Nothing else changes. */
  function Conclude(s: Snapshot): (t: Snapshot)
    ensures t.player == s.player && t.hive == s.hive && t.playerTurn == s.playerTurn
    ensures t.playerHits == s.playerHits && t.beeStings == s.beeStings
    ensures t.signals == s.signals + [Outcome(s)]
    ensures |t.output| == |s.output| + 1 && t.output[..|s.output|] == s.output
    ensures t.output[|s.output|].IsOutcome()
    ensures t.output[|s.output|] == Defeat <==> Outcome(s) == PlayerLose
  {
    if s.player.IsDead() then
      s.(output := s.output + [Defeat], signals := s.signals + [PlayerLose])
    else
      s.(output := s.output + [Victory], signals := s.signals + [PlayerWin])
  }

  /** The result of one loop iteration's turn: the state reached and the draws
      and commands still unread, or the state at which the script ran out. */
  datatype Step =
    | Next(s: Snapshot, commands: seq<string>, rolls: seq<real>, picks: seq<nat>)
    | Stalled(s: Snapshot)

  /** The player's side of an iteration. In manual mode the command gate comes
      first; then the attack takes a draw in [0, 1) and, when it lands, an index.
      A played step uses exactly one draw and at most one index; in automatic mode
      it reads no command, and in manual mode it is played only once a "hit"
      arrives. */
  function PlayerStep(s: Snapshot, auto: bool, commands: seq<string>, rolls: seq<real>, picks: seq<nat>): (step: Step)
    ensures step.Next? ==> rolls != [] && step.rolls == rolls[1..] && (step.picks == picks || (picks != [] && step.picks == picks[1..]))
    ensures step.Next? ==> step.s.playerTurn == s.playerTurn
    ensures step.Next? && auto ==> step.commands == commands
    ensures step.Next? && !auto ==> "hit" in commands
  {
    var gated := if auto then s else s.(output := s.output + GateEvents(commands));
    var rest := if auto then commands else GateRest(commands);
    if !auto && "hit" !in commands then
      Stalled(gated)
    else if rolls == [] then
      Stalled(gated)
    else if gated.player.Hits(rolls[0]) then
      if picks == [] || picks[0] >= |gated.hive| then
        Stalled(gated)
      else
        Next(PlayerTurn(gated, rolls[0], picks[0]), rest, rolls[1..], picks[1..])
    else
      Next(PlayerTurn(gated, rolls[0], 0), rest, rolls[1..], picks)
  }

  /** The hive's side of an iteration: an index, then a draw. It never changes
      the hive and never reads a command; a played step uses exactly one index and
      one draw. */
  function HiveStep(s: Snapshot, commands: seq<string>, rolls: seq<real>, picks: seq<nat>): (step: Step)
    ensures step.s.hive == s.hive
    ensures step.Next? ==> step.commands == commands
    ensures step.Next? ==> rolls != [] && picks != [] && step.rolls == rolls[1..] && step.picks == picks[1..]
  {
    if picks == [] || picks[0] >= |s.hive| || rolls == [] then
      Stalled(s)
    else
      Next(BeeTurn(s, picks[0], rolls[0]), commands, rolls[1..], picks[1..])
  }

  /** The turn owner flipped after a turn that was played. */
  function Flipped(step: Step): Step {
    match step
    case Next(t, c, r, p) => Next(t.(playerTurn := !t.playerTurn), c, r, p)
    case Stalled(t) => Stalled(t)
  }

  /** One iteration's turn, the player's or the hive's, with the turn owner flipped
      after it. A played turn uses exactly one draw and hands the turn over. */
  function Turn(s: Snapshot, auto: bool, commands: seq<string>, rolls: seq<real>, picks: seq<nat>): (step: Step)
    ensures step.Next? ==> rolls != [] && step.rolls == rolls[1..] && step.s.playerTurn == !s.playerTurn
    ensures step.Next? ==> step.picks == picks || (picks != [] && step.picks == picks[1..])
  {
    Flipped(if s.playerTurn then PlayerStep(s, auto, commands, rolls, picks) else HiveStep(s, commands, rolls, picks))
  }

  /** `t` follows `s` by sending messages only: no signal, what was sent before
      kept, and no outcome message among the new ones. */
  ghost predicate Appends(s: Snapshot, t: Snapshot) {
    && t.signals == s.signals
    && |s.output| <= |t.output| && t.output[..|s.output|] == s.output
    && (forall i :: |s.output| <= i < |t.output| ==> !t.output[i].IsOutcome())
  }

  lemma AppendsTrans(a: Snapshot, b: Snapshot, c: Snapshot)
    requires Appends(a, b) && Appends(b, c)
    ensures Appends(a, c)
  {
    assert c.output[..|a.output|] == c.output[..|b.output|][..|a.output|];
    forall i | |a.output| <= i < |c.output|
      ensures !c.output[i].IsOutcome()
    {
      if i < |b.output| {
        assert c.output[..|b.output|][i] == b.output[i];
      }
    }
  }

  lemma GateAppends(s: Snapshot, commands: seq<string>)
    ensures Appends(s, s.(output := s.output + GateEvents(commands)))
  {
    GateSendsNoOutcome(commands);
    var t := s.(output := s.output + GateEvents(commands));
    assert t.output[..|s.output|] == s.output;
    forall i | |s.output| <= i < |t.output|
      ensures !t.output[i].IsOutcome()
    {
      assert t.output[i] == GateEvents(commands)[i - |s.output|];
    }
  }

  lemma PlayerStepAppends(s: Snapshot, auto: bool, commands: seq<string>, rolls: seq<real>, picks: seq<nat>)
    ensures Appends(s, PlayerStep(s, auto, commands, rolls, picks).s)
    ensures PlayerStep(s, auto, commands, rolls, picks).Stalled? ==>
      PlayerStep(s, auto, commands, rolls, picks).s.player == s.player && PlayerStep(s, auto, commands, rolls, picks).s.hive == s.hive
  {
    var gated := if auto then s else s.(output := s.output + GateEvents(commands));
    if !auto {
      GateAppends(s, commands);
    } else {
      assert s.output[..|s.output|] == s.output;
    }
    var step := PlayerStep(s, auto, commands, rolls, picks);
    if step.Next? {
      var pick := if gated.player.Hits(rolls[0]) then picks[0] else 0;
      PlayerTurnAppends(gated, rolls[0], pick);
      AppendsTrans(s, gated, step.s);
    }
  }

  lemma PlayerTurnAppends(s: Snapshot, roll: real, pick: nat)
    requires s.player.Hits(roll) ==> pick < |s.hive|
    ensures Appends(s, PlayerTurn(s, roll, pick))
  {
    var t := PlayerTurn(s, roll, pick);
    assert t.output[..|s.output|] == s.output;
  }

  lemma HiveStepAppends(s: Snapshot, commands: seq<string>, rolls: seq<real>, picks: seq<nat>)
    ensures Appends(s, HiveStep(s, commands, rolls, picks).s)
    ensures HiveStep(s, commands, rolls, picks).Stalled? ==>
      HiveStep(s, commands, rolls, picks).s.player == s.player && HiveStep(s, commands, rolls, picks).s.hive == s.hive
  {
    var t := HiveStep(s, commands, rolls, picks).s;
    assert t.output[..|s.output|] == s.output;
  }

  /** A turn flips the turn owner, sends no outcome message or signal and keeps
      what was sent before; a turn that stalls has changed neither side. */
  lemma TurnSendsNoOutcome(s: Snapshot, auto: bool, commands: seq<string>, rolls: seq<real>, picks: seq<nat>)
    ensures var t := Turn(s, auto, commands, rolls, picks).s;
      && t.signals == s.signals
      && |s.output| <= |t.output| && t.output[..|s.output|] == s.output
      && (forall i :: |s.output| <= i < |t.output| ==> !t.output[i].IsOutcome())
    ensures Turn(s, auto, commands, rolls, picks).Next? ==> Turn(s, auto, commands, rolls, picks).s.playerTurn == !s.playerTurn
    ensures Turn(s, auto, commands, rolls, picks).Stalled? ==>
      Turn(s, auto, commands, rolls, picks).s.player == s.player && Turn(s, auto, commands, rolls, picks).s.hive == s.hive
  {
    if s.playerTurn {
      PlayerStepAppends(s, auto, commands, rolls, picks);
    } else {
      HiveStepAppends(s, commands, rolls, picks);
    }
  }

  /** The turn loop. `cancelled[k]` says whether cancellation is seen at the k-th
      check, and its length bounds the number of iterations; `commands` are the
      inputs for the manual gate; `rolls` are the generator's draws in [0, 1) and
      `picks` its index draws, each consumed in the order the turns ask for them.
      The loop stops with OutOfScript when any of these runs out, or when a pick
      is not an index of the hive. */
  function Run(s: Snapshot, auto: bool, cancelled: seq<bool>, commands: seq<string>,
               rolls: seq<real>, picks: seq<nat>): (Snapshot, Exit)
    decreases |cancelled|
  {
    if s.IsGameFinished() then
      (Conclude(s), Finished(Outcome(s)))
    else if cancelled == [] then
      (s, OutOfScript)
    else if cancelled[0] then
      (s, Cancelled)
    else
      match Turn(s, auto, commands, rolls, picks)
      case Stalled(t) => (t, OutOfScript)
      case Next(t, c, r, p) => Run(t, auto, cancelled[1..], c, r, p)
  }

  /** One unrolling of the loop on an unfinished game: out of iterations, cancelled,
      stalled, or on to the rest of the loop from the state the turn reached. */
  lemma RunUnrolled(s: Snapshot, auto: bool, cancelled: seq<bool>, commands: seq<string>,
                    rolls: seq<real>, picks: seq<nat>)
    requires !s.IsGameFinished()
    ensures cancelled == [] ==> Run(s, auto, cancelled, commands, rolls, picks) == (s, OutOfScript)
    ensures cancelled != [] && cancelled[0] ==> Run(s, auto, cancelled, commands, rolls, picks) == (s, Cancelled)
    ensures cancelled != [] && !cancelled[0] ==>
      var step := Turn(s, auto, commands, rolls, picks);
      Run(s, auto, cancelled, commands, rolls, picks) ==
        if step.Stalled? then (step.s, OutOfScript)
        else Run(step.s, auto, cancelled[1..], step.commands, step.rolls, step.picks)
  {
  }

  /** The loop ends with an outcome exactly when the game is over, and the outcome
      is defeat exactly when the player is dead. A cancelled run, or one whose
      script ran out, leaves an unfinished game. */
  lemma {:induction false} RunFinishesIffGameOver(s: Snapshot, auto: bool, cancelled: seq<bool>, commands: seq<string>,
                                                  rolls: seq<real>, picks: seq<nat>)
    ensures var (t, exit) := Run(s, auto, cancelled, commands, rolls, picks);
      && (exit.Finished? <==> t.IsGameFinished())
      && (exit.Finished? ==> exit.outcome == (if t.player.IsDead() then PlayerLose else PlayerWin))
    decreases |cancelled|
  {
    if s.IsGameFinished() || cancelled == [] || cancelled[0] {
    } else {
      TurnSendsNoOutcome(s, auto, commands, rolls, picks);
      match Turn(s, auto, commands, rolls, picks)
      case Stalled(t) =>
      case Next(t, c, r, p) => RunFinishesIffGameOver(t, auto, cancelled[1..], c, r, p);
    }
  }

  /** Exactly one outcome signal goes out when the loop finishes, and none when it
      is cancelled or runs out of script. */
  lemma {:induction false} RunSignalsOnce(s: Snapshot, auto: bool, cancelled: seq<bool>, commands: seq<string>,
                                          rolls: seq<real>, picks: seq<nat>)
    ensures var (t, exit) := Run(s, auto, cancelled, commands, rolls, picks);
      && (exit.Finished? ==> t.signals == s.signals + [exit.outcome])
      && (!exit.Finished? ==> t.signals == s.signals)
    decreases |cancelled|
  {
    if s.IsGameFinished() || cancelled == [] || cancelled[0] {
    } else {
      TurnSendsNoOutcome(s, auto, commands, rolls, picks);
      match Turn(s, auto, commands, rolls, picks)
      case Stalled(t) =>
      case Next(t, c, r, p) => RunSignalsOnce(t, auto, cancelled[1..], c, r, p);
    }
  }

  /** The loop keeps every message sent before it and only appends. */
  lemma {:induction false} RunKeepsEarlierMessages(s: Snapshot, auto: bool, cancelled: seq<bool>, commands: seq<string>,
                                                   rolls: seq<real>, picks: seq<nat>)
    ensures var t := Run(s, auto, cancelled, commands, rolls, picks).0;
      |s.output| <= |t.output| && t.output[..|s.output|] == s.output
    decreases |cancelled|
  {
    if s.IsGameFinished() || cancelled == [] || cancelled[0] {
    } else {
      TurnSendsNoOutcome(s, auto, commands, rolls, picks);
      match Turn(s, auto, commands, rolls, picks)
      case Stalled(t) =>
      case Next(t, c, r, p) =>
        RunKeepsEarlierMessages(t, auto, cancelled[1..], c, r, p);
        var u := Run(t, auto, cancelled[1..], c, r, p).0;
        assert u.output[..|s.output|] == u.output[..|t.output|][..|s.output|];
    }
  }

  /** Among the messages the loop sends, the only outcome message is the last one,
      sent exactly when the loop finishes: defeat when it ends in PlayerLose,
      victory otherwise. */
  lemma {:induction false} RunSendsOneFinalMessage(s: Snapshot, auto: bool, cancelled: seq<bool>, commands: seq<string>,
                                                   rolls: seq<real>, picks: seq<nat>)
    ensures var (t, exit) := Run(s, auto, cancelled, commands, rolls, picks);
      && (exit.Finished? ==>
            |t.output| > |s.output| &&
            t.output[|t.output| - 1] == (if exit.outcome == PlayerLose then Defeat else Victory))
      && (forall i :: |s.output| <= i < |t.output| && t.output[i].IsOutcome() ==>
            exit.Finished? && i == |t.output| - 1)
    decreases |cancelled|
  {
    if s.IsGameFinished() {
      assert Run(s, auto, cancelled, commands, rolls, picks) == (Conclude(s), Finished(Outcome(s)));
    } else if cancelled == [] || cancelled[0] {
    } else {
      TurnSendsNoOutcome(s, auto, commands, rolls, picks);
      var step := Turn(s, auto, commands, rolls, picks);
      if step.Next? {
        var t, c, r, p := step.s, step.commands, step.rolls, step.picks;
        RunSendsOneFinalMessage(t, auto, cancelled[1..], c, r, p);
        RunKeepsEarlierMessages(t, auto, cancelled[1..], c, r, p);
        assert Run(s, auto, cancelled, commands, rolls, picks) == Run(t, auto, cancelled[1..], c, r, p);
        var u := Run(t, auto, cancelled[1..], c, r, p).0;
        forall i | |s.output| <= i < |t.output|
          ensures u.output[i] == t.output[i]
        {
          assert u.output[..|t.output|][i] == u.output[i];
        }
      }
    }
  }

  /** An iteration keeps the hive free of dead bees: the gate and a hive turn
      leave the hive as it was, and a player turn removes a bee in the turn it
      dies. */
  lemma TurnKeepsHiveAlive(s: Snapshot, auto: bool, commands: seq<string>, rolls: seq<real>, picks: seq<nat>)
    requires AllAlive(s.hive)
    ensures AllAlive(Turn(s, auto, commands, rolls, picks).s.hive)
  {
    if s.playerTurn {
      var gated := if auto then s else s.(output := s.output + GateEvents(commands));
      var step := PlayerStep(s, auto, commands, rolls, picks);
      if step.Next? {
        var pick := if gated.player.Hits(rolls[0]) then picks[0] else 0;
        assert step.s == PlayerTurn(gated, rolls[0], pick);
        PlayerTurnKeepsHiveAlive(gated, rolls[0], pick);
      }
    }
  }

  /** Started on a hive of live bees, the loop ends on one too: no dead bee is
      ever left in the hive. */
  lemma {:induction false} RunKeepsHiveAlive(s: Snapshot, auto: bool, cancelled: seq<bool>, commands: seq<string>,
                                             rolls: seq<real>, picks: seq<nat>)
    requires AllAlive(s.hive)
    ensures AllAlive(Run(s, auto, cancelled, commands, rolls, picks).0.hive)
    decreases |cancelled|
  {
    if s.IsGameFinished() || cancelled == [] || cancelled[0] {
    } else {
      TurnKeepsHiveAlive(s, auto, commands, rolls, picks);
      match Turn(s, auto, commands, rolls, picks)
      case Stalled(t) =>
      case Next(t, c, r, p) => RunKeepsHiveAlive(t, auto, cancelled[1..], c, r, p);
    }
  }

  /** In automatic mode the loop never reads a command: its result does not depend
      on them. */
  lemma {:induction false} AutoRunIgnoresCommands(s: Snapshot, cancelled: seq<bool>, c1: seq<string>, c2: seq<string>,
                                                  rolls: seq<real>, picks: seq<nat>)
    ensures Run(s, true, cancelled, c1, rolls, picks) == Run(s, true, cancelled, c2, rolls, picks)
    decreases |cancelled|
  {
    if s.IsGameFinished() || cancelled == [] || cancelled[0] {
    } else {
      var st1, st2 := Turn(s, true, c1, rolls, picks), Turn(s, true, c2, rolls, picks);
      assert st1.s == st2.s && st1.Next? == st2.Next?;
      if st1.Next? {
        assert st1.commands == c1 && st2.commands == c2;
        assert st1.rolls == st2.rolls && st1.picks == st2.picks;
        AutoRunIgnoresCommands(st1.s, cancelled[1..], c1, c2, st1.rolls, st1.picks);
      }
    }
  }

  /** Cancellation seen at the first check of an unfinished game stops the loop at
      once: nothing is sent and nothing changes. */
  lemma CancelledAtOnce(s: Snapshot, auto: bool, cancelled: seq<bool>, commands: seq<string>,
                        rolls: seq<real>, picks: seq<nat>)
    requires !s.IsGameFinished() && cancelled != [] && cancelled[0]
    ensures Run(s, auto, cancelled, commands, rolls, picks) == (s, Cancelled)
  {
  }

  /** One worker with 1 hit point and hit damage 1 against a player who never
      misses: the first automatic player turn kills it and the game is won. */
  lemma SingleWorkerGameIsWon()
    ensures var cfg := Config(10, 0.0, 0.0, 0, 0, 0, 0, 1, 1, 5, 1, 0, 0, 0, 0, 10);
      Run(NewGame(cfg), true, [false], [], [0.0], [0]).1 == Finished(PlayerWin)
  {
    var cfg := Config(10, 0.0, 0.0, 0, 0, 0, 0, 1, 1, 5, 1, 0, 0, 0, 0, 10);
    var g := NewGame(cfg);
    assert g.hive == [WorkerStats(cfg)];
    var u := PlayerTurn(g, 0.0, 0);
    assert u.hive == [];
  }
}
