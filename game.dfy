/** The game engine: one session's player, hive, turn owner and counters,
    updated in place by its methods, each proved to follow GameRules. */
module Engine {
  import opened Bees
  import opened Players
  import opened GameRules

  class GameEngine {
    const config: Config
    const player: Player
    var hive: seq<Bee>
    var playerTurn: bool
    var playerHits: int
    var beeStings: int
    /** Every message sent on the output channel so far, in order. */
    var output: seq<Event>
    /** Every value sent on the outcome channel so far. */
    var signals: seq<GameState>

    /** No bee appears twice in the hive. */
    ghost predicate Valid()
      reads this`hive
    {
      forall i, j :: 0 <= i < j < |hive| ==> hive[i] != hive[j]
    }

    /** The hive as values, in slice order. */
    function HiveView(): (bees: seq<BeeStats>)
      reads this`hive, hive
      ensures |bees| == |hive|
      ensures forall i :: 0 <= i < |hive| ==> bees[i] == hive[i].View()
    {
      var bees := hive;
      seq(|bees|, i reads bees requires 0 <= i < |bees| => bees[i].View())
    }

    /** The whole session as a value. */
    function View(): Snapshot
      reads this, player, hive
    {
      Snapshot(player.View(), HiveView(), playerTurn, playerHits, beeStings, output, signals)
    }

    /** A new session: the player at full health, and the hive filled by three
        append loops, workers, then drones, then queens. */
    constructor NewGame(cfg: Config)
      ensures Valid()
      ensures View() == GameRules.NewGame(cfg)
      ensures config == cfg && fresh(player)
      ensures forall i :: 0 <= i < |hive| ==> fresh(hive[i])
    {
      config := cfg;
      player := new Player(cfg.playerHealth, cfg.playerMissChance);
      hive := [];
      playerTurn := true;
      playerHits := 0;
      beeStings := 0;
      output := [];
      signals := [];
      new;
      ghost var start := View();
      SpawnLoop(WorkerStats(cfg), cfg.workerAmount);
      ghost var workers := HiveView();
      assert workers == Spawn(WorkerStats(cfg), cfg.workerAmount);
      SpawnLoop(DroneStats(cfg), cfg.droneAmount);
      ghost var drones := HiveView();
      assert drones == workers + Spawn(DroneStats(cfg), cfg.droneAmount);
      SpawnLoop(QueenStats(cfg), cfg.queenAmount);
      assert HiveView() == drones + Spawn(QueenStats(cfg), cfg.queenAmount);
      assert View() == start.(hive := HiveView());
    }

    /** One of NewGame's append loops: `amount` new bees with the given stats. */
    method SpawnLoop(stats: BeeStats, amount: int)
      requires Valid()
      modifies this`hive
      ensures Valid()
      ensures HiveView() == old(HiveView()) + Spawn(stats, amount)
      ensures forall i :: 0 <= i < |hive| ==> hive[i] in old(hive) || fresh(hive[i])
    {
      var i := 0;
      while i < amount
        invariant 0 <= i <= Iterations(amount)
        invariant Valid()
        invariant HiveView() == old(HiveView()) + Spawn(stats, i)
        invariant forall i :: 0 <= i < |hive| ==> hive[i] in old(hive) || fresh(hive[i])
      {
        var bee := new Bee(stats);
        hive := hive + [bee];
        i := i + 1;
      }
    }

    /** Empties the hive. */
    method ClearHive()
      modifies this`hive
      ensures hive == []
    {
      hive := [];
    }

    /** The terminal test: the player is dead or no bee is left. */
    predicate IsGameFinished()
      reads this, player, hive
      ensures IsGameFinished() == View().IsGameFinished()
    {
      player.IsDead() || |hive| == 0
    }

    /** The player's turn, given the attack draw and, when the attack lands, the
        index the generator picks. On a lethal hit the dead bee goes: all bees go if
        it is a queen, otherwise the last bee takes its slot. */
    method TakePlayerTurn(roll: real, pick: nat)
      requires Valid()
      requires player.View().Hits(roll) ==> pick < |hive|
      modifies this`hive, this`playerHits, this`output, hive
      ensures Valid()
      ensures View() == PlayerTurn(old(View()), roll, pick)
      ensures forall i :: 0 <= i < |hive| ==> hive[i] in old(hive)
      ensures !player.View().Hits(roll) ==> hive == old(hive)
    {
      if !player.View().Hits(roll) {
        output := output + [PlayerMissed];
        return;
      }
      ghost var before := View();
      var bee := Strike(pick);
      ghost var struck := HiveView();
      ghost var hit := before.(playerHits := before.playerHits + 1,
        output := before.output + [DirectHit(before.hive[pick].hitDamage, bee.kind)]);
      assert View() == hit.(hive := struck);
      assert bee.View() == struck[pick] == before.hive[pick].Struck();
      if bee.IsDead() && bee.kind == Queen {
        output := output + [HiveCollapsed];
        ClearHive();
      } else if bee.IsDead() {
        output := output + [BeeKilled(bee.kind)];
        RemoveAt(pick);
        assert HiveView() == SwapRemove(struck, pick);
      }
    }

    /** A landed attack: the picked bee takes its hit damage, the hit is counted
        and reported. The hive keeps its bees. */
    method Strike(pick: nat) returns (bee: Bee)
      requires Valid() && pick < |hive|
      modifies this`playerHits, this`output, hive[pick]
      ensures bee == hive[pick] && hive == old(hive)
      ensures HiveView() == old(HiveView())[pick := old(HiveView())[pick].Struck()]
      ensures playerHits == old(playerHits) + 1
      ensures output == old(output) + [DirectHit(old(HiveView())[pick].hitDamage, bee.kind)]
    {
      ghost var before := HiveView();
      playerHits := playerHits + 1;
      bee := hive[pick];
      var beeDamage := bee.Hit();
      output := output + [DirectHit(beeDamage, bee.kind)];
      forall i | 0 <= i < |hive| && i != pick
        ensures HiveView()[i] == before[i]
      {
        assert hive[i] != bee;
      }
    }

    /** Swap-with-last removal: the last bee moves into slot `pos` and the slice
        shrinks by one. No bee object changes. */
    method RemoveAt(pos: nat)
      requires Valid() && pos < |hive|
      modifies this`hive
      ensures Valid()
      ensures hive == SwapRemove(old(hive), pos)
      ensures forall i :: 0 <= i < |hive| ==> hive[i] in old(hive)
    {
      hive := hive[pos := hive[|hive| - 1]];
      hive := hive[..|hive| - 1];
    }

    /** The hive's turn, given the index the generator picks and then the draw for
        that bee's attack. */
    method TakeBeeTurn(pick: nat, roll: real)
      requires pick < |hive|
      modifies this`beeStings, this`output, player
      ensures View() == BeeTurn(old(View()), pick, roll)
    {
      var bee := hive[pick];
      var damage := bee.View().Attack(roll);
      if damage == 0 {
        output := output + [BeeMissed(bee.kind)];
        return;
      }
      player.Sting(damage);
      beeStings := beeStings + 1;
      output := output + [Stung(bee.kind, damage)];
    }

    /** The manual-mode command gate: prompt, read one command, and repeat until
        the command is "hit". Returns whether a "hit" arrived and the commands left
        unread; without one, every command is read and the gate is left waiting. */
    method WaitForPlayerAction(commands: seq<string>) returns (advanced: bool, rest: seq<string>)
      modifies this`output
      ensures advanced <==> "hit" in commands
      ensures rest == GateRest(commands)
      ensures output == old(output) + GateEvents(commands)
    {
      rest := commands;
      advanced := false;
      while true
        invariant rest == commands[|commands| - |rest|..]
        invariant "hit" !in commands[..|commands| - |rest|]
        invariant GateRest(commands) == GateRest(rest)
        invariant old(output) + GateEvents(commands) == output + GateEvents(rest)
        decreases |rest|
      {
        output := output + [CommandPrompt];
        if rest == [] {
          assert commands[..|commands|] == commands;
          return;
        }
        var input := rest[0];
        if input == "hit" {
          advanced := true;
          rest := rest[1..];
          return;
        }
        output := output + [InvalidCommand(input)];
        assert commands[..|commands| - |rest| + 1] == commands[..|commands| - |rest|] + [input];
        rest := rest[1..];
      }
    }

    /** The player's side of an iteration: the command gate in manual mode, then
        the attack. Reports whether the script ran out first, and what is left of it. */
    method PlayerMove(auto: bool, commands: seq<string>, rolls: seq<real>, picks: seq<nat>)
      returns (stalled: bool, cmds: seq<string>, r: seq<real>, p: seq<nat>)
      requires Valid()
      modifies this`hive, this`playerHits, this`output, hive
      ensures Valid()
      ensures forall i :: 0 <= i < |hive| ==> hive[i] in old(hive)
      ensures PlayerStep(old(View()), auto, commands, rolls, picks) ==
        if stalled then Stalled(View()) else Next(View(), cmds, r, p)
    {
      cmds, r, p := commands, rolls, picks;
      stalled := true;
      if !auto {
        var advanced;
        advanced, cmds := WaitForPlayerAction(cmds);
        if !advanced {
          return;
        }
      }
      if r == [] {
        return;
      }
      var roll := r[0];
      var pick := 0;
      if player.View().Hits(roll) {
        if p == [] || p[0] >= |hive| {
          return;
        }
        pick := p[0];
        p := p[1..];
      }
      TakePlayerTurn(roll, pick);
      r := r[1..];
      stalled := false;
    }

    /** The hive's side of an iteration. */
    method HiveMove(commands: seq<string>, rolls: seq<real>, picks: seq<nat>)
      returns (stalled: bool, r: seq<real>, p: seq<nat>)
      modifies this`beeStings, this`output, player
      ensures HiveStep(old(View()), commands, rolls, picks) ==
        if stalled then Stalled(View()) else Next(View(), commands, r, p)
    {
      r, p := rolls, picks;
      stalled := true;
      if p == [] || p[0] >= |hive| || r == [] {
        return;
      }
      TakeBeeTurn(p[0], r[0]);
      p, r := p[1..], r[1..];
      stalled := false;
    }

    /** One iteration's turn, the player's or the hive's, then the turn owner
        flipped. Reports whether the script ran out first, and what is left of it. */
    method PlayTurn(auto: bool, commands: seq<string>, rolls: seq<real>, picks: seq<nat>)
      returns (stalled: bool, cmds: seq<string>, r: seq<real>, p: seq<nat>)
      requires Valid()
      modifies this`hive, this`playerHits, this`beeStings, this`output, this`playerTurn, player, hive
      ensures Valid()
      ensures forall i :: 0 <= i < |hive| ==> hive[i] in old(hive)
      ensures Turn(old(View()), auto, commands, rolls, picks) ==
        if stalled then Stalled(View()) else Next(View(), cmds, r, p)
    {
      if playerTurn {
        stalled, cmds, r, p := PlayerMove(auto, commands, rolls, picks);
      } else {
        cmds := commands;
        stalled, r, p := HiveMove(commands, rolls, picks);
      }
      if !stalled {
        playerTurn := !playerTurn;
      }
    }

    /** The loop's epilogue: the final message and the outcome signal, defeat if
        the player is dead, victory otherwise. */
    method Finish() returns (exit: Exit)
      modifies this`output, this`signals
      ensures View() == Conclude(old(View()))
      ensures exit == Finished(Outcome(old(View())))
    {
      if player.IsDead() {
        output := output + [Defeat];
        signals := signals + [PlayerLose];
        exit := Finished(PlayerLose);
      } else {
        output := output + [Victory];
        signals := signals + [PlayerWin];
        exit := Finished(PlayerWin);
      }
    }

    /** The turn loop: until the game is over, check for cancellation, then play one
        turn; at the end send the final message and outcome signal, defeat if the
        player is dead, victory otherwise. The arguments are the script that
        GameRules.Run describes. */
    method Start(auto: bool, cancelled: seq<bool>, commands: seq<string>, rolls: seq<real>, picks: seq<nat>)
      returns (exit: Exit)
      requires Valid()
      modifies this, player, hive
      ensures Valid()
      ensures (View(), exit) == Run(old(View()), auto, cancelled, commands, rolls, picks)
    {
      var k, cmds, r, p := 0, commands, rolls, picks;
      assert cancelled[k..] == cancelled;
      while !IsGameFinished()
        invariant Valid()
        invariant 0 <= k <= |cancelled|
        invariant forall i :: 0 <= i < |hive| ==> hive[i] in old(hive)
        invariant Run(old(View()), auto, cancelled, commands, rolls, picks) == Run(View(), auto, cancelled[k..], cmds, r, p)
        decreases |cancelled| - k
      {
        ghost var before := View();
        RunUnrolled(before, auto, cancelled[k..], cmds, r, p);
        if k == |cancelled| {
          return OutOfScript;
        }
        assert cancelled[k..][0] == cancelled[k];
        if cancelled[k] {
          return Cancelled;
        }
        ghost var step := Turn(before, auto, cmds, r, p);
        var stalled;
        stalled, cmds, r, p := PlayTurn(auto, cmds, r, p);
        if stalled {
          assert step == Stalled(View());
          return OutOfScript;
        }
        assert step == Next(View(), cmds, r, p);
        assert cancelled[k..][1..] == cancelled[k + 1..];
        k := k + 1;
      }
      ghost var last := View();
      assert Run(last, auto, cancelled[k..], cmds, r, p) == (Conclude(last), Finished(Outcome(last)));
      exit := Finish();
    }
  }
}
