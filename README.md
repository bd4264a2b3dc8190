# Bees in the Trap — a Dafny model of the game engine

Bees in the Trap is a console game. A player fights a hive of bees, and
player and hive take turns. On the player's turn the player attacks one bee
picked at random, and may miss. On the hive's turn one bee picked at random
stings the player, and may miss. A bee dies when its hit points reach zero
or below. A dead queen takes the whole hive with her. Any other dead bee
leaves the hive: the last bee of the hive's slice moves into its slot. The
game ends when the player is dead or no bee is left. In manual mode the
player must type `hit` before every attack. In automatic mode the game plays
itself.

This project models the engine and proves what it does:

- `bee.dfy` (module `Bees`) holds the bee kinds and their names. It has
  `BeeStats`, a bee as a value, and `Bee`, a class whose hit points `Hit`
  lowers in place.
- `player.dfy` (module `Players`) holds `PlayerStats`, the player as a
  value, and `Player`, a class whose hit points `Sting` lowers in place. It
  has both the attack roll as written and the corrected roll (see Findings).
- `rules.dfy` (module `GameRules`) holds the game's rules on values:
  - a `Snapshot` of a whole session;
  - the functions for a new game, a player turn, a hive turn, the
    manual-mode command gate, one loop iteration (`Turn`) and the whole loop
    (`Run`);
  - the lemmas about them, among them the hive's invariant: when every
    kind that is spawned has a positive configured health, the hive holds
    live bees only, from the new game to
    the end of the loop (`InitialHiveAlive`, `RunKeepsHiveAlive`).
- `game.dfy` (module `Engine`) holds the `GameEngine` class. It has the
  engine's fields: the player, the hive as a sequence of `Bee` objects, the
  turn owner, the two counters, and the output and outcome channels as
  appended sequences. Every method is proved to move the engine's `View()`
  exactly as the matching `GameRules` function says.
- `messages.dfy` (module `Messages`) holds the front end's pure screen
  choices:
  - the log window;
  - the remaining-bees tally, as a loop over maps proved against a
    specification;
  - the game-over screen.
- `cli.dfy` (module `Cli`) holds the front end's input handling:
  - white-space trimming and ASCII lower-casing;
  - the player's name, with its default;
  - the y/n prompt for automatic mode, as a function and as the prompt loop
    proved against it;
  - the trimming of forwarded commands.

Inputs the engine draws are parameters:

- Randomness becomes two sequences, used in the order the source draws them.
  `rolls` holds the results of the generator's `Float64`, reals in [0, 1).
  `picks` holds the results of its `Intn`. A player turn takes a roll, then
  a pick only when the attack lands. A hive turn takes a pick, then a roll.
- The input channel becomes a sequence of commands.
- Cancellation becomes one boolean per loop iteration.
- Miss chances are `real`, and they are only compared.

## Model

| member | source | states |
|---|---|---|
| Bees.TypeNames | internal/game/bee.go:16-24 | Queen, Worker and Drone print as "Queen", "Worker" and "Drone" |
| Bees.TypeName | internal/game/bee.go:22-24 | a kind's printed name; Bees.TypeNames gives the three names and Bees.TypeNameInjective shows they tell the kinds apart |
| Bees.TypeNameInjective | internal/game/bee.go:22-24 | two kinds have the same name only if they are the same kind, so a tally keyed by name is a tally by kind |
| Bees.BeeStats.Attack | internal/game/bee.go:26-31 | the attack does the bee's attack damage or nothing |
| Bees.AttackLandsAboveMissChance | internal/game/bee.go:26-31 | the attack does the attack damage exactly when the draw is strictly above the miss chance, otherwise 0 |
| Bees.CertainMissNeverLands | internal/game/bee.go:27 | with miss chance ≥ 1, no draw in [0, 1) lands |
| Bees.ZeroMissChanceEdge | internal/game/bee.go:27 | with miss chance 0, every draw above 0 lands, and the draw 0.0 misses |
| Bees.BeeStats.IsDead | internal/game/bee.go:39-41 | dead once hp ≤ 0; Bees.DeadIffNoHitPoints states it at zero and below |
| Bees.BeeStats.Struck | internal/game/bee.go:34-37 | a struck bee loses exactly its own hit damage; kind, attack damage, hit damage and miss chance are unchanged |
| Bees.DeadIffNoHitPoints | internal/game/bee.go:39-41 | a bee is dead iff hp ≤ 0, both at 0 and below |
| Bees.Bee.View | internal/game/bee.go:5-11 | the object's kind and hit points are those of its value |
| Bees.Bee.IsDead | internal/game/bee.go:39-41 | the object's death test delegates to its value's, so Bees.DeadIffNoHitPoints states it: dead iff hp ≤ 0 |
| Bees.Bee.constructor | internal/game/bee.go:5-11 | a new bee has exactly the given values |
| Bees.Bee.Hit | internal/game/bee.go:34-37 | hp drops by exactly hitDamage, hitDamage is returned, nothing else changes |
| Players.PlayerStats.Stung | internal/game/player.go:14-16 | a sting lowers hp by exactly the damage and keeps the miss chance |
| Players.PlayerStats.IsDead | internal/game/player.go:18-20 | dead once hp ≤ 0; Players.DeadIffNoHitPoints states it at zero and below |
| Players.PlayerStats.Attack | internal/game/player.go:10-12 | the roll as written, true when the draw is below the miss chance; Players.AttackAsWrittenIsInverted states what the engine makes of it |
| Players.PlayerStats.Hits | internal/game/player.go:10-12 | the corrected roll; Players.HitsHonoursMissChance states it |
| Players.DeadIffNoHitPoints | internal/game/player.go:18-20 | the player is dead iff hp ≤ 0, both at 0 and below |
| Players.AttackAsWrittenIsInverted | internal/game/player.go:10-12 | as written, for every draw in [0, 1), miss chance 0 never hits and miss chance 1 always hits |
| Players.HitsHonoursMissChance | internal/game/player.go:10-12 | the corrected roll: it hits iff the draw is not below the miss chance, so miss chance ≤ 0 always hits, ≥ 1 never hits, and it is the negation of the roll as written |
| Players.StingsAccumulate | internal/game/player.go:14-16 | after a series of stings, hp is the starting hp less their sum |
| Players.Player.View | internal/game/player.go:5-8 | the object's fields are those of its value |
| Players.Player.IsDead | internal/game/player.go:18-20 | the object's death test delegates to its value's, so Players.DeadIffNoHitPoints states it: dead iff hp ≤ 0 |
| Players.Player.constructor | internal/game/player.go:5-8 | a new player has exactly the given hp and miss chance |
| Players.Player.Sting | internal/game/player.go:14-16 | hp drops by exactly the damage; the miss chance is untouched |
| Players.ThreeStings | internal/game/player_test.go:46-50 | stings of 5, 7 and 3 take 20 hp to 5 |
| GameRules.Spawn | internal/game/game.go:55-63 | one append loop adds max(amount, 0) bees, all with the same stats |
| GameRules.InitialHive | internal/game/game.go:54-85 | the three append loops' bees in order; GameRules.NewGameLayout states the layout |
| GameRules.NewGame | internal/game/game.go:33-88 | the state a new game starts in; GameRules.NewGameLayout states it field by field |
| GameRules.NewGameLayout | internal/game/game.go:42-87 | a new hive holds as many bees as the three amounts ask for: workers, then drones, then queens, each with its kind's values and the shared miss chance. The player starts at full health, on the move, with zero hits, zero stings and nothing sent |
| GameRules.SwapRemove | internal/game/game.go:187-188 | swap-with-last removal shrinks the hive by one |
| GameRules.SwapRemoveRemovesExactlyOne | internal/game/game.go:186-188 | the last bee fills the gap, all other bees keep their slots, and the result is the old hive less exactly the removed bee, as multisets |
| GameRules.PlayerTurn | internal/game/game.go:163-190 | the player's own turn never changes the player, the sting counter, the signals or the turn owner; a hit is counted exactly when the attack lands; a miss keeps the hive; the hive loses at most one bee unless a queen's death empties it. The case lemmas below state each branch |
| GameRules.PlayerMissChangesNothing | internal/game/game.go:165-168 | a missed attack sends one miss message and changes nothing else |
| GameRules.NonLethalHit | internal/game/game.go:170-177 | a non-lethal hit lowers only the chosen bee's hp, by its hit damage. The hive keeps its length, the hit counter rises by one, one direct-hit message is sent, and the game ends after it only if the player was already dead |
| GameRules.QueenKillCollapsesHive | internal/game/game.go:180-182 | killing a queen empties the hive whatever the other bees' hp, ending the game, with a direct-hit then a collapse message |
| GameRules.KillRemovesExactlyThatBee | internal/game/game.go:183-189 | killing another bee removes exactly that bee. The hive shrinks by one, the last bee takes its slot, the others stay put, and there is a direct-hit then a kill message |
| GameRules.InitialHiveAlive | internal/game/game.go:54-85 | if every kind that is spawned (a positive amount) has a positive configured health, a new hive holds live bees only; the health of a kind that is not spawned does not matter |
| GameRules.PlayerTurnKeepsHiveAlive | internal/game/game.go:163-190 | a player turn keeps the hive free of dead bees: a bee is removed in the turn it dies, or the whole hive with a dead queen |
| GameRules.BeeTurn | internal/game/game.go:192-210 | a hive turn never changes the hive, the hit counter, the signals or the turn owner; it sends exactly one message after those already sent, and counts a sting exactly when the player's hit points changed |
| GameRules.BeeTurnEffect | internal/game/game.go:192-210 | a hive turn never changes the hive. A landed nonzero attack lowers the player's hp by that bee's attack damage and counts one sting. Otherwise only a miss message is sent |
| GameRules.HarmlessBeeNeverStings | internal/game/game.go:198-202 | a bee with zero attack damage never counts a sting and never hurts the player |
| GameRules.GateEvents | internal/game/game.go:140-152 | the gate's messages begin and end with a prompt, are odd in number and at most two per command plus the first prompt |
| GameRules.GateRest | internal/game/game.go:140-152 | the commands the gate leaves unread; GameRules.GateStopsAtFirstHit and GameRules.GateWithoutHit state them exactly |
| GameRules.GateStopsAtFirstHit | internal/game/game.go:140-152 | the gate reads commands up to and including the first "hit". It prompts before every read and answers each earlier command with one invalid-command message. Later commands are left unread |
| GameRules.GateWithoutHit | internal/game/game.go:140-152 | without a "hit", every command is read and answered with its own invalid-command message after a prompt, nothing is left unread, and the gate is left waiting at a final prompt |
| GameRules.GateSendsNoOutcome | internal/game/game.go:140-152 | the gate sends no outcome message |
| GameRules.Outcome | internal/game/game.go:131-136 | the outcome is PlayerLose exactly when the player is dead, and never Running |
| GameRules.Snapshot.IsGameFinished | internal/game/game.go:154-160 | the terminal test on values: the player is dead or the hive is empty; Engine.GameEngine.IsGameFinished ties the engine's test to it, and GameRules.RunFinishesIffGameOver shows the loop ends with an outcome exactly then |
| GameRules.Conclude | internal/game/game.go:130-137 | the epilogue appends one outcome message and the signal Outcome, the message being defeat exactly when the signal is PlayerLose; player, hive, turn owner and counters are unchanged |
| GameRules.PlayerStep | internal/game/game.go:116-120 | a played player step consumes exactly the first draw, and either no index or exactly the first one, and keeps the turn owner; in automatic mode it reads no command, in manual mode it is played only once a "hit" is among the commands |
| GameRules.HiveStep | internal/game/game.go:121-123 | the hive's step never changes the hive and reads no command; a played step consumes exactly the first index and the first draw |
| GameRules.Turn | internal/game/game.go:115-126 | a played turn consumes exactly the first draw, and either no index or exactly the first one, and hands the turn to the other side |
| GameRules.Run | internal/game/game.go:107-137 | the loop; the Run lemmas below state its outcome, signal and messages |
| GameRules.GateAppends | internal/game/game.go:140-152 | the gate only appends messages, none of them an outcome, and sends no signal |
| GameRules.PlayerTurnAppends | internal/game/game.go:163-190 | a player turn only appends messages, none of them an outcome, and sends no signal |
| GameRules.PlayerStepAppends | internal/game/game.go:116-120 | the player's side of an iteration, the gate then the attack, only appends non-outcome messages; when the script runs out first, player and hive are unchanged |
| GameRules.HiveStepAppends | internal/game/game.go:121-123 | the hive's side of an iteration only appends non-outcome messages; when the script runs out first, player and hive are unchanged |
| GameRules.TurnSendsNoOutcome | internal/game/game.go:115-126 | one iteration flips the turn owner, keeps earlier messages, and sends no outcome message or signal |
| GameRules.RunUnrolled | internal/game/game.go:110-128 | the loop's one-step equation, used to carry the engine's loop invariant: on an unfinished game the loop stops when out of iterations or cancelled, stops when the turn stalls, and otherwise is the rest of the loop from the state the turn reached |
| GameRules.RunFinishesIffGameOver | internal/game/game.go:110-137 | the loop ends with an outcome iff the game is over, and the outcome is defeat iff the player is dead (death is checked first) |
| GameRules.TurnKeepsHiveAlive | internal/game/game.go:115-126 | an iteration, the player's or the hive's, keeps the hive free of dead bees |
| GameRules.RunKeepsHiveAlive | internal/game/game.go:110-137 | started on a hive of live bees, the loop ends on one: no dead bee is ever left in the hive |
| GameRules.RunSignalsOnce | internal/game/game.go:130-137 | a finished loop sends exactly one outcome signal; a cancelled loop sends none |
| GameRules.RunKeepsEarlierMessages | internal/game/game.go:107-137 | the loop keeps every message sent before it and only appends |
| GameRules.RunSendsOneFinalMessage | internal/game/game.go:107-137 | among the messages the loop sends, the only outcome message is the last one, sent iff the loop finishes, and it is defeat for PlayerLose and victory otherwise |
| GameRules.AutoRunIgnoresCommands | internal/game/game.go:116-120 | in automatic mode no command is ever read |
| GameRules.CancelledAtOnce | internal/game/game.go:111-113 | cancellation at the first check of an unfinished game stops the loop with nothing sent and nothing changed |
| GameRules.SingleWorkerGameIsWon | internal/game/game.go:107-137 | a player who never misses kills a lone 1-hp worker on the first turn and wins |
| Engine.GameEngine.HiveView | internal/game/game.go:23 | the hive's values are its bees' values, slot by slot |
| Engine.GameEngine.NewGame | internal/game/game.go:33-88 | the engine starts in GameRules.NewGame's state, with a fresh player and fresh, distinct bees |
| Engine.GameEngine.SpawnLoop | internal/game/game.go:54-85 | one append loop appends the bees GameRules.Spawn describes, all fresh and distinct |
| Engine.GameEngine.ClearHive | internal/game/game.go:102-104 | the hive becomes empty |
| Engine.GameEngine.IsGameFinished | internal/game/game.go:154-160 | the terminal test: the player is dead or the hive is empty |
| Engine.GameEngine.TakePlayerTurn | internal/game/game.go:163-190 | the engine moves as GameRules.PlayerTurn says, bees stay distinct, no bee is added, and a miss leaves the hive's slice untouched |
| Engine.GameEngine.Strike | internal/game/game.go:171-177 | the picked bee loses exactly its hit damage, the hit counter rises by one, one direct-hit message with that damage and the bee's kind is sent, and the hive keeps its bees in their slots |
| Engine.GameEngine.RemoveAt | internal/game/game.go:186-188 | the last bee object moves into the slot and the slice shrinks by one; bees stay distinct and none is added |
| Engine.GameEngine.TakeBeeTurn | internal/game/game.go:192-210 | the engine moves as GameRules.BeeTurn says |
| Engine.GameEngine.WaitForPlayerAction | internal/game/game.go:140-152 | the gate advances iff a "hit" arrives. It leaves exactly the commands after the first "hit" and sends exactly GameRules.GateEvents |
| Engine.GameEngine.PlayerMove | internal/game/game.go:116-120 | the player's side of an iteration moves the engine as GameRules.PlayerStep says, with bees kept distinct and none added |
| Engine.GameEngine.HiveMove | internal/game/game.go:121-123 | the hive's side of an iteration moves the engine as GameRules.HiveStep says |
| Engine.GameEngine.PlayTurn | internal/game/game.go:115-126 | one iteration moves the engine as GameRules.Turn says: the owner's side, then the turn owner flipped |
| Engine.GameEngine.Finish | internal/game/game.go:130-137 | the epilogue sends defeat and PlayerLose if the player is dead, otherwise victory and PlayerWin, as GameRules.Conclude says |
| Engine.GameEngine.Start | internal/game/game.go:107-138 | the loop's final state and exit are exactly GameRules.Run's |
| Messages.LogTail | internal/cli/messages.go:31-35 | the window shows the whole log when it fits, otherwise exactly the last logSize entries, always as an order-keeping suffix |
| Messages.NewestMessageShown | internal/cli/messages.go:32-39 | with room for one line, the newest message is the last line shown |
| Messages.RemainingBees | internal/cli/messages.go:71-99 | the map-filling tally loop produces exactly Tally |
| Messages.Tally | internal/cli/messages.go:71-99 | the remaining-bees list; Messages.TallyShape, Messages.TallyUnfold, Messages.TallyCountsSumToHive and Messages.TallyNonEmpty state it |
| Messages.TallyIn | internal/cli/messages.go:87-98 | the lines for the given kinds in their order; Messages.TallyShape states them for the fixed order |
| Messages.GroupOf | internal/cli/messages.go:88-97 | one kind's line, present only when the kind has bees; Messages.TallyShape states it |
| Messages.HpsOf | internal/cli/messages.go:80-84 | one kind's hit points in hive order; its ensures only bounds the list by the hive, and its meaning is stated by Messages.HpsOfConcat (hive order) and Messages.KindsPartitionHive (the kinds' lists together cover the hive) |
| Messages.CollectKinds | internal/cli/messages.go:76-84 | after the counting pass, a kind's name is a key iff the hive has such bees; its count is their number and its list their hp in hive order |
| Messages.CollectStep | internal/cli/messages.go:81-83 | one more bee raises its kind's count by one and appends its hp, keeping both maps in step with the hive read so far |
| Messages.GroupFromMaps | internal/cli/messages.go:88-97 | once the whole hive is collected, a kind's name is in the maps iff its line is listed, and the maps' values make that line |
| Messages.HpsOfConcat | internal/cli/messages.go:80-84 | hit-point lists follow hive order: the list for a concatenation is the concatenation of the lists |
| Messages.KindsPartitionHive | internal/cli/messages.go:80-84 | every bee is counted under exactly one kind |
| Messages.TallyUnfold | internal/cli/messages.go:75-98 | the list is the queen line, the worker line and the drone line, in that order, each only when present |
| Messages.TallyCountsSumToHive | internal/cli/messages.go:80-84 | the listed counts add up to the hive's length |
| Messages.TallyInLines | internal/cli/messages.go:87-98 | every listed line belongs to a kind walked, has at least one hit point, and its count and list are that kind's |
| Messages.TallyInCovers | internal/cli/messages.go:87-98 | a walked kind has a line iff the hive holds such bees |
| Messages.TallyInOrdered | internal/cli/messages.go:75-98 | walking kinds in a strictly increasing order lists lines in that order |
| Messages.TallyShape | internal/cli/messages.go:75-98 | each line's count equals its number of hit points and lists that kind's hp in hive order. A kind is listed iff it has bees, and kinds come Queen, Worker, Drone |
| Messages.TallyNonEmpty | internal/cli/messages.go:61-63 | the list is non-empty iff the hive is |
| Messages.GameOver | internal/cli/messages.go:44-69 | the defeat line appears iff the state is PlayerLose and the victory line iff PlayerWin. Health, maximum, stings and hits are the engine's. The remaining-bees list is empty iff the hive is, and otherwise it is exactly Messages.Tally of the hive |
| Cli.TrimLeft | internal/cli/cli.go:42 | the result is a suffix of the line, starts with a non-space, and only white space was cut |
| Cli.TrimRight | internal/cli/cli.go:42 | the result is a prefix of the line, ends with a non-space, and only white space was cut |
| Cli.TrimSpace | internal/cli/cli.go:42 | the trimmed line is no longer than the line, and starts and ends with a non-space |
| Cli.TrimSpaceCutsOnlySpace | internal/cli/cli.go:42 | the trimmed line is a slice of the line, and everything cut on either side is white space |
| Cli.TrimSpaceEmptyIffBlank | internal/cli/cli.go:44-46 | a line trims to nothing iff it is all white space |
| Cli.TrimSpaceIdempotent | internal/cli/cli.go:42 | trimming twice is trimming once |
| Cli.TrimSpaceKeepsTrimmed | internal/cli/cli.go:42 | a line that starts and ends with a non-space is kept as it is |
| Cli.TrimLeftPadded | internal/cli/cli.go:42 | white space before a line that starts with a non-space is cut exactly |
| Cli.TrimRightPadded | internal/cli/cli.go:42 | white space after a line that ends with a non-space is cut exactly |
| Cli.TrimSpacePadded | internal/cli/cli.go:42 | a word padded with white space on both sides trims to the word |
| Cli.IsSpace | internal/cli/cli.go:42 | white space as the Unicode White_Space property lists it, the set that `strings.TrimSpace` removes |
| Cli.LowerChar | internal/cli/cli.go:57 | upper-case ASCII letters are lowered by 32 code points; every other character is kept |
| Cli.Lower | internal/cli/cli.go:57 | lowering keeps the length and lowers each character |
| Cli.LowerKeepsLowercase | internal/cli/cli.go:57 | lowering keeps a line without upper-case ASCII letters unchanged |
| Cli.PlayerName | internal/cli/cli.go:39-48 | the name is the trimmed first line, or "Anonymous Hunter" when input has ended or the trimmed line is empty; it is never empty and never padded |
| Cli.TypedNameKept | internal/cli/cli_test.go:17 | "John" gives "John" |
| Cli.EmptyLineGivesDefault | internal/cli/cli_test.go:18 | an empty line gives "Anonymous Hunter" |
| Cli.PaddedNameTrimmed | internal/cli/cli.go:41-43 | padding around a typed name is dropped |
| Cli.Recognise | internal/cli/cli.go:58-66 | Yes iff the answer is "y" or "yes"; No iff it is "n" or "no" |
| Cli.Classify | internal/cli/cli.go:57-66 | an answer line, trimmed and lowered, then recognised; Cli.ClassifyIgnoresPadding and Cli.ClassifyBare state it |
| Cli.ClassifyBare | internal/cli/cli.go:57-58 | a lower-case, unpadded answer is recognised as typed |
| Cli.ClassifyIgnoresPadding | internal/cli/cli.go:57-62 | white space around an answer never changes how it is read, and the word is recognised once lowered |
| Cli.AutoMode | internal/cli/cli.go:50-70 | the mode chosen and the lines read, never more than were given; Cli.FirstAnswerDecides and Cli.NoAnswerMeansManual state the choice |
| Cli.PromptAutoMode | internal/cli/cli.go:50-70 | the prompt loop returns exactly AutoMode's mode and number of lines read |
| Cli.FirstAnswerDecides | internal/cli/cli.go:51-68 | unrecognised lines are read and ignored, and the first recognised answer decides: automatic for y/yes, manual for n/no |
| Cli.NoAnswerMeansManual | internal/cli/cli.go:53-55 | when input ends before a recognised answer, every line is read and play is manual |
| Cli.RecognisedAnswer | internal/cli/cli_test.go:43-46 | "y" and "yes" choose automatic play; "n" and "no" choose manual |
| Cli.ForwardedCommands | internal/cli/cli.go:148-156 | each forwarded command is its input line, trimmed |
| Cli.PaddedHitForwarded | internal/cli/cli.go:150 | a padded "hit" reaches the engine as "hit" |

## Left out

- Concurrency is not modelled: the goroutines, the wait group, the channel
  `select`s and OS signal handling in `internal/cli/cli.go`. The output and
  outcome channels are appended sequences, the input channel is a sequence,
  and cancellation is one boolean per iteration.
- Screen clearing, `time.Sleep`, banner printing, the `Press Enter` read,
  and the exact wording and emoji of every message are not modelled.
  Messages are `Event` values that carry the kind and the amount.
- `displayGameInterface` is not modelled beyond the pieces it shares with
  the game-over screen.
- `math/rand` is not modelled: no seeding (game.go:35-40) and no generator
  internals. Draws are parameters, and the model does not constrain
  `rolls` to [0, 1).
- `internal/config/config.go` is not part of this model: no environment
  lookup or parsing. `Config` holds the fields the engine and front end read.
  RandomSeed and AutoRunSpeed are left out because they only feed the
  generator and the sleep.
- Go's 64-bit `int` is modelled as an unbounded integer, so wrap-around of
  hit points or counters is not modelled. Float64 miss chances are `real`.
- Trivial field reads are not modelled as separate members: GetHP, Gethp,
  GetBeeType, GetHive, GetPlayer and IsPlayerTurn. The model reads the fields
  directly.
- The Go sources disagree on some names. The engine reads
  `*HitDamage` and the front end `GetHP`, but the config defines
  `*DefenseDamage` and the player `Gethp`. The model uses the names the
  engine and front end use.
- GameRules.Run: the engine's loop need not terminate. For example, with
  zero damage on both sides it runs forever. The model bounds it by the
  `cancelled` sequence and stops with `OutOfScript` when that sequence, the
  draws or the manual commands run out, or when a pick is not an index of
  the hive. A picks value outside the hive corresponds to nothing in the
  source, where `Intn` never returns one.
- Engine.GameEngine.PlayTurn: an empty hive makes `Intn` panic in the
  source. The rules and the engine's turn methods require a valid index
  instead.
- Messages.LogTail requires a non-negative window. A negative LogSize makes
  the source's slice panic.
- Messages.Group holds the kind rather than its name string. The source keys
  its maps by the name and prints it. Names and kinds correspond one to one
  (Bees.TypeNameInjective).
- Cli.LowerChar lowers ASCII A-Z only; every other character, including
  non-ASCII upper-case letters that `strings.ToLower` would fold, is kept.
- Cli.Lower folds ASCII letters only, where Go's `strings.ToLower` folds all
  of Unicode. Input lines are sequences of characters, so invalid UTF-8 is
  not modelled.
- Cli.PlayerName and Cli.AutoMode start from the front end's zero values (an
  empty name and manual play). A scanner error is treated as end of input.

## Findings

| source | as written | input that shows it | evidently intended | confidence | as-written member | corrected member |
|---|---|---|---|---|---|---|
| internal/game/player.go:11 | the player's attack succeeds when the draw is below the miss chance, and the engine treats success as a hit (game.go:165) | miss chance 0.0 and any draw in [0, 1), for example 0.5: the attack misses every time. Miss chance 1.0 hits every time | the attack hits unless the draw is below the miss chance, so miss chance 0 always hits (player_test.go:13-32, game_test.go:128-173) | not executed | Players.AttackAsWrittenIsInverted | Players.HitsHonoursMissChance |

The engine in this model (GameRules.PlayerTurn, Engine.GameEngine.TakePlayerTurn)
uses the corrected roll, `PlayerStats.Hits`.

The bee's attack is kept as written, with its strict comparison: a draw
equal to the miss chance misses (Bees.ZeroMissChanceEdge). So is the rule
that a hive turn doing zero damage counts as a miss
(GameRules.HarmlessBeeNeverStings).
