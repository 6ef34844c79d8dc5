# Ship-Captain-Crew rules engine in Dafny

This project models `DiceGame`, the rules engine of a Ship-Captain-Crew dice game. The engine keeps:

- the players in turn order, each with a score, the rolls used this turn, and a tally of wins and losses;
- a fixed list of six-sided dice, each with a face, a hold flag and a die number;
- the roll limit;
- a reference to the player whose turn it is.

It holds dice, gates and logs rolls, and scores a turn that holds a ship (6), a captain (5) and a crew (4). It advances the turn, and at the end of a round it ranks the players by score and awards wins and losses.

The model is imperative, like the engine:

- `Entities.Die` and `Entities.Player` are classes whose methods change their fields in place.
- `Game.DiceGame` is a class whose methods loop over its sequences of those objects.
- `DiceGame.currentPlayer` is a reference into the player sequence, compared by identity as the engine's `==` does.

Each method is proved against a value-level specification:

- `Rules` states the game's rules on plain values (`DieView`, `PlayerView`) and proves what they promise. Examples: the three outcomes of `autoHold`, the bounds on a turn's points, the turn order visiting every player, and the verdicts of a round.
- `Ranking` defines the ordering that `getGameResults` imposes: an insertion-built, stable, descending ranking by score. It proves that this ranking is a permutation, is sorted, and keeps equal scores in their prior relative order.
- `Game.NewGame` reports the construction error as a `Result` value. `Wrappers` holds the `Option` and `Result` types.

Files:

- `wrappers.dfy`: `Option` and `Result`.
- `ranking.dfy`: module `Ranking`.
- `rules.dfy`: module `Rules`.
- `entities.dfy`: module `Entities` (`Die`, `Player`).
- `game.dfy`: module `Game` (`DiceGame`, `NewGame`).

## Model

| member | source | states |
|---|---|---|
| Game.NewGame | src/edu/wctc/DiceGame.java:15-33 | fails exactly when fewer than two players are asked for; otherwise a valid fresh game with exactly `countPlayers` players, `countDice` dice (none for a negative count), the given roll limit and no current player |
| Game.DiceGame.constructor | src/edu/wctc/DiceGame.java:15-33 | for at least two players: that many fresh players all at zero, that many fresh unheld six-sided dice, the roll limit stored |
| Game.DiceGame.AllDiceHeld | src/edu/wctc/DiceGame.java:34-37 | true exactly when every die is held (so true with no dice) |
| Rules.AllHeldIffCountIsLength | src/edu/wctc/DiceGame.java:34-37 | every die is held exactly when the number of held dice is the number of dice |
| Rules.FirstFace | src/edu/wctc/DiceGame.java:43-49 | the first-match search of `autoHold`: none exactly when no die has that face and hold flag; otherwise the first index that does |
| Rules.AutoHold | src/edu/wctc/DiceGame.java:39-64 | a held die with the face: true and no change; else an unheld one: true with exactly the first such die held; no die with the face: false and no change |
| Rules.AutoHoldSettles | src/edu/wctc/DiceGame.java:39-64 | `autoHold(v)` returns true exactly when a held die shows `v` afterwards; a repeated call returns true and changes nothing; failure changes nothing |
| Game.DiceGame.AutoHold | src/edu/wctc/DiceGame.java:39-64 | the result and the dice afterwards are exactly `Rules.AutoHold` of the dice before |
| Game.DiceGame.CurrentPlayerCanRoll | src/edu/wctc/DiceGame.java:66-74 | true exactly when the current player's rolls used differ from the limit and some die is unheld |
| Rules.CanRollIff | src/edu/wctc/DiceGame.java:68 | the roll gate `Rules.CanRoll` opens exactly when the limit is not reached and some die is free |
| Rules.HoldingAndReleasingFlipAllHeld | src/edu/wctc/DiceGame.java:34-37 | holding the one free die makes every die held; releasing the dice makes not every die held again, and no face is held afterwards, so no hand qualifies |
| Rules.GateKeepsRollsWithinLimit | src/edu/wctc/DiceGame.java:66-74 | from within the limit, a roll the gate allows keeps the rolls used within the limit, and there is a die to roll |
| Game.DiceGame.GetGameResults | src/edu/wctc/DiceGame.java:96-111 | the players afterwards are a stable descending sort by score of the players before (permutation, non-increasing scores, ties in prior order), and each player got the round's verdict against the top score |
| Game.DiceGame.SortByScore | src/edu/wctc/DiceGame.java:98 | the turn order becomes a stable descending sort by score of the old one, with the same players and the same current player |
| Game.DiceGame.Reseat | src/edu/wctc/DiceGame.java:98 | the turn order becomes the given rearrangement; the roster stays valid and the current player is unchanged |
| Game.DiceGame.TopScore | src/edu/wctc/DiceGame.java:100 | no player scores above the top score, and with any players some player scores exactly it; with none it is 0 |
| Game.DiceGame.AwardVerdicts | src/edu/wctc/DiceGame.java:102-111 | with a nonzero top score, a win for each player on it and a loss for each other player; with top score 0, nothing changes |
| Ranking.Sort | src/edu/wctc/DiceGame.java:98 | the result is a stable descending sort of its input by the score table, with the same members |
| Ranking.Rank | src/edu/wctc/DiceGame.java:98 | the ranking is a permutation of its input with non-increasing scores |
| Ranking.InsertPermutes | src/edu/wctc/DiceGame.java:98 | inserting one player adds exactly that player and loses nobody |
| Ranking.InsertSorted | src/edu/wctc/DiceGame.java:98 | inserting into a descending ranking keeps it descending |
| Ranking.InsertFilter | src/edu/wctc/DiceGame.java:98 | inserting a player appends it to the run of its own score and leaves every other score's run alone |
| Ranking.FilterAppend | src/edu/wctc/DiceGame.java:98 | the players with a given score in a concatenation are those of the first part followed by those of the second |
| Ranking.RankIsStable | src/edu/wctc/DiceGame.java:98 | for every score, the players holding it appear in the same relative order before and after the sort |
| Ranking.RankIsStableSort | src/edu/wctc/DiceGame.java:98 | the ranking is a stable descending sort of its input |
| Ranking.RankOfTiesIsIdentity | src/edu/wctc/DiceGame.java:98 | when every score is equal the sort leaves the order unchanged |
| Ranking.RankSameMembers | src/edu/wctc/DiceGame.java:98 | the ranking holds exactly the players it was given |
| Ranking.RankLeaderIsMaximal | src/edu/wctc/DiceGame.java:98 | the first player after the sort has the highest score of all |
| Rules.MaxOrZero | src/edu/wctc/DiceGame.java:100 | 0 for no scores; otherwise a score that occurs and that no score exceeds |
| Rules.MaxOrZeroSameScores | src/edu/wctc/DiceGame.java:100 | the top score depends only on which scores occur, not their order |
| Game.SameMembersSameTop | src/edu/wctc/DiceGame.java:98-100 | sorting does not change the top score: two player lists with the same members have the same top score |
| Rules.Award | src/edu/wctc/DiceGame.java:102-111 | the score is kept; with a nonzero top exactly one of a win or a loss is added, a win exactly when the score is the top; with top 0 nothing |
| Rules.AwardAll | src/edu/wctc/DiceGame.java:100-111 | the verdicts keep every score; a player gains a win exactly when the top score is nonzero and the player's score is the top |
| Rules.RoundVerdicts | src/edu/wctc/DiceGame.java:100-111 | a nonzero top score gives at least one winner and each player exactly one of a win or a loss; a round where every score is 0 awards nothing |
| Rules.RoundExample | src/edu/wctc/DiceGame.java:100-111 | scores 10, 30, 30, 5: both players on 30 win, the other two lose |
| Game.DiceGame.IsHoldingDie | src/edu/wctc/DiceGame.java:117-120 | true exactly when some held die shows the face |
| Rules.Successor | src/edu/wctc/DiceGame.java:122-148 | the next player exists exactly when the current one is in the turn order and is not the last |
| Game.DiceGame.NextPlayer | src/edu/wctc/DiceGame.java:122-148 | returns true exactly when the current player has a successor and then moves to it; otherwise false, with the current player unchanged |
| Rules.SuccessorIsNext | src/edu/wctc/DiceGame.java:133-143 | with distinct players, each player but the last is followed by the next in the list; the last has none |
| Rules.RoundVisitsEveryPlayer | src/edu/wctc/DiceGame.java:122-148 | a round started at the first player reaches the k-th player after k advances and ends after the last |
| Rules.FirstNum | src/edu/wctc/DiceGame.java:152 | none exactly when no die has that die number; otherwise the first index that does |
| Rules.HoldLabel | src/edu/wctc/DiceGame.java:150-153 | no die with that number: nothing changes; otherwise exactly the first such die becomes held |
| Rules.HoldLabelIdempotent | src/edu/wctc/DiceGame.java:150-153 | holding by die number twice is the same as holding once |
| Game.DiceGame.PlayerHold | src/edu/wctc/DiceGame.java:150-153 | the dice afterwards are `Rules.HoldLabel` of the dice before |
| Rules.Released | src/edu/wctc/DiceGame.java:155-158 | every hold is released; faces and die numbers are kept |
| Game.DiceGame.ResetDice | src/edu/wctc/DiceGame.java:155-158 | the dice afterwards are `Rules.Released` of the dice before |
| Rules.ResetView | src/edu/wctc/DiceGame.java:160-163 | score and rolls used back to 0; wins and losses kept |
| Game.DiceGame.ResetPlayers | src/edu/wctc/DiceGame.java:160-163 | the same players, each reset as `Rules.ResetView` states |
| Game.DiceGame.RollDice | src/edu/wctc/DiceGame.java:165-169 | the current player has used exactly one more roll, and the dice afterwards are a possible roll of the dice before |
| Rules.RollKeepsHeldDice | src/edu/wctc/DiceGame.java:165-169 | a roll keeps faces in 1..6, takes no held face away, keeps a qualifying hand qualifying and keeps which dice are held; with every die held it changes nothing |
| Rules.TurnPoints | src/edu/wctc/DiceGame.java:175-181 | a qualifying turn scores the sum of all faces less the ship, captain and crew (6 + 5 + 4); any other turn scores 0 |
| Rules.TurnPointsBounds | src/edu/wctc/DiceGame.java:171-187 | a turn never scores negative points; a qualifying turn needs three dice and scores between one and six points per other die; a turn that does not qualify scores 0 |
| Rules.ScoringExample | src/edu/wctc/DiceGame.java:171-187 | held 6, 5 and 4 with a 3 and a 2 free score 5 |
| Rules.NoCrewNoScore | src/edu/wctc/DiceGame.java:171-187 | a 6 and a 5 held with the 4 free score nothing |
| Game.DiceGame.ScoreCurrentPlayer | src/edu/wctc/DiceGame.java:171-187 | only the current player's score changes, and it grows by `Rules.TurnPoints` of the dice |
| Game.DiceGame.StartNewGame | src/edu/wctc/DiceGame.java:189-199 | the first player in the list takes the turn, the order is kept and every player is reset |
| Rules.FirstTrue | src/edu/wctc/DiceGame.java:45 | the first match of a scan: none exactly when nothing matches, otherwise the first matching index |
| Rules.DistinctPermutation | src/edu/wctc/DiceGame.java:98 | rearranging a list of distinct players keeps them distinct, which the turn order relies on after the sort |
| Game.SameMembersKeepRoster | src/edu/wctc/DiceGame.java:98 | after the sort the list still has at least two distinct players and still contains the current player |
| Entities.Die.HoldDie | src/edu/wctc/DiceGame.java:58 | the die becomes held; nothing else about it changes |
| Entities.Die.RollDie | src/edu/wctc/DiceGame.java:168 | a held die keeps its face; every die keeps its hold flag and shows one of its faces |
| Entities.Die.ResetDie | src/edu/wctc/DiceGame.java:157 | the hold is released; nothing else about the die changes |
| Entities.Player.Roll | src/edu/wctc/DiceGame.java:167 | exactly one more roll used |
| Entities.Player.SetScore | src/edu/wctc/DiceGame.java:181 | the score becomes the given value; nothing else changes |
| Entities.Player.AddWin | src/edu/wctc/DiceGame.java:106 | exactly one more win |
| Entities.Player.AddLoss | src/edu/wctc/DiceGame.java:108 | exactly one more loss |
| Entities.Player.ResetPlayer | src/edu/wctc/DiceGame.java:162 | score and rolls used back to 0; wins and losses kept |

## Left out

- The source of `Die` and `Player` is not part of this model. Each is reduced to the members `DiceGame` uses.
- How a die picks its face: `Entities.Die.RollDie` picks any face in 1..sides. The model states only that held dice keep their face and faces stay within the die.
- Die numbers and player numbers: each is some fixed value chosen at construction. The numbering scheme is not modelled.
- `getCurrentPlayerNumber` and `getCurrentPlayerScore` are not modelled. They only read fields.
- The text the engine produces is not modelled:
  - `getDiceResults`;
  - the concatenated summary that `getGameResults` returns;
  - `getFinalWinner`;
  - the console message when a turn does not score.
- Java's 32-bit `int` overflow in scores, rolls and tallies is not modelled. Integers are unbounded.
- Game.DiceGame.GetGameResults: takes the top score before sorting, while the engine takes it after. Sorting changes no score and keeps the same players, so the value is the same (`Game.SameMembersSameTop`).
- Game.DiceGame.GetGameResults: states the sort relative to the scores before the call. The awarding changes no score, so the order is also sorted by the scores after.
- Calls before the first `startNewGame` would dereference a null current player. `CurrentPlayerCanRoll`, `RollDice` and `ScoreCurrentPlayer` therefore require a current player. `NextPlayer` with none returns false, as the engine's reference comparisons do.
- Game.DiceGame.ScoreCurrentPlayer: also requires a current player on a hand that does not qualify. The engine completes that call without a current player, because it only reaches the player when the hand qualifies. The model does not cover it.
- `autoHold` holds at most one die of a face over any number of calls. Once a die showing the face is held, it returns true and changes nothing, so a driver cannot hold every die of a face by repeating the call. `Rules.AutoHoldSettles` proves this.
- `rollDice` consults no gate. The model's `RollDice` likewise rolls whatever the current player's count. `Rules.GateKeepsRollsWithinLimit` states what a driver that consults `currentPlayerCanRoll` gains.
