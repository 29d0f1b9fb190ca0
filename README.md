# Tank trivia: a verified model of the game engine

A chat bot runs a multiplayer tank-recognition quiz in a channel. `/tank`
takes a production-year range and a round count. It rejects the command when
a game is already running in the channel, when the round count is outside
1..50, or when no tank of the bank falls in the range. Otherwise it shuffles
the matching tanks into a pool and registers a session (a score table and a
running flag) for the channel. It then plays rounds until the requested
number is reached, the pool is empty or the session stops running. Each round
shows the tank popped from the end of the pool and waits at most twenty
one-second ticks for chat messages. A message is stripped and lower-cased.
`!stop` cancels the game at once. A guess close to one of the tank's aliases
wins the round and a point for its author. Anything else is ignored. When the
loop ends, the final standings are posted, sorted by points with ties in
first-scoring order, or "Nobody got any points". Then the session is removed.
`/stopgame` clears the running flag of the channel's session, so the loop
ends before its next round.

The model is six modules:

- `Text`: `strip()` and `lower()`.
- `Matcher`: `is_close_guess`, with the similarity test as a parameter.
- `Bank`: tank records and the year filter.
- `Scores`: the ordered score dictionary, one point per win, and the stable
  descending leaderboard.
- `Round`: the twenty-tick loop of one round, as a method proved against a
  function on the message stream.
- `Game`: the registry of running games as a class whose map holds mutable
  `Session` objects, with `/tank` (`Start`, `Play`, `TankCommand`) and `/stopgame`
  (`StopGame`) as methods that change it. The round loop is `Session.Run`,
  one pass of its body `Session.Turn`; the loop is proved against `Played`,
  the number of rounds it plays, and the table against `ScoresAt`.

A game's nondeterminism is supplied as input:

- `shuffled`: the shuffled pool, which can be any permutation of the filtered
  list.
- Per round, a `RoundInput`:
  - `stopBefore`: whether a `/stopgame` for the channel was handled before
    the loop test of that round;
  - `ticks`: the messages the round's ticks receive, one optional message per
    tick.

Properties of a whole game are proved against the functions `Played`,
`Drawn`, `Outcomes` and `ScoresAfter` of these inputs.

Definitions without a contract of their own, and the code they model (they
are specified through the members in the table):

- `Round.Resolve` and `Round.Examine` (main.py:101-117): the verdict of a
  round on its tick stream, tick by tick.
- `Round.IsStop` (main.py:104-106): a message that reads `!stop` once
  stripped and lower-cased; `Round.IsHit` and `Round.Decides` (main.py:104-113):
  a close guess, and a message that ends the round.
- `Text.IsSpace` (main.py:104): the characters `strip()` removes.
- `Game.InputAt` and `Game.StopRequested` (main.py:82, main.py:155): the
  input around a round, and whether the running flag was cleared before its
  loop test.
- `Game.Popped` (main.py:83): `tank_pool.pop()` in round i.
- `Game.RoundOutcome` (main.py:83-117): the verdict of round i.
- `Game.Apply`, `Game.ScoresAfter` and `Game.ScoresAt` (main.py:111-115): one
  round's effect on the table, and the table after a sequence of rounds and
  after the first n rounds.

## Model

| member | source | states |
|---|---|---|
| Text.LowerChar | main.py:25 | a folded character is never upper case; an ASCII upper-case letter becomes the lower-case letter at the same alphabet position and every other character is kept |
| Text.Lower | main.py:25 | lower-casing keeps the length |
| Text.LowerAt | main.py:25 | each character of the result is the folded character at the same position |
| Text.LowerShape | main.py:25 | lower-casing keeps white space where it is, leaves no upper-case letter and touches nothing else |
| Text.TrimStart | main.py:104 | the result is a suffix of the message |
| Text.TrimStartDropsSpace | main.py:104 | everything dropped from the front is white space |
| Text.TrimStartFirst | main.py:104 | what is left does not start with white space |
| Text.TrimEnd | main.py:104 | the result is a prefix of the message |
| Text.TrimEndDropsSpace | main.py:104 | everything dropped from the end is white space |
| Text.TrimEndLast | main.py:104 | what is left does not end with white space |
| Text.Strip | main.py:104 | stripping never lengthens a message |
| Text.StripShape | main.py:104 | a stripped message has no white space at either end |
| Text.Normalize | main.py:104 | normalising never lengthens a message |
| Text.NormalizeShape | main.py:104 | a stripped, lower-cased message has no white space at either end and no upper-case letter |
| Text.LowerIdempotent | main.py:25 | lower-casing an already lower-cased guess changes nothing |
| Text.StripStripped | main.py:104 | stripping a message without surrounding white space changes nothing |
| Matcher.IsCloseGuess | main.py:24-26 | a guess is accepted exactly when some alias, lower-cased, is close to the lower-cased guess |
| Matcher.CaseInsensitive | main.py:25-26 | guesses that differ only in letter case are judged alike |
| Matcher.LoweredGuess | main.py:104-111 | lower-casing the guess before the call, as the round loop does, changes nothing |
| Matcher.ExactMatchAccepted | main.py:24-26 | with a reflexive closeness test, a guess equal to an alias up to case is accepted |
| Matcher.FarGuessRejected | main.py:24-26 | a guess close to no alias is rejected |
| Bank.Filter | main.py:55-58 | the filtered list holds exactly the bank entries whose year lies in the inclusive range, each as often as in the bank |
| Bank.InvertedRangeEmpty | main.py:57 | a start year after the end year selects no tank |
| Bank.WideRangeKeepsAll | main.py:55-58 | a range covering every year keeps the whole bank in order |
| Bank.DistinctCountsAtMostOne | main.py:56 | a duplicate-free bank holds each tank at most once |
| Bank.RepeatCountsTwice | main.py:69-70 | a tank at two positions occurs at least twice |
| Bank.ShuffledPoolDistinct | main.py:69-70 | any shuffle of the selection from a duplicate-free bank repeats no tank |
| Scores.Points | main.py:115 | `scores.get(name, 0)` is 0 for a name not in the table |
| Scores.PointsOfEntry | main.py:115 | `scores.get(name, 0)` of a name in the table is that entry's points |
| Scores.Award | main.py:114-115 | the table grows by one entry exactly when the name is new |
| Scores.AwardNames | main.py:114-115 | awarding keeps the key order and appends a new name at the end |
| Scores.AwardPoints | main.py:115 | the winner gains exactly one point and nobody else's points change |
| Scores.AwardTotal | main.py:115 | the table's total grows by exactly one per award |
| Scores.AwardKeyed | main.py:115 | awarding keeps the names distinct |
| Scores.WithPoints | main.py:141 | the group of entries with given points holds only entries of the table with those points |
| Scores.Insert | main.py:141 | one insertion step of the sort adds exactly the inserted entry |
| Scores.InsertDescending | main.py:141 | insertion keeps the standings descending |
| Scores.InsertStable | main.py:141 | insertion puts the new entry first among its equals and changes no other group |
| Scores.Leaderboard | main.py:141 | the standings are a permutation of the table |
| Scores.LeaderboardSorted | main.py:141 | the standings are descending and keep table order among equal points (stable sort) |
| Scores.NoneAboveHead | main.py:141 | in descending standings nobody holds more points than the head |
| Scores.EveryEntryInItsGroup | main.py:141 | every entry belongs to the group of its own points |
| Scores.StableSortUnique | main.py:141 | a stable descending order is unique, so the standings are the only possible result of the sort |
| Scores.FinalBoard | main.py:139-146 | "Nobody got any points" exactly for an empty table, otherwise a descending, stable permutation of the table |
| Round.Upto | main.py:101-103 | exactly the first n ticks of a longer stream, and all of them when there are no more than n |
| Round.ResolveTimeout | main.py:101-117 | a round times out exactly when no tick brings the stop command or a close guess |
| Round.ResolveFirst | main.py:101-117 | the first deciding message settles the round |
| Round.LaterTicksIgnored | main.py:106-117 | messages after the deciding one are never examined |
| Round.WinnerGuessedClose | main.py:111-113 | a round's winner authored a close guess that was not the stop command |
| Round.PlayRound | main.py:101-117 | the tick loop returns the outcome of the first twenty ticks of the message stream |
| Game.StopRequestedStays | main.py:155 | a cleared running flag stays cleared |
| Game.StopRequestedSome | main.py:155 | a stop is requested by round i exactly when some input up to i carries one |
| Game.Drawn | main.py:83 | n rounds show n tanks; which tanks, in which order, is stated by `DrawnAt` |
| Game.DrawnAt | main.py:83 | round i shows the i-th tank from the end of the pool |
| Game.DrawnIsSuffix | main.py:83 | the tanks shown are the last n of the pool |
| Game.DrawnFromPool | main.py:69-83 | no tank is shown more often than the pool holds it, so none twice from a duplicate-free pool |
| Game.Outcomes | main.py:82-132 | n rounds have n outcomes; their contents are stated by `OutcomesAt` |
| Game.OutcomesAt | main.py:82-132 | entry i of the outcomes is round i's outcome |
| Game.Played | main.py:82-109 | the loop never plays fewer rounds than it already has, nor more than the pool holds |
| Game.PlayedBounds | main.py:82 | beyond the start the loop plays at most the requested number of rounds, and the last round played passed the stop test |
| Game.PlayedEnd | main.py:82-109 | a `!stop` can only end the last round played, and when no round was cancelled the loop test failed: round count reached, pool empty or stop requested |
| Game.ScoresAfterSnoc | main.py:111-115 | one more round folds its outcome into the table |
| Game.ScoresAtOutcomes | main.py:111-115 | the table kept round by round is the fold of the rounds' outcomes |
| Game.Wins | main.py:111-115 | a player wins at most as many rounds as were played |
| Game.WonRounds | main.py:111-117 | at most one winner per round |
| Game.PointsAreWins | main.py:111-115 | each player's points are the number of rounds they won |
| Game.TotalIsWonRounds | main.py:111-117 | the points handed out are the rounds that had a winner, never more than the rounds played |
| Game.ScoresAfterKeyed | main.py:114-115 | the table stays a dictionary and lists exactly the players who won a round |
| Game.BoardShowsWins | main.py:138-142 | every line of the final standings shows the player's number of won rounds |
| Game.NobodyScoredIffNoWinner | main.py:140-146 | "Nobody got any points" exactly when no round had a winner |
| Game.WinsBelowWonRounds | main.py:111-117 | a player's wins are among the won rounds |
| Game.NoWinnerNoChange | main.py:106-129 | a round ending in `!stop` or a timeout leaves the whole table and every player's win count as they were after the earlier rounds |
| Game.ShownFromFilter | main.py:55-83 | the tanks shown are no more than, and drawn from, the tanks in range, and none repeats when the bank has no duplicates |
| Game.RegisterThenRemove | main.py:149 | registering a channel and removing it at the end restores the registry |
| Game.Session.constructor | main.py:72-75 | a new session has an empty table and is running |
| Game.Session.Turn | main.py:83-117 | one round pops the last tank of the pool, its outcome is the tick loop's verdict, a winner's point goes into the table and `!stop` clears the running flag |
| Game.Session.Run | main.py:81-133 | the loop plays exactly `Played` rounds, leaves the rest of the pool, holds the table of those rounds, and stays running exactly when no stop was requested and the last round was not cancelled |
| Game.Registry.constructor | main.py:22 | at start-up no game runs |
| Game.Registry.Start | main.py:45-79 | the three rejections in order, each leaving the registry unchanged; otherwise a fresh running session with an empty table, and the early-end warning exactly when fewer tanks than rounds are in range |
| Game.Registry.StopGame | main.py:151-158 | a channel's running flag is cleared when it has a game, and only then "stopped" is answered; every other channel's game keeps its flag and table |
| Game.Registry.Play | main.py:81-149 | the loop plays `Played` rounds, showing the pool's tanks from the end, at most the requested number; `!stop` cancels, keeps the session and clears its flag; otherwise the loop test failed, the early-end notice is given exactly when the pool ran out first, the board is the final table, and the session is removed |
| Game.Registry.TankCommand | main.py:45-149 | the three rejections in order (already running, round count outside 1..50, no tank in range), each changing nothing; a started game plays `Played` rounds, no more than requested or than tanks in range, shows the pool's tanks from the end and none twice from a duplicate-free bank, has the outcomes of those rounds, is cancelled exactly when one was `!stop` (then only its own channel is registered, not running, with the table of those rounds), and is otherwise over with the final table as its board and the registry as before |

## Left out

- Chat I/O (replies, channel messages, the question image, the countdown edits at main.py:119-125, the help command) is not modelled. Every send, including the start announcement at main.py:77, is taken to succeed. A failing send at main.py:108 or main.py:116 would be swallowed by the bare `except` at main.py:118 and the tick loop would go on; the model does not capture that.
- Loading `answers.json` and the image files is not modelled. The bank is a parameter. A missing image at main.py:88 would abort the command and leave its session registered; the model does not capture that.
- The outer `except Exception` at main.py:130-132 only prints and continues with the next round. With sends assumed to succeed nothing can raise there, so it is not modelled.
- The similarity ratio of `difflib` and the 0.7 threshold are a caller-supplied relation `close`; the model proves nothing about which guesses it accepts.
- `random.shuffle` is not modelled: the shuffled pool is a parameter, required to be a permutation of the filtered list.
- Text.Lower: only ASCII letters are folded; Python's `lower()` also folds other scripts.
- The defaults `start_year=1900`, `end_year=2025` and `rounds=10` (main.py:41-43) are supplied by the chat platform when an argument is omitted; the model's `Start` and `TankCommand` take all three explicitly.
- Two `/tank` commands in one channel racing across the `await` at main.py:65: the check at main.py:47 and the registration at main.py:72 are separated by that send, so both could pass the check. The model treats `Start` as atomic.
- Concurrency between a running game and `/stopgame` is modelled only at the loop test before each round (`RoundInput.stopBefore`). A `/stopgame` during a round takes effect at the next loop test, which is what the flag captures.
- The `!stop` path leaves the channel registered with its flag cleared (main.py:107-109), so a later `/tank` in that channel is answered "already running"; the model keeps this behaviour.
