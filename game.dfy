/** The game registry (`active_games`), the start command `/tank`, the stop
    command `/stopgame`, and the round loop that runs a started game. */
module Game {
  import opened Matcher
  import opened Bank
  import opened Scores
  import opened Round

  /** A chat channel's identifier. */
  type ChannelId = int

  /** The reply of `/tank`. A started game carries its shuffled pool and
      whether the "game will end early" warning was given. */
  datatype StartResult = AlreadyRunning | InvalidRounds | NoneInRange | Started(pool: seq<Tank>, short: bool)

  /** The reply of `/stopgame`. */
  datatype StopReply = Stopped | NoActiveGame

  /** What happens around one round: whether a `/stopgame` for the channel was
      handled before the loop test that precedes the round, and the messages
      the round's ticks receive. */
  datatype RoundInput = RoundInput(stopBefore: bool, ticks: seq<Option<Message>>)

  /** How a started game ends: cancelled by a `!stop` message (the command
      returns at once), or over, with the "no more tanks" notice flag and the
      final message. Either way, the tanks shown and the rounds' outcomes, in
      order. */
  datatype GameEnd =
    | Cancelled(played: seq<Tank>, outcomes: seq<Outcome>)
    | Over(played: seq<Tank>, outcomes: seq<Outcome>, early: bool, board: Board)

  const MIN_ROUNDS := 1
  const MAX_ROUNDS := 50

  // ---------------------------------------------------------------------------
  // The round-by-round course of a game, as functions of its inputs.

  /** The input around round `i` (0-based); rounds without supplied input see
      no stop request and silence. */
  function InputAt(inputs: seq<RoundInput>, i: nat): RoundInput {
    if i < |inputs| then inputs[i] else RoundInput(false, [])
  }

  /** A `/stopgame` was handled before the loop test of round `i`. */
  predicate StopRequested(inputs: seq<RoundInput>, i: nat) {
    InputAt(inputs, i).stopBefore || (i > 0 && StopRequested(inputs, i - 1))
  }

  /** Once requested, a stop stays requested. */
  lemma {:induction false} StopRequestedStays(inputs: seq<RoundInput>, i: nat, j: nat)
    requires i <= j && StopRequested(inputs, i)
    ensures StopRequested(inputs, j)
  {
    if i < j {
      StopRequestedStays(inputs, i, j - 1);
    }
  }

  /** A stop request is one of the round inputs up to `i`. */
  lemma {:induction false} StopRequestedSome(inputs: seq<RoundInput>, i: nat)
    ensures StopRequested(inputs, i) <==> exists j :: 0 <= j <= i && j < |inputs| && inputs[j].stopBefore
  {
    if i > 0 {
      StopRequestedSome(inputs, i - 1);
    }
  }

  /** The tank of round `i`: `tank_pool.pop()` takes from the end. */
  function Popped(pool: seq<Tank>, i: nat): Tank
    requires i < |pool|
  {
    pool[|pool| - 1 - i]
  }

  /** The tanks of the first `n` rounds, in the order they are shown. */
  function Drawn(pool: seq<Tank>, n: nat): (ts: seq<Tank>)
    requires n <= |pool|
    ensures |ts| == n
  {
    if n == 0 then [] else Drawn(pool, n - 1) + [Popped(pool, n - 1)]
  }

  /** Round `i` shows the `i`-th tank from the end of the pool. */
  lemma {:induction false} DrawnAt(pool: seq<Tank>, n: nat, i: nat)
    requires i < n <= |pool|
    ensures Drawn(pool, n)[i] == pool[|pool| - 1 - i]
  {
    if i < n - 1 {
      DrawnAt(pool, n - 1, i);
    }
  }

  /** The tanks shown are the last `n` of the pool. */
  lemma {:induction false} DrawnIsSuffix(pool: seq<Tank>, n: nat)
    requires n <= |pool|
    ensures multiset(Drawn(pool, n)) == multiset(pool[|pool| - n..])
  {
    if n > 0 {
      DrawnIsSuffix(pool, n - 1);
      assert pool[|pool| - n..] == [pool[|pool| - n]] + pool[|pool| - n + 1..];
    }
  }

  /** No tank is shown more often than the pool holds it; in particular no
      tank is shown twice when the pool repeats none. */
  lemma DrawnFromPool(pool: seq<Tank>, n: nat)
    requires n <= |pool|
    ensures multiset(Drawn(pool, n)) <= multiset(pool)
    ensures Distinct(pool) ==> Distinct(Drawn(pool, n))
  {
    DrawnIsSuffix(pool, n);
    assert pool == pool[..|pool| - n] + pool[|pool| - n..];
    var d := Drawn(pool, n);
    if Distinct(pool) {
      DistinctCountsAtMostOne(pool);
      forall i, j | 0 <= i < j < n ensures d[i] != d[j] {
        assert multiset(d)[d[i]] <= multiset(pool)[d[i]] <= 1;
        if d[i] == d[j] {
          RepeatCountsTwice(d, i, j);
          assert false;
        }
      }
    }
  }

  /** The outcome of round `i`. */
  function RoundOutcome(pool: seq<Tank>, inputs: seq<RoundInput>, i: nat, close: Closeness): Outcome
    requires i < |pool|
  {
    Resolve(Window(InputAt(inputs, i).ticks), Popped(pool, i).aliases, close)
  }

  /** The outcomes of the first `n` rounds, in order. */
  function Outcomes(pool: seq<Tank>, inputs: seq<RoundInput>, n: nat, close: Closeness): (os: seq<Outcome>)
    requires n <= |pool|
    ensures |os| == n
  {
    if n == 0 then []
    else Outcomes(pool, inputs, n - 1, close) + [RoundOutcome(pool, inputs, n - 1, close)]
  }

  /** Entry `i` of the outcomes is round `i`'s outcome. */
  lemma {:induction false} OutcomesAt(pool: seq<Tank>, inputs: seq<RoundInput>, n: nat, i: nat, close: Closeness)
    requires i < n <= |pool|
    ensures Outcomes(pool, inputs, n, close)[i] == RoundOutcome(pool, inputs, i, close)
  {
    if i < n - 1 {
      OutcomesAt(pool, inputs, n - 1, i, close);
    }
  }

  /** The number of rounds the game loop plays when it reaches its test with
      `n` rounds played and no `!stop` so far: it plays another round while
      fewer than `rounds` were played, the pool is not empty and no stop was
      requested, and a round ending in `!stop` is the last one. */
  function Played(rounds: int, pool: seq<Tank>, inputs: seq<RoundInput>, close: Closeness, n: nat): (p: nat)
    requires n <= |pool|
    ensures n <= p <= |pool|
    decreases |pool| - n
  {
    if n < rounds && n < |pool| && !StopRequested(inputs, n) then
      if RoundOutcome(pool, inputs, n, close) == Stop then n + 1
      else Played(rounds, pool, inputs, close, n + 1)
    else n
  }

  /** The rounds the loop plays from a loop test reached after `n` rounds
      stay, beyond `n`, within the round count, and the last of them passed
      the loop test. */
  lemma {:induction false} PlayedBounds(rounds: int, pool: seq<Tank>, inputs: seq<RoundInput>, close: Closeness, n: nat)
    requires n <= |pool|
    requires n > 0 ==> !StopRequested(inputs, n - 1)
    decreases |pool| - n
    ensures var p := Played(rounds, pool, inputs, close, n);
      && (p == n || p <= rounds)
      && (p > 0 ==> !StopRequested(inputs, p - 1))
  {
    if n < rounds && n < |pool| && !StopRequested(inputs, n) && RoundOutcome(pool, inputs, n, close) != Stop {
      PlayedBounds(rounds, pool, inputs, close, n + 1);
    }
  }

  /** How the loop ends, from a loop test reached without a `!stop`: a
      `!stop` can only be the outcome of the last round played, and when
      there was none the loop test failed. */
  lemma {:induction false} PlayedEnd(rounds: int, pool: seq<Tank>, inputs: seq<RoundInput>, close: Closeness, n: nat)
    requires n <= |pool| && Stop !in Outcomes(pool, inputs, n, close)
    decreases |pool| - n
    ensures var p := Played(rounds, pool, inputs, close, n);
      && (p > n ==> Stop !in Outcomes(pool, inputs, p - 1, close))
      && (Stop in Outcomes(pool, inputs, p, close) <==> p > n && RoundOutcome(pool, inputs, p - 1, close) == Stop)
      && (Stop !in Outcomes(pool, inputs, p, close) ==> p >= rounds || p == |pool| || StopRequested(inputs, p))
  {
    if n < rounds && n < |pool| && !StopRequested(inputs, n) {
      assert Outcomes(pool, inputs, n + 1, close) == Outcomes(pool, inputs, n, close) + [RoundOutcome(pool, inputs, n, close)];
      if RoundOutcome(pool, inputs, n, close) != Stop {
        PlayedEnd(rounds, pool, inputs, close, n + 1);
      }
    }
  }

  /** Folding one round's outcome into the score table: a winner gains a point. */
  function Apply(scores: seq<Entry>, o: Outcome): seq<Entry> {
    if o.Winner? then Award(scores, o.name) else scores
  }

  /** The score table after a sequence of rounds, starting from `{}`. */
  function ScoresAfter(os: seq<Outcome>): seq<Entry> {
    if os == [] then [] else Apply(ScoresAfter(os[..|os| - 1]), os[|os| - 1])
  }

  /** One more round folds its outcome into the table. */
  lemma ScoresAfterSnoc(os: seq<Outcome>, o: Outcome)
    ensures ScoresAfter(os + [o]) == Apply(ScoresAfter(os), o)
  {
    assert (os + [o])[..|os|] == os;
  }

  /** The score table after the first `n` rounds of a game, round by round. */
  function ScoresAt(pool: seq<Tank>, inputs: seq<RoundInput>, n: nat, close: Closeness): seq<Entry>
    requires n <= |pool|
  {
    if n == 0 then [] else Apply(ScoresAt(pool, inputs, n - 1, close), RoundOutcome(pool, inputs, n - 1, close))
  }

  /** The table after `n` rounds is the fold of their outcomes into `{}`. */
  lemma {:induction false} ScoresAtOutcomes(pool: seq<Tank>, inputs: seq<RoundInput>, n: nat, close: Closeness)
    requires n <= |pool|
    ensures ScoresAt(pool, inputs, n, close) == ScoresAfter(Outcomes(pool, inputs, n, close))
  {
    if n > 0 {
      ScoresAtOutcomes(pool, inputs, n - 1, close);
      ScoresAfterSnoc(Outcomes(pool, inputs, n - 1, close), RoundOutcome(pool, inputs, n - 1, close));
    }
  }

  /** The number of rounds `name` won. */
  function Wins(os: seq<Outcome>, name: string): (n: nat)
    ensures n <= |os|
  {
    if os == [] then 0
    else Wins(os[..|os| - 1], name) + (if os[|os| - 1] == Winner(name) then 1 else 0)
  }

  /** The number of rounds somebody won. */
  function WonRounds(os: seq<Outcome>): (n: nat)
    ensures n <= |os|
  {
    if os == [] then 0
    else WonRounds(os[..|os| - 1]) + (if os[|os| - 1].Winner? then 1 else 0)
  }

  /** Each player's points are the number of rounds they won. */
  lemma {:induction false} PointsAreWins(os: seq<Outcome>, name: string)
    ensures Points(ScoresAfter(os), name) == Wins(os, name)
  {
    if os != [] {
      var last := os[|os| - 1];
      PointsAreWins(os[..|os| - 1], name);
      if last.Winner? {
        AwardPoints(ScoresAfter(os[..|os| - 1]), last.name, name);
      }
    }
  }

  /** The points handed out are exactly the rounds that had a winner, so they
      never exceed the number of rounds played. */
  lemma {:induction false} TotalIsWonRounds(os: seq<Outcome>)
    ensures Total(ScoresAfter(os)) == WonRounds(os) <= |os|
  {
    if os != [] {
      var last := os[|os| - 1];
      TotalIsWonRounds(os[..|os| - 1]);
      if last.Winner? {
        AwardTotal(ScoresAfter(os[..|os| - 1]), last.name);
      }
    }
  }

  /** The table stays a dictionary, and lists exactly the players who won a round. */
  lemma {:induction false} ScoresAfterKeyed(os: seq<Outcome>)
    ensures Keyed(ScoresAfter(os))
    ensures forall name :: name in Names(ScoresAfter(os)) <==> Wins(os, name) > 0
  {
    if os != [] {
      var prefix := os[..|os| - 1];
      var last := os[|os| - 1];
      ScoresAfterKeyed(prefix);
      if last.Winner? {
        AwardKeyed(ScoresAfter(prefix), last.name);
        AwardNames(ScoresAfter(prefix), last.name);
      }
    }
  }
  /** The final standings show, next to each player, the number of rounds
      that player won. */
  lemma BoardShowsWins(os: seq<Outcome>)
    ensures FinalBoard(ScoresAfter(os)).Ranking? ==>
              forall e :: e in FinalBoard(ScoresAfter(os)).entries ==> e.points == Wins(os, e.name)
  {
    var s := ScoresAfter(os);
    var b := FinalBoard(s);
    if b.Ranking? {
      ScoresAfterKeyed(os);
      forall e | e in b.entries
        ensures e.points == Wins(os, e.name)
      {
        assert e in multiset(b.entries);
        var i :| 0 <= i < |s| && s[i] == e;
        PointsOfEntry(s, i);
        PointsAreWins(os, e.name);
      }
    }
  }


  /** "Nobody got any points" exactly when no round had a winner. */
  lemma NobodyScoredIffNoWinner(os: seq<Outcome>)
    ensures FinalBoard(ScoresAfter(os)).NobodyScored? <==> WonRounds(os) == 0
  {
    TotalIsWonRounds(os);
    if ScoresAfter(os) != [] {
      ScoresAfterKeyed(os);
      var name := ScoresAfter(os)[0].name;
      assert name in Names(ScoresAfter(os));
      WinsBelowWonRounds(os, name);
    }
  }

  /** A player's wins are among the won rounds. */
  lemma {:induction false} WinsBelowWonRounds(os: seq<Outcome>, name: string)
    ensures Wins(os, name) <= WonRounds(os)
  {
    if os != [] {
      WinsBelowWonRounds(os[..|os| - 1], name);
    }
  }

  /** A round without a winner (`!stop` or a timeout) changes nobody's
      score and nobody's win count: a cancelled game's table is the table
      before its last round. */
  lemma {:induction false} NoWinnerNoChange(os: seq<Outcome>, o: Outcome)
    requires !o.Winner?
    ensures ScoresAfter(os + [o]) == ScoresAfter(os)
    ensures forall name :: Wins(os + [o], name) == Wins(os, name)
  {
    ScoresAfterSnoc(os, o);
    assert (os + [o])[..|os|] == os;
  }

  /** The tanks shown are drawn from the filtered list: no more of them than
      it holds, none more often than it holds it, and none twice when the bank
      repeats no tank. */
  lemma ShownFromFilter(bank: seq<Tank>, startYear: int, endYear: int, shuffled: seq<Tank>, n: nat)
    requires multiset(shuffled) == multiset(Filter(bank, startYear, endYear))
    requires n <= |shuffled|
    ensures n <= |Filter(bank, startYear, endYear)|
    ensures multiset(Drawn(shuffled, n)) <= multiset(Filter(bank, startYear, endYear))
    ensures Distinct(bank) ==> Distinct(Drawn(shuffled, n))
  {
    assert |shuffled| == |multiset(shuffled)|;
    DrawnFromPool(shuffled, n);
    if Distinct(bank) {
      ShuffledPoolDistinct(bank, startYear, endYear, shuffled);
    }
  }

  /** Registering a channel and later removing it restores the registry. */
  lemma RegisterThenRemove<S>(m: map<ChannelId, S>, c: ChannelId, s: S)
    requires c !in m
    ensures m[c := s] - {c} == m
  {
  }

  // ---------------------------------------------------------------------------

  /** The session record of one channel, `{"scores": {}, "running": True}`:
      a dictionary that the round loop and `/stopgame` update in place. */
  class Session {
    var scores: seq<Entry>
    var running: bool

    constructor ()
      ensures scores == [] && running
    {
      scores := [];
      running := true;
    }

    /** One pass of the game loop's body: pop the next tank from the end of
        the pool, run the tick loop on it, then apply the outcome to this
        session. `!stop` clears the running flag (the game then ends at
        once), a winner gains a point, a timeout changes nothing. */
    method Turn(pool: seq<Tank>, inputs: seq<RoundInput>, close: Closeness, roundNum: nat, left: seq<Tank>)
      returns (rest: seq<Tank>, outcome: Outcome)
      requires roundNum < |pool| && left == pool[..|pool| - roundNum]
      requires scores == ScoresAt(pool, inputs, roundNum, close)
      modifies this
      ensures rest == pool[..|pool| - (roundNum + 1)]
      ensures outcome == RoundOutcome(pool, inputs, roundNum, close)
      ensures scores == ScoresAt(pool, inputs, roundNum + 1, close)
      ensures running == (old(running) && outcome != Stop)
    {
      var tank := left[|left| - 1];
      rest := left[..|left| - 1];
      var input := InputAt(inputs, roundNum);
      outcome := PlayRound(input.ticks, tank.aliases, close);
      match outcome {
        case Stop =>
          running := false;
        case Winner(name) =>
          scores := Award(scores, name);
        case Timeout =>
      }
    }

    /** The round loop of `/tank` on this session. While fewer than `rounds`
        rounds were played, `left` (the pool) is not empty and the session is
        still running, a tank is popped from the end of the pool and a round
        is played on it; a `!stop` message clears the flag, so the loop ends
        at once. A `/stopgame` handled before a loop test clears the flag too,
        as `Registry.StopGame` does to this session. The result is the number
        of rounds played and what is left of the pool. */
    method Run(rounds: int, pool: seq<Tank>, inputs: seq<RoundInput>, close: Closeness)
      returns (roundNum: nat, left: seq<Tank>)
      requires scores == [] && running
      modifies this
      ensures roundNum == Played(rounds, pool, inputs, close, 0)
      ensures roundNum <= |pool| && left == pool[..|pool| - roundNum]
      ensures scores == ScoresAt(pool, inputs, roundNum, close)
      ensures running == (!StopRequested(inputs, roundNum)
                          && !(roundNum > 0 && RoundOutcome(pool, inputs, roundNum - 1, close) == Stop))
    {
      left := pool;
      roundNum := 0;
      if InputAt(inputs, 0).stopBefore {
        running := false;
      }
      while roundNum < rounds && left != [] && running
        invariant roundNum <= |pool| && left == pool[..|pool| - roundNum]
        invariant scores == ScoresAt(pool, inputs, roundNum, close)
        invariant running == (!StopRequested(inputs, roundNum)
                              && !(roundNum > 0 && RoundOutcome(pool, inputs, roundNum - 1, close) == Stop))
        invariant running ==> Played(rounds, pool, inputs, close, roundNum) == Played(rounds, pool, inputs, close, 0)
        invariant !running ==> roundNum == Played(rounds, pool, inputs, close, 0)
        decreases |left|
      {
        var outcome;
        left, outcome := Turn(pool, inputs, close, roundNum, left);
        roundNum := roundNum + 1;
        if InputAt(inputs, roundNum).stopBefore {
          running := false;
        }
      }
    }
  }

  /** The process-wide table of running games, `active_games`. */
  class Registry {
    var games: map<ChannelId, Session>

    /** No two channels share a session record. */
    ghost predicate Valid()
      reads this
    {
      forall a, b :: a in games && b in games && a != b ==> games[a] != games[b]
    }

    /** At process start no game is running. */
    constructor ()
      ensures Valid() && games == map[]
    {
      games := map[];
    }

    /** `/tank` up to the start of the round loop: the three checks in order
        (a game already runs here; the round count is outside 1..50; no tank
        is in the year range), each of which leaves the registry alone, then
        registration of a fresh session. `shuffled` is the outcome of
        `random.shuffle` on the filtered list: any permutation of it. No
        existing session is touched. */
    method Start(c: ChannelId, startYear: int, endYear: int, rounds: int, bank: seq<Tank>, shuffled: seq<Tank>)
      returns (r: StartResult)
      requires Valid()
      requires multiset(shuffled) == multiset(Filter(bank, startYear, endYear))
      modifies this
      ensures Valid()
      ensures c in old(games) ==> r == AlreadyRunning
      ensures c !in old(games) && (rounds < MIN_ROUNDS || rounds > MAX_ROUNDS) ==> r == InvalidRounds
      ensures c !in old(games) && MIN_ROUNDS <= rounds <= MAX_ROUNDS ==>
                r == if Filter(bank, startYear, endYear) == [] then NoneInRange
                     else Started(shuffled, |Filter(bank, startYear, endYear)| < rounds)
      ensures !r.Started? ==> games == old(games)
      ensures r.Started? ==> c in games && games == old(games)[c := games[c]] && fresh(games[c])
      ensures r.Started? ==> games[c].scores == [] && games[c].running
    {
      if c in games {
        return AlreadyRunning;
      }
      if rounds < MIN_ROUNDS || rounds > MAX_ROUNDS {
        return InvalidRounds;
      }
      var filtered := Filter(bank, startYear, endYear);
      if filtered == [] {
        return NoneInRange;
      }
      var short := |filtered| < rounds;
      var session := new Session();
      games := games[c := session];
      r := Started(shuffled, short);
    }

    /** `/stopgame`: clears the running flag of this channel's session and
        nothing else; the registry itself does not change. */
    method StopGame(c: ChannelId) returns (reply: StopReply)
      requires Valid()
      modifies if c in games then {games[c]} else {}
      ensures Valid()
      ensures reply == Stopped <==> c in games
      ensures c in games ==> !games[c].running && games[c].scores == old(games[c].scores)
      // another channel's game keeps running, with its table
      ensures forall d :: d in games && d != c ==>
                games[d].running == old(games[d].running) && games[d].scores == old(games[d].scores)
    {
      if c in games {
        games[c].running := false;
        reply := Stopped;
      } else {
        reply := NoActiveGame;
      }
    }

    /** The round loop of `/tank` (`Session.Run` on the channel's session)
        and its end. After a `!stop` the command returns at once, leaving the
        session registered with its running flag cleared; otherwise the
        "no more tanks" notice is given when the pool ran out before the
        round count, the final standings are posted and the session is
        removed. */
    method Play(c: ChannelId, rounds: int, pool: seq<Tank>, inputs: seq<RoundInput>, close: Closeness)
      returns (end: GameEnd)
      requires Valid()
      requires c in games && games[c].scores == [] && games[c].running
      modifies games[c], this
      ensures Valid()
      ensures |end.played| == Played(rounds, pool, inputs, close, 0)
      ensures |end.outcomes| == |end.played| <= |pool|
      ensures |end.played| == 0 || |end.played| <= rounds
      ensures end.played == Drawn(pool, |end.played|)
      ensures end.outcomes == Outcomes(pool, inputs, |end.played|, close)
      ensures old(games[c]).scores == ScoresAfter(end.outcomes)
      // every round played passed the loop test: below the round count, no
      // stop requested, no earlier round cancelled
      ensures |end.played| > 0 ==> !StopRequested(inputs, |end.played| - 1)
      ensures |end.outcomes| > 0 ==> Stop !in end.outcomes[..|end.outcomes| - 1]
      // a `!stop` cancels the game and leaves the session behind
      ensures end.Cancelled? <==> Stop in end.outcomes
      ensures end.Cancelled? ==> games == old(games) && !games[c].running
      // otherwise the loop test failed, and the session is removed
      ensures end.Over? ==> |end.played| >= rounds || |end.played| == |pool| || StopRequested(inputs, |end.played|)
      ensures end.Over? ==> games == old(games) - {c}
      ensures end.Over? ==> end.early == (|end.played| == |pool| && |end.played| < rounds)
      ensures end.Over? ==> end.board == FinalBoard(ScoresAfter(end.outcomes))
    {
      var session := games[c];
      var roundNum, left := session.Run(rounds, pool, inputs, close);
      PlayedBounds(rounds, pool, inputs, close, 0);
      PlayedEnd(rounds, pool, inputs, close, 0);
      ScoresAtOutcomes(pool, inputs, roundNum, close);
      var played, outcomes := Drawn(pool, roundNum), Outcomes(pool, inputs, roundNum, close);
      if Stop in outcomes {
        return Cancelled(played, outcomes);
      }
      var board := FinalBoard(session.scores);
      games := games - {c};
      end := Over(played, outcomes, left == [] && roundNum < rounds, board);
    }

    /** The whole `/tank` command: the checks and registration of `Start`,
        then, for a started game, the round loop of `Play`. A rejected
        command changes nothing; a started game plays no more rounds than
        requested and than tanks in range, and never shows a tank twice. */
    method TankCommand(c: ChannelId, startYear: int, endYear: int, rounds: int, bank: seq<Tank>, shuffled: seq<Tank>,
                inputs: seq<RoundInput>, close: Closeness)
      returns (r: StartResult, end: Option<GameEnd>)
      requires Valid()
      requires multiset(shuffled) == multiset(Filter(bank, startYear, endYear))
      modifies this
      ensures Valid()
      ensures c in old(games) ==> r == AlreadyRunning
      ensures c !in old(games) && (rounds < MIN_ROUNDS || rounds > MAX_ROUNDS) ==> r == InvalidRounds
      ensures c !in old(games) && MIN_ROUNDS <= rounds <= MAX_ROUNDS ==>
                r == if Filter(bank, startYear, endYear) == [] then NoneInRange
                     else Started(shuffled, |Filter(bank, startYear, endYear)| < rounds)
      ensures r.Started? <==> c !in old(games) && MIN_ROUNDS <= rounds <= MAX_ROUNDS
                                && Filter(bank, startYear, endYear) != []
      ensures r.Started? <==> end.Some?
      ensures !r.Started? ==> games == old(games)
      ensures end.Some? ==> |end.value.played| <= rounds
      ensures end.Some? ==> |end.value.played| <= |Filter(bank, startYear, endYear)|
      ensures end.Some? ==> multiset(end.value.played) <= multiset(Filter(bank, startYear, endYear))
      ensures end.Some? && Distinct(bank) ==> Distinct(end.value.played)
      ensures end.Some? && end.value.Over? ==> games == old(games)
      ensures end.Some? && end.value.Cancelled? ==> c !in old(games) && c in games && games == old(games)[c := games[c]]
      ensures end.Some? && end.value.Cancelled? ==> !games[c].running && games[c].scores == ScoresAfter(end.value.outcomes)
      // what the round loop did, as `Play` states it
      ensures end.Some? ==> |end.value.played| == Played(rounds, shuffled, inputs, close, 0)
      ensures end.Some? ==> end.value.played == Drawn(shuffled, |end.value.played|)
      ensures end.Some? ==> end.value.outcomes == Outcomes(shuffled, inputs, |end.value.played|, close)
      ensures end.Some? ==> (end.value.Cancelled? <==> Stop in end.value.outcomes)
      ensures end.Some? && end.value.Over? ==> end.value.board == FinalBoard(ScoresAfter(end.value.outcomes))
      ensures end.Some? && end.value.Over? ==>
                end.value.early == (|end.value.played| == |shuffled| && |end.value.played| < rounds)
    {
      r := Start(c, startYear, endYear, rounds, bank, shuffled);
      if !r.Started? {
        return r, None;
      }
      ghost var registered := games;
      var e := Play(c, rounds, shuffled, inputs, close);
      if e.Over? {
        RegisterThenRemove(old(games), c, registered[c]);
      }
      ShownFromFilter(bank, startYear, endYear, shuffled, |e.played|);
      end := Some(e);
    }
  }
}
