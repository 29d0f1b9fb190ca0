/** One round of the game: up to twenty one-second waits for a chat message,
    each message either cancelling the game, winning the round or being
    ignored. */
module Round {
  import opened Text
  import opened Matcher

  datatype Option<T> = None | Some(value: T)

  /** A chat message in the game's channel; `author` is `str(msg.author)`. */
  datatype Message = Message(author: string, content: string)

  /** How a round ends: `!stop` was typed, someone guessed right, or time ran out. */
  datatype Outcome = Stop | Winner(name: string) | Timeout

  /** The round's time budget: `range(20, 0, -1)`, one wait per value. */
  const TICKS: nat := 20

  /** The chat command that cancels a running game. */
  const STOP_TOKEN: string := "!stop"

  /** The message, stripped and lower-cased, is the stop command. */
  predicate IsStop(m: Message) {
    Normalize(m.content) == STOP_TOKEN
  }

  /** The message, stripped and lower-cased, is a close guess for the aliases. */
  predicate IsHit(m: Message, aliases: seq<string>, close: Closeness) {
    IsCloseGuess(Normalize(m.content), aliases, close)
  }

  /** A tick that ends the round: a message arrived and it is either the stop
      command or a close guess. */
  predicate Decides(t: Option<Message>, aliases: seq<string>, close: Closeness) {
    t.Some? && (IsStop(t.value) || IsHit(t.value, aliases, close))
  }

  /** How a deciding message ends the round; the stop check comes first. */
  function Verdict(m: Message): Outcome {
    if IsStop(m) then Stop else Winner(m.author)
  }

  /** At most the first `n` ticks of `s`. */
  function Upto(s: seq<Option<Message>>, n: nat): (r: seq<Option<Message>>)
    ensures |r| <= n && |r| <= |s| && r == s[..|r|]
    ensures |s| <= n ==> r == s
    ensures |s| > n ==> |r| == n
  {
    if |s| <= n then s else s[..n]
  }

  /** The ticks the round looks at: the first `TICKS`, or fewer if the input
      ends early (the remaining waits then time out). */
  function Window(ticks: seq<Option<Message>>): seq<Option<Message>> {
    Upto(ticks, TICKS)
  }

  /** The outcome of a sequence of ticks, examined in arrival order: the first
      deciding message settles it and nothing after it is looked at. */
  function Resolve(ticks: seq<Option<Message>>, aliases: seq<string>, close: Closeness): Outcome
    decreases |ticks|, 1
  {
    if ticks == [] then Timeout else Examine(ticks[0], ticks[1..], aliases, close)
  }

  /** One tick of `Resolve`: a deciding message settles the round, anything
      else passes on to the ticks that follow. */
  function Examine(t: Option<Message>, rest: seq<Option<Message>>, aliases: seq<string>, close: Closeness): Outcome
    decreases |rest| + 1, 0
  {
    if Decides(t, aliases, close) then Verdict(t.value) else Resolve(rest, aliases, close)
  }

  /** The round times out exactly when no tick decides it. */
  lemma {:induction false} ResolveTimeout(ticks: seq<Option<Message>>, aliases: seq<string>, close: Closeness)
    ensures Resolve(ticks, aliases, close) == Timeout
        <==> forall k :: 0 <= k < |ticks| ==> !Decides(ticks[k], aliases, close)
  {
    if ticks != [] {
      ResolveTimeout(ticks[1..], aliases, close);
      assert forall k :: 1 <= k < |ticks| ==> ticks[k] == ticks[1..][k - 1];
    }
  }

  /** The first deciding tick settles the round. */
  lemma {:induction false} ResolveFirst(ticks: seq<Option<Message>>, k: nat, aliases: seq<string>, close: Closeness)
    requires k < |ticks| && Decides(ticks[k], aliases, close)
    requires forall j :: 0 <= j < k ==> !Decides(ticks[j], aliases, close)
    ensures Resolve(ticks, aliases, close) == Verdict(ticks[k].value)
  {
    if k > 0 {
      ResolveFirst(ticks[1..], k - 1, aliases, close);
    }
  }

  /** Once a message has won the round, whatever arrives later is never
      examined: replacing the later ticks changes nothing. */
  lemma {:induction false} LaterTicksIgnored(ticks: seq<Option<Message>>, k: nat, later: seq<Option<Message>>,
                                              aliases: seq<string>, close: Closeness)
    requires k < |ticks| && Decides(ticks[k], aliases, close)
    ensures Resolve(ticks[..k + 1] + later, aliases, close) == Resolve(ticks, aliases, close)
  {
    var u := ticks[..k + 1] + later;
    assert u[0] == ticks[0];
    if k > 0 {
      assert u[1..] == ticks[1..][..k] + later;
      LaterTicksIgnored(ticks[1..], k - 1, later, aliases, close);
    }
  }

  /** A winner is the author of a close guess that is not the stop command. */
  lemma {:induction false} WinnerGuessedClose(ticks: seq<Option<Message>>, aliases: seq<string>, close: Closeness)
    requires Resolve(ticks, aliases, close).Winner?
    ensures exists k :: 0 <= k < |ticks| && ticks[k].Some? && !IsStop(ticks[k].value)
              && IsHit(ticks[k].value, aliases, close)
              && ticks[k].value.author == Resolve(ticks, aliases, close).name
  {
    if !Decides(ticks[0], aliases, close) {
      WinnerGuessedClose(ticks[1..], aliases, close);
      var k :| 0 <= k < |ticks[1..]| && ticks[1..][k].Some? && !IsStop(ticks[1..][k].value)
              && IsHit(ticks[1..][k].value, aliases, close)
              && ticks[1..][k].value.author == Resolve(ticks, aliases, close).name;
      assert ticks[k + 1] == ticks[1..][k];
    } else {
      assert ticks[0].Some?;
    }
  }

  /** The round loop (`for remaining in range(20, 0, -1)`): each tick waits
      for at most one message, taking the next one in arrival order; `!stop`
      ends the round (and the game), a close guess wins it, anything else is
      ignored. After twenty ticks the round has timed out. Input past the
      twentieth tick is never looked at. */
  method PlayRound(ticks: seq<Option<Message>>, aliases: seq<string>, close: Closeness) returns (o: Outcome)
    ensures o == Resolve(Window(ticks), aliases, close)
  {
    var pending := ticks;
    var remaining := TICKS;
    while remaining > 0
      invariant Resolve(Upto(pending, remaining), aliases, close) == Resolve(Window(ticks), aliases, close)
    {
      if pending != [] {
        var event := pending[0];
        assert Upto(pending, remaining)[0] == event;
        assert Upto(pending, remaining)[1..] == Upto(pending[1..], remaining - 1);
        pending := pending[1..];
        if event.Some? {
          var guess := Normalize(event.value.content);
          if guess == STOP_TOKEN {
            return Stop;
          }
          if IsCloseGuess(guess, aliases, close) {
            return Winner(event.value.author);
          }
        }
      }
      remaining := remaining - 1;
    }
    o := Timeout;
  }
}
