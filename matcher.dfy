/** The fuzzy answer check `is_close_guess`. The library similarity ratio and
    its 0.7 threshold are not modelled: they are the relation `close`, which a
    caller supplies and the model never looks inside. */
module Matcher {
  import opened Text

  /** "Is this lower-cased guess similar enough to this lower-cased alias?" */
  type Closeness = (string, string) -> bool

  /** `is_close_guess(guess, aliases)`: some alias, lower-cased, is close to the
      lower-cased guess. The aliases are tried in order and the first hit
      settles it, as Python's `any` does. */
  function IsCloseGuess(guess: string, aliases: seq<string>, close: Closeness): (b: bool)
    ensures b <==> exists i :: 0 <= i < |aliases| && close(Lower(guess), Lower(aliases[i]))
  {
    if aliases == [] then false
    else if close(Lower(guess), Lower(aliases[0])) then
      true
    else
      var rest := IsCloseGuess(guess, aliases[1..], close);
      assert forall i :: 1 <= i < |aliases| ==> aliases[i] == aliases[1..][i - 1];
      rest
  }

  /** The check ignores letter case in the guess: two guesses that lower-case
      to the same text are judged alike. */
  lemma CaseInsensitive(g1: string, g2: string, aliases: seq<string>, close: Closeness)
    requires Lower(g1) == Lower(g2)
    ensures IsCloseGuess(g1, aliases, close) == IsCloseGuess(g2, aliases, close)
  {
  }

  /** Lower-casing the guess before the call (as the round loop does) changes nothing. */
  lemma LoweredGuess(guess: string, aliases: seq<string>, close: Closeness)
    ensures IsCloseGuess(Lower(guess), aliases, close) == IsCloseGuess(guess, aliases, close)
  {
    LowerIdempotent(guess);
  }

  /** A similarity ratio is 1.0 on equal strings, so with a reflexive `close`
      a guess equal to an alias up to case is always accepted. */
  lemma ExactMatchAccepted(guess: string, aliases: seq<string>, k: nat, close: Closeness)
    requires k < |aliases| && Lower(guess) == Lower(aliases[k])
    requires close(Lower(guess), Lower(guess))
    ensures IsCloseGuess(guess, aliases, close)
  {
  }

  /** A guess that is close to no alias is never accepted. */
  lemma FarGuessRejected(guess: string, aliases: seq<string>, close: Closeness)
    requires forall a :: a in aliases ==> !close(Lower(guess), Lower(a))
    ensures !IsCloseGuess(guess, aliases, close)
  {
  }
}
