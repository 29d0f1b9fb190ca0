/** The question bank (`answers.json`, loaded once at start-up) and the
    production-year filter applied by the start command. */
module Bank {

  /** One bank entry: the image file that is shown, the accepted answers and
      the production year. */
  datatype Tank = Tank(image: string, aliases: seq<string>, year: int)

  /** `start_year <= data["year"] <= end_year`: both bounds inclusive. */
  predicate InRange(t: Tank, startYear: int, endYear: int) {
    startYear <= t.year <= endYear
  }

  /** No entry occurs twice (the bank is a dictionary keyed by image). */
  predicate Distinct(s: seq<Tank>) {
    forall i, j :: 0 <= i < j < |s| ==> s[i] != s[j]
  }

  /** The `filtered` list: the bank entries whose year is in range, each as
      often as it occurs in the bank, and nothing else. */
  function Filter(bank: seq<Tank>, startYear: int, endYear: int): (r: seq<Tank>)
    ensures forall t :: multiset(r)[t] == if InRange(t, startYear, endYear) then multiset(bank)[t] else 0
    ensures forall t :: t in r <==> t in bank && InRange(t, startYear, endYear)
    ensures |r| <= |bank|
  {
    if bank == [] then []
    else
      var rest := Filter(bank[1..], startYear, endYear);
      assert bank == [bank[0]] + bank[1..];
      if InRange(bank[0], startYear, endYear) then [bank[0]] + rest else rest
  }

  /** An inverted range (`start_year > end_year`) selects nothing, so the start
      command rejects it. */
  lemma InvertedRangeEmpty(bank: seq<Tank>, startYear: int, endYear: int)
    requires startYear > endYear
    ensures Filter(bank, startYear, endYear) == []
  {
  }

  /** A range covering every year in the bank keeps the whole bank. */
  lemma {:induction false} WideRangeKeepsAll(bank: seq<Tank>, startYear: int, endYear: int)
    requires forall t :: t in bank ==> startYear <= t.year <= endYear
    ensures Filter(bank, startYear, endYear) == bank
  {
    if bank != [] {
      WideRangeKeepsAll(bank[1..], startYear, endYear);
    }
  }

  /** In a duplicate-free sequence every tank occurs at most once. */
  lemma {:induction false} DistinctCountsAtMostOne(s: seq<Tank>)
    requires Distinct(s)
    ensures forall x :: multiset(s)[x] <= 1
  {
    if s != [] {
      assert Distinct(s[1..]) by {
        forall i, j | 0 <= i < j < |s| - 1 ensures s[1..][i] != s[1..][j] {
          assert s[1..][i] == s[i + 1] && s[1..][j] == s[j + 1];
        }
      }
      DistinctCountsAtMostOne(s[1..]);
      assert s == [s[0]] + s[1..];
      assert s[0] !in s[1..];
    }
  }

  /** A tank found at two positions occurs at least twice. */
  lemma RepeatCountsTwice(s: seq<Tank>, i: nat, j: nat)
    requires i < j < |s| && s[i] == s[j]
    ensures multiset(s)[s[i]] >= 2
  {
    assert s == s[..j] + s[j..];
    assert s[i] in s[..j] && s[j] in s[j..];
  }

  /** Shuffling a selection from a duplicate-free bank yields a duplicate-free
      pool: any permutation of `Filter` repeats no tank. */
  lemma ShuffledPoolDistinct(bank: seq<Tank>, startYear: int, endYear: int, pool: seq<Tank>)
    requires Distinct(bank)
    requires multiset(pool) == multiset(Filter(bank, startYear, endYear))
    ensures Distinct(pool)
  {
    DistinctCountsAtMostOne(bank);
    forall i, j | 0 <= i < j < |pool| ensures pool[i] != pool[j] {
      if pool[i] == pool[j] {
        RepeatCountsTwice(pool, i, j);
      }
    }
  }
}
