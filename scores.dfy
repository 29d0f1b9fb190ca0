/** A session's score table and the final standings. The table is a Python
    dictionary from player name to points; dictionaries keep insertion order,
    which the stable sort of the standings exposes, so the table is a sequence
    of entries with distinct names. */
module Scores {

  datatype Entry = Entry(name: string, points: int)

  function Names(s: seq<Entry>): (r: seq<string>)
    ensures |r| == |s|
    ensures forall i :: 0 <= i < |s| ==> r[i] == s[i].name
  {
    if s == [] then [] else [s[0].name] + Names(s[1..])
  }

  /** The names are the keys of a dictionary: no name occurs twice. */
  predicate Keyed(s: seq<Entry>) {
    forall i, j :: 0 <= i < j < |s| ==> s[i].name != s[j].name
  }

  /** `scores.get(name, 0)`. */
  function Points(s: seq<Entry>, name: string): (p: int)
    ensures name !in Names(s) ==> p == 0
  {
    if s == [] then 0
    else if s[0].name == name then s[0].points
    else Points(s[1..], name)
  }

  /** A name stored in the table gets its own entry's points. */
  lemma {:induction false} PointsOfEntry(s: seq<Entry>, i: nat)
    requires Keyed(s) && i < |s|
    ensures Points(s, s[i].name) == s[i].points
  {
    if i > 0 {
      PointsOfEntry(s[1..], i - 1);
    }
  }

  /** The sum of all points in the table. */
  function Total(s: seq<Entry>): int {
    if s == [] then 0 else s[0].points + Total(s[1..])
  }

  /** `scores[name] = scores.get(name, 0) + 1`: the entry of `name` is updated
      where it stands, or a new entry is appended at the end of the table. */
  function Award(s: seq<Entry>, name: string): (r: seq<Entry>)
    ensures |r| == if name in Names(s) then |s| else |s| + 1
  {
    if s == [] then [Entry(name, 1)]
    else if s[0].name == name then
      [s[0].(points := s[0].points + 1)] + s[1..]
    else
      [s[0]] + Award(s[1..], name)
  }

  /** Awarding keeps the key order and appends a new name at the end. */
  lemma {:induction false} AwardNames(s: seq<Entry>, name: string)
    ensures Names(Award(s, name)) == if name in Names(s) then Names(s) else Names(s) + [name]
  {
    if s != [] {
      assert Names(s) == [s[0].name] + Names(s[1..]);
      if s[0].name != name {
        AwardNames(s[1..], name);
        assert Names(Award(s, name)) == [s[0].name] + Names(Award(s[1..], name));
      }
    }
  }

  /** The winner gains exactly one point and nobody else's points change. */
  lemma {:induction false} AwardPoints(s: seq<Entry>, name: string, n: string)
    ensures Points(Award(s, name), n) == Points(s, n) + (if n == name then 1 else 0)
  {
    if s != [] && s[0].name != name {
      AwardPoints(s[1..], name, n);
    }
  }

  /** The table's total grows by exactly one. */
  lemma {:induction false} AwardTotal(s: seq<Entry>, name: string)
    ensures Total(Award(s, name)) == Total(s) + 1
  {
    if s != [] && s[0].name != name {
      AwardTotal(s[1..], name);
    }
  }

  /** Awarding a point keeps the names distinct. */
  lemma AwardKeyed(s: seq<Entry>, name: string)
    requires Keyed(s)
    ensures Keyed(Award(s, name))
  {
    var r := Award(s, name);
    AwardNames(s, name);
    forall i, j | 0 <= i < j < |r| ensures r[i].name != r[j].name {
      assert Names(r)[i] == r[i].name && Names(r)[j] == r[j].name;
    }
  }

  // ---------------------------------------------------------------------------
  // Final standings: `sorted(scores.items(), key=lambda x: x[1], reverse=True)`.
  // Python's sort is stable, also with `reverse=True`.

  /** Points never increase along the standings. */
  predicate Descending(s: seq<Entry>) {
    forall i, j :: 0 <= i < j < |s| ==> s[i].points >= s[j].points
  }

  /** The entries holding exactly `p` points, in their order in `s`. */
  function WithPoints(s: seq<Entry>, p: int): (r: seq<Entry>)
    ensures forall e :: e in r ==> e in s && e.points == p
  {
    if s == [] then []
    else if s[0].points == p then [s[0]] + WithPoints(s[1..], p)
    else WithPoints(s[1..], p)
  }

  /** Puts `e` in front of the first entry with no more points than it: the
      entries ahead of it have strictly more points. */
  function Insert(e: Entry, t: seq<Entry>): (r: seq<Entry>)
    ensures multiset(r) == multiset(t) + multiset{e}
  {
    if t == [] || t[0].points <= e.points then [e] + t
    else
      assert t == [t[0]] + t[1..];
      [t[0]] + Insert(e, t[1..])
  }

  lemma {:induction false} InsertDescending(e: Entry, t: seq<Entry>)
    requires Descending(t)
    ensures Descending(Insert(e, t))
  {
    if t != [] && t[0].points > e.points {
      InsertDescending(e, t[1..]);
      var rest := Insert(e, t[1..]);
      forall x | x in rest ensures t[0].points >= x.points {
        assert x in multiset(rest);
        assert x == e || x in t[1..];
      }
    }
  }

  lemma {:induction false} InsertStable(e: Entry, t: seq<Entry>, p: int)
    ensures WithPoints(Insert(e, t), p) == (if e.points == p then [e] else []) + WithPoints(t, p)
  {
    if t != [] && t[0].points > e.points {
      InsertStable(e, t[1..], p);
      assert Insert(e, t)[1..] == Insert(e, t[1..]);
    }
  }

  /** The standings: a stable sort of the table by descending points. */
  function Leaderboard(s: seq<Entry>): (r: seq<Entry>)
    ensures multiset(r) == multiset(s)
  {
    if s == [] then []
    else
      assert s == [s[0]] + s[1..];
      Insert(s[0], Leaderboard(s[1..]))
  }

  /** The standings are a permutation of the table in which points never
      increase and players with equal points keep their table order. */
  lemma {:induction false} LeaderboardSorted(s: seq<Entry>)
    ensures Descending(Leaderboard(s))
    ensures forall p :: WithPoints(Leaderboard(s), p) == WithPoints(s, p)
  {
    if s != [] {
      LeaderboardSorted(s[1..]);
      InsertDescending(s[0], Leaderboard(s[1..]));
      forall p ensures WithPoints(Leaderboard(s), p) == WithPoints(s, p) {
        InsertStable(s[0], Leaderboard(s[1..]), p);
      }
    }
  }

  /** In a descending sequence nobody holds more points than the head. */
  lemma {:induction false} NoneAboveHead(s: seq<Entry>, p: int)
    requires Descending(s) && s != [] && p > s[0].points
    ensures WithPoints(s, p) == []
  {
    if |s| > 1 {
      assert Descending(s[1..]);
      NoneAboveHead(s[1..], p);
    }
  }

  /** Every entry belongs to the group of its own points. */
  lemma {:induction false} EveryEntryInItsGroup(s: seq<Entry>)
    ensures forall e :: e in s ==> e in WithPoints(s, e.points)
    ensures s != [] ==> WithPoints(s, s[0].points) != []
  {
    if s != [] {
      EveryEntryInItsGroup(s[1..]);
    }
  }

  /** Descending order plus the order within each group of equal points
      determine a sequence: a stable descending sort has exactly one possible
      result. */
  lemma {:induction false} StableSortUnique(a: seq<Entry>, b: seq<Entry>)
    requires Descending(a) && Descending(b)
    requires forall p :: WithPoints(a, p) == WithPoints(b, p)
    ensures a == b
  {
    if a == [] && b == [] {
    } else if a == [] {
      EveryEntryInItsGroup(b);
      assert false;
    } else if b == [] {
      EveryEntryInItsGroup(a);
      assert false;
    } else {
      var p, q := a[0].points, b[0].points;
      if p < q {
        NoneAboveHead(a, q);
        var w := WithPoints(b, q);
        assert false;
      } else if q < p {
        NoneAboveHead(b, p);
        var w := WithPoints(a, p);
        assert false;
      } else {
        assert a[0] == b[0] by {
          assert WithPoints(a, p)[0] == a[0];
          assert WithPoints(b, p)[0] == b[0];
        }
        forall r ensures WithPoints(a[1..], r) == WithPoints(b[1..], r) {
          var wa, wb := WithPoints(a, r), WithPoints(b, r);
          assert wa == wb;
          if p == r {
            assert wa[1..] == WithPoints(a[1..], r) && wb[1..] == WithPoints(b[1..], r);
          }
        }
        StableSortUnique(a[1..], b[1..]);
        assert a == [a[0]] + a[1..] && b == [b[0]] + b[1..];
      }
    }
  }

  /** What the game posts at the end: a notice when nobody scored, otherwise
      the standings. */
  datatype Board = NobodyScored | Ranking(entries: seq<Entry>)

  /** The game-over message: "Nobody got any points" exactly when the table is
      empty; otherwise a ranking that is the table stably sorted by descending
      points. */
  function FinalBoard(s: seq<Entry>): (b: Board)
    ensures b.NobodyScored? <==> s == []
    ensures b.Ranking? ==> Descending(b.entries) && multiset(b.entries) == multiset(s)
    ensures b.Ranking? ==> forall p :: WithPoints(b.entries, p) == WithPoints(s, p)
  {
    if s == [] then NobodyScored
    else
      LeaderboardSorted(s);
      Ranking(Leaderboard(s))
  }
}
