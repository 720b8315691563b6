/** The in-memory part of the score ledger update (main.go, `incrementScores`):
    existing entries of the winners gain one point, names without an entry are
    appended with one point. Reading and writing the ledger file are not
    modelled; the ledger is the sequence of entries as loaded. */
module ScoreLedger {
  import opened TriviaTypes

  /** The names that have an entry in `s`. */
  function NamesOf(s: seq<UserScore>): set<string>
  {
    set i | 0 <= i < |s| :: s[i].name
  }

  /** No two entries of `s` share a name. */
  predicate DistinctNames(s: seq<UserScore>)
  {
    forall a, b | 0 <= a < b < |s| :: s[a].name != s[b].name
  }

  /** Entry `i` is the first entry of `s` carrying its name. */
  predicate FirstWithName(s: seq<UserScore>, i: nat)
    requires i < |s|
  {
    forall j | 0 <= j < i :: s[j].name != s[i].name
  }

  /** `result` is what `incrementScores(names)` makes of `ledger`: every
      entry stays in place with its name; the first entry of each name in
      `names` gains exactly one point however often the name repeats; the
      names of `names` without an entry follow, once each, with score 1, in
      some order. */
  ghost predicate IsMerge(ledger: seq<UserScore>, names: seq<string>, result: seq<UserScore>)
  {
    && |ledger| <= |result|
    && (forall i | 0 <= i < |ledger| ::
          && result[i].name == ledger[i].name
          && result[i].score == ledger[i].score + (if ledger[i].name in names && FirstWithName(ledger, i) then 1 else 0))
    && (forall i | |ledger| <= i < |result| :: result[i].score == 1)
    && NamesOf(result[|ledger|..]) == (set n | n in names) - NamesOf(ledger)
    && (forall a, b | |ledger| <= a < b < |result| :: result[a].name != result[b].name)
  }

  /** `incrementScores`: a set of the names to process; each entry whose
      name is still in the set is incremented in place and its name removed;
      whatever is left in the set is appended with score 1. The order in
      which the leftover names are appended is chosen arbitrarily, as Go's
      map iteration does. */
  method IncrementScores(ledger: seq<UserScore>, names: seq<string>) returns (result: seq<UserScore>)
    ensures IsMerge(ledger, names, result)
  {
    var processNames := set n | n in names;
    result := ledger;
    for i := 0 to |ledger|
      invariant |result| == |ledger|
      invariant forall k | i <= k < |ledger| :: result[k] == ledger[k]
      invariant forall k | 0 <= k < i ::
        && result[k].name == ledger[k].name
        && result[k].score == ledger[k].score + (if ledger[k].name in names && FirstWithName(ledger, k) then 1 else 0)
      invariant processNames == (set n | n in names) - NamesOf(ledger[..i])
    {
      assert NamesOf(ledger[..i + 1]) == NamesOf(ledger[..i]) + {ledger[i].name} by {
        assert ledger[..i + 1] == ledger[..i] + [ledger[i]];
      }
      assert ledger[i].name in NamesOf(ledger[..i]) <==> !FirstWithName(ledger, i) by {
        if !FirstWithName(ledger, i) {
          var j :| 0 <= j < i && ledger[j].name == ledger[i].name;
          assert ledger[..i][j] == ledger[j];
        }
      }
      if result[i].name in processNames {
        processNames := processNames - {result[i].name};
        result := result[i := result[i].(score := result[i].score + 1)];
      }
    }
    assert ledger[..|ledger|] == ledger;
    ghost var updated := result;
    while processNames != {}
      invariant |ledger| <= |result| && result[..|ledger|] == updated
      invariant forall k | |ledger| <= k < |result| :: result[k].score == 1
      invariant NamesOf(result[|ledger|..]) + processNames == (set n | n in names) - NamesOf(ledger)
      invariant NamesOf(result[|ledger|..]) !! processNames
      invariant forall a, b | |ledger| <= a < b < |result| :: result[a].name != result[b].name
      decreases processNames
    {
      var name :| name in processNames;
      ghost var appended := result[|ledger|..];
      assert forall k | |ledger| <= k < |result| :: result[k].name in NamesOf(appended) by {
        forall k | |ledger| <= k < |result| ensures result[k].name in NamesOf(appended) {
          assert appended[k - |ledger|] == result[k];
        }
      }
      result := result + [UserScore(name, 1)];
      assert result[|ledger|..] == appended + [UserScore(name, 1)];
      assert NamesOf(result[|ledger|..]) == NamesOf(appended) + {name} by {
        assert NamesOf(appended + [UserScore(name, 1)]) == NamesOf(appended) + {name} by {
          var s := appended + [UserScore(name, 1)];
          forall x | x in NamesOf(s) ensures x in NamesOf(appended) + {name} {
            var i :| 0 <= i < |s| && s[i].name == x;
            if i < |appended| { assert appended[i] == s[i]; }
          }
          forall x | x in NamesOf(appended) ensures x in NamesOf(s) {
            var i :| 0 <= i < |appended| && appended[i].name == x;
            assert s[i] == appended[i];
          }
          assert s[|appended|].name == name;
        }
      }
      processNames := processNames - {name};
    }
  }

  /** The position of the first entry named `n`, or `|s|` if there is none. */
  function IndexOf(s: seq<UserScore>, n: string): (k: nat)
    ensures k <= |s|
    ensures k < |s| ==> s[k].name == n
    ensures forall j | 0 <= j < k :: s[j].name != n
  {
    if s == [] then 0
    else if s[0].name == n then 0
    else 1 + IndexOf(s[1..], n)
  }

  /** The score the ledger holds for `n`: that of its first entry, 0 if it
      has none. */
  function ScoreOf(s: seq<UserScore>, n: string): int
  {
    var k := IndexOf(s, n);
    if k < |s| then s[k].score else 0
  }

  /** After a merge, each name's score rose by exactly one if it is among the
      winners and is otherwise unchanged; the names with an entry are the old
      ones plus the winners. */
  lemma MergeScores(ledger: seq<UserScore>, names: seq<string>, result: seq<UserScore>, n: string)
    requires IsMerge(ledger, names, result)
    ensures ScoreOf(result, n) == ScoreOf(ledger, n) + (if n in names then 1 else 0)
    ensures n in NamesOf(result) <==> n in NamesOf(ledger) || n in names
  {
    var k := IndexOf(ledger, n);
    var suffix := result[|ledger|..];
    if k < |ledger| {
      assert result[k].name == n;
      assert FirstWithName(ledger, k);
      assert forall j | 0 <= j < k :: result[j].name != n;
      assert IndexOf(result, n) == k;
      assert n in NamesOf(result) by { assert result[k].name == n; }
      assert n in NamesOf(ledger) by { assert ledger[k].name == n; }
    } else {
      assert n !in NamesOf(ledger);
      if n in names {
        assert n in NamesOf(suffix);
        var i :| 0 <= i < |suffix| && suffix[i].name == n;
        var a := |ledger| + i;
        assert result[a] == suffix[i];
        assert forall j | 0 <= j < a :: result[j].name != n by {
          forall j | 0 <= j < a ensures result[j].name != n {
            if j < |ledger| {
              assert result[j].name == ledger[j].name;
            }
          }
        }
        assert IndexOf(result, n) == a;
        assert n in NamesOf(result) by { assert result[a].name == n; }
      } else {
        assert forall j | 0 <= j < |result| :: result[j].name != n by {
          forall j | 0 <= j < |result| ensures result[j].name != n {
            if j < |ledger| {
              assert result[j].name == ledger[j].name;
            } else {
              assert result[j] == suffix[j - |ledger|];
              assert result[j].name in NamesOf(suffix);
            }
          }
        }
        assert IndexOf(result, n) == |result|;
      }
    }
  }

  /** A merge keeps a ledger free of duplicate names. */
  lemma MergeKeepsDistinct(ledger: seq<UserScore>, names: seq<string>, result: seq<UserScore>)
    requires DistinctNames(ledger)
    requires IsMerge(ledger, names, result)
    ensures DistinctNames(result)
  {
    var suffix := result[|ledger|..];
    forall a, b | 0 <= a < b < |result| ensures result[a].name != result[b].name {
      if b >= |ledger| && a < |ledger| {
        assert result[b] == suffix[b - |ledger|];
        assert result[b].name in NamesOf(suffix);
        assert result[a].name == ledger[a].name;
        assert ledger[a].name in NamesOf(ledger);
      }
    }
  }

  /** Two rounds won by the same players: each of them has two more points,
      everybody else keeps their score. */
  lemma MergeTwice(ledger: seq<UserScore>, names: seq<string>, once: seq<UserScore>, twice: seq<UserScore>, n: string)
    requires IsMerge(ledger, names, once)
    requires IsMerge(once, names, twice)
    ensures ScoreOf(twice, n) == ScoreOf(ledger, n) + (if n in names then 2 else 0)
  {
    MergeScores(ledger, names, once, n);
    MergeScores(once, names, twice, n);
  }
}
