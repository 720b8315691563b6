/** The leaderboard the bot publishes as its comment (main.go, `setScores`):
    the ledger's entries ordered by non-increasing score, one list item per
    entry between a fixed header and footer. */
module Leaderboard {
  import opened TriviaTypes

  /** Scores never increase along `s`. */
  predicate NonIncreasing(s: seq<UserScore>)
  {
    forall a, b | 0 <= a < b < |s| :: s[a].score >= s[b].score
  }

  /** What `sort.Slice` with the comparison `>=` may leave: a reordering of
      the entries by non-increasing score. The order of equal scores is not
      fixed, since that sort is not stable. */
  ghost predicate IsRanking(entries: seq<UserScore>, sorted: seq<UserScore>)
  {
    multiset(sorted) == multiset(entries) && NonIncreasing(sorted)
  }

  /** `e` put into the non-increasing `s` before the first entry it does not
      score below. */
  function Insert(e: UserScore, s: seq<UserScore>): (r: seq<UserScore>)
    requires NonIncreasing(s)
    ensures NonIncreasing(r)
    ensures multiset(r) == multiset(s) + multiset{e}
  {
    if s == [] then [e]
    else if e.score >= s[0].score then [e] + s
    else
      var rest := Insert(e, s[1..]);
      assert s == [s[0]] + s[1..];
      assert forall k | 0 <= k < |rest| :: s[0].score >= rest[k].score by {
        forall k | 0 <= k < |rest| ensures s[0].score >= rest[k].score {
          assert rest[k] in multiset(rest);
          if rest[k] != e {
            assert rest[k] in multiset(s[1..]);
          }
        }
      }
      [s[0]] + rest
  }

  /** One order `sort.Slice` may produce, by insertion. */
  function SortByScore(entries: seq<UserScore>): (r: seq<UserScore>)
    ensures IsRanking(entries, r)
  {
    if entries == [] then []
    else
      assert entries == [entries[0]] + entries[1..];
      Insert(entries[0], SortByScore(entries[1..]))
  }

  /** `s` without its entry at position `k`. */
  function RemoveAt(s: seq<UserScore>, k: nat): (r: seq<UserScore>)
    requires k < |s|
    ensures |r| == |s| - 1
    ensures forall i | 0 <= i < |r| :: r[i] == if i < k then s[i] else s[i + 1]
    ensures multiset(s) == multiset(r) + multiset{s[k]}
    ensures NonIncreasing(s) ==> NonIncreasing(r)
  {
    assert s == s[..k] + [s[k]] + s[k + 1..];
    s[..k] + s[k + 1..]
  }

  /** The first entries of two rankings of the same entries have the same
      score: the highest. */
  lemma FirstScoresAgree(a: seq<UserScore>, b: seq<UserScore>)
    requires NonIncreasing(a) && NonIncreasing(b)
    requires multiset(a) == multiset(b)
    requires a != [] && b != []
    ensures a[0].score == b[0].score
  {
    assert a[0] in multiset(b);
    assert b[0] in multiset(a);
  }

  /** Taking the first entry off `a` and the same entry off `b` keeps the
      two equal as multisets. */
  lemma RemoveMatching(a: seq<UserScore>, b: seq<UserScore>, k: nat)
    requires multiset(a) == multiset(b)
    requires a != [] && k < |b| && b[k] == a[0]
    ensures multiset(a[1..]) == multiset(RemoveAt(b, k))
  {
    var r := RemoveAt(b, k);
    assert a == [a[0]] + a[1..];
    assert multiset(a) == multiset{a[0]} + multiset(a[1..]);
    assert multiset(b) == multiset(r) + multiset{a[0]};
    forall x ensures multiset(a[1..])[x] == multiset(r)[x] {
      assert multiset(a)[x] == multiset(b)[x];
    }
  }

  /** Between two positions of a ranking with equal scores, every score is
      that score. */
  lemma Plateau(b: seq<UserScore>, i: nat, k: nat)
    requires NonIncreasing(b)
    requires 0 < i <= k < |b|
    requires b[0].score == b[k].score
    ensures b[i - 1].score == b[i].score
  {
    assert b[0].score >= b[i - 1].score;
    assert b[i].score >= b[k].score;
  }

  /** Two rankings of the same entries differ only in the order of equal
      scores: position by position they show the same scores. */
  lemma {:induction false} RankingsAgreeOnScores(a: seq<UserScore>, b: seq<UserScore>)
    requires NonIncreasing(a) && NonIncreasing(b)
    requires multiset(a) == multiset(b)
    ensures |a| == |b|
    ensures forall k | 0 <= k < |a| :: a[k].score == b[k].score
    decreases |a|
  {
    assert |a| == |multiset(a)| == |multiset(b)| == |b|;
    if a != [] {
      FirstScoresAgree(a, b);
      assert a[0] in multiset(b);
      var k :| 0 <= k < |b| && b[k] == a[0];
      var tail := a[1..];
      var rest := RemoveAt(b, k);
      RemoveMatching(a, b, k);
      assert NonIncreasing(tail);
      RankingsAgreeOnScores(tail, rest);
      forall i | 0 < i < |a| ensures a[i].score == b[i].score {
        assert a[i] == tail[i - 1];
        assert a[i].score == rest[i - 1].score;
        if i <= k {
          Plateau(b, i, k);
        }
      }
    }
  }

  /** The character of the decimal digit `d`. */
  function DigitChar(d: nat): char
    requires d < 10
  {
    ('0' as int + d) as char
  }

  predicate IsDigit(c: char)
  {
    '0' as int <= c as int <= '9' as int
  }

  /** `n` in decimal, without leading zeros, as `%d` writes it. */
  function NatDigits(n: nat): (r: string)
    ensures |r| >= 1
    ensures forall k | 0 <= k < |r| :: IsDigit(r[k])
    ensures |r| > 1 ==> r[0] != '0'
  {
    if n < 10 then [DigitChar(n)] else NatDigits(n / 10) + [DigitChar(n % 10)]
  }

  /** The number a string of decimal digits denotes. */
  function DigitsValue(s: string): nat
    requires forall k | 0 <= k < |s| :: IsDigit(s[k])
  {
    if s == [] then 0
    else
      assert IsDigit(s[|s| - 1]);
      DigitsValue(s[..|s| - 1]) * 10 + (s[|s| - 1] as int - '0' as int)
  }

  /** Reading back the digits of `n` gives `n`. */
  lemma {:induction false} DigitsRoundTrip(n: nat)
    ensures DigitsValue(NatDigits(n)) == n
  {
    if n >= 10 {
      DigitsRoundTrip(n / 10);
      var r := NatDigits(n);
      assert r[..|r| - 1] == NatDigits(n / 10);
    }
  }

  /** `%d` of a Go `int`: a minus sign before the digits of a negative number. */
  function DecimalString(i: int): string
  {
    if i < 0 then "-" + NatDigits(-i) else NatDigits(i)
  }

  /** The number a `%d` rendering denotes. */
  function ParseDecimal(s: string): int
    requires |s| >= 1
    requires s[0] == '-' ==> forall k | 1 <= k < |s| :: IsDigit(s[k])
    requires s[0] != '-' ==> forall k | 0 <= k < |s| :: IsDigit(s[k])
  {
    if s[0] == '-' then -(DigitsValue(s[1..]) as int) else DigitsValue(s)
  }

  /** The score written on the leaderboard reads back as the score. */
  lemma DecimalRoundTrip(i: int)
    ensures |DecimalString(i)| >= 1
    ensures DecimalString(i)[0] == '-' <==> i < 0
    ensures ParseDecimal(DecimalString(i)) == i
  {
    if i < 0 {
      DigitsRoundTrip(-i);
      assert DecimalString(i)[1..] == NatDigits(-i);
    } else {
      DigitsRoundTrip(i);
      assert IsDigit(NatDigits(i)[0]);
    }
  }

  const Header: string := "<h2>Scores:</h2><ol>"
  const Footer: string := "</ol>"

  /** The list item of one entry: `<li>name: score</li>`. */
  function EntryLine(e: UserScore): string
  {
    "<li>" + e.name + ": " + DecimalString(e.score) + "</li>"
  }

  /** The list items of `s`, in order. */
  function Lines(s: seq<UserScore>): string
  {
    if s == [] then "" else EntryLine(s[0]) + Lines(s[1..])
  }

  /** Rendering a concatenation renders each part in turn: one item per
      entry, in the order of the entries. */
  lemma {:induction false} LinesConcat(a: seq<UserScore>, b: seq<UserScore>)
    ensures Lines(a + b) == Lines(a) + Lines(b)
  {
    if a != [] {
      assert (a + b)[0] == a[0];
      assert (a + b)[1..] == a[1..] + b;
      LinesConcat(a[1..], b);
      assert EntryLine(a[0]) + (Lines(a[1..]) + Lines(b)) == (EntryLine(a[0]) + Lines(a[1..])) + Lines(b);
    } else {
      assert a + b == b;
    }
  }

  /** The comment text for entries already in leaderboard order. */
  function Render(sorted: seq<UserScore>): string
  {
    Header + Lines(sorted) + Footer
  }

  /** `setScores`: the published comment is the rendering of some ranking of
      the ledger's entries. */
  function ScoresComment(entries: seq<UserScore>): (r: string)
    ensures exists sorted :: IsRanking(entries, sorted) && r == Render(sorted)
  {
    var sorted := SortByScore(entries);
    assert IsRanking(entries, sorted);
    Render(sorted)
  }
}
