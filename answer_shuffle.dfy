/** Dealing one user's answers (main.go, `NewQuestionManager`): the correct
    answer is appended to a fresh copy of the incorrect answers, the copy is
    shuffled by swaps, and the index of the correct answer follows every swap. */
module AnswerShuffle {
  import opened TriviaTypes

  /** The answers before shuffling: the incorrect ones, then the correct one. */
  function Unshuffled(q: Question): (r: seq<string>)
    ensures |r| == |q.incorrectAnswers| + 1
    ensures r[|q.incorrectAnswers|] == q.correctAnswer
    ensures r[..|q.incorrectAnswers|] == q.incorrectAnswers
  {
    q.incorrectAnswers + [q.correctAnswer]
  }

  /** `s` with the elements at the two positions of `sw` exchanged. */
  function SwapAt(s: seq<string>, sw: Swap): seq<string>
    requires sw.i < |s| && sw.j < |s|
  {
    s[sw.i := s[sw.j]][sw.j := s[sw.i]]
  }

  /** The contents after performing `swaps` in order. */
  function ApplySwaps(s: seq<string>, swaps: seq<Swap>): (r: seq<string>)
    requires SwapsInRange(swaps, |s|)
    ensures |r| == |s|
    decreases |swaps|
  {
    if swaps == [] then s
    else SwapAt(ApplySwaps(s, swaps[..|swaps| - 1]), swaps[|swaps| - 1])
  }

  /** Where the element at position `k` goes when `sw` is performed: the
      update the swap callback makes to `CorrectAnswer`. */
  function FollowIndex(k: nat, sw: Swap): nat
  {
    if k == sw.i then sw.j else if k == sw.j then sw.i else k
  }

  /** Where the element at position `k` ends up after all of `swaps`. */
  function TrackIndex(k: nat, swaps: seq<Swap>): nat
    decreases |swaps|
  {
    if swaps == [] then k
    else FollowIndex(TrackIndex(k, swaps[..|swaps| - 1]), swaps[|swaps| - 1])
  }

  lemma SwapAtPermutes(s: seq<string>, sw: Swap)
    requires sw.i < |s| && sw.j < |s|
    ensures multiset(SwapAt(s, sw)) == multiset(s)
  {
    var t := s[sw.i := s[sw.j]];
    assert multiset(t) == multiset(s) - multiset{s[sw.i]} + multiset{s[sw.j]};
    assert multiset(t[sw.j := s[sw.i]]) == multiset(t) - multiset{t[sw.j]} + multiset{s[sw.i]};
  }

  /** Shuffling by swaps only reorders the answers. */
  lemma {:induction false} ShufflePermutes(s: seq<string>, swaps: seq<Swap>)
    requires SwapsInRange(swaps, |s|)
    ensures multiset(ApplySwaps(s, swaps)) == multiset(s)
    decreases |swaps|
  {
    if swaps != [] {
      var prefix := swaps[..|swaps| - 1];
      ShufflePermutes(s, prefix);
      SwapAtPermutes(ApplySwaps(s, prefix), swaps[|swaps| - 1]);
    }
  }

  /** The tracked index always points at the element that started at `k`,
      whatever swaps are performed. */
  lemma {:induction false} TrackFollows(s: seq<string>, swaps: seq<Swap>, k: nat)
    requires SwapsInRange(swaps, |s|)
    requires k < |s|
    ensures TrackIndex(k, swaps) < |s|
    ensures ApplySwaps(s, swaps)[TrackIndex(k, swaps)] == s[k]
    decreases |swaps|
  {
    if swaps != [] {
      TrackFollows(s, swaps[..|swaps| - 1], k);
    }
  }

  /** A user's answers are well dealt for `q`: a reordering of the incorrect
      answers plus the correct one, with the correct index pointing at the
      correct answer. */
  predicate WellDealt(q: Question, r: RoundUser)
  {
    && |r.answers| == |q.incorrectAnswers| + 1
    && r.correctAnswer < |r.answers|
    && r.answers[r.correctAnswer] == q.correctAnswer
    && multiset(r.answers) == multiset(Unshuffled(q))
  }

  /** The round record a user receives for `q` when the shuffle performs
      `swaps`; nobody has answered yet. */
  function Deal(q: Question, swaps: seq<Swap>): (r: RoundUser)
    requires SwapsInRange(swaps, |q.incorrectAnswers| + 1)
    ensures WellDealt(q, r)
    ensures r.response == None
  {
    var n := |q.incorrectAnswers|;
    ShufflePermutes(Unshuffled(q), swaps);
    TrackFollows(Unshuffled(q), swaps, n);
    RoundUser(ApplySwaps(Unshuffled(q), swaps), TrackIndex(n, swaps), None)
  }

  /** The dealing loop body of `NewQuestionManager`: a new array holding the
      incorrect answers and then the correct one, shuffled in place while the
      correct index is updated on every swap. */
  method ShuffleAnswers(q: Question, swaps: seq<Swap>) returns (answers: array<string>, correctIndex: nat)
    requires SwapsInRange(swaps, |q.incorrectAnswers| + 1)
    ensures fresh(answers)
    ensures answers[..] == ApplySwaps(Unshuffled(q), swaps)
    ensures correctIndex == TrackIndex(|q.incorrectAnswers|, swaps)
  {
    var n := |q.incorrectAnswers|;
    var initial := Unshuffled(q);
    answers := new string[n + 1](k requires 0 <= k < n + 1 => initial[k]);
    correctIndex := n;
    var t := 0;
    while t < |swaps|
      invariant 0 <= t <= |swaps|
      invariant answers[..] == ApplySwaps(initial, swaps[..t])
      invariant correctIndex == TrackIndex(n, swaps[..t])
    {
      var i, j := swaps[t].i, swaps[t].j;
      assert swaps[..t + 1][..t] == swaps[..t];
      answers[i], answers[j] := answers[j], answers[i];
      if correctIndex == i {
        correctIndex := j;
      } else if correctIndex == j {
        correctIndex := i;
      }
      t := t + 1;
    }
    assert swaps[..t] == swaps;
  }
}
