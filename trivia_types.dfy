/** Values shared by every part of the trivia bot: questions, per-user round
    records, ledger entries and the optional value used for Go's nil pointers. */
module TriviaTypes {

  /** Stands for a Go pointer that may be nil. */
  datatype Option<+T> = None | Some(value: T)

  /** A multiple-choice question as the trivia service delivers it.
      Only the fields the bot reads are kept. */
  datatype Question = Question(
    category: string,
    prompt: string,
    correctAnswer: string,
    incorrectAnswers: seq<string>)

  /** One call of the swap callback handed to `rand.Shuffle`. */
  datatype Swap = Swap(i: nat, j: nat)

  /** What one user was dealt in a round, and what they answered:
      `Answers`, `CorrectAnswer` and `UserResponse` of `RoundUser`. */
  datatype RoundUser = RoundUser(
    answers: seq<string>,
    correctAnswer: nat,
    response: Option<int>)

  /** One entry of the score ledger (`UserScore`). */
  datatype UserScore = UserScore(name: string, score: int)

  /** The random source of `rand.Shuffle`: for a user and an array length it
      yields the swaps the shuffle performs. */
  type Draw = (string, nat) -> seq<Swap>

  /** Every swap names two positions of an array of length `n`. */
  predicate SwapsInRange(swaps: seq<Swap>, n: nat)
  {
    forall k | 0 <= k < |swaps| :: swaps[k].i < n && swaps[k].j < n
  }

  /** The random source only ever produces swaps inside the array it shuffles. */
  ghost predicate DrawInRange(draw: Draw)
  {
    forall u, n :: SwapsInRange(draw(u, n), n)
  }
}
