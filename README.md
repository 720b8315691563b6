# mumble-trivia: a Dafny model of the round core

The bot (`main.go`) runs a trivia game in a Mumble channel. At the start of a
round it takes the next question from a buffered batch and deals it to every
user in the channel. Each user gets their own shuffled order of the answers
and their own record of where the correct answer ended up. Registered users
answer by typing `1` to `4`, and only a user's first answer counts. The round
ends when its timer fires, or earlier when exactly one user of the round has
not answered yet. At the end the bot names the users who picked the correct
position. It gives each of them one point in a score ledger and publishes the
ledger, sorted by score, as its comment. The admin starts and stops the game
with `!start` and `!stop`.

This project models that core:

- `trivia_types.dfy` (`TriviaTypes`): questions, per-user round records,
  ledger entries, swaps and the random source of the shuffle.
- `answer_shuffle.dfy` (`AnswerShuffle`): dealing one user's answers. The
  correct answer is appended to a fresh copy of the incorrect ones. The copy
  is shuffled in place by swaps. The correct index follows every swap.
  `rand.Shuffle` is modelled as any caller-supplied sequence of in-range swaps.
- `round_state.dfy` (`RoundState`): the `QuestionManager` class, whose map
  from user to `RoundUser` is updated in place. It also holds the counting,
  first-answer-wins and winner functions.
- `score_ledger.dfy` (`ScoreLedger`): the in-memory merge of `incrementScores`.
- `leaderboard.dfy` (`Leaderboard`): the sort and render of `setScores`.
- `responses.dfy` (`Responses`): `strings.TrimSpace` and the mapping of the
  tokens `"1"` to `"4"` onto the positions 0 to 3.
- `trivia_bot.dfy` (`TriviaBot`): the controller state held in
  `answerDelay`, `m` and `questions`. The `Bot` class has one method per
  inbound event: a text message, the timer firing, and the delayed start of
  the next round.

Users are identified by their names, and the winners are reported by name
anyway (see "## Left out" for the one case where this differs from Go's
keying by user object). The bot itself
is one of the channel's users, so it is dealt the question too and never
answers. That is why the quorum `len(Users)-1` means "every human has
answered".

Some behaviours of the code are easy to miss; the model follows the code:

- Ties on the leaderboard can come out in any order. `sort.Slice` is not
  stable. The model fixes one insertion order and states only what every
  admissible order satisfies. `RankingsAgreeOnScores` shows that all such
  orders agree score by score.
- Resolution is not guarded against running twice. `timeUp` leaves
  `answerDelay` and `m` in place, so answers are still taken during the
  pause before the next round, and each one re-runs the quorum test. There
  are three ways the test can pass again, so that `timeUp` runs again and
  the earlier winners score a second time:
  - A user who has already answered repeats an answer. The answer changes
    nothing and the quorum still holds (`QuorumRefires`).
  - A registered user who was not dealt the question sends a token. This
    also changes nothing (`QuorumRefires`).
  - The round ended on its timer with two users still to answer, and one
    of them now answers. That answer reaches the quorum, and the late
    answerer can score too (`LateAnswerReachesQuorum`).
- `!stop` does not cancel a pending next round. The goroutine started by
  `timeUp` calls `askQuestion` anyway (`Bot.NextRound`).
- A failed question fetch ends the process (`log.Fatalf`). It does not leave
  the bot idle. A fetch that returns no questions makes `questions[0]` panic.
  Both are reported as outcomes of `Bot.AskQuestion`.
- The tokens `1` to `4` are accepted whatever the number of answers. A
  position with no answer is recorded and can never be the correct one.

## Model

Small predicates that mirror one source expression are covered by the rows
of the members that use them: `AnswerShuffle.FollowIndex` (the index update
of main.go:38-42) by `TrackFollows`, `RoundState.HadCorrectAnswer`
(main.go:78-80) by `Winners` and `WinnersChoseCorrectText`,
`TriviaBot.QuorumReached` (the test of main.go:271) by `HandleText`,
`QuorumRefires` and `LastResponseMissesQuorum`, and `Responses.TrimSpace`
(main.go:254) by `TrimPadded` and `ResponseIndex`.

| member | source | states |
|---|---|---|
| `AnswerShuffle.Unshuffled` | main.go:31 | the array before shuffling holds the incorrect answers in order, with the correct answer at the last position |
| `AnswerShuffle.ApplySwaps` | main.go:36-37 | performing in-range swaps keeps the length of the answer array |
| `AnswerShuffle.ShufflePermutes` | main.go:36-37 | any sequence of swaps leaves a permutation (same multiset) of the answers |
| `AnswerShuffle.TrackFollows` | main.go:34-42 | the index, started at the last position and updated on every swap, stays in range and always points at the element that started there |
| `AnswerShuffle.Deal` | main.go:31-43 | a dealt record has `len(IncorrectAnswers)+1` answers, a permutation of incorrect ++ [correct], with `Answers[CorrectAnswer]` the correct answer, and no response |
| `AnswerShuffle.ShuffleAnswers` | main.go:31-43 | the dealing loop allocates a fresh array (never shared, the question untouched), and its in-place swaps and index updates give exactly `ApplySwaps` and `TrackIndex` |
| `RoundState.Responders` | main.go:49-56 | the users with a recorded response, a subset of the users, never more than `len(Users)` |
| `RoundState.Winners` | main.go:78-80 | `HadCorrectAnswer`: a user wins iff a response is recorded and equals their correct index; every winner is a responder |
| `RoundState.Respond` | main.go:59-70 | `UserResponse` as a table update: same users, others unchanged, answers and index unchanged, a recorded response is kept, otherwise the new one is recorded |
| `RoundState.RespondCount` | main.go:49-70 | a response adds exactly that user to the responders when they were dealt the question and had not answered, and otherwise leaves the table identical: the count rises by at most 1 |
| `RoundState.WinnersChoseCorrectText` | main.go:78-80 | when the answer texts are distinct, a user wins iff the answer at the position they chose is the question's correct answer |
| `RoundState.QuestionManager.constructor` | main.go:24-47 | one record per channel user, each dealt by the shuffle from that user's swaps, all well dealt and none answered |
| `RoundState.QuestionManager.ResponseCount` | main.go:49-57 | the counting loop returns the number of users with a recorded response, at most `len(Users)` |
| `RoundState.QuestionManager.UserResponse` | main.go:59-70 | the table becomes `Respond(old table, u, resp)`; every record stays well dealt |
| `RoundState.QuestionManager.CorrectUsernames` | main.go:168-173 | the collected names are exactly the winners, each once |
| `ScoreLedger.IncrementScores` | main.go:134-151 | entries keep their positions and names; the first entry of each winner gains exactly 1 however often the name repeats; the other winners are appended once each with score 1 |
| `ScoreLedger.MergeScores` | main.go:134-151 | after the merge each name's score is one higher if it won and unchanged otherwise; the names present are the old ones plus the winners |
| `ScoreLedger.MergeKeepsDistinct` | main.go:139-151 | a ledger without duplicate names keeps none after a merge |
| `ScoreLedger.MergeTwice` | main.go:134-151 | two rounds won by the same names add exactly 2 to each of them and nothing to anyone else |
| `Leaderboard.Insert` | main.go:112-114 | inserting into a non-increasing list keeps it non-increasing and adds exactly that entry |
| `Leaderboard.SortByScore` | main.go:112-114 | the sorted entries are a permutation of the loaded ones with non-increasing scores |
| `Leaderboard.RankingsAgreeOnScores` | main.go:112-114 | any two orders the sort may leave have the same length and the same score at every position |
| `Leaderboard.NatDigits` | main.go:118 | `%d` of a natural number is a non-empty string of digits without a leading zero |
| `Leaderboard.DecimalRoundTrip` | main.go:118 | the score written on a leaderboard line reads back as the score, with a sign exactly for negative scores |
| `Leaderboard.LinesConcat` | main.go:117-119 | the list items of a concatenation are the items of each part in turn: one item per entry, in order |
| `Leaderboard.ScoresComment` | main.go:106-120 | the published comment is header, one `<li>name: score</li>` per entry, footer, for some permutation of the entries with non-increasing scores |
| `Responses.TrimLeft` | main.go:254 | the result is a suffix of the text, everything removed is white space, and it does not start with white space |
| `Responses.TrimRight` | main.go:254 | the result is a prefix of the text, everything removed is white space, and it does not end with white space |
| `Responses.TrimPadded` | main.go:254 | `TrimSpace` of a text padded with white space on both sides is that text |
| `Responses.ResponseIndex` | main.go:254-268 | a message names position k (below 4) iff its trimmed text is the token of k, from "1" for 0 up to "4" for 3; all other text names none |
| `Responses.PaddedTokenRecognised` | main.go:254-268 | a token surrounded by any white space is recognised as its position |
| `TriviaBot.Refill` | main.go:194-204 | the buffer is refilled only when empty, and a failed fetch leaves no buffer |
| `TriviaBot.QuorumRefires` | main.go:270-275 | a repeated answer from a user who already answered, or a token from a user not dealt the question, leaves the table unchanged, so a round at its quorum still meets the test and is resolved again |
| `TriviaBot.LateAnswerReachesQuorum` | main.go:270-275 | when two users of a round had not answered, the first answer of one of them meets the test, and the earlier winners are still winners, so a round already resolved by its timer is resolved again |
| `TriviaBot.LastResponseMissesQuorum` | main.go:271 | after the last outstanding user answers, every user has responded and the equality test fails; it cannot pass again in that round, so a one-user round whose user has answered can end only by its timer |
| `TriviaBot.Bot.constructor` | main.go:220-224 | at connection there is no timer and no round, and the comment is the leaderboard of the stored ledger |
| `TriviaBot.Bot.AskQuestion` | main.go:192-218 | a failed fetch into an empty buffer is fatal and an empty batch panics; otherwise the head is popped, a fresh round is dealt to exactly the channel users with nobody answered, and the timer is set; the ledger is untouched |
| `TriviaBot.Bot.Resolve` | main.go:164-190 | the announcement names the correct answer and exactly the winners, once each; the ledger is merged and the comment re-rendered only when there is a winner; one next round is scheduled; the timer variables are not reset |
| `TriviaBot.Bot.TimerFires` | main.go:164-190 | timer expiry disarms the timer and resolves the round as `timeUp` does, leaving `answerDelay` set |
| `TriviaBot.Bot.NextRound` | main.go:185-188 | the delayed `askQuestion` runs even after `!stop`, with the same effect as a fresh ask |
| `TriviaBot.Bot.HandleText` | main.go:226-277 | a message without a sender changes nothing; `!stop` acts only while a timer is set and then clears the timer and the round, but keeps the pending next rounds; `!start` acts only while none is set, and an ignored message keeps the question buffer; every other message is either an answer or ignored, never changes the timer, and when ignored changes nothing; an answer counts only while a round runs, from a registered sender, for a trimmed `1`-`4`; after each such token the round resolves iff the responders number `len(Users)-1`, and a resolution schedules exactly one next round |

## Left out

- The Mumble client (gumble): connecting, sending private and channel messages, `SetComment`, and `gumbleutil.PlainText`. These are a foreign library and transport. The plain text of a message is a parameter.
- The HTML of the question, start, stop and result messages (main.go:166, 176, 180, 213, 236, 242). These are presentation. Line 213 reads `Answers[0]` to `Answers[3]` and so assumes four answers. The trivia service's multiple-choice questions always have four.
- The opentrivia HTTP request. It is the `fetched` parameter, either a batch or an error.
- Reading and writing `scores.json` with `encoding/json` and `ioutil`, including the errors that are logged and swallowed. This is file I/O. The ledger is the `ledger` field, and it is assumed to be stored and reloaded faithfully.
- `time.AfterFunc`, `Timer.Stop`, `client.Do`, and the goroutine's 3-second sleep. Timers and concurrency are modelled as explicit events handled one at a time.
- A timer that stays armed after `answerDelay` has been replaced. The model tracks only the timer in `answerDelay`, and `Bot.NextRound` replaces the round without a trace of the older timer. This happens in two ways. Two delayed `askQuestion` calls can follow a doubly resolved round. Or `!stop` and then `!start` arrive during the pause before the next round: `!start` arms a timer, the sleeping goroutine's `askQuestion` then replaces `m` and `answerDelay`, and the first timer later runs `timeUp` on the new round.
- Users are identified by name, not by their session object. In Go a user who reconnects mid-round is a new `*gumble.User`, so their answer is ignored as coming from someone who was not dealt the question. The model treats the reconnected session as the earlier one and records the answer if the earlier session had not answered.
- The entropy of `rand.Seed` and `rand.Shuffle`. The shuffle performs whatever in-range swaps the `draw` parameter yields.
- Go's map iteration order. It decides the order of appended ledger names and of winner names. The model picks any order and states only what holds for all of them.
- Command-line flags other than the admin name.
- `ScoreLedger.IncrementScores`: does not model the 64-bit wrap-around of `score++`. Scores are unbounded integers.
- `TriviaBot.Bot.AskQuestion`: does not model what the process does after `log.Fatalf` or the panic. The model reports the outcome and leaves the state as it was.
