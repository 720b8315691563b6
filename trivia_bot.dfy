/** The round controller of the bot (main.go, `main`): the variables
    `answerDelay`, `m` and `questions` captured by `askQuestion`, `timeUp` and
    the `TextMessage` listener, the score ledger and the published comment.
    Each inbound event is a method; events are handled one at a time. */
module TriviaBot {
  import opened TriviaTypes
  import opened AnswerShuffle
  import opened RoundState
  import opened ScoreLedger
  import opened Leaderboard
  import opened Responses

  /** What the trivia service's question list call returned. */
  datatype Fetch = Fetched(batch: seq<Question>) | FetchError(message: string)

  /** How `askQuestion` ended. `Fatal`: the fetch failed and `log.Fatalf`
      ends the process. `EmptyBatchPanic`: the fetch returned no question and
      `questions[0]` panics. `Asked`: a round started. */
  datatype AskOutcome = Asked | Fatal | EmptyBatchPanic

  /** The channel message of `timeUp`: the correct answer and the winners
      (none means "No one got it right!"). */
  datatype Announcement = Announcement(correctAnswer: string, winners: seq<string>)

  /** What the text message listener did with a message. */
  datatype Reaction =
    | Ignored
    | Stopped
    | Started(outcome: AskOutcome)
    | Answered(resolution: Option<Announcement>)

  /** The question buffer after the refill step of `askQuestion`: fetched
      only when empty; `None` when that fetch failed. */
  function Refill(questions: seq<Question>, fetched: Fetch): (r: Option<seq<Question>>)
    ensures |questions| > 0 ==> r == Some(questions)
    ensures |questions| == 0 ==> (r.None? <==> fetched.FetchError?)
    ensures |questions| == 0 && fetched.Fetched? ==> r == Some(fetched.batch)
  {
    if |questions| > 0 then Some(questions)
    else match fetched
      case FetchError(_) => None
      case Fetched(batch) => Some(batch)
  }

  /** The early-resolution test of the listener: exactly one user of the
      round has not responded. */
  predicate QuorumReached(users: map<string, RoundUser>)
  {
    |Responders(users)| == |users| - 1
  }

  /** A response from a user who has already answered, or from a user who
      was not dealt the question, leaves the table as it is, so a round that
      reached its quorum still reaches it: the listener resolves the round
      again. */
  lemma QuorumRefires(users: map<string, RoundUser>, u: string, resp: int)
    requires QuorumReached(users)
    requires u !in users || u in Responders(users)
    ensures Respond(users, u, resp) == users
    ensures QuorumReached(Respond(users, u, resp))
  {
    RespondCount(users, u, resp);
  }

  /** After a round was resolved by its timer with two users still to answer,
      the first answer of one of them during the pause before the next round
      reaches the quorum: the listener resolves the round a second time. */
  lemma LateAnswerReachesQuorum(users: map<string, RoundUser>, u: string, resp: int)
    requires |Responders(users)| == |users| - 2
    requires u in users && users[u].response.None?
    ensures QuorumReached(Respond(users, u, resp))
    ensures Winners(users) <= Winners(Respond(users, u, resp))
  {
    RespondCount(users, u, resp);
  }

  /** The first response of a user of the round who was the only one still
      to answer does not reach the quorum: once every user has answered, the
      test cannot pass again in that round. A round dealt to a single user
      meets its quorum of 0 only before that user answers, so once they have
      answered it can end only by its timer. */
  lemma LastResponseMissesQuorum(users: map<string, RoundUser>, u: string, resp: int)
    requires QuorumReached(users)
    requires u in users && users[u].response.None?
    ensures !QuorumReached(Respond(users, u, resp))
    ensures Responders(Respond(users, u, resp)) == users.Keys
  {
    RespondCount(users, u, resp);
    var after := Respond(users, u, resp);
    var missing := after.Keys - Responders(after);
    assert after.Keys == Responders(after) + missing;
  }

  /** What resolving a round (`timeUp`) did: the winners of `users` are
      announced, each once; the ledger and the comment change only when there
      is a winner, and then the ledger is merged and the comment re-rendered. */
  ghost predicate ResolutionStep(
    users: map<string, RoundUser>,
    ledger0: seq<UserScore>, comment0: string,
    announcement: Announcement,
    ledger1: seq<UserScore>, comment1: string)
  {
    && (forall u :: u in announcement.winners <==> u in Winners(users))
    && (forall a, b | 0 <= a < b < |announcement.winners| :: announcement.winners[a] != announcement.winners[b])
    && (announcement.winners == [] ==> ledger1 == ledger0 && comment1 == comment0)
    && (announcement.winners != [] ==> IsMerge(ledger0, announcement.winners, ledger1) && comment1 == ScoresComment(ledger1))
  }

  class Bot {
    /** The `-admin` flag. */
    const admin: string
    /** `answerDelay != nil`. */
    var timerSet: bool
    /** The timer in `answerDelay` has neither fired nor been stopped. */
    var timerArmed: bool
    /** `m`, the current round. */
    var manager: QuestionManager?
    /** The buffered batch of questions. */
    var questions: seq<Question>
    /** The entries of the score ledger. */
    var ledger: seq<UserScore>
    /** The bot's published comment. */
    var comment: string
    /** Goroutines of `timeUp` sleeping before they call `askQuestion`. */
    var pendingRounds: nat

    ghost predicate Valid()
      reads this, manager
    {
      && (timerSet <==> manager != null)
      && (timerArmed ==> timerSet)
      && (manager != null ==> manager.Valid())
    }

    /** Start-up and the `Connect` handler: no round, an empty buffer, and the
        leaderboard of the stored ledger published. */
    constructor (admin: string, stored: seq<UserScore>)
      ensures Valid()
      ensures this.admin == admin
      ensures !timerSet && !timerArmed && manager == null && questions == [] && pendingRounds == 0
      ensures ledger == stored && comment == ScoresComment(stored)
    {
      this.admin := admin;
      timerSet, timerArmed := false, false;
      manager := null;
      questions := [];
      ledger := stored;
      comment := ScoresComment(stored);
      pendingRounds := 0;
    }

    /** What `askQuestion` did: refill the buffer only when it is empty, pop
        its head, deal it to the channel users and arm the timer. */
    twostate predicate AskedQuestion(fetched: Fetch, channelUsers: seq<string>, draw: Draw, outcome: AskOutcome)
      reads this, manager
    {
      var buffer := Refill(old(questions), fetched);
      && ledger == old(ledger) && comment == old(comment)
      && (buffer.None? ==> outcome == Fatal)
      && (buffer == Some([]) ==> outcome == EmptyBatchPanic)
      && (outcome != Asked ==>
            && questions == old(questions) && manager == old(manager)
            && timerSet == old(timerSet) && timerArmed == old(timerArmed))
      && (buffer.Some? && buffer.value != [] ==>
            && outcome == Asked
            && questions == buffer.value[1..]
            && manager != null && fresh(manager)
            && manager.current == buffer.value[0]
            && manager.users.Keys == (set u | u in channelUsers)
            && Responders(manager.users) == {}
            && DrawInRange(draw)
            && (forall u | u in manager.users ::
                  manager.users[u] == Deal(manager.current, draw(u, |manager.current.incorrectAnswers| + 1)))
            && timerSet && timerArmed)
    }

    /** `askQuestion`. The fetch is the parameter `fetched`, the channel's
        users are `channelUsers`, and `draw` is the random source. */
    method AskQuestion(fetched: Fetch, channelUsers: seq<string>, draw: Draw) returns (outcome: AskOutcome)
      requires Valid()
      requires DrawInRange(draw)
      modifies this
      ensures Valid()
      ensures AskedQuestion(fetched, channelUsers, draw, outcome)
      ensures pendingRounds == old(pendingRounds)
    {
      ghost var buffer := Refill(questions, fetched);
      if |questions| == 0 {
        match fetched
        case FetchError(_) =>
          outcome := Fatal;
          return;
        case Fetched(batch) =>
          questions := batch;
      }
      assert buffer == Some(questions);
      if |questions| == 0 {
        outcome := EmptyBatchPanic;
        return;
      }
      var q := questions[0];
      questions := questions[1..];
      var round := new QuestionManager(q, channelUsers, draw);
      manager := round;
      timerSet := true;
      timerArmed := true;
      outcome := Asked;
    }

    /** `timeUp`: announce the winners; when there are any, merge them into
        the ledger and publish the new leaderboard; schedule the next round.
        The timer variables are left as they are. */
    method Resolve() returns (announcement: Announcement)
      requires Valid()
      requires manager != null
      modifies this
      ensures Valid()
      ensures manager == old(manager) && questions == old(questions)
      ensures timerSet == old(timerSet) && timerArmed == old(timerArmed)
      ensures announcement.correctAnswer == manager.current.correctAnswer
      ensures ResolutionStep(manager.users, old(ledger), old(comment), announcement, ledger, comment)
      ensures pendingRounds == old(pendingRounds) + 1
    {
      var winners := manager.CorrectUsernames();
      if |winners| > 0 {
        ledger := IncrementScores(ledger, winners);
        comment := ScoresComment(ledger);
      }
      pendingRounds := pendingRounds + 1;
      announcement := Announcement(manager.current.correctAnswer, winners);
    }

    /** The answer timer expires and runs `timeUp`. */
    method TimerFires() returns (announcement: Announcement)
      requires Valid()
      requires timerArmed
      modifies this
      ensures Valid()
      ensures !timerArmed && timerSet
      ensures manager == old(manager) && questions == old(questions)
      ensures announcement.correctAnswer == manager.current.correctAnswer
      ensures ResolutionStep(manager.users, old(ledger), old(comment), announcement, ledger, comment)
      ensures pendingRounds == old(pendingRounds) + 1
    {
      timerArmed := false;
      announcement := Resolve();
    }

    /** A goroutine started by `timeUp` wakes up and calls `askQuestion`,
        whether or not the game was stopped meanwhile. */
    method NextRound(fetched: Fetch, channelUsers: seq<string>, draw: Draw) returns (outcome: AskOutcome)
      requires Valid()
      requires pendingRounds > 0
      requires DrawInRange(draw)
      modifies this
      ensures Valid()
      ensures pendingRounds == old(pendingRounds) - 1
      ensures AskedQuestion(fetched, channelUsers, draw, outcome)
    {
      pendingRounds := pendingRounds - 1;
      outcome := AskQuestion(fetched, channelUsers, draw);
    }

    /** The `TextMessage` listener. `sender` is `None` for a message without a
        sender; `message` is the raw text, compared with the admin commands;
        `plain` is its plain-text rendering, read as an answer. The fetch,
        channel users and random source serve `askQuestion` on "!start". */
    method HandleText(
      sender: Option<string>, registered: bool, message: string, plain: string,
      fetched: Fetch, channelUsers: seq<string>, draw: Draw)
      returns (reaction: Reaction)
      requires Valid()
      requires DrawInRange(draw)
      modifies this, manager
      ensures Valid()
      // A message without a sender changes nothing.
      ensures sender.None? ==> reaction == Ignored
      // "!stop" from the admin acts only while a timer is set and then clears
      // the timer and the round.
      ensures sender == Some(admin) && message == "!stop" ==>
        && (old(timerSet) ==> reaction == Stopped && !timerSet && !timerArmed && manager == null)
        && (!old(timerSet) ==> reaction == Ignored)
        && questions == old(questions) && ledger == old(ledger) && comment == old(comment)
        && pendingRounds == old(pendingRounds)
      // "!start" from the admin acts only while no timer is set.
      ensures sender == Some(admin) && message == "!start" ==>
        && (old(timerSet) ==> reaction == Ignored)
        && (!old(timerSet) ==> reaction.Started? && AskedQuestion(fetched, channelUsers, draw, reaction.outcome))
        && pendingRounds == old(pendingRounds)
      // Any other message leaves the timer, the round object and the buffer.
      ensures !(sender == Some(admin) && (message == "!stop" || message == "!start")) ==>
        && timerSet == old(timerSet)
        && manager == old(manager)
        && questions == old(questions)
      // It is an answer exactly when a round is on, the sender is registered
      // and the trimmed text is one of the four tokens.
      // Anything that is neither an admin command nor an answer is ignored.
      ensures !(sender == Some(admin) && (message == "!stop" || message == "!start")) ==>
        reaction.Ignored? || reaction.Answered?
      ensures !(sender == Some(admin) && (message == "!stop" || message == "!start")) ==>
        (reaction.Answered? <==> sender.Some? && old(timerSet) && registered && ResponseIndex(plain).Some?)
      ensures reaction.Answered? ==>
        && manager != null
        && manager.users == Respond(old(manager.users), sender.value, ResponseIndex(plain).value)
        && (reaction.resolution.Some? <==> QuorumReached(manager.users))
      ensures reaction.Answered? && reaction.resolution.Some? ==>
        && !timerArmed
        && reaction.resolution.value.correctAnswer == manager.current.correctAnswer
        && pendingRounds == old(pendingRounds) + 1
        && ResolutionStep(manager.users, old(ledger), old(comment), reaction.resolution.value, ledger, comment)
      ensures reaction.Ignored? ==>
        && ledger == old(ledger) && comment == old(comment) && pendingRounds == old(pendingRounds)
        && questions == old(questions)
        && timerSet == old(timerSet) && timerArmed == old(timerArmed)
        && manager == old(manager)
        && (manager != null ==> manager.users == old(manager.users))
      ensures reaction.Answered? && reaction.resolution.None? ==>
        && ledger == old(ledger) && comment == old(comment) && pendingRounds == old(pendingRounds)
        && timerArmed == old(timerArmed)
    {
      if sender.None? {
        return Ignored;
      }
      var name := sender.value;
      if name == admin {
        if message == "!stop" {
          if timerSet {
            timerSet, timerArmed := false, false;
            manager := null;
            return Stopped;
          }
          return Ignored;
        } else if message == "!start" {
          if !timerSet {
            var outcome := AskQuestion(fetched, channelUsers, draw);
            return Started(outcome);
          }
          return Ignored;
        }
      }
      if timerSet && manager != null {
        if !registered {
          return Ignored;
        }
        var index := ResponseIndex(plain);
        if index.Some? {
          manager.UserResponse(name, index.value);
          var count := manager.ResponseCount();
          if count == |manager.users| - 1 {
            timerArmed := false;
            var announcement := Resolve();
            return Answered(Some(announcement));
          }
          return Answered(None);
        }
      }
      return Ignored;
    }
  }
}
