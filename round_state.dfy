/** The state of one round (main.go, `QuestionManager` and `RoundUser`): the
    table from user to dealt answers, correct index and optional response. */
module RoundState {
  import opened TriviaTypes
  import opened AnswerShuffle

  /** The users who have recorded a response. */
  function Responders(users: map<string, RoundUser>): (r: set<string>)
    ensures r <= users.Keys
    ensures |r| <= |users|
    ensures forall u :: u in r <==> u in users && users[u].response.Some?
  {
    var r := set u | u in users && users[u].response.Some?;
    SubsetCard(r, users.Keys);
    r
  }

  lemma SubsetCard(a: set<string>, b: set<string>)
    requires a <= b
    ensures |a| <= |b|
  {
    assert b == a + (b - a);
  }

  /** `RoundUser.HadCorrectAnswer`: a response is recorded and it is the
      correct index. */
  predicate HadCorrectAnswer(r: RoundUser)
  {
    r.response.Some? && r.response.value == r.correctAnswer
  }

  /** The users `timeUp` congratulates. */
  function Winners(users: map<string, RoundUser>): (w: set<string>)
    ensures w <= Responders(users)
    ensures forall u :: u in w <==> u in users && users[u].response == Some(users[u].correctAnswer as int)
  {
    set u | u in users && HadCorrectAnswer(users[u])
  }

  /** The table after `UserResponse(u, resp)`: first answer wins, unknown
      users are ignored. */
  function Respond(users: map<string, RoundUser>, u: string, resp: int): (r: map<string, RoundUser>)
    ensures r.Keys == users.Keys
    ensures forall v | v in users && v != u :: r[v] == users[v]
    ensures u in users ==> r[u].answers == users[u].answers && r[u].correctAnswer == users[u].correctAnswer
    ensures u in users && users[u].response.Some? ==> r[u].response == users[u].response
    ensures u in users && users[u].response.None? ==> r[u].response == Some(resp)
  {
    if u in users && users[u].response.None? then users[u := users[u].(response := Some(resp))]
    else users
  }

  /** A response raises the count by one exactly when it is the first one of
      a user who was dealt the question; otherwise nothing changes at all. */
  lemma RespondCount(users: map<string, RoundUser>, u: string, resp: int)
    ensures u in users && users[u].response.None? ==>
      Responders(Respond(users, u, resp)) == Responders(users) + {u} &&
      |Responders(Respond(users, u, resp))| == |Responders(users)| + 1
    ensures !(u in users && users[u].response.None?) ==> Respond(users, u, resp) == users
  {
    if u in users && users[u].response.None? {
      var after := Responders(Respond(users, u, resp));
      assert after == Responders(users) + {u};
      assert u !in Responders(users);
    }
  }

  /** Every answer text of the question is different. */
  ghost predicate DistinctAnswers(q: Question)
  {
    forall x :: multiset(Unshuffled(q))[x] <= 1
  }

  lemma TwoCopies(s: seq<string>, a: nat, b: nat)
    requires a < b < |s| && s[a] == s[b]
    ensures multiset(s)[s[a]] >= 2
  {
    assert s == s[..b] + [s[b]] + s[b + 1..];
    assert s[a] in multiset(s[..b]);
  }

  /** When the answer texts are distinct, the winners are exactly the users
      whose chosen position holds the correct answer's text. */
  lemma WinnersChoseCorrectText(q: Question, users: map<string, RoundUser>, u: string)
    requires forall v | v in users :: WellDealt(q, users[v])
    requires DistinctAnswers(q)
    ensures u in Winners(users) <==>
      && u in users
      && users[u].response.Some?
      && 0 <= users[u].response.value < |users[u].answers|
      && users[u].answers[users[u].response.value] == q.correctAnswer
  {
    if u in users && users[u].response.Some? {
      var r := users[u];
      var k := r.response.value;
      if 0 <= k < |r.answers| && r.answers[k] == q.correctAnswer && k != r.correctAnswer {
        if k < r.correctAnswer {
          TwoCopies(r.answers, k, r.correctAnswer);
        } else {
          TwoCopies(r.answers, r.correctAnswer, k);
        }
      }
    }
  }

  /** `QuestionManager`: the question of the round and the table of users. */
  class QuestionManager {
    const current: Question
    var users: map<string, RoundUser>

    /** Every user's record was dealt from the current question. */
    ghost predicate Valid()
      reads this
    {
      forall u | u in users :: WellDealt(current, users[u])
    }

    /** `NewQuestionManager`: one freshly shuffled record per channel user,
        none of them answered. */
    constructor (q: Question, channelUsers: seq<string>, draw: Draw)
      requires DrawInRange(draw)
      ensures Valid()
      ensures current == q
      ensures users.Keys == set u | u in channelUsers
      ensures forall u | u in users :: users[u] == Deal(q, draw(u, |q.incorrectAnswers| + 1))
      ensures Responders(users) == {}
    {
      current := q;
      var n := |q.incorrectAnswers| + 1;
      var dealt: map<string, RoundUser> := map[];
      for k := 0 to |channelUsers|
        invariant dealt.Keys == set i | 0 <= i < k :: channelUsers[i]
        invariant forall u | u in dealt :: dealt[u] == Deal(q, draw(u, n))
      {
        var u := channelUsers[k];
        var answers, correctIndex := ShuffleAnswers(q, draw(u, n));
        dealt := dealt[u := RoundUser(answers[..], correctIndex, None)];
      }
      assert (set i | 0 <= i < |channelUsers| :: channelUsers[i]) == set u | u in channelUsers;
      users := dealt;
    }

    /** `ResponseCount`: the number of users with a recorded response. */
    method ResponseCount() returns (count: nat)
      ensures count == |Responders(users)|
      ensures count <= |users|
    {
      count := 0;
      var remaining := users.Keys;
      while remaining != {}
        invariant remaining <= users.Keys
        invariant count == |Responders(users) - remaining|
        decreases remaining
      {
        var u :| u in remaining;
        var before := Responders(users) - remaining;
        if users[u].response.Some? {
          assert Responders(users) - (remaining - {u}) == before + {u};
          count := count + 1;
        } else {
          assert Responders(users) - (remaining - {u}) == before;
        }
        remaining := remaining - {u};
      }
      assert Responders(users) - remaining == Responders(users);
    }

    /** `UserResponse`: records `resp` for `u` unless `u` was not dealt the
        question or has already answered; no other record changes. */
    method UserResponse(u: string, resp: int)
      requires Valid()
      modifies this
      ensures Valid()
      ensures users == Respond(old(users), u, resp)
    {
      if u !in users {
        return;
      }
      if users[u].response.Some? {
        return;
      }
      users := users[u := users[u].(response := Some(resp))];
    }

    /** The loop of `timeUp` that collects the names of the users who had the
        correct answer: each winner exactly once. */
    method CorrectUsernames() returns (names: seq<string>)
      ensures forall u :: u in names <==> u in Winners(users)
      ensures forall a, b | 0 <= a < b < |names| :: names[a] != names[b]
    {
      names := [];
      var remaining := users.Keys;
      while remaining != {}
        invariant remaining <= users.Keys
        invariant forall u :: u in names <==> u in Winners(users) && u !in remaining
        invariant forall a, b | 0 <= a < b < |names| :: names[a] != names[b]
        decreases remaining
      {
        var u :| u in remaining;
        if HadCorrectAnswer(users[u]) {
          names := names + [u];
        }
        remaining := remaining - {u};
      }
    }
  }
}
