/** The quiz routes (backend/src/routes/quiz.ts): the request schemas and how
    each route hands its request to the quiz service. */
module QuizRoutes {
  import opened Common
  import opened QuizRecords
  import opened Users
  import opened Leaderboard
  import opened Store
  import opened Explanations
  import opened QuizService
  import opened AuthRoutes

  const DefaultLimit := 50
  const MaxLimit := 100

  /** `quizTypeSchema.safeParse(req.query.type)`, falling back to a technical
      quiz for anything but the two known names (lines 23-24). */
  function ResolveQuizType(query: Option<string>): (t: QuizType)
    ensures t == Fundamental <==> query == Some("fundamental")
  {
    match query
    case Some(name) => if name == "fundamental" then Fundamental else Technical
    case None => Technical
  }

  /** `answerSchema.parse(req.body)` (lines 13-15, 43). */
  function ParseAnswer(body: Json): (r: Result<Direction>)
    ensures r.Ok? <==> StringField(body, "answer") == Some("up") || StringField(body, "answer") == Some("down")
    ensures r.Ok? ==> (r.value == Up <==> StringField(body, "answer") == Some("up"))
    ensures r.Err? ==> r.failure == ValidationError
  {
    match StringField(body, "answer")
    case Some(word) =>
      if word == "up" then Ok(Up) else if word == "down" then Ok(Down) else Err(ValidationError)
    case None => Err(ValidationError)
  }

  /** `leaderboardSchema.parse(req.query)` and the `slice(0, limit)` that uses
      it (lines 16-18, 56): 50 when absent, refused outside 1 to 100, and a
      fractional limit counts as its whole part. */
  function ParseLimit(query: Option<real>): (r: Result<nat>)
    ensures query.None? ==> r == Ok(DefaultLimit)
    ensures query.Some? ==> (r.Ok? <==> 1.0 <= query.value <= 100.0)
    ensures r.Err? ==> r.failure == ValidationError
    ensures r.Ok? && query.Some? ==> r.value as real <= query.value < r.value as real + 1.0
    ensures r.Ok? ==> 1 <= r.value <= MaxLimit
  {
    match query
    case None => Ok(DefaultLimit)
    case Some(x) => if 1.0 <= x <= 100.0 then Ok(x.Floor) else Err(ValidationError)
  }

  /** `GET /` (lines 21-37): generates a quiz of the resolved type with the
      matching generator and returns it. */
  method GetQuiz(db: Database, typeQuery: Option<string>) returns (r: Result<QuizResponse>)
    requires db.Valid()
    modifies db`quizzes
    ensures db.Valid()
    ensures ResolveQuizType(typeQuery) == Technical ==> TechnicalGenerated(db.prices, old(db.quizzes), db.quizzes, r)
    ensures ResolveQuizType(typeQuery) == Fundamental ==>
      FundamentalGenerated(db.prices, db.fundamentals, old(db.quizzes), db.quizzes, r)
    ensures r.Ok? ==> r.value.quizType == ResolveQuizType(typeQuery)
  {
    if ResolveQuizType(typeQuery) == Technical {
      r := GenerateTechnicalQuiz(db);
    } else {
      r := GenerateFundamentalQuiz(db);
    }
  }

  /** `POST /:id/answer` (lines 40-51): the token middleware runs first, then
      the answer schema, and the answer is recorded for the user the token
      names; every failure leaves the answers as they were. */
  method PostAnswer(db: Database, header: Option<string>, verify: string -> Option<Claims>, quizId: nat, body: Json)
    returns (r: Result<QuizResult>)
    requires db.Valid()
    modifies db`scores
    ensures db.Valid()
    ensures r.Err? ==> db.scores == old(db.scores)
    ensures Authenticate(header, verify).Err? ==> r == Err(Authenticate(header, verify).failure)
    ensures Authenticate(header, verify).Ok? && ParseAnswer(body).Err? ==> r == Err(ValidationError)
    ensures Authenticate(header, verify).Ok? && ParseAnswer(body).Ok? && db.FindQuiz(quizId).None? ==>
      r == Err(QuizNotFound)
    ensures Authenticate(header, verify).Ok? && ParseAnswer(body).Ok? && db.FindQuiz(quizId).Some? ==>
      var userId, q := Authenticate(header, verify).value.userId, db.FindQuiz(quizId).value;
      && (Answered(old(db.scores), userId, quizId) ==> r == Err(AlreadyAnswered))
      && (!Answered(old(db.scores), userId, quizId) ==>
            (r.Ok? <==> Explanation(q, SeriesOf(db.prices, q.symbol)).Ok?))
    ensures r.Ok? ==>
      && Authenticate(header, verify).Ok? && ParseAnswer(body).Ok?
      && var userId := Authenticate(header, verify).value.userId;
      && !Answered(old(db.scores), userId, quizId)
      && db.scores == old(db.scores) + [UserScore(userId, quizId, ParseAnswer(body).value, r.value.correct)]
      && r.value.correct == (ParseAnswer(body).value == db.FindQuiz(quizId).value.correctAnswer)
      && r.value.score == (if r.value.correct then PointsForCorrect else 0)
  {
    var claims := Authenticate(header, verify);
    if claims.Err? {
      return Err(claims.failure);
    }
    var answer := ParseAnswer(body);
    if answer.Err? {
      return Err(answer.failure);
    }
    r := SubmitAnswer(db, claims.value.userId, quizId, answer.value);
  }

  /** `GET /leaderboard` (lines 54-63): a limit the schema refuses is a
      validation error; otherwise at most that many rows, highest score
      first, each the true tally of a distinct user who has answered. */
  function LeaderboardRoute(users: seq<User>, scores: seq<UserScore>, limitQuery: Option<real>): (r: Result<seq<Entry>>)
    ensures r.Err? <==> ParseLimit(limitQuery).Err?
    ensures r.Err? ==> r.failure == ValidationError
    ensures r.Ok? ==>
      && |r.value| == Min(ParseLimit(limitQuery).value, |UsersInOrder(scores)|)
      && |r.value| <= MaxLimit
      && SortedByScore(r.value)
      && DistinctUsers(r.value)
      && (forall e :: e in r.value ==> HasRecord(scores, e.userId) && e == MakeEntry(users, scores, e.userId))
  {
    match ParseLimit(limitQuery)
    case Err(e) => Err(e)
    case Ok(limit) =>
      BoardShape(users, scores, limit);
      Ok(Board(users, scores, limit))
  }

  /** Without a limit the leaderboard shows the top 50, or everyone who has
      answered when fewer have. */
  lemma DefaultLeaderboard(users: seq<User>, scores: seq<UserScore>)
    ensures LeaderboardRoute(users, scores, None).Ok?
    ensures |LeaderboardRoute(users, scores, None).value| == Min(50, |UsersInOrder(scores)|)
  {
  }
}
