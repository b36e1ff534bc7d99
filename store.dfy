/** The database the quiz engine and the auth routes talk to, held in memory:
    the `quiz`, `userScore` and `user` tables, which the engine writes, and the
    `ohlcv` and `fundamentals` tables, which it only reads. */
module Store {
  import opened Common
  import opened Market
  import opened QuizRecords
  import opened Users

  /** Whether `scores` holds an answer of `userId` to `quizId`:
      `userScore.findUnique({ where: { userId_quizId } })` finding a row. */
  predicate Answered(scores: seq<UserScore>, userId: nat, quizId: nat)
  {
    exists r :: r in scores && r.userId == userId && r.quizId == quizId
  }

  /** The unique index on (userId, quizId): at most one answer per user and quiz. */
  ghost predicate OneAnswerEach(scores: seq<UserScore>)
  {
    forall i, j :: 0 <= i < j < |scores| ==>
      scores[i].userId != scores[j].userId || scores[i].quizId != scores[j].quizId
  }

  /** A stock's daily rows, oldest first; none for an unknown stock. */
  function SeriesOf(prices: map<Symbol, seq<Candle>>, symbol: Symbol): (s: seq<Candle>)
    ensures symbol !in prices ==> s == []
    ensures (forall t :: t in prices ==> Chronological(prices[t])) ==> Chronological(s)
  {
    if symbol in prices then prices[symbol] else []
  }

  class Database {
    /** The `quiz` table; a quiz's id is its position. */
    var quizzes: seq<Quiz>
    /** The `userScore` table, oldest row first. */
    var scores: seq<UserScore>
    /** The `user` table; a user's id is its position. */
    var users: seq<User>
    /** The daily `ohlcv` rows of each stock, oldest first. */
    var prices: map<Symbol, seq<Candle>>
    /** The `fundamentals` rows of each stock. */
    var fundamentals: map<Symbol, seq<Report>>

    ghost predicate Valid()
      reads this
    {
      && (forall i :: 0 <= i < |quizzes| ==> quizzes[i].id == i)
      && (forall i :: 0 <= i < |users| ==> users[i].id == i)
      && UniqueUsernames(users)
      && OneAnswerEach(scores)
      && (forall r :: r in scores ==> r.quizId < |quizzes|)
      && (forall s :: s in prices ==> Chronological(prices[s]))
    }

    /** Empty quiz, score and user tables over the given market data. */
    constructor (prices: map<Symbol, seq<Candle>>, fundamentals: map<Symbol, seq<Report>>)
      requires forall s :: s in prices ==> Chronological(prices[s])
      ensures Valid()
      ensures quizzes == [] && scores == [] && users == []
      ensures this.prices == prices && this.fundamentals == fundamentals
    {
      quizzes, scores, users := [], [], [];
      this.prices, this.fundamentals := prices, fundamentals;
    }

    /** `quiz.findUnique({ where: { id } })` */
    function FindQuiz(id: nat): (r: Option<Quiz>)
      reads this
      requires Valid()
      ensures r.Some? <==> exists q :: q in quizzes && q.id == id
      ensures r.Some? ==> r.value in quizzes && r.value.id == id
    {
      if id < |quizzes| then Some(quizzes[id]) else None
    }

    /** `quiz.create`: the table gives the draft the next id. */
    method AddQuiz(d: Draft) returns (q: Quiz)
      requires Valid()
      modifies this`quizzes
      ensures Valid()
      ensures q == Quiz(|old(quizzes)|, d.quizType, d.symbol, d.correctAnswer, d.payload)
      ensures quizzes == old(quizzes) + [q]
    {
      q := Quiz(|quizzes|, d.quizType, d.symbol, d.correctAnswer, d.payload);
      quizzes := quizzes + [q];
    }

    /** `userScore.create`; the unique index refuses a second answer. */
    method AddScore(r: UserScore)
      requires Valid()
      requires r.quizId < |quizzes| && !Answered(scores, r.userId, r.quizId)
      modifies this`scores
      ensures Valid()
      ensures scores == old(scores) + [r]
    {
      scores := scores + [r];
    }

    /** `user.create`; the unique index refuses a taken username. */
    method AddUser(username: string, passwordHash: Option<Digest>, createdAt: int) returns (u: User)
      requires Valid()
      requires FindByUsername(users, username).None?
      modifies this`users
      ensures Valid()
      ensures u == User(|old(users)|, username, passwordHash, createdAt)
      ensures users == old(users) + [u]
    {
      u := User(|users|, username, passwordHash, createdAt);
      users := users + [u];
    }
  }
}
