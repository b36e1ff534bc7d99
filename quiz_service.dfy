/** `QuizService` (backend/src/services/quizService.ts) over the in-memory
    database: generating the two kinds of quiz, answering one, and the
    leaderboard. */
module QuizService {
  import opened Common
  import opened Numbers
  import opened Market
  import opened QuizRecords
  import opened QuizRules
  import opened Users
  import opened Leaderboard
  import opened Explanations
  import opened Store

  const NoPriceStock := HttpError(404, "No stock data available for technical quiz")
  const NoReportStock := HttpError(404, "No fundamental data available for quiz")
  const QuizNotFound := HttpError(404, "Quiz not found")
  const AlreadyAnswered := HttpError(409, "Quiz already answered")
  const PointsForCorrect := 100

  /** The stored row of a generated quiz. */
  function Stored(id: nat, d: Draft): Quiz
  {
    Quiz(id, d.quizType, d.symbol, d.correctAnswer, d.payload)
  }

  /** What the quiz endpoint returns for a generated quiz: everything but the
      answer. */
  function Respond(id: nat, d: Draft): QuizResponse
  {
    QuizResponse(id, d.quizType, d.symbol, d.payload, d.horizonDays)
  }

  /** The technical quiz a stock's rows give: built from its 90 newest. */
  function TechnicalDraft(symbol: Symbol, series: seq<Candle>): Result<Draft>
  {
    TechnicalQuiz(symbol, NewestFirst(series, HistoryDays))
  }

  /** Stores a generated quiz, or passes its failure on. */
  method StoreDraft(db: Database, draft: Result<Draft>) returns (r: Result<QuizResponse>)
    requires db.Valid()
    modifies db`quizzes
    ensures db.Valid()
    ensures r.Err? <==> draft.Err?
    ensures r.Err? ==> r.failure == draft.failure && db.quizzes == old(db.quizzes)
    ensures r.Ok? ==>
      && db.quizzes == old(db.quizzes) + [Stored(|old(db.quizzes)|, draft.value)]
      && r.value == Respond(|old(db.quizzes)|, draft.value)
  {
    if draft.Err? {
      return Err(draft.failure);
    }
    var q := db.AddQuiz(draft.value);
    r := Ok(Respond(q.id, draft.value));
  }

  /** The fundamental quiz a stock's report gives: built with the rows of
      the 30 days from the report's date. */
  function FundamentalDraft(symbol: Symbol, f: Report, series: seq<Candle>): Result<Draft>
  {
    FundamentalQuiz(symbol, f, ReportPrices(f, series))
  }

  /** What `generateTechnicalQuiz` does with the quiz table `before`, giving
      `after` and the result `r`: a "No stock data" 404 exactly when no stock
      has rows; otherwise the quiz of some stock with rows, stored under the
      next id and returned without its answer, or that quiz's failure with
      nothing stored. When every stock with rows has at least 60, it
      succeeds. */
  ghost predicate TechnicalGenerated(prices: map<Symbol, seq<Candle>>, before: seq<Quiz>, after: seq<Quiz>,
                                     r: Result<QuizResponse>)
  {
    && (r == Err(NoPriceStock) <==> forall s :: s in prices ==> prices[s] == [])
    && (r.Err? ==> after == before)
    && (r.Err? && r != Err(NoPriceStock) ==>
          exists s :: s in prices && prices[s] != [] && TechnicalDraft(s, prices[s]) == Err(r.failure))
    && (r.Ok? ==>
          var id, s := |before|, r.value.symbol;
          && s in prices && prices[s] != []
          && var d := TechnicalDraft(s, prices[s]);
          && d.Ok?
          && after == before + [Stored(id, d.value)]
          && r.value == Respond(id, d.value))
    && ((&& (exists s :: s in prices && prices[s] != [])
         && (forall s :: s in prices && prices[s] != [] ==> |prices[s]| >= MinHistory))
          ==> r.Ok?)
  }

  /** What `generateFundamentalQuiz` does with the quiz table `before`,
      giving `after` and the result `r`: a "No fundamental data" 404 exactly
      when no stock has reports; otherwise the quiz of a latest report of
      some stock with reports, stored under the next id and returned without
      its answer, or that quiz's failure with nothing stored. When every
      latest report of every such stock has at least 20 rows in its window,
      it succeeds. */
  ghost predicate FundamentalGenerated(prices: map<Symbol, seq<Candle>>, fundamentals: map<Symbol, seq<Report>>,
                                       before: seq<Quiz>, after: seq<Quiz>, r: Result<QuizResponse>)
  {
    && (r == Err(NoReportStock) <==> forall s :: s in fundamentals ==> fundamentals[s] == [])
    && (r.Err? ==> after == before)
    && (r.Err? && r != Err(NoReportStock) ==>
          exists s, f :: s in fundamentals && IsLatest(f, fundamentals[s])
                         && FundamentalDraft(s, f, SeriesOf(prices, s)) == Err(r.failure))
    && (r.Ok? ==>
          var id, s := |before|, r.value.symbol;
          exists f :: && s in fundamentals && IsLatest(f, fundamentals[s])
                      && var d := FundamentalDraft(s, f, SeriesOf(prices, s));
                      && d.Ok?
                      && after == before + [Stored(id, d.value)]
                      && r.value == Respond(id, d.value))
    && ((&& (exists s :: s in fundamentals && fundamentals[s] != [])
         && (forall s, f :: s in fundamentals && IsLatest(f, fundamentals[s]) ==>
               |ReportPrices(f, SeriesOf(prices, s))| >= MinReportPrices))
          ==> r.Ok?)
  }

  /** `generateTechnicalQuiz` (lines 8-89): picks any stock that has price
      rows, builds the quiz from its 90 newest rows, stores it and returns it
      without its answer. */
  method GenerateTechnicalQuiz(db: Database) returns (r: Result<QuizResponse>)
    requires db.Valid()
    modifies db`quizzes
    ensures db.Valid()
    ensures TechnicalGenerated(db.prices, old(db.quizzes), db.quizzes, r)
  {
    if !exists s :: s in db.prices && db.prices[s] != [] {
      return Err(NoPriceStock);
    }
    var s :| s in db.prices && db.prices[s] != [];
    var draft := TechnicalDraft(s, db.prices[s]);
    assert draft.Err? ==> |draft.failure.message| == 47 != |NoPriceStock.message|;
    assert draft.Err? ==> |db.prices[s]| < MinHistory;
    r := StoreDraft(db, draft);
    assert s in db.prices && db.prices[s] != [];
  }

  /** `generateFundamentalQuiz` (lines 92-186): picks any stock that has
      reports, takes one of its latest reports, builds the quiz from the 30
      days after it, stores it and returns it without its answer. */
  method GenerateFundamentalQuiz(db: Database) returns (r: Result<QuizResponse>)
    requires db.Valid()
    modifies db`quizzes
    ensures db.Valid()
    ensures FundamentalGenerated(db.prices, db.fundamentals, old(db.quizzes), db.quizzes, r)
  {
    if !exists s :: s in db.fundamentals && db.fundamentals[s] != [] {
      return Err(NoReportStock);
    }
    var s :| s in db.fundamentals && db.fundamentals[s] != [];
    var reports := db.fundamentals[s];
    LatestExists(reports);
    var f :| IsLatest(f, reports);
    var draft := FundamentalDraft(s, f, SeriesOf(db.prices, s));
    assert draft.Err? ==> |draft.failure.message| == 44 != |NoReportStock.message|;
    assert draft.Err? ==> |ReportPrices(f, SeriesOf(db.prices, s))| < MinReportPrices;
    r := StoreDraft(db, draft);
    assert s in db.fundamentals && db.fundamentals[s] != [];
  }

  /** A built quiz, returned, is the stored one without its answer: same
      id, type, symbol and payload, and the horizon its type calls for. */
  ghost predicate RespondsAsStored(id: nat, d: Draft)
  {
    var q, resp := Stored(id, d), Respond(id, d);
    && resp.id == q.id && resp.quizType == q.quizType
    && resp.symbol == q.symbol && resp.payload == q.payload
    && resp.horizonDays == (if q.quizType == Technical then 10 else 30)
  }

  /** Every quiz either generator builds is returned as it is stored, with
      a 10-day horizon for a technical quiz and 30 days for a fundamental
      one. */
  lemma ResponseMatchesStored(id: nat, symbol: Symbol, series: seq<Candle>, f: Report)
    ensures TechnicalDraft(symbol, series).Ok? ==> RespondsAsStored(id, TechnicalDraft(symbol, series).value)
    ensures FundamentalDraft(symbol, f, series).Ok? ==> RespondsAsStored(id, FundamentalDraft(symbol, f, series).value)
  {
  }

  /** The explanation of `submitAnswer` and the percent change it reports
      (lines 217-295), or the refused query. */
  method Explain(db: Database, q: Quiz) returns (r: Result<(string, Num)>)
    ensures r == Explanation(q, SeriesOf(db.prices, q.symbol))
  {
    var series := SeriesOf(db.prices, q.symbol);
    if q.quizType == Technical {
      var candles := if q.payload.TechnicalPayload? then q.payload.candles else [];
      var explanation, percentChange := ExplainTechnical(candles, series);
      r := Ok((explanation, percentChange));
    } else {
      var snapshot := if q.payload.FundamentalPayload? then q.payload.snapshot else map[];
      r := ExplainFundamental(snapshot, series);
    }
  }

  /** The technical branch (lines 222-253). */
  method ExplainTechnical(candles: seq<ChartCandle>, series: seq<Candle>) returns (explanation: string, percentChange: Num)
    ensures (explanation, percentChange) == TechnicalExplanation(candles, series)
  {
    explanation, percentChange := "", Zero;
    if |candles| > 0 {
      var last := candles[|candles| - 1];
      var futureData := LaterRow(last, series);
      if |futureData| > 0 {
        percentChange := PercentChange(last.close, futureData[0].close);
        explanation := "The stock moved " + Word(DirectionOf(percentChange), "up", "down") + " by "
          + Fixed2(Abs(percentChange)) + "% over the next 10 days.";
      }
    }
  }

  /** The fundamental branch (lines 254-295): the query refused for an
      unreadable date ends the request. */
  method ExplainFundamental(snapshot: Snapshot, series: seq<Candle>) returns (r: Result<(string, Num)>)
    ensures r == FundamentalExplanation(snapshot, series)
  {
    var heading := FundamentalText(snapshot);
    var priceData := ReportWindow(snapshot, series);
    if priceData.None? {
      return Err(InvalidQuery);
    }
    var explanation, percentChange := AppendOutcome(heading, priceData.value);
    r := Ok((explanation, percentChange));
  }

  /** The outcome sentence, added when the window holds two rows or more
      (lines 289-294). */
  method AppendOutcome(heading: string, priceData: seq<Candle>) returns (explanation: string, percentChange: Num)
    ensures (explanation, percentChange) == WithOutcome(heading, priceData)
  {
    explanation, percentChange := heading, Zero;
    if |priceData| >= 2 {
      percentChange := PercentChange(priceData[0].close, priceData[|priceData| - 1].close);
      explanation := explanation + ResultClause(percentChange);
    }
  }

  /** The text before the outcome, built part by part (lines 258-268). */
  method FundamentalText(snapshot: Snapshot) returns (explanation: string)
    ensures explanation == FundamentalHeading(snapshot)
  {
    var pe, growth, margins := Get(snapshot, "pe"), Get(snapshot, "revenueGrowth"), Get(snapshot, "margins");
    explanation := FromText + Get(snapshot, "date").text + ":";
    ghost var opening := explanation;
    if pe.truthy {
      explanation := explanation + (PeText + pe.text + ",");
    }
    assert explanation == opening + Clause(pe, PeText, ",");
    ghost var written := explanation;
    if growth.truthy {
      explanation := explanation + (GrowthText + growth.text + "%,");
    }
    assert explanation == written + Clause(growth, GrowthText, "%,");
    written := explanation;
    if margins.truthy {
      explanation := explanation + (MarginsText + margins.text + "%,");
    }
    assert explanation == written + Clause(margins, MarginsText, "%,");
    AppendThree(opening, Clause(pe, PeText, ","), Clause(growth, GrowthText, "%,"), Clause(margins, MarginsText, "%,"));
  }

  /** `submitAnswer` (lines 189-319): refuses an unknown quiz (404) and a
      second answer by the same user (409), writing nothing; a fundamental
      quiz whose snapshot date does not read as a date fails at the price
      query, before anything is written. Otherwise it records exactly one
      answer and reports whether it was right, 100 points or none, and the
      explanation with the actual outcome. */
  method SubmitAnswer(db: Database, userId: nat, quizId: nat, answer: Direction) returns (r: Result<QuizResult>)
    requires db.Valid()
    modifies db`scores
    ensures db.Valid()
    ensures db.FindQuiz(quizId).None? ==> r == Err(QuizNotFound)
    ensures db.FindQuiz(quizId).Some? && Answered(old(db.scores), userId, quizId) ==> r == Err(AlreadyAnswered)
    ensures db.FindQuiz(quizId).Some? && !Answered(old(db.scores), userId, quizId) ==>
      var q := db.FindQuiz(quizId).value;
      && (r.Ok? <==> Explanation(q, SeriesOf(db.prices, q.symbol)).Ok?)
      && (r.Err? ==> r == Err(InvalidQuery))
    ensures r.Err? ==> db.scores == old(db.scores)
    ensures r.Ok? ==>
      var q := db.FindQuiz(quizId).value;
      var correct := answer == q.correctAnswer;
      var (text, pc) := Explanation(q, SeriesOf(db.prices, q.symbol)).value;
      && !Answered(old(db.scores), userId, quizId)
      && db.scores == old(db.scores) + [UserScore(userId, quizId, answer, correct)]
      && r.value == QuizResult(correct, text, Outcome(pc, DirectionOf(pc)), if correct then PointsForCorrect else 0)
    ensures r.Ok? ==> Answered(db.scores, userId, quizId)
  {
    var quiz := db.FindQuiz(quizId);
    if quiz.None? {
      return Err(QuizNotFound);
    }
    var q := quiz.value;
    if Answered(db.scores, userId, quizId) {
      return Err(AlreadyAnswered);
    }
    var correct := answer == q.correctAnswer;
    var explained := Explain(db, q);
    if explained.Err? {
      return Err(explained.failure);
    }
    var (explanation, percentChange) := explained.value;
    var score := if correct then PointsForCorrect else 0;
    db.AddScore(UserScore(userId, quizId, answer, correct));
    r := Ok(QuizResult(correct, explanation, Outcome(percentChange, DirectionOf(percentChange)), score));
  }

  /** A second answer to the same quiz by the same user is refused with 409
      and leaves the answers as the first one left them. */
  method AnswerTwice(db: Database, userId: nat, quizId: nat, first: Direction, second: Direction)
    returns (r1: Result<QuizResult>, r2: Result<QuizResult>)
    requires db.Valid()
    modifies db`scores
    ensures db.Valid()
    ensures r1.Ok? ==> r2 == Err(AlreadyAnswered) && |db.scores| == |old(db.scores)| + 1
  {
    r1 := SubmitAnswer(db, userId, quizId, first);
    r2 := SubmitAnswer(db, userId, quizId, second);
  }
}
