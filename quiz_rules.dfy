/** The pure rules the quiz engine applies when it builds a quiz: the candle
    window of a technical quiz, the report window of a fundamental quiz, and
    the rule that turns a price move into the correct answer
    (backend/src/services/quizService.ts). */
module QuizRules {
  import opened Common
  import opened Numbers
  import opened Market
  import opened QuizRecords

  /** `correctAnswer = percentChange > 0 ? 'up' : 'down'` */
  function AnswerFromChange(start: nat, end: nat): (d: Direction)
    ensures d == Up <==> end > start
  {
    RisesIffPositive(start, end);
    if IsPositive(PercentChange(start, end)) then Up else Down
  }

  /** The candles of a technical quiz: those shown, those hidden after them,
      and the answer the hidden ones give. */
  datatype Window = Window(visible: seq<ChartCandle>, future: seq<ChartCandle>, correctAnswer: Direction)

  const HistoryDays := 90
  const MinHistory := 60
  const MaxVisible := 60
  const FutureDays := 10

  /** Splits the (at most 90) newest candles, given newest first as the query
      returns them, into the visible chart and the candles to predict
      (lines 34-61). */
  function WindowCandles(newestFirst: seq<Candle>): (r: Result<Window>)
    ensures r.Err? <==> |newestFirst| < MinHistory
    ensures r.Err? ==> r.failure == HttpError(404, "Insufficient historical data for technical quiz")
    ensures r.Ok? ==>
      var candles, shown := Chart(Reverse(newestFirst)), Min(MaxVisible, |newestFirst| - FutureDays);
      && r.value.visible == candles[..shown]
      && r.value.future == candles[shown..shown + FutureDays]
    ensures r.Ok? ==>
      var w := r.value;
      w.correctAnswer == Up <==> w.future[FutureDays - 1].close > w.visible[|w.visible| - 1].close
  {
    var n := |newestFirst|;
    if n < MinHistory then
      Err(HttpError(404, "Insufficient historical data for technical quiz"))
    else
      var candles := Chart(Reverse(newestFirst));
      var visibleDays := Min(MaxVisible, n - FutureDays);
      var visible := candles[..visibleDays];
      var future := candles[visibleDays..Min(visibleDays + FutureDays, n)];
      if |future| < 5 then
        Err(HttpError(404, "Insufficient future data for prediction"))
      else
        Ok(Window(visible, future, AnswerFromChange(visible[|visible| - 1].close, future[|future| - 1].close)))
  }

  /** The quiz built from the newest daily rows of a stock (lines 23-89). */
  function TechnicalQuiz(symbol: Symbol, newestFirst: seq<Candle>): (r: Result<Draft>)
    ensures r.Err? <==> |newestFirst| < MinHistory
    ensures r.Err? ==> r.failure == HttpError(404, "Insufficient historical data for technical quiz")
    ensures r.Ok? ==> r.value.quizType == Technical && r.value.horizonDays == FutureDays
    ensures r.Ok? ==> r.value.payload.TechnicalPayload? && r.value.payload.symbol == symbol
  {
    match WindowCandles(newestFirst)
    case Err(e) => Err(e)
    case Ok(w) =>
      var payload := TechnicalPayload(symbol, w.visible, NatText(|w.visible|) + " days", FutureDays);
      Ok(Draft(Technical, symbol, w.correctAnswer, payload, FutureDays))
  }

  /** With the newest rows put back oldest first: the first min(60, k - 10)
      of the k rows are shown, the 10 after them are hidden, and the answer is
      'up' exactly when the last hidden close is above the last shown one. */
  lemma TechnicalQuizWindow(symbol: Symbol, newestFirst: seq<Candle>)
    ensures var rows, shown := Reverse(newestFirst), Min(MaxVisible, |newestFirst| - FutureDays);
      var r := TechnicalQuiz(symbol, newestFirst);
      && (r.Ok? ==> r.value.payload == TechnicalPayload(symbol, Chart(rows[..shown]), NatText(shown) + " days", FutureDays))
      && (r.Ok? ==> (r.value.correctAnswer == Up <==> rows[shown + FutureDays - 1].close > rows[shown - 1].close))
  {
    if |newestFirst| >= MinHistory {
      var w := WindowCandles(newestFirst).value;
      var rows, shown := Reverse(newestFirst), Min(MaxVisible, |newestFirst| - FutureDays);
      ChartSlice(rows, 0, shown);
      assert rows[0..shown] == rows[..shown];
      assert w.visible[shown - 1] == ChartRow(rows[shown - 1]);
      assert w.future[FutureDays - 1] == ChartRow(rows[shown + FutureDays - 1]);
    }
  }

  /** Of a stock's rows kept oldest first, the shown candles are the oldest
      part of the 90 newest, and so are oldest first too. */
  lemma TechnicalCandlesInOrder(symbol: Symbol, series: seq<Candle>)
    requires Chronological(series)
    requires TechnicalQuiz(symbol, NewestFirst(series, HistoryDays)).Ok?
    ensures var k := Min(HistoryDays, |series|);
      var start, shown := |series| - k, Min(MaxVisible, k - FutureDays);
      var candles := TechnicalQuiz(symbol, NewestFirst(series, HistoryDays)).value.payload.candles;
      candles == Chart(series[start..start + shown]) && ChartInOrder(candles)
  {
    var k := Min(HistoryDays, |series|);
    var start, shown := |series| - k, Min(MaxVisible, k - FutureDays);
    var newest := NewestFirst(series, HistoryDays);
    ShownCandles(symbol, newest);
    PrefixOfSuffix(series, start, shown);
    ChronologicalSlice(series, start, start + shown);
    ChartKeepsOrder(series[start..start + shown]);
  }

  /** The shown candles of a technical quiz, oldest first. */
  lemma ShownCandles(symbol: Symbol, newestFirst: seq<Candle>)
    requires TechnicalQuiz(symbol, newestFirst).Ok?
    ensures |newestFirst| >= MinHistory
    ensures TechnicalQuiz(symbol, newestFirst).value.payload.candles
         == Chart(Reverse(newestFirst)[..Min(MaxVisible, |newestFirst| - FutureDays)])
  {
    TechnicalQuizWindow(symbol, newestFirst);
  }

  lemma PrefixOfSuffix<T>(s: seq<T>, start: nat, k: nat)
    requires start + k <= |s|
    ensures s[start..][..k] == s[start..start + k]
  {
  }

  /** The report a fundamental quiz is built from: one with the latest
      report date. */
  predicate IsLatest(f: Report, reports: seq<Report>)
  {
    f in reports && forall g :: g in reports ==> ReportInstant(g) <= ReportInstant(f)
  }

  lemma {:induction false} LatestExists(reports: seq<Report>)
    requires reports != []
    ensures exists f :: IsLatest(f, reports)
  {
    if |reports| > 1 {
      LatestExists(reports[1..]);
      var f :| IsLatest(f, reports[1..]);
      if ReportInstant(reports[0]) <= ReportInstant(f) {
        assert IsLatest(f, reports);
      } else {
        assert IsLatest(reports[0], reports);
      }
    } else {
      assert IsLatest(reports[0], reports);
    }
  }

  const MinReportPrices := 20
  const ReportHorizon := 30

  /** The query of lines 120-137: the rows from the report's instant to the
      same time 30 days later, oldest first. */
  function ReportPrices(f: Report, series: seq<Candle>): (r: seq<Candle>)
    ensures forall c :: c in r <==>
      c in series && ReportInstant(f) <= Instant(c) <= ReportInstant(f) + ReportHorizon * DayLength
  {
    Between(series, ReportInstant(f), ReportInstant(f) + ReportHorizon * DayLength)
  }

  /** The quiz built from a stock's latest report and the daily rows of the
      30 days from its report date, oldest first (lines 120-186). */
  function FundamentalQuiz(symbol: Symbol, f: Report, prices: seq<Candle>): (r: Result<Draft>)
    ensures r.Err? <==> |prices| < MinReportPrices
    ensures r.Err? ==> r.failure == HttpError(404, "Insufficient price data for fundamental quiz")
    ensures r.Ok? ==> r.value.payload == FundamentalPayload(symbol, MakeSnapshot(f), ReportHorizon)
    ensures r.Ok? ==> r.value.quizType == Fundamental && r.value.horizonDays == ReportHorizon
    ensures r.Ok? ==> (r.value.correctAnswer == Up <==> prices[|prices| - 1].close > prices[0].close)
  {
    if |prices| < MinReportPrices then
      Err(HttpError(404, "Insufficient price data for fundamental quiz"))
    else
      var answer := AnswerFromChange(prices[0].close, prices[|prices| - 1].close);
      Ok(Draft(Fundamental, symbol, answer, FundamentalPayload(symbol, MakeSnapshot(f), ReportHorizon), ReportHorizon))
  }
}
