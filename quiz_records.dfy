/** The records of the quiz engine: quizzes, their payloads, and the
    snapshot object a fundamental quiz shows
    (backend/src/services/quizService.ts). */
module QuizRecords {
  import opened Numbers
  import opened Market

  datatype Direction = Up | Down

  datatype QuizType = Technical | Fundamental

  /** A JavaScript value inside a fundamentals report, kept as the text a
      template literal prints for it and whether it is truthy. */
  datatype Value = Value(text: string, truthy: bool)

  /** What reading a missing property gives. */
  const Undefined := Value("undefined", false)

  type Snapshot = map<string, Value>

  /** One row of the `fundamentals` table: its report date, the instant
      `reportDay * DayLength + reportTime`, and its metrics. */
  datatype Report = Report(reportDay: nat, reportTime: TimeOfDay, fields: map<string, Value>)

  /** The instant `reportDate` of a report, in milliseconds. */
  function ReportInstant(f: Report): (t: nat)
    ensures Midnight(f.reportDay) <= t < Midnight(f.reportDay + 1)
  {
    f.reportDay * DayLength + f.reportTime
  }

  /** The payload stored with a quiz and shown to the player; it has no place
      for the correct answer. */
  datatype Payload =
    | TechnicalPayload(symbol: Symbol, candles: seq<ChartCandle>, chartPeriod: string, predictionDays: nat)
    | FundamentalPayload(symbol: Symbol, snapshot: Snapshot, predictionDays: nat)

  /** A row of the `quiz` table. */
  datatype Quiz = Quiz(id: nat, quizType: QuizType, symbol: Symbol, correctAnswer: Direction, payload: Payload)

  /** What a generated quiz looks like before the table gives it an id. */
  datatype Draft = Draft(quizType: QuizType, symbol: Symbol, correctAnswer: Direction, payload: Payload, horizonDays: nat)

  /** A row of the `userScore` table: one user's answer to one quiz. */
  datatype UserScore = UserScore(userId: nat, quizId: nat, answer: Direction, correct: bool)

  /** The `actualOutcome` of a result. */
  datatype Outcome = Outcome(percentChange: Num, direction: Direction)

  /** What `submitAnswer` returns. */
  datatype QuizResult = QuizResult(correct: bool, explanation: string, actualOutcome: Outcome, score: nat)

  /** What the quiz endpoint returns: the stored quiz without its answer. */
  datatype QuizResponse = QuizResponse(id: nat, quizType: QuizType, symbol: Symbol, payload: Payload, horizonDays: nat)

  /** JavaScript's property read, with `undefined` for a missing key. */
  function Get(fields: map<string, Value>, key: string): (v: Value)
    ensures key !in fields ==> v == Undefined
  {
    if key in fields then fields[key] else Undefined
  }

  /** JavaScript's `a || b`: the first operand when it is truthy, otherwise
      the second; truthy exactly when either is. */
  function Or(a: Value, b: Value): (r: Value)
    ensures a.truthy ==> r == a
    ensures !a.truthy ==> r == b
    ensures r.truthy <==> a.truthy || b.truthy
  {
    if a.truthy then a else b
  }

  /** The snapshot object of lines 151-160: seven named entries, then every
      field of the report spread over them. */
  function MakeSnapshot(f: Report): (s: Snapshot)
    ensures forall key :: key in s <==> key in f.fields || key in SnapshotKeys
    ensures forall key :: key in f.fields ==> s[key] == f.fields[key]
    ensures "date" !in f.fields ==> s["date"] == Value(NatText(f.reportDay), true)
    ensures "pe" !in f.fields ==> s["pe"] == Or(Get(f.fields, "peRatio"), Undefined)
    ensures "margins" !in f.fields ==> s["margins"] == Or(Get(f.fields, "profitMargin"), Undefined)
    ensures "eps" !in f.fields ==> s["eps"] == Undefined
    ensures "revenue" !in f.fields ==> s["revenue"] == Undefined
    ensures "revenueGrowth" !in f.fields ==> s["revenueGrowth"] == Undefined
    ensures "debtToEquity" !in f.fields ==> s["debtToEquity"] == Undefined
  {
    var fd := f.fields;
    map[
      "date" := Value(NatText(f.reportDay), true),
      "pe" := Or(Get(fd, "peRatio"), Get(fd, "pe")),
      "eps" := Get(fd, "eps"),
      "revenue" := Get(fd, "revenue"),
      "revenueGrowth" := Get(fd, "revenueGrowth"),
      "margins" := Or(Get(fd, "profitMargin"), Get(fd, "margins")),
      "debtToEquity" := Get(fd, "debtToEquity")
    ] + fd
  }

  const SnapshotKeys: set<string> := {"date", "pe", "eps", "revenue", "revenueGrowth", "margins", "debtToEquity"}
}
