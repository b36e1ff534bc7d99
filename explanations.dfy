/** The explanation and the actual outcome that `submitAnswer` reports with a
    result (backend/src/services/quizService.ts, lines 217-295 and 313-316). */
module Explanations {
  import opened Common
  import opened Numbers
  import opened Market
  import opened QuizRecords
  import opened QuizRules

  /** `percentChange >= 0 ? 'up' : 'down'` */
  function DirectionOf(pc: Num): (d: Direction)
    ensures d == Up <==> IsNonNegative(pc)
  {
    if IsNonNegative(pc) then Up else Down
  }

  function Word(d: Direction, up: string, down: string): string
  {
    if d == Up then up else down
  }

  /** Whether a row matches the query of lines 229-246: dated after UTC
      midnight of the last shown candle's day, up to the midnight ten days
      later. The shown candle keeps only its day, so that midnight is where
      the query starts, whatever the time of the rows. */
  predicate AfterShown(last: ChartCandle, c: Candle)
  {
    Midnight(last.day) < Instant(c) <= Midnight(last.day + FutureDays)
  }

  /** In days: a row matches when it is on the shown day after midnight, on
      one of the nine days after it, or exactly at midnight ten days later. */
  lemma AfterShownDays(last: ChartCandle, c: Candle)
    ensures AfterShown(last, c) <==>
      || (c.day == last.day && c.time > 0)
      || last.day < c.day < last.day + FutureDays
      || (c.day == last.day + FutureDays && c.time == 0)
  {
    BetweenMidnights(c, last.day, last.day + FutureDays);
    assert Instant(c) == Midnight(c.day) + c.time;
  }

  /** The query of lines 229-246: of the rows after the last shown candle's
      midnight and up to ten days later, the newest, if any. */
  function LaterRow(last: ChartCandle, series: seq<Candle>): (r: seq<Candle>)
    ensures |r| <= 1
    ensures forall c :: c in r ==> c in series && AfterShown(last, c)
  {
    NewestFirst(Between(series, Midnight(last.day) + 1, Midnight(last.day + FutureDays)), 1)
  }

  /** The explanation of a technical quiz, from the candles it showed and the
      stock's rows, with the percent change it reports (lines 221-253): a
      text exactly when a later row exists, and then the change from the
      last shown close to that row's close; otherwise no text and 0. */
  function TechnicalExplanation(candles: seq<ChartCandle>, series: seq<Candle>): (r: (string, Num))
    ensures r.0 == [] <==> candles == [] || LaterRow(candles[|candles| - 1], series) == []
    ensures r.0 == [] ==> r.1 == Zero
    ensures r.0 != [] ==>
      r.1 == PercentChange(candles[|candles| - 1].close, LaterRow(candles[|candles| - 1], series)[0].close)
  {
    if candles == [] then ("", Zero)
    else
      var last := candles[|candles| - 1];
      var later := LaterRow(last, series);
      if later == [] then ("", Zero)
      else
        var pc := PercentChange(last.close, later[0].close);
        ("The stock moved " + Word(DirectionOf(pc), "up", "down") + " by " + Fixed2(Abs(pc))
           + "% over the next 10 days.", pc)
  }

  /** One of the optional parts of a fundamental explanation: present only
      when the snapshot's value is truthy. */
  function Clause(v: Value, before: string, after: string): string
  {
    if v.truthy then before + v.text + after else ""
  }

  /** The fixed parts of a fundamental explanation (lines 258-268). */
  const FromText := "Based on the fundamentals from "
  const PeText := " P/E ratio was "
  const GrowthText := " revenue growth was "
  const MarginsText := " profit margin was "

  /** The first sentence part of a fundamental explanation (line 258). */
  function Opening(snapshot: Snapshot): string
  {
    OpeningFor(Get(snapshot, "date").text)
  }

  /** "Based on the fundamentals from <date>:" */
  function OpeningFor(date: string): string
  {
    FromText + date + ":"
  }

  /** The metrics the explanation mentions (lines 260-268). */
  function Metrics(snapshot: Snapshot): string
  {
    Clause(Get(snapshot, "pe"), PeText, ",")
      + Clause(Get(snapshot, "revenueGrowth"), GrowthText, "%,")
      + Clause(Get(snapshot, "margins"), MarginsText, "%,")
  }

  /** The text before the outcome (lines 258-268). */
  function FundamentalHeading(snapshot: Snapshot): string
  {
    Opening(snapshot) + Metrics(snapshot)
  }

  /** The query of lines 271-287: the rows from UTC midnight of the
      snapshot's date to the midnight 30 days later, oldest first. A date
      that does not read as a date makes `new Date` invalid, and Prisma
      Client refuses the query: `None`. */
  function ReportWindow(snapshot: Snapshot, series: seq<Candle>): (r: Option<seq<Candle>>)
    ensures r.None? <==> ParseNat(Get(snapshot, "date").text).None?
    ensures r.Some? ==>
      var day := ParseNat(Get(snapshot, "date").text).value;
      forall c :: c in r.value <==> c in series && Midnight(day) <= Instant(c) <= Midnight(day + ReportHorizon)
  {
    match ParseNat(Get(snapshot, "date").text)
    case None => None
    case Some(day) => Some(Between(series, Midnight(day), Midnight(day + ReportHorizon)))
  }

  /** The closing part of a fundamental explanation (line 293). */
  function ResultClause(pc: Num): (s: string)
    ensures |s| >= 2 && s[|s| - 2..] == "%."
  {
    " resulting in a " + Word(DirectionOf(pc), "rise", "fall") + " of " + Fixed2(Abs(pc)) + "%."
  }

  /** The explanation of a fundamental quiz, with the percent change it
      reports (lines 254-294); the refused query when the snapshot's date
      is unreadable. Otherwise the text opens with the date. */
  function FundamentalExplanation(snapshot: Snapshot, series: seq<Candle>): (r: Result<(string, Num)>)
    ensures r.Err? <==> ReportWindow(snapshot, series).None?
    ensures r.Err? ==> r.failure == InvalidQuery
    ensures r.Ok? ==> r.value == WithOutcome(FundamentalHeading(snapshot), ReportWindow(snapshot, series).value)
  {
    match ReportWindow(snapshot, series)
    case None => Err(InvalidQuery)
    case Some(rows) => Ok(WithOutcome(FundamentalHeading(snapshot), rows))
  }

  /** The heading, followed by the outcome over the window's rows when it
      holds at least two (lines 289-294): the text keeps the heading in
      front, and the change is first to last close, or 0 with fewer rows. */
  function WithOutcome(heading: string, rows: seq<Candle>): (r: (string, Num))
    ensures |r.0| >= |heading| && r.0[..|heading|] == heading
    ensures |rows| < 2 ==> r == (heading, Zero)
    ensures |rows| >= 2 ==>
      && r.1 == PercentChange(rows[0].close, rows[|rows| - 1].close)
      && r.0 == heading + ResultClause(r.1)
  {
    if |rows| >= 2 then
      var pc := PercentChange(rows[0].close, rows[|rows| - 1].close);
      PrefixOfConcat(heading, ResultClause(pc));
      (heading + ResultClause(pc), pc)
    else
      (heading, Zero)
  }

  /** The explanation of a stored quiz, given its stock's rows: a quiz that is
      not technical is explained as a fundamental one, and a payload without
      candles or without a snapshot reads as empty. Only the fundamental
      branch can fail, and only with the refused query. */
  function Explanation(q: Quiz, series: seq<Candle>): (r: Result<(string, Num)>)
    ensures q.quizType == Technical ==> r.Ok?
    ensures r.Err? ==> r.failure == InvalidQuery
  {
    if q.quizType == Technical then
      Ok(TechnicalExplanation(if q.payload.TechnicalPayload? then q.payload.candles else [], series))
    else
      FundamentalExplanation(if q.payload.FundamentalPayload? then q.payload.snapshot else map[], series)
  }

  /** The row the technical explanation compares with is the latest of the
      stock's rows that the query matches, and there is one exactly when the
      query matches any row. */
  lemma LaterRowIsLatest(last: ChartCandle, series: seq<Candle>)
    requires Chronological(series)
    ensures var later := LaterRow(last, series);
      && (later == [] <==> forall c :: c in series ==> !AfterShown(last, c))
      && (later != [] ==>
            && later[0] in series && AfterShown(last, later[0])
            && forall c :: c in series && AfterShown(last, c) ==> c.day <= later[0].day)
  {
    var window := Between(series, Midnight(last.day) + 1, Midnight(last.day + FutureDays));
    var later := LaterRow(last, series);
    if window != [] {
      assert later[0] == window[|window| - 1];
      assert window[0] in window && AfterShown(last, window[0]);
      LastIsLatest(window);
    } else {
      forall c | c in series ensures !AfterShown(last, c) {
        assert c !in window;
      }
    }
  }

  /** A technical explanation is empty and reports 0 unless the query
      matches a row; then it reports the change from the last shown close to
      the close of the latest matching row, with the word the change's sign
      calls for. */
  lemma TechnicalExplanationOutcome(candles: seq<ChartCandle>, series: seq<Candle>)
    requires Chronological(series)
    ensures var (text, pc) := TechnicalExplanation(candles, series);
      && (candles == [] ==> text == "" && pc == Zero)
      && (candles != [] ==>
            var last := candles[|candles| - 1];
            && ((forall c :: c in series ==> !AfterShown(last, c)) ==> text == "" && pc == Zero)
            && (forall c :: c in series && AfterShown(last, c) ==>
                  exists latest :: latest in series && AfterShown(last, latest)
                    && c.day <= latest.day
                    && pc == PercentChange(last.close, latest.close)
                    && text == "The stock moved " + Word(DirectionOf(pc), "up", "down") + " by "
                                 + Fixed2(Abs(pc)) + "% over the next 10 days."))
  {
    if candles != [] {
      var last := candles[|candles| - 1];
      LaterRowIsLatest(last, series);
      var later := LaterRow(last, series);
      if later != [] {
        var latest := later[0];
        assert TechnicalExplanation(candles, series).1 == PercentChange(last.close, latest.close);
      }
    }
  }

  /** When every row is stamped at UTC midnight, the query matches exactly
      the rows of the ten days after the last shown day. */
  lemma MidnightRowsAfterShown(last: ChartCandle, series: seq<Candle>)
    requires forall c :: c in series ==> c.time == 0
    ensures forall c :: c in series ==> (AfterShown(last, c) <==> last.day < c.day <= last.day + FutureDays)
  {
    forall c | c in series ensures AfterShown(last, c) <==> last.day < c.day <= last.day + FutureDays {
      AfterShownDays(last, c);
    }
  }

  /** When every row carries a time of day after midnight, the row of the
      last shown candle matches the query itself: the explanation is never
      empty, and the row it compares with is at most nine days later. */
  lemma TimedRowsAfterShown(shown: Candle, series: seq<Candle>)
    requires Chronological(series)
    requires shown in series
    requires forall c :: c in series ==> c.time > 0
    ensures var later := LaterRow(ChartRow(shown), series);
      && later != []
      && shown.day <= later[0].day < shown.day + FutureDays
  {
    var last := ChartRow(shown);
    AfterShownDays(last, shown);
    LaterRowIsLatest(last, series);
    var later := LaterRow(last, series);
    AfterShownDays(last, later[0]);
  }

  /** A fundamental explanation always opens with the snapshot's date, and
      when the date reads as one it ends with the outcome exactly when at
      least two rows fall in the window; otherwise it reports 0. */
  lemma FundamentalExplanationShape(snapshot: Snapshot, series: seq<Candle>)
    requires ReportWindow(snapshot, series).Some?
    ensures FundamentalExplanation(snapshot, series).Ok?
    ensures var (text, pc) := FundamentalExplanation(snapshot, series).value;
      var opening := OpeningFor(Get(snapshot, "date").text);
      var rows := ReportWindow(snapshot, series).value;
      && |text| >= |opening| && text[..|opening|] == opening
      && (|rows| < 2 ==> pc == Zero && text == FundamentalHeading(snapshot))
      && (|rows| >= 2 ==>
            && pc == PercentChange(rows[0].close, rows[|rows| - 1].close)
            && |text| >= 2 && text[|text| - 2..] == "%.")
  {
    var (text, pc) := FundamentalExplanation(snapshot, series).value;
    var heading := FundamentalHeading(snapshot);
    HeadingOpensWithDate(snapshot);
    PrefixOfPrefix(text, heading, |Opening(snapshot)|);
    if |ReportWindow(snapshot, series).value| >= 2 {
      SuffixOfConcat(heading, ResultClause(pc), 2);
    }
  }

  lemma HeadingOpensWithDate(snapshot: Snapshot)
    ensures var opening := OpeningFor(Get(snapshot, "date").text);
      var heading := FundamentalHeading(snapshot);
      |heading| >= |opening| && heading[..|opening|] == opening
  {
    PrefixOfConcat(Opening(snapshot), Metrics(snapshot));
  }

  lemma PrefixOfPrefix(a: string, b: string, k: nat)
    requires |a| >= |b| && a[..|b|] == b && k <= |b|
    ensures a[..k] == b[..k]
  {
    assert a[..k] == a[..|b|][..k];
  }

  lemma AppendThree(a: string, b: string, c: string, d: string)
    ensures a + b + c + d == a + (b + c + d)
  {
  }

  lemma PrefixOfConcat(a: string, b: string)
    ensures (a + b)[..|a|] == a
  {
  }

  lemma SuffixOfConcat(a: string, b: string, k: nat)
    requires k <= |b|
    ensures (a + b)[|a + b| - k..] == b[|b| - k..]
  {
  }

  /** Read back from the snapshot, the report's date gives the window from
      UTC midnight of the report's day; for a report stamped at midnight
      that is the very window the quiz was built from. */
  lemma SnapshotWindow(f: Report, series: seq<Candle>)
    requires "date" !in f.fields
    ensures Get(MakeSnapshot(f), "date").text == NatText(f.reportDay)
    ensures ReportWindow(MakeSnapshot(f), series)
         == Some(Between(series, Midnight(f.reportDay), Midnight(f.reportDay + ReportHorizon)))
    ensures f.reportTime == 0 ==> ReportWindow(MakeSnapshot(f), series) == Some(ReportPrices(f, series))
  {
    ParseNatText(f.reportDay);
  }

  /** For a report stamped at UTC midnight, the explanation looks at the
      same rows the quiz was built from (when the report has no `date` field
      of its own), so it reports the very change that decided the answer,
      and an 'up' answer is explained as a rise. */
  lemma ExplainsFundamentalQuiz(symbol: Symbol, f: Report, series: seq<Candle>)
    requires "date" !in f.fields && f.reportTime == 0
    requires FundamentalQuiz(symbol, f, ReportPrices(f, series)).Ok?
    ensures FundamentalExplanation(MakeSnapshot(f), series).Ok?
    ensures var d := FundamentalQuiz(symbol, f, ReportPrices(f, series)).value;
      var rows := ReportPrices(f, series);
      var (text, pc) := FundamentalExplanation(MakeSnapshot(f), series).value;
      var opening := OpeningFor(NatText(f.reportDay));
      && pc == PercentChange(rows[0].close, rows[|rows| - 1].close)
      && (d.correctAnswer == Up ==> DirectionOf(pc) == Up)
      && |text| >= |opening| && text[..|opening|] == opening
  {
    var rows := ReportPrices(f, series);
    var snapshot := MakeSnapshot(f);
    var heading := FundamentalHeading(snapshot);
    QuizWindowExplained(f, series);
    var text := WithOutcome(heading, rows).0;
    HeadingOpensWithDate(snapshot);
    PrefixOfPrefix(text, heading, |Opening(snapshot)|);
    RisesIffPositive(rows[0].close, rows[|rows| - 1].close);
  }

  lemma QuizWindowExplained(f: Report, series: seq<Candle>)
    requires "date" !in f.fields && f.reportTime == 0
    ensures Get(MakeSnapshot(f), "date").text == NatText(f.reportDay)
    ensures FundamentalExplanation(MakeSnapshot(f), series)
         == Ok(WithOutcome(FundamentalHeading(MakeSnapshot(f)), ReportPrices(f, series)))
  {
    SnapshotWindow(f, series);
  }

  /** For a report stamped later in the day than every price row, as when
      both are stamped while seeding, the two windows are a day apart: the
      quiz reads the rows of days +1 to +30 after the report's day, the
      explanation those of days 0 to +29. */
  lemma ShiftedWindows(f: Report, series: seq<Candle>)
    requires "date" !in f.fields
    requires forall c :: c in series ==> 0 < c.time < f.reportTime
    ensures forall c :: c in ReportPrices(f, series) <==>
      c in series && f.reportDay < c.day <= f.reportDay + ReportHorizon
    ensures ReportWindow(MakeSnapshot(f), series).Some?
    ensures forall c :: c in ReportWindow(MakeSnapshot(f), series).value <==>
      c in series && f.reportDay <= c.day < f.reportDay + ReportHorizon
  {
    SnapshotWindow(f, series);
    forall c | c in series
      ensures ReportInstant(f) <= Instant(c) <= ReportInstant(f) + ReportHorizon * DayLength
          <==> f.reportDay < c.day <= f.reportDay + ReportHorizon
    {
      assert Instant(c) == Midnight(c.day) + c.time;
      assert ReportInstant(f) == Midnight(f.reportDay) + f.reportTime;
    }
    forall c | c in series
      ensures Midnight(f.reportDay) <= Instant(c) <= Midnight(f.reportDay + ReportHorizon)
          <==> f.reportDay <= c.day < f.reportDay + ReportHorizon
    {
      BetweenMidnights(c, f.reportDay, f.reportDay + ReportHorizon);
    }
  }
}
