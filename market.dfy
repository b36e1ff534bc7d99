/** Daily price rows (the `ohlcv` table with timeframe '1d') and the two ways
    the quiz engine queries them: the newest rows first, and the rows whose
    date falls in a window, oldest first. */
module Market {
  import opened Common

  type Symbol = string

  /** Milliseconds in a UTC day: a `Date` is a count of milliseconds. */
  const DayLength := 86_400_000

  /** The milliseconds since UTC midnight of an instant. */
  type TimeOfDay = t: nat | t < DayLength

  /** One daily row of the table; prices in cents. Its `dt` is the instant
      `day * DayLength + time`: day number `day`, `time` milliseconds after
      UTC midnight. */
  datatype Candle = Candle(day: nat, time: TimeOfDay, open: nat, high: nat, low: nat, close: nat, volume: nat)

  /** The instant `dt` of a row, in milliseconds. */
  function Instant(c: Candle): (t: nat)
    ensures Midnight(c.day) <= t < Midnight(c.day + 1)
  {
    c.day * DayLength + c.time
  }

  /** `new Date('YYYY-MM-DD')`: UTC midnight of a day. */
  function Midnight(day: int): int
  {
    day * DayLength
  }

  /** A row lies between the midnights of two days, ends included, exactly
      when its day is from the first up to the day before the second, or it
      is the second day's midnight itself. */
  lemma BetweenMidnights(c: Candle, first: int, last: int)
    requires first <= last
    ensures Midnight(first) <= Instant(c) <= Midnight(last) <==>
      first <= c.day < last || (c.day == last && c.time == 0)
  {
    assert Midnight(c.day) <= Instant(c) < Midnight(c.day + 1);
    if c.day < first {
      assert Midnight(c.day + 1) <= Midnight(first);
    } else if c.day > last {
      assert Midnight(last + 1) <= Midnight(c.day);
    } else if c.day < last {
      assert Midnight(first) <= Midnight(c.day) && Midnight(c.day + 1) <= Midnight(last);
    } else {
      assert Instant(c) == Midnight(last) + c.time;
    }
  }

  /** A candle as the chart of a technical quiz shows it:
      `dt: candle.dt.toISOString().split('T')[0]` keeps only the day. */
  datatype ChartCandle = ChartCandle(day: nat, open: nat, high: nat, low: nat, close: nat, volume: nat)

  function ChartRow(c: Candle): (r: ChartCandle)
    ensures r.day == c.day && r.close == c.close
  {
    ChartCandle(c.day, c.open, c.high, c.low, c.close, c.volume)
  }

  /** `map` of `ChartRow` over rows. */
  function Chart(s: seq<Candle>): (r: seq<ChartCandle>)
    ensures |r| == |s|
    ensures forall i :: 0 <= i < |s| ==> r[i] == ChartRow(s[i])
  {
    if s == [] then [] else [ChartRow(s[0])] + Chart(s[1..])
  }

  /** Mapping commutes with slicing. */
  lemma ChartSlice(s: seq<Candle>, a: nat, b: nat)
    requires a <= b <= |s|
    ensures Chart(s)[a..b] == Chart(s[a..b])
  {
  }

  /** Chart days one per day, oldest first. */
  ghost predicate ChartInOrder(s: seq<ChartCandle>)
  {
    forall i, j :: 0 <= i < j < |s| ==> s[i].day < s[j].day
  }

  /** The chart of oldest-first rows is oldest first. */
  lemma ChartKeepsOrder(s: seq<Candle>)
    requires Chronological(s)
    ensures ChartInOrder(Chart(s))
  {
  }

  /** A symbol's daily rows as the table holds them: at most one row per
      day, kept oldest first. */
  ghost predicate Chronological(s: seq<Candle>)
  {
    forall i, j :: 0 <= i < j < |s| ==> s[i].day < s[j].day
  }

  ghost predicate NewestFirstOrder(s: seq<Candle>)
  {
    forall i, j :: 0 <= i < j < |s| ==> s[i].day > s[j].day
  }

  /** `Array.prototype.reverse` as a value. */
  function Reverse<T>(s: seq<T>): (r: seq<T>)
    ensures |r| == |s|
    ensures forall i :: 0 <= i < |s| ==> r[i] == s[|s| - 1 - i]
  {
    if s == [] then [] else Reverse(s[1..]) + [s[0]]
  }

  lemma ReverseReverse<T>(s: seq<T>)
    ensures Reverse(Reverse(s)) == s
  {
    assert forall i :: 0 <= i < |s| ==> Reverse(Reverse(s))[i] == s[i];
  }

  /** `findMany({ where: { symbol }, orderBy: { dt: 'desc' }, take })` over a
      symbol's rows: the `take` newest rows, newest first. */
  function NewestFirst(series: seq<Candle>, take: nat): (r: seq<Candle>)
    ensures |r| == Min(take, |series|)
    ensures Reverse(r) == series[|series| - |r|..]
    ensures Chronological(series) ==> NewestFirstOrder(r)
  {
    var k := Min(take, |series|);
    var r := Reverse(series[|series| - k..]);
    ReverseReverse(series[|series| - k..]);
    NewestRowsOrdered(series, k);
    r
  }

  lemma NewestRowsOrdered(series: seq<Candle>, k: nat)
    requires k <= |series|
    ensures Chronological(series) ==> NewestFirstOrder(Reverse(series[|series| - k..]))
  {
    if Chronological(series) {
      ChronologicalSlice(series, |series| - k, |series|);
      ReversedOrder(series[|series| - k..]);
    }
  }

  /** Reversing oldest-first rows puts them newest first. */
  lemma ReversedOrder(s: seq<Candle>)
    requires Chronological(s)
    ensures NewestFirstOrder(Reverse(s))
  {
    var r := Reverse(s);
    forall i, j | 0 <= i < j < |r| ensures r[i].day > r[j].day {
      assert r[i] == s[|s| - 1 - i] && r[j] == s[|s| - 1 - j];
    }
  }

  /** `findMany({ where: { symbol, dt: { gte: lo, lte: hi } }, orderBy: { dt: 'asc' } })`
      over a symbol's rows kept oldest first; `lo` and `hi` are instants. */
  function Between(series: seq<Candle>, lo: int, hi: int): (r: seq<Candle>)
    ensures forall c :: c in r <==> c in series && lo <= Instant(c) <= hi
    ensures Chronological(series) ==> Chronological(r)
  {
    if series == [] then []
    else
      var rest := Between(series[1..], lo, hi);
      if lo <= Instant(series[0]) <= hi then
        ChronologicalCons(series, rest);
        [series[0]] + rest
      else rest
  }

  lemma ChronologicalCons(series: seq<Candle>, rest: seq<Candle>)
    requires series != []
    requires forall c :: c in rest ==> c in series[1..]
    requires Chronological(series[1..]) ==> Chronological(rest)
    ensures Chronological(series) ==> Chronological([series[0]] + rest)
  {
    if Chronological(series) {
      var r := [series[0]] + rest;
      forall i, j | 0 <= i < j < |r| ensures r[i].day < r[j].day {
        if i == 0 {
          assert r[j] in series[1..];
        } else {
          assert r[i] == rest[i - 1] && r[j] == rest[j - 1];
        }
      }
    }
  }

  /** The last row of a chronological window is its latest one. */
  lemma LastIsLatest(r: seq<Candle>)
    requires Chronological(r) && r != []
    ensures forall c :: c in r ==> c.day <= r[|r| - 1].day
  {
  }

  lemma ChronologicalSlice(s: seq<Candle>, a: nat, b: nat)
    requires a <= b <= |s| && Chronological(s)
    ensures Chronological(s[a..b])
  {
  }
}
