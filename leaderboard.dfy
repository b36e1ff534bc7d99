/** The leaderboard of `getLeaderboard` (backend/src/services/quizService.ts,
    lines 321-364): one entry per user who has answered, ranked by score. */
module Leaderboard {
  import opened Common
  import opened Numbers
  import opened Users
  import opened QuizRecords

  /** One leaderboard row; `accuracy` is in hundredths of a percent, so
      6000 is the 60 the engine reports for 3 correct answers of 5. */
  datatype Entry = Entry(
    userId: nat, username: string,
    totalScore: nat, totalQuizzes: nat, accuracy: nat,
    currentStreak: nat, bestStreak: nat)

  const PointsPerCorrect := 100

  ghost predicate HasRecord(scores: seq<UserScore>, u: nat)
  {
    exists r :: r in scores && r.userId == u
  }

  /** The groups of `groupBy({ by: ['userId'] })`: each user with a record,
      once, in the order of their first record. */
  function UsersInOrder(scores: seq<UserScore>): (ids: seq<nat>)
    ensures forall i, j :: 0 <= i < j < |ids| ==> ids[i] != ids[j]
    ensures forall u :: u in ids <==> HasRecord(scores, u)
  {
    if scores == [] then []
    else
      var last := scores[|scores| - 1];
      var ids := UsersInOrder(scores[..|scores| - 1]);
      assert scores == scores[..|scores| - 1] + [last];
      if last.userId in ids then ids else ids + [last.userId]
  }

  /** `_count.id` of a user's group. */
  function RecordCount(scores: seq<UserScore>, u: nat): (n: nat)
    ensures n > 0 <==> HasRecord(scores, u)
    ensures n <= |scores|
  {
    if scores == [] then 0
    else
      var last := scores[|scores| - 1];
      assert scores == scores[..|scores| - 1] + [last];
      RecordCount(scores[..|scores| - 1], u) + (if last.userId == u then 1 else 0)
  }

  /** `userScore.count({ where: { userId, correct: true } })` */
  function CorrectCount(scores: seq<UserScore>, u: nat): (n: nat)
    ensures n <= RecordCount(scores, u)
  {
    if scores == [] then 0
    else
      var last := scores[|scores| - 1];
      CorrectCount(scores[..|scores| - 1], u) + (if last.userId == u && last.correct then 1 else 0)
  }

  /** `Math.round(correct / total * 100 * 100) / 100`, kept in hundredths:
      `correct / total` as a percentage, rounded half up to hundredths; 0 when
      there are no answers. */
  function Accuracy(correct: nat, total: nat): (a: nat)
    requires correct <= total
    ensures a <= 10000
    ensures total > 0 ==> 2 * total * a <= 20000 * correct + total < 2 * total * (a + 1)
  {
    if total == 0 then 0
    else
      var a := Hundredths(100 * correct, total);
      HundredthsRounds(100 * correct, total);
      AccuracyAtMostAll(a, correct, total);
      a
  }

  lemma AccuracyAtMostAll(a: nat, correct: nat, total: Pos)
    requires correct <= total
    requires 2 * total * a <= 20000 * correct + total
    ensures a <= 10000
  {
    assert total * (2 * a) <= total * 20001;
    CancelFactor(total, 2 * a, 20001);
  }

  lemma CancelFactor(t: Pos, x: int, y: int)
    requires t * x <= t * y
    ensures x <= y
  {
    assert t * (y - x) == t * y - t * x;
    if y - x < 0 {
      NegativeProduct(t, y - x);
    }
  }

  lemma NegativeProduct(t: Pos, d: int)
    requires d < 0
    ensures t * d < 0
    decreases -d
  {
    assert t * d == t * (d + 1) - t;
    if d + 1 < 0 {
      NegativeProduct(t, d + 1);
    }
  }

  /** The example of the leaderboard's documentation: 3 correct answers of 5
      give an accuracy of 60.00. */
  lemma ThreeOfFiveIsSixty()
    ensures Accuracy(3, 5) == 6000
  {
  }

  /** The row of one user (lines 331-357): their id, 100 points per correct
      answer and never more than 100 per answer, an accuracy of at most 100
      percent, and no streaks. */
  function MakeEntry(users: seq<User>, scores: seq<UserScore>, u: nat): (e: Entry)
    ensures e.userId == u
    ensures e.totalScore <= PointsPerCorrect * e.totalQuizzes
    ensures e.accuracy <= 10000
    ensures e.currentStreak == 0 && e.bestStreak == 0
  {
    var total, correct := RecordCount(scores, u), CorrectCount(scores, u);
    var username := match FindById(users, u) case Some(user) => user.username case None => "Anonymous";
    Entry(u, username, PointsPerCorrect * correct, total, Accuracy(correct, total), 0, 0)
  }

  /** What a user's row says: one record per answer, 100 points per correct
      answer, the rounded share of correct answers (at most 100), no streaks, and the name from the
      user table or 'Anonymous'. */
  lemma EntryFacts(users: seq<User>, scores: seq<UserScore>, u: nat)
    requires HasRecord(scores, u)
    ensures var e := MakeEntry(users, scores, u);
      && e.userId == u
      && e.totalQuizzes == RecordCount(scores, u) >= 1
      && e.totalScore == PointsPerCorrect * CorrectCount(scores, u)
      && e.totalScore <= PointsPerCorrect * e.totalQuizzes
      && e.accuracy == Accuracy(CorrectCount(scores, u), RecordCount(scores, u)) <= 10000
      && e.currentStreak == 0 && e.bestStreak == 0
      && (FindById(users, u).None? ==> e.username == "Anonymous")
      && (FindById(users, u).Some? ==> e.username == FindById(users, u).value.username)
  {
  }

  /** The rows before sorting, in group order. */
  function Entries(users: seq<User>, scores: seq<UserScore>): seq<Entry>
  {
    var ids := UsersInOrder(scores);
    seq(|ids|, i requires 0 <= i < |ids| => MakeEntry(users, scores, ids[i]))
  }

  ghost predicate SortedByScore(s: seq<Entry>)
  {
    forall i, j :: 0 <= i < j < |s| ==> s[i].totalScore >= s[j].totalScore
  }

  ghost predicate DistinctUsers(s: seq<Entry>)
  {
    forall i, j :: 0 <= i < j < |s| ==> s[i].userId != s[j].userId
  }

  /** Puts `x` before the first row whose score is not above its own. */
  function InsertByScore(x: Entry, s: seq<Entry>): (r: seq<Entry>)
    ensures multiset(r) == multiset(s) + multiset{x}
  {
    if s == [] || x.totalScore >= s[0].totalScore then
      [x] + s
    else
      assert s == [s[0]] + s[1..];
      [s[0]] + InsertByScore(x, s[1..])
  }

  /** The rows after insertion are the old ones and the new one. */
  lemma InsertMembers(x: Entry, s: seq<Entry>)
    ensures forall e :: e in InsertByScore(x, s) <==> e == x || e in s
  {
    var r := InsertByScore(x, s);
    forall e ensures e in r <==> e == x || e in s {
      assert e in r <==> e in multiset(r);
      assert e in s <==> e in multiset(s);
    }
  }

  lemma ConsSorted(e: Entry, r: seq<Entry>)
    requires SortedByScore(r)
    requires forall f :: f in r ==> f.totalScore <= e.totalScore
    ensures SortedByScore([e] + r)
  {
    forall i, j | 0 <= i < j < |[e] + r|
      ensures ([e] + r)[i].totalScore >= ([e] + r)[j].totalScore
    {
      assert ([e] + r)[j] == r[j - 1];
      if i > 0 {
        assert ([e] + r)[i] == r[i - 1];
      }
    }
  }

  lemma ConsDistinct(e: Entry, r: seq<Entry>)
    requires DistinctUsers(r)
    requires forall f :: f in r ==> f.userId != e.userId
    ensures DistinctUsers([e] + r)
  {
    forall i, j | 0 <= i < j < |[e] + r|
      ensures ([e] + r)[i].userId != ([e] + r)[j].userId
    {
      assert ([e] + r)[j] == r[j - 1];
      if i > 0 {
        assert ([e] + r)[i] == r[i - 1];
      }
    }
  }

  lemma {:induction false} InsertKeepsOrder(x: Entry, s: seq<Entry>)
    requires SortedByScore(s)
    ensures SortedByScore(InsertByScore(x, s))
  {
    if s == [] || x.totalScore >= s[0].totalScore {
      assert InsertByScore(x, s) == [x] + s;
      forall f | f in s ensures f.totalScore <= x.totalScore {
        var j :| 0 <= j < |s| && s[j] == f;
        assert s[0].totalScore >= s[j].totalScore;
      }
      ConsSorted(x, s);
    } else {
      var rest := InsertByScore(x, s[1..]);
      assert InsertByScore(x, s) == [s[0]] + rest;
      assert SortedByScore(s[1..]);
      InsertKeepsOrder(x, s[1..]);
      InsertMembers(x, s[1..]);
      forall f | f in rest ensures f.totalScore <= s[0].totalScore {
        if f != x {
          var j :| 0 <= j < |s[1..]| && s[1..][j] == f;
          assert s[j + 1] == f;
        }
      }
      ConsSorted(s[0], rest);
    }
  }

  lemma {:induction false} InsertKeepsDistinct(x: Entry, s: seq<Entry>)
    requires DistinctUsers(s) && forall e :: e in s ==> e.userId != x.userId
    ensures DistinctUsers(InsertByScore(x, s))
  {
    if s == [] || x.totalScore >= s[0].totalScore {
      assert InsertByScore(x, s) == [x] + s;
      ConsDistinct(x, s);
    } else {
      var rest := InsertByScore(x, s[1..]);
      assert InsertByScore(x, s) == [s[0]] + rest;
      assert DistinctUsers(s[1..]);
      InsertKeepsDistinct(x, s[1..]);
      InsertMembers(x, s[1..]);
      forall f | f in rest ensures f.userId != s[0].userId {
        if f != x {
          var j :| 0 <= j < |s[1..]| && s[1..][j] == f;
          assert s[j + 1] == f;
        }
      }
      ConsDistinct(s[0], rest);
    }
  }

  /** `sort((a, b) => b.totalScore - a.totalScore)`: a stable sort, highest
      score first. */
  function SortByScore(s: seq<Entry>): (r: seq<Entry>)
    ensures multiset(r) == multiset(s)
    ensures SortedByScore(r)
  {
    if s == [] then []
    else
      var rest := SortByScore(s[1..]);
      InsertKeepsOrder(s[0], rest);
      assert s == [s[0]] + s[1..];
      assert multiset(s) == multiset{s[0]} + multiset(s[1..]);
      InsertByScore(s[0], rest)
  }

  lemma {:induction false} SortKeepsDistinct(s: seq<Entry>)
    requires DistinctUsers(s)
    ensures DistinctUsers(SortByScore(s))
  {
    if s != [] {
      var rest := SortByScore(s[1..]);
      SortKeepsDistinct(s[1..]);
      forall e | e in rest ensures e.userId != s[0].userId {
        assert e in multiset(s[1..]);
      }
      InsertKeepsDistinct(s[0], rest);
    }
  }

  /** The rows of `s` whose score is `k`, in order. */
  function WithScore(s: seq<Entry>, k: nat): seq<Entry>
  {
    if s == [] then []
    else (if s[0].totalScore == k then [s[0]] else []) + WithScore(s[1..], k)
  }

  lemma WithScoreCons(e: Entry, s: seq<Entry>, k: nat)
    ensures WithScore([e] + s, k) == (if e.totalScore == k then [e] else []) + WithScore(s, k)
  {
    assert ([e] + s)[1..] == s;
  }

  lemma ConcatSwap(a: seq<Entry>, b: seq<Entry>, tail: seq<Entry>)
    requires a == [] || b == []
    ensures a + (b + tail) == b + (a + tail)
  {
    if a == [] {
      assert a + (b + tail) == b + tail;
    } else {
      assert b + (a + tail) == a + tail;
    }
  }

  lemma {:induction false} WithScoreInsert(x: Entry, s: seq<Entry>, k: nat)
    ensures WithScore(InsertByScore(x, s), k)
         == (if x.totalScore == k then [x] else []) + WithScore(s, k)
  {
    if s == [] || x.totalScore >= s[0].totalScore {
      assert InsertByScore(x, s) == [x] + s;
      WithScoreCons(x, s, k);
    } else {
      var rest := InsertByScore(x, s[1..]);
      assert InsertByScore(x, s) == [s[0]] + rest;
      WithScoreCons(s[0], rest, k);
      WithScoreInsert(x, s[1..], k);
      assert s == [s[0]] + s[1..];
      WithScoreCons(s[0], s[1..], k);
      ConcatSwap(if s[0].totalScore == k then [s[0]] else [], if x.totalScore == k then [x] else [], WithScore(s[1..], k));
    }
  }

  /** The sort is stable: rows with equal scores keep their group order. */
  lemma {:induction false} SortIsStable(s: seq<Entry>, k: nat)
    ensures WithScore(SortByScore(s), k) == WithScore(s, k)
  {
    if s != [] {
      SortIsStable(s[1..], k);
      WithScoreInsert(s[0], SortByScore(s[1..]), k);
    }
  }

  /** `slice(0, limit)` */
  function Take(s: seq<Entry>, limit: nat): (r: seq<Entry>)
    ensures |r| == Min(limit, |s|)
    ensures r == s[..|r|]
  {
    s[..Min(limit, |s|)]
  }

  /** The leaderboard for a limit (lines 321-364): at most `limit` rows,
      highest score first, the first rows of the full ranking. */
  function Board(users: seq<User>, scores: seq<UserScore>, limit: nat): (b: seq<Entry>)
    ensures |b| == Min(limit, |SortByScore(Entries(users, scores))|)
    ensures SortedByScore(b)
    ensures b == SortByScore(Entries(users, scores))[..|b|]
  {
    Take(SortByScore(Entries(users, scores)), limit)
  }

  lemma EntriesDistinct(users: seq<User>, scores: seq<UserScore>)
    ensures DistinctUsers(Entries(users, scores))
    ensures forall e :: e in Entries(users, scores) ==>
              HasRecord(scores, e.userId) && e == MakeEntry(users, scores, e.userId)
    ensures forall u :: HasRecord(scores, u) ==> MakeEntry(users, scores, u) in Entries(users, scores)
  {
    var ids := UsersInOrder(scores);
    var es := Entries(users, scores);
    forall u | HasRecord(scores, u)
      ensures MakeEntry(users, scores, u) in es
    {
      var i :| 0 <= i < |ids| && ids[i] == u;
      assert es[i] == MakeEntry(users, scores, u);
    }
  }

  /** All rows, ranked: one per user with a record, each the user's true
      tally, distinct users, highest score first. */
  lemma RankedRows(users: seq<User>, scores: seq<UserScore>)
    ensures var full := SortByScore(Entries(users, scores));
      && |full| == |UsersInOrder(scores)|
      && DistinctUsers(full)
      && (forall e :: e in full ==> HasRecord(scores, e.userId) && e == MakeEntry(users, scores, e.userId))
      && (forall u :: HasRecord(scores, u) ==> MakeEntry(users, scores, u) in full)
  {
    var es := Entries(users, scores);
    var full := SortByScore(es);
    EntriesDistinct(users, scores);
    SortKeepsDistinct(es);
    assert |full| == |es| by {
      assert |multiset(full)| == |multiset(es)|;
    }
    forall e | e in full ensures e in es {
      assert e in multiset(full);
    }
    forall u | HasRecord(scores, u) ensures MakeEntry(users, scores, u) in full {
      assert MakeEntry(users, scores, u) in multiset(es);
    }
  }

  /** The leaderboard has min(limit, users with a record) rows, highest score
      first; each row is the true tally of a distinct user who has answered. */
  lemma BoardShape(users: seq<User>, scores: seq<UserScore>, limit: nat)
    ensures var b := Board(users, scores, limit);
      && |b| == Min(limit, |UsersInOrder(scores)|)
      && SortedByScore(b)
      && DistinctUsers(b)
      && (forall e :: e in b ==> HasRecord(scores, e.userId) && e == MakeEntry(users, scores, e.userId))
  {
    var full := SortByScore(Entries(users, scores));
    RankedRows(users, scores);
    var b := Board(users, scores, limit);
    assert b == full[..|b|];
  }

  /** Truncation keeps the best: a user with a record who is left out of the
      leaderboard scores no more than anyone on it. */
  lemma BoardKeepsTop(users: seq<User>, scores: seq<UserScore>, limit: nat, u: nat)
    requires HasRecord(scores, u)
    requires forall e :: e in Board(users, scores, limit) ==> e.userId != u
    ensures forall e :: e in Board(users, scores, limit) ==>
              MakeEntry(users, scores, u).totalScore <= e.totalScore
  {
    var full := SortByScore(Entries(users, scores));
    var b := Board(users, scores, limit);
    RankedRows(users, scores);
    var x := MakeEntry(users, scores, u);
    var j :| 0 <= j < |full| && full[j] == x;
    assert j >= |b|;
    forall e | e in b
      ensures x.totalScore <= e.totalScore
    {
      var i :| 0 <= i < |b| && b[i] == e;
      assert full[i] == e;
    }
  }
}
