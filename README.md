# stoquiz quiz engine and routes, modelled in Dafny

stoquiz is a stock-market guessing game. It builds two kinds of quiz. A
technical quiz shows a stock's recent daily candles and hides the next ten.
A fundamental quiz shows a stock's latest financial report and hides the
price move of the 30 days after it. In both, the player guesses up or down.
The backend stores every answer, scores it 100 points when right, explains
the actual move, and ranks the players on a leaderboard. A token issued at
sign-up or log-in identifies the player.

This project models that core:

- `QuizService` (`backend/src/services/quizService.ts`) as methods over an
  in-memory `Store.Database`. Its fields are the `quiz`, `userScore`, `user`,
  `ohlcv` and `fundamentals` tables.
- The pure rules the service applies, as functions:
  - candle windowing and the answer (`QuizRules`);
  - the explanation texts (`Explanations`);
  - the leaderboard tally and ranking (`Leaderboard`).
- The routes of `backend/src/routes/quiz.ts` and `backend/src/routes/auth.ts`:
  schemas, type defaulting, token middleware, sign-up, log-in, `/me`.

Modelling choices:

- Prices are whole cents.
- A percent change is an exact ratio. JavaScript's `Infinity` and `NaN` for
  a zero start price are kept as their own values.
- An instant (`dt`, `reportDate`) is a day number and the milliseconds after
  UTC midnight. A date text (`toISOString().split('T')[0]`) keeps only the
  day, printed as its number; `new Date` of such text is that day's UTC
  midnight.
- Ids are table positions.
- The clock, bcrypt's salt and jwt's signature check are parameters.

In the source, the technical quiz's answer compares the 10th hidden row. Its
explanation compares the latest row within 10 calendar days. The model keeps
both as written, so the explanation of a technical quiz may report a move
that differs from the one that decided the answer.

Both explanations re-read a stored date as UTC midnight, while the quizzes
were built from the rows' own instants. For a report stamped at midnight, the
fundamental explanation reads exactly the rows that decided the answer
(`ExplainsFundamentalQuiz`). When the rows carry a time of day, as the seed
script stamps them (`db/src/seed.ts:22-27`, `:66`), the two windows are a day
apart (`ShiftedWindows`), and the technical explanation's query also matches
the last shown candle's own row, so it compares with a row at most nine days
later (`TimedRowsAfterShown`).

## Model

| member | source | states |
|---|---|---|
| Common.StringField | backend/src/routes/auth.ts:13-21 | a body field passes `z.string()` exactly when the body is an object holding a string under that key, and yields that string |
| Numbers.DigitChar | backend/src/services/quizService.ts:72 | a digit below ten prints as the digit character of that value |
| Numbers.NatText | backend/src/services/quizService.ts:72 | a number prints as non-empty all-digit text, one digit exactly below ten |
| Numbers.DigitsValueOfNatText | backend/src/services/quizService.ts:152 | the digits a number prints as denote that number |
| Numbers.ParseNatText | backend/src/services/quizService.ts:271 | a report date printed into the snapshot and read back with `new Date` is the same day |
| Numbers.Abs | backend/src/services/quizService.ts:251 | `Math.abs` keeps NaN, is never negative otherwise, and keeps a ratio's size |
| Numbers.PercentChange | backend/src/services/quizService.ts:60 | the change is a finite ratio exactly when the start price is positive, and is then 100·(end−start)/start |
| Numbers.RisesIffPositive | backend/src/services/quizService.ts:61 | `percentChange > 0` holds exactly when the end price is above the start price, a zero start included |
| Numbers.NonNegativeIffNotFallen | backend/src/services/quizService.ts:315 | `percentChange >= 0` holds exactly when the price did not fall and the end price is positive |
| Numbers.Fixed2 | backend/src/services/quizService.ts:251 | `toFixed(2)` of a non-negative ratio has at least one integer digit, a point and two decimals |
| Numbers.HundredthsRounds | backend/src/services/quizService.ts:251 | the hundredths `toFixed(2)` prints are the nearest to the value, ties rounding up |
| Numbers.HundredthsText | backend/src/services/quizService.ts:251 | a count of hundredths prints with a point before its last two digits |
| Numbers.HundredthsTextReads | backend/src/services/quizService.ts:251 | removing the point from the printed hundredths reads back the count |
| Numbers.Fixed2Reads | backend/src/services/quizService.ts:251 | the text `toFixed(2)` prints, read without its point, is the rounded count of hundredths |
| Market.Reverse | backend/src/services/quizService.ts:39 | `reverse()` keeps the length and puts row i at position n−1−i |
| Market.ReverseReverse | backend/src/services/quizService.ts:39 | reversing twice gives the rows back |
| Market.ReversedOrder | backend/src/services/quizService.ts:23-32 | reversing oldest-first rows puts them newest first |
| Market.NewestFirst | backend/src/services/quizService.ts:23-32 | the query returns min(take, n) rows, the newest ones, newest first |
| Market.Between | backend/src/services/quizService.ts:125-137 | the query returns exactly the rows whose instant is in the closed range, oldest first |
| Market.BetweenMidnights | backend/src/services/quizService.ts:271-281 | between two UTC midnights lie the rows of the first day up to the day before the second, and a row stamped exactly at the second midnight |
| Market.Chart | backend/src/services/quizService.ts:39-46 | the chart has one candle per row, in order, each keeping the row's day and prices but not its time of day |
| Market.ChartKeepsOrder | backend/src/services/quizService.ts:39-46 | the chart of oldest-first rows is oldest first |
| Market.LastIsLatest | backend/src/services/quizService.ts:242-245 | the last row of an oldest-first window is its latest |
| Market.ChronologicalSlice | backend/src/services/quizService.ts:50 | a slice of oldest-first rows is oldest first |
| QuizRecords.Get | backend/src/services/quizService.ts:260-268 | reading a missing property gives `undefined`, which is falsy |
| QuizRecords.Or | backend/src/services/quizService.ts:153-157 | JavaScript's logical or gives the first operand when truthy and otherwise the second, truthy exactly when either is |
| QuizRecords.MakeSnapshot | backend/src/services/quizService.ts:150-160 | the snapshot holds the seven named entries and every report field, a report field winning over a named one, with `date`, `pe` and `margins` filled from the report date and the fallback fields, and `eps`, `revenue`, `revenueGrowth` and `debtToEquity` left `undefined` when the report lacks them |
| QuizRules.AnswerFromChange | backend/src/services/quizService.ts:57-61 | the answer is 'up' exactly when the end price is above the start price |
| QuizRules.WindowCandles | backend/src/services/quizService.ts:34-61 | fewer than 60 rows fail with 404. Otherwise the rows are charted oldest first, the first min(60, n−10) shown and the next 10 hidden, and the answer is 'up' exactly when the last hidden close beats the last shown one. The "Insufficient future data" 404 is unreachable |
| QuizRules.TechnicalQuiz | backend/src/services/quizService.ts:34-89 | the quiz fails exactly when fewer than 60 rows exist, and is otherwise a technical quiz of that stock with a 10-day horizon |
| QuizRules.TechnicalQuizWindow | backend/src/services/quizService.ts:39-75 | the payload shows the chart of the first min(60, n−10) rows oldest first, labelled with that count in days, and the answer compares the 10th hidden close with the last shown close |
| QuizRules.ShownCandles | backend/src/services/quizService.ts:39-50 | a built technical quiz had at least 60 rows and shows the chart of the first min(60, n−10) of them, oldest first |
| QuizRules.TechnicalCandlesInOrder | backend/src/services/quizService.ts:23-50 | the shown candles chart a contiguous stretch of the stock's 90 newest rows, starting with the oldest of them, one per day oldest first |
| QuizRules.LatestExists | backend/src/services/quizService.ts:107-118 | a stock with reports has a latest one, so the "No fundamental data found" branch is unreachable |
| QuizRules.ReportPrices | backend/src/services/quizService.ts:120-137 | the quiz's rows are exactly those from the report's instant to the same time 30 days later |
| QuizRules.FundamentalQuiz | backend/src/services/quizService.ts:139-186 | fewer than 20 rows in the window fail with 404. Otherwise the quiz carries the report's snapshot and a 30-day horizon, and the answer is 'up' exactly when the last close beats the first |
| Users.CharBytes | backend/src/routes/auth.ts:66 | a character encodes to one to four UTF-8 bytes |
| Users.Utf8 | backend/src/routes/auth.ts:66 | a string encodes to at least one and at most four bytes per character |
| Users.Utf8Append | backend/src/routes/auth.ts:66 | the encoding of a concatenation is the concatenation of the encodings |
| Users.Key | backend/src/routes/auth.ts:66 | bcrypt uses the first 72 bytes of the password's UTF-8 encoding, all of it when shorter |
| Users.Compare | backend/src/routes/auth.ts:112 | `bcrypt.compare` accepts exactly the passwords whose first 72 bytes the digest holds |
| Users.Hash | backend/src/routes/auth.ts:66 | `bcrypt.hash` gives a digest with the given salt that the password itself matches |
| Users.CompareHash | backend/src/routes/auth.ts:112 | a password matches a digest exactly when its first 72 bytes are those of the password the digest was made from; below 72 bytes, exactly when the encodings are equal |
| Users.LongPasswordTail | backend/src/routes/auth.ts:112 | whatever follows the first 72 bytes is not read: a long password with anything appended still matches |
| Users.FindById | backend/src/routes/auth.ts:142-149 | the lookup finds a user with that id, and finds none exactly when none exists |
| Users.FindByUsername | backend/src/routes/auth.ts:57-59 | the lookup finds a user with that name, and finds none exactly when none exists |
| Leaderboard.UsersInOrder | backend/src/services/quizService.ts:322-327 | the groups are the users with at least one answer, each once |
| Leaderboard.RecordCount | backend/src/services/quizService.ts:347 | a user's answer count is positive exactly when they answered |
| Leaderboard.CorrectCount | backend/src/services/quizService.ts:340-345 | a user's correct answers are at most their answers |
| Leaderboard.Accuracy | backend/src/services/quizService.ts:348-354 | accuracy lies between 0 and 100 and is correct/total·100 rounded to hundredths, ties up |
| Leaderboard.AccuracyAtMostAll | backend/src/services/quizService.ts:348 | a rounded share of at most all answers is at most 100 percent |
| Leaderboard.ThreeOfFiveIsSixty | backend/src/services/quizService.ts:348-354 | 3 correct answers of 5 report an accuracy of 60 |
| Leaderboard.MakeEntry | backend/src/services/quizService.ts:331-357 | a row carries the user's id, at most 100 points per answer, an accuracy of at most 100 percent and no streaks |
| Leaderboard.EntryFacts | backend/src/services/quizService.ts:347-357 | a row counts the user's answers, gives 100 points per correct one, an accuracy equal to the rounded share of correct answers, zero streaks, and the user's name or 'Anonymous' |
| Leaderboard.InsertByScore | backend/src/services/quizService.ts:363 | inserting a row keeps every row |
| Leaderboard.InsertMembers | backend/src/services/quizService.ts:363 | after inserting, the rows are the old rows and the new one, nothing else |
| Leaderboard.InsertKeepsOrder | backend/src/services/quizService.ts:363 | inserting into rows ranked by score keeps them ranked |
| Leaderboard.InsertKeepsDistinct | backend/src/services/quizService.ts:363 | inserting a new user's row keeps one row per user |
| Leaderboard.SortByScore | backend/src/services/quizService.ts:363 | the sort is a permutation, highest score first |
| Leaderboard.SortKeepsDistinct | backend/src/services/quizService.ts:363 | sorting keeps one row per user |
| Leaderboard.WithScoreInsert | backend/src/services/quizService.ts:363 | inserting a row puts it before every row of equal score |
| Leaderboard.SortIsStable | backend/src/services/quizService.ts:363 | rows with equal scores keep their group order |
| Leaderboard.Take | backend/src/services/quizService.ts:364 | `slice(0, limit)` is the first min(limit, n) rows |
| Leaderboard.Board | backend/src/services/quizService.ts:321-364 | the leaderboard is the first min(limit, rows) rows of the full ranking, highest score first |
| Leaderboard.EntriesDistinct | backend/src/services/quizService.ts:322-358 | the rows before sorting are one true tally per user who answered |
| Leaderboard.RankedRows | backend/src/services/quizService.ts:322-363 | the ranked rows are one true tally for every user who answered, distinct users |
| Leaderboard.BoardShape | backend/src/services/quizService.ts:321-364 | the leaderboard has min(limit, players) rows, highest score first, each the true tally of a distinct player |
| Leaderboard.BoardKeepsTop | backend/src/services/quizService.ts:362-364 | a player cut off by the limit scores no more than anyone shown |
| Store.SeriesOf | backend/src/services/quizService.ts:23-27 | a stock without rows has an empty series, and a table kept in date order gives an oldest-first series |
| Store.Database.constructor | backend/src/services/quizService.ts:5 | a database starts with no quizzes, answers or users over the given market data |
| Store.Database.FindQuiz | backend/src/services/quizService.ts:191-196 | the lookup finds a stored quiz with that id, and finds none exactly when none exists |
| Store.Database.AddQuiz | backend/src/services/quizService.ts:163-174 | `quiz.create` appends exactly one quiz with the next id and keeps the table valid |
| Store.Database.AddScore | backend/src/services/quizService.ts:301-308 | `userScore.create` appends exactly one answer and keeps at most one per user and quiz |
| Store.Database.AddUser | backend/src/routes/auth.ts:69-74 | `user.create` appends exactly one user with the next id and keeps usernames unique |
| Explanations.DirectionOf | backend/src/services/quizService.ts:315 | the reported direction is 'up' exactly when the change is not negative |
| Explanations.AfterShownDays | backend/src/services/quizService.ts:229-241 | the query matches a row on the last shown day after midnight, on the nine days after it, or exactly at midnight ten days later |
| Explanations.LaterRow | backend/src/services/quizService.ts:229-246 | the query gives at most one row, a stock row that it matches |
| Explanations.TechnicalExplanation | backend/src/services/quizService.ts:221-253 | the text is empty exactly without candles or a later row, and then reports 0; otherwise it reports the change from the last shown close to the later row's close |
| Explanations.ReportWindow | backend/src/services/quizService.ts:271-287 | the query is refused exactly when the snapshot's date does not read as a date; otherwise it gives the rows from that day's UTC midnight to the midnight 30 days later |
| Explanations.FundamentalExplanation | backend/src/services/quizService.ts:254-294 | the explanation fails with the refused query exactly when the date is unreadable; otherwise it is the heading and the outcome over the window |
| Explanations.WithOutcome | backend/src/services/quizService.ts:289-294 | the heading stays in front. With fewer than two rows the change is 0 and nothing is added; otherwise the first-to-last change and its sentence follow |
| Explanations.Explanation | backend/src/services/quizService.ts:220-295 | a technical quiz is always explained, and the only failure is the refused query |
| Explanations.ResultClause | backend/src/services/quizService.ts:293 | the outcome clause ends with "%." |
| Explanations.LaterRowIsLatest | backend/src/services/quizService.ts:229-246 | the compared row exists exactly when the query matches some row, and is then the latest matching row |
| Explanations.TechnicalExplanationOutcome | backend/src/services/quizService.ts:221-253 | without candles or matching rows the explanation is empty and reports 0. Otherwise it reports the change to the latest matching row, worded by its sign |
| Explanations.MidnightRowsAfterShown | backend/src/services/quizService.ts:229-241 | with every row stamped at midnight, the query matches exactly the rows of the ten days after the last shown day |
| Explanations.TimedRowsAfterShown | backend/src/services/quizService.ts:229-246 | with every row stamped after midnight, the shown candle's own row matches, so the explanation is never empty and compares with a row at most nine days later |
| Explanations.FundamentalExplanationShape | backend/src/services/quizService.ts:254-294 | the text opens with the snapshot's date. With fewer than two window rows it is the heading alone and reports 0; otherwise it reports the first-to-last change and ends with "%." |
| Explanations.ExplainsFundamentalQuiz | backend/src/services/quizService.ts:121-147 | for a report stamped at UTC midnight, explaining the quiz reads the same rows that decided its answer, so an 'up' answer is explained as a rise |
| Explanations.QuizWindowExplained | backend/src/services/quizService.ts:254-294 | for a report stamped at UTC midnight, the explanation is the heading and the outcome over the quiz's own rows |
| Explanations.SnapshotWindow | backend/src/services/quizService.ts:152-281 | the date stored in the snapshot reads back as the window from the report day's midnight, the quiz's own window when the report is stamped at midnight |
| Explanations.ShiftedWindows | backend/src/services/quizService.ts:121-281 | for a report stamped later in the day than every row, the quiz reads days +1 to +30 and the explanation days 0 to +29 |
| QuizService.StoreDraft | backend/src/services/quizService.ts:163-186 | a failed draft stores nothing; a built one is stored under the next id and returned without its answer |
| QuizService.GenerateTechnicalQuiz | backend/src/services/quizService.ts:8-89 | it fails with "No stock data" exactly when no stock has rows. Any other failure is the chosen stock's and stores nothing. Success stores exactly one quiz built from a stock's 90 newest rows and returns it without its answer. When every stock with rows has 60, it succeeds |
| QuizService.GenerateFundamentalQuiz | backend/src/services/quizService.ts:92-186 | it fails with "No fundamental data" exactly when no stock has reports. Any other failure stores nothing. Success stores exactly one quiz built from a latest report and the 30 days after it, returned without its answer. When every such report's window has 20 rows, it succeeds |
| QuizService.ResponseMatchesStored | backend/src/services/quizService.ts:78-185 | every quiz either generator builds is returned as stored: same id, type, symbol and payload, with a horizon of 10 days for a technical and 30 for a fundamental quiz |
| QuizService.Explain | backend/src/services/quizService.ts:217-295 | the explanation and change reported are those of the quiz's type over the stock's rows, or the refused query |
| QuizService.ExplainTechnical | backend/src/services/quizService.ts:221-253 | the branch's statements compute the technical explanation: the change to the latest row in the 10 days after the last shown candle, or nothing and 0 |
| QuizService.ExplainFundamental | backend/src/services/quizService.ts:254-295 | the branch's statements compute the fundamental explanation over the 30 days from the snapshot's date, or end with the refused query |
| QuizService.FundamentalText | backend/src/services/quizService.ts:258-268 | the text built by the three conditional appends is the date sentence followed by each truthy metric's clause, in order |
| QuizService.AppendOutcome | backend/src/services/quizService.ts:289-294 | with two rows or more the first-to-last change is computed and its sentence appended; otherwise the text stays and the change is 0 |
| QuizService.SubmitAnswer | backend/src/services/quizService.ts:189-319 | an unknown quiz gives 404 and a second answer 409, writing nothing. Otherwise the answer is recorded exactly when the explanation's query is not refused: exactly one row, with 100 points when right, the explanation and the actual direction; a refused query writes nothing |
| QuizService.AnswerTwice | backend/src/services/quizService.ts:202-214 | after a recorded answer, the same user's second answer to that quiz is refused with 409 |
| QuizRoutes.ResolveQuizType | backend/src/routes/quiz.ts:23-24 | the quiz is fundamental exactly when the query says 'fundamental'; anything else, absence included, means technical |
| QuizRoutes.ParseAnswer | backend/src/routes/quiz.ts:13-15 | the body passes exactly when `answer` is 'up' or 'down', and yields that direction |
| QuizRoutes.ParseLimit | backend/src/routes/quiz.ts:16-18 | an absent limit is 50. A limit outside 1 to 100 is a validation error. Otherwise its whole part is used |
| QuizRoutes.GetQuiz | backend/src/routes/quiz.ts:21-37 | the resolved type selects the generator, and the whole contract of that generator holds for the request |
| QuizRoutes.PostAnswer | backend/src/routes/quiz.ts:40-51 | the middleware's 401/403 and the schema's rejection come first and write nothing. An authenticated, valid answer to an existing quiz is refused with 409 exactly when already given, and otherwise recorded for the token's user, scored against the stored answer, unless the explanation's query is refused |
| QuizRoutes.LeaderboardRoute | backend/src/routes/quiz.ts:54-63 | a refused limit is a validation error. Otherwise min(limit, players) ranked rows are returned, at most 100, each a distinct player's true tally |
| QuizRoutes.DefaultLeaderboard | backend/src/routes/quiz.ts:17 | without a limit the leaderboard shows min(50, players) rows |
| AuthRoutes.ParseSignup | backend/src/routes/auth.ts:13-16 | a sign-up body passes only with a 3 to 50 character username and a password of at least 6 |
| AuthRoutes.ParseLogin | backend/src/routes/auth.ts:18-21 | a log-in body passes only with a non-empty username and password |
| AuthRoutes.CredentialRules | backend/src/routes/auth.ts:13-21 | given both string fields, each schema accepts exactly under its length rules |
| AuthRoutes.MissingFieldRejected | backend/src/routes/auth.ts:13-21 | a body lacking either string field fails both schemas |
| AuthRoutes.Split | backend/src/routes/auth.ts:36 | `split` gives at least one part, none holding the separator |
| AuthRoutes.JoinSplit | backend/src/routes/auth.ts:36 | joining the split parts gives the header back |
| AuthRoutes.SplitJoin | backend/src/routes/auth.ts:36 | splitting joined separator-free parts gives the parts back |
| AuthRoutes.HeaderToken | backend/src/routes/auth.ts:35-38 | a token is returned exactly when the header's second space-separated field exists and is non-empty, and it is that field |
| AuthRoutes.BearerToken | backend/src/routes/auth.ts:36 | `<scheme> <token>` yields the token, whatever the scheme |
| AuthRoutes.NoSpaceNoToken | backend/src/routes/auth.ts:36-39 | a header without a space yields no token |
| AuthRoutes.Authenticate | backend/src/routes/auth.ts:34-49 | a missing token is 401 and an unverified one 403. Otherwise the request carries the verified claims |
| AuthRoutes.TokenPayload | backend/src/routes/auth.ts:26-31 | the token carries the user's id and username |
| AuthRoutes.IssuedTokenAuthenticates | backend/src/routes/auth.ts:26-49 | a token issued to a user and sent as a Bearer header authenticates as that user |
| AuthRoutes.Signup | backend/src/routes/auth.ts:52-95 | a refused body or a taken name writes nothing. A valid body with a free name always succeeds: exactly one user with the password's hash is added, answered with 201, the user and its token |
| AuthRoutes.Login | backend/src/routes/auth.ts:98-137 | a valid body gives the user and its token or 401, nothing else. An unknown user, a user without a hash and a wrong password all give that same 401 |
| AuthRoutes.SignupThenLogin | backend/src/routes/auth.ts:52-137 | after signing up, logging in with the same password, or any with the same first 72 bytes, succeeds as the new user; any other password gives 401 |
| AuthRoutes.Me | backend/src/routes/auth.ts:140-163 | the token's user is returned without its hash, or 404 exactly when no user has that id; nothing else |

## Left out

- Floating point: prices are whole cents and percent changes exact ratios, so rounding of doubles is not modelled.
- Numbers.Fixed2: `toFixed(2)` switches to exponent notation from 1e21 up. The model prints every magnitude in plain digits.
- Time zones: `setDate(getDate() + n)` is taken as adding n whole UTC days. A daylight-saving change in the server's time zone is not modelled. The `'1d'` timeframe filter is not modelled either; every row is a daily row, at most one per calendar day.
- Store.SeriesOf: the model does not carry `timeframe`; all stored rows count as daily.
- Prisma, the network and concurrency are not modelled. This covers `Promise.all`, and the race between the uniqueness checks and the inserts in `submitAnswer` and sign-up.
- Ids are numeric table positions rather than cuid strings, so a non-numeric quiz id is not modelled.
- `findFirst` picks a stock by database order. The model lets any qualifying stock be picked.
- jwt signing, the secret and the 7-day expiry are the `verify` parameter. A token is represented by the claims it carries.
- bcrypt's random salt is a parameter. The digest keeps the password's key in place of the hash itself.
- Users.Compare: the key is the first 72 UTF-8 bytes. bcrypt's `$2a$`/`$2b$` variants also add a terminating zero byte and read a short key cyclically, so a password containing a NUL character can match another password. The model treats such passwords as different.
- The clock behind `createdAt` is a parameter.
- The JSON round trip of a stored payload (`JSON.stringify`, then `JSON.parse`) is taken to give the payload back.
- Explanations.ReportWindow: only day-number text, as the snapshot itself writes it, reads as a date. A report's own `date` field in another format that `new Date` accepts is treated as unreadable, so the model refuses the query where the source would run it.
- QuizRoutes.ParseLimit: `z.coerce.number()` of a query string is taken as already converted. String-to-number conversion and array-valued queries are not modelled.
- QuizRoutes.ResolveQuizType: an array-valued `type` query is not modelled. Such a query fails the schema and falls back to technical.
- The HTTP status the error-handling middleware gives a schema failure or a refused query is not modelled. The middleware file `backend/src/middleware/errorHandler.ts` is not part of this model.
- Leaderboard.UsersInOrder: `groupBy` returns the groups in no specified order. The model orders them by each user's first answer, so the order among equal scores that `SortIsStable` keeps is the model's choice.
- The `/history` route is not modelled: it returns a fixed placeholder message.
- String lengths count characters, not UTF-16 code units.
- Not modelled: the predefined quizzes, seed scripts, the frontend and the deployment configuration. They are outside the quiz engine.
