# TestBook mock-test session, in Dafny

A verified model of the logic in TestBook, a course and mock-test learning platform. The model covers four parts.

- **The mock-test page** (`client/src/pages/mock-test-page.tsx`). It is modelled as a class, `MockTestPage.Session`. Its fields are the page's state hooks: `currentQuestion`, `selectedAnswers` (`-1` means unanswered), `timeLeft`, `isSubmitting` and `testCompleted`. Each method is one event:
  - `Load`: the questions arrive and the initialisation effect runs.
  - `SelectAnswer`, `ClickPrevious`, `ClickNext`, `ClickSubmit`: the four controls.
  - `Tick`: one firing of the countdown interval, after which the timer effect runs again.
  - `HandleSubmit`: the part of `handleSubmit` before its `await`.
  - `SettleSubmit(success)`: the POST to `/api/test-attempts` settles, with `success` as a free parameter.

  Two extra fields stand in for the network: `posted` holds the bodies sent, and `pending` counts the requests not yet settled. Every method keeps the session invariant `Valid()`:
  - `currentQuestion` stays in `[0, questions.length)` (it is 0 while there are no questions);
  - `selectedAnswers` is either empty (before loading) or one entry per question, each `-1` or a valid option index;
  - a running countdown implies loaded questions and a known test;
  - for a test with a non-negative duration, the countdown is never negative;
  - `isSubmitting` implies a request in flight.

  Scoring (`Scoring`) and the timer display (`TimeFormat`) are pure functions with lemmas.
- **The server's in-memory storage** (`server/storage.ts`). It is modelled as the class `Storage.MemStorage`. It holds two JS Maps, each kept as a Dafny `map` plus the sequence of its keys in insertion order, and the two id counters.
- **The home page's course search** (`client/src/pages/home-page.tsx`). It is modelled as `HomePage.FilteredCourses`.
- **The difficulty badge colour of a mock-test card** (`client/src/components/mock-test-card.tsx`). It is modelled as `MockTestCard.DifficultyColor`.

Behaviour of the code worth knowing:

- **No latch on submission.** `handleSubmit` checks neither `isSubmitting` nor `testCompleted`. The only guards are these:
  - the Submit button's `disabled` rule;
  - the timer effect's early return once the test is completed.

  `TimerFiresDuringManualSubmit` shows a single session posting two attempts. The countdown reaches 0 while a click-submission is still in flight.
- **Timeout skips the completeness check.** At 0 the countdown submits whatever answers exist, unanswered ones included. `Tick` has no requirement on the answers.
- **The page stays usable while a submission is in flight.** The radio group and the Previous button stay enabled, so answers can still change.
- **A failed submission at 0 is not retried by the timer.** That submission leaves `timeLeft` and `testCompleted` unchanged, so the timer effect does not run again. In the model, no interval runs at 0 (`TimerRunning`).
- **A five-question example.** Answers [0,1,2,0,3] against correct options [0,1,1,0,3] agree at four positions, so the count is 4 and the score 80 (`Scoring.FiveQuestionExample`).
- **Usernames are not unique.** `createUser` stores duplicate usernames, despite the `unique()` column in shared/schema.ts. `getUserByUsername` returns the first one (`Storage.DuplicateUsernames`).

## Model

| member | source | states |
|---|---|---|
| `MockTestPage.Session.constructor` | client/src/pages/mock-test-page.tsx:21-25 | The state hooks start at question 0, with no answers, no countdown (`null`), not submitting and not completed. |
| `MockTestPage.Session.Load` | client/src/pages/mock-test-page.tsx:36-43 | With questions loaded, `selectedAnswers` has one entry per question and every entry is -1. With the test known too, `timeLeft` becomes duration * 60. A countdown that changes to 0 submits at once. Nothing else changes. |
| `MockTestPage.Session.SelectAnswer` | client/src/pages/mock-test-page.tsx:67-71 | The chosen option (an option index of the current question, as the radio group offers) lands at `currentQuestion` only. The length and every other entry are unchanged, and a later choice overwrites an earlier one. The session invariant (entries are -1 or a valid option index) is kept. |
| `MockTestPage.Session.ClickPrevious` | client/src/pages/mock-test-page.tsx:188-193 | Enabled only away from question 0. The index goes down by exactly 1 and stays at or above 0. The method's frame leaves the answers untouched. |
| `MockTestPage.Session.ClickNext` | client/src/pages/mock-test-page.tsx:203-208 | Shown only off the last question and enabled only when the current answer is not -1. The index goes up by exactly 1 and stays below the question count. |
| `MockTestPage.Session.ClickSubmit` | client/src/pages/mock-test-page.tsx:195-201 | Shown on the last question. Enabled only when not submitting and no answer is -1. It then posts the attempt for the current answers. |
| `MockTestPage.Session.HandleSubmit` | client/src/pages/mock-test-page.tsx:73-91 | With a user and a test present, it sets `isSubmitting` and appends one attempt to the posted bodies. Otherwise nothing changes. It checks no latch and no completeness. |
| `MockTestPage.Session.SettleSubmit` | client/src/pages/mock-test-page.tsx:92-108 | Success sets `testCompleted`. Failure leaves `testCompleted` as it was. `isSubmitting` is false after either outcome. |
| `MockTestPage.Session.Tick` | client/src/pages/mock-test-page.tsx:46-59 | Runs only while an interval exists: the countdown is non-zero and the test is not completed. The countdown drops by exactly 1, so for a non-negative duration it never goes below 0 (the session invariant). On reaching 0 the page submits, even with unanswered entries. |
| `MockTestPage.Session.Interactive` | client/src/pages/mock-test-page.tsx:122-126 | The question view is shown when the test is known, questions are loaded and the test is not completed. (It has no contract; see "Left out" for the loading assumption.) |
| `MockTestPage.Session.TimerRunning` | client/src/pages/mock-test-page.tsx:47-51 | An interval runs only when the countdown is set, non-zero and the test not completed, and then the questions are loaded. |
| `MockTestPage.Session.PreviousEnabled` | client/src/pages/mock-test-page.tsx:191 | Previous is enabled away from question 0, so there is always an earlier question to go back to. |
| `MockTestPage.Session.OnLastQuestion` | client/src/pages/mock-test-page.tsx:195 | The last question shows Submit; every other question shows Next. (It has no contract.) |
| `MockTestPage.Session.NextEnabled` | client/src/pages/mock-test-page.tsx:195-205 | Next is enabled only when the current question holds one of its options, and a later question exists. |
| `MockTestPage.Session.SubmitEnabled` | client/src/pages/mock-test-page.tsx:195-198 | Submit is enabled only when every question holds one of its options. |
| `MockTestPage.Session.NextAttempt` | client/src/pages/mock-test-page.tsx:74-91 | A submission posts an attempt exactly when a user and a test are present. |
| `MockTestPage.Attempt` | client/src/pages/mock-test-page.tsx:78-91 | The posted attempt carries the user and the route id. Its correct count equals the number of correctly answered positions and is at most the question count. The source's score is `Math.round((correctAnswers / questions.length) * 100)`. The model's is `Scoring.Score`: within one half of 100 * correct / total, rounding halves up, and in 0..100. At some half-way percentages the source's value is 1 lower (see `Scoring.Score` under "Left out"). |
| `MockTestPage.TickDown` | client/src/pages/mock-test-page.tsx:54-56 | n firings of the interval without reaching 0 lower the countdown by n and post nothing. |
| `MockTestPage.TimeoutWithNoAnswer` | client/src/pages/mock-test-page.tsx:46-59 | A one-minute, one-question test left unanswered posts 0 correct of 1, a score of 0, after 60 ticks. |
| `MockTestPage.TimerFiresDuringManualSubmit` | client/src/pages/mock-test-page.tsx:73-76 | The timer can submit while a click-submission is in flight, and both succeed. One session then posts two attempts: nothing stops a second submission. |
| `Scoring.CorrectAnswers` | client/src/pages/mock-test-page.tsx:78-80 | The count never exceeds the number of answers. |
| `Scoring.CorrectAnswersCountsPositions` | client/src/pages/mock-test-page.tsx:78-80 | The count equals the number of indices i with `answers[i] == questions[i].correctOption`. |
| `Scoring.AllCorrectIffFull` | client/src/pages/mock-test-page.tsx:78-80 | The count equals the number of answers if and only if every answer is correct. |
| `Scoring.UnansweredNeverCounts` | client/src/pages/mock-test-page.tsx:78-80 | When correct options are non-negative, only answered entries (not -1) can count. |
| `Scoring.AllUnansweredCountsZero` | client/src/pages/mock-test-page.tsx:78-80 | An all-unanswered submission counts 0 correct. |
| `Scoring.Score` | client/src/pages/mock-test-page.tsx:82 | The score lies in 0..100 and within one half of 100 * correct / total, rounding halves up. |
| `Scoring.ScoreIsTheRounding` | client/src/pages/mock-test-page.tsx:82 | Any integer within one half of the percentage, in the half-up sense, is the score, so the rounding is unique. |
| `Scoring.ScoreMonotonic` | client/src/pages/mock-test-page.tsx:82 | More correct answers never lower the score. |
| `Scoring.ScoreExtremes` | client/src/pages/mock-test-page.tsx:82 | 0 correct scores 0 and all correct scores 100. |
| `Scoring.ScoreExamples` | client/src/pages/mock-test-page.tsx:82 | 37/50 scores 74, 1/3 scores 33 and 3/5 scores 60. |
| `Scoring.FiveQuestionExample` | client/src/pages/mock-test-page.tsx:78-82 | Answers [0,1,2,0,3] against correct options [0,1,1,0,3] give 4 correct and a score of 80. |
| `TimeFormat.PadStart2` | client/src/pages/mock-test-page.tsx:64 | The result is the input with zeros in front, and at least two characters long. |
| `TimeFormat.FormatTime` | client/src/pages/mock-test-page.tsx:61-65 | The display is digits, then `:`, then exactly two digits. |
| `TimeFormat.FormatTimeFields` | client/src/pages/mock-test-page.tsx:61-65 | The minutes field reads back as seconds / 60. The seconds field reads back as seconds % 60, which is below 60. |
| `TimeFormat.FormatTimeRoundTrip` | client/src/pages/mock-test-page.tsx:61-65 | Reading a display back as minutes * 60 + seconds gives the original number of seconds. |
| `TimeFormat.FormatTimeInjective` | client/src/pages/mock-test-page.tsx:61-65 | Different countdown values never show the same display. |
| `TimeFormat.FormatTimeExamples` | client/src/pages/mock-test-page.tsx:61-65 | 3661 seconds shows as "61:01" and 0 as "0:00". |
| `Text.Decimal` | client/src/pages/mock-test-page.tsx:64 | `toString` of a non-negative integer gives at least one digit, only digits, and no leading zero. |
| `Text.ParseDecimalOfDecimal` | client/src/pages/mock-test-page.tsx:64 | Reading a decimal rendering back gives the number. |
| `Text.DecimalInjective` | client/src/pages/mock-test-page.tsx:64 | Different numbers render differently. |
| `Text.Lower` | client/src/pages/home-page.tsx:16-17 | Lower-casing keeps the length and works character by character: each capital becomes its own lower-case letter, every other character is kept, and no capital is left. |
| `Text.LowerIdempotent` | client/src/components/mock-test-card.tsx:14 | Lower-casing twice is lower-casing once. |
| `Text.Includes` | client/src/pages/home-page.tsx:16-17 | `includes` holds exactly when the searched string occurs at some position. |
| `HomePage.Matches` | client/src/pages/home-page.tsx:16-17 | A course matches exactly when the lower-cased search occurs in its lower-cased title or in its lower-cased description. |
| `HomePage.Filter` | client/src/pages/home-page.tsx:15-18 | Each matching course is kept as many times as the list holds it, and no other course is kept. The result is no longer than the list. |
| `HomePage.FilteredCourses` | client/src/pages/home-page.tsx:15-18 | The result is undefined exactly when the course list is. Otherwise it is an order-preserving subsequence of the list. It holds a course exactly when the list holds it and it matches, and as many times as the list does. |
| `HomePage.FilterIsSubsequence` | client/src/pages/home-page.tsx:15-18 | The filter keeps the courses' order. |
| `HomePage.FilterMembers` | client/src/pages/home-page.tsx:16-17 | A course is kept exactly when its lower-cased title or description includes the lower-cased search. |
| `HomePage.EmptySearchKeepsAll` | client/src/pages/home-page.tsx:15-18 | The empty search keeps the whole list. |
| `HomePage.FilterCaseInsensitive` | client/src/pages/home-page.tsx:16-17 | Searches with the same lower-case form give the same result. |
| `HomePage.FilterOfLowerSearch` | client/src/pages/home-page.tsx:16-17 | Lower-casing the search first changes nothing. |
| `MockTestCard.DifficultyColor` | client/src/components/mock-test-card.tsx:13-24 | The mapping is total, and the lower-cased input decides the colour:<br>- "beginner" in any case gives green, and nothing else does;<br>- "intermediate" gives yellow;<br>- "advanced" gives red;<br>- everything else gives gray. |
| `MockTestCard.DifficultyColorCaseInsensitive` | client/src/components/mock-test-card.tsx:14 | Inputs with the same lower-case form get the same colour. |
| `MockTestCard.DifficultyColorOfLower` | client/src/components/mock-test-card.tsx:14 | A difficulty and its lower-case form get the same colour. |
| `MockTestCard.BeginnerExample` | client/src/components/mock-test-card.tsx:15-16 | "Beginner" is green. |
| `MockTestCard.IntermediateExample` | client/src/components/mock-test-card.tsx:17-18 | "INTERMEDIATE" is yellow. |
| `MockTestCard.UnknownLevelExample` | client/src/components/mock-test-card.tsx:21-22 | "Expert" is gray. |
| `Storage.MemStorage.constructor` | server/storage.ts:15-44 | `users` is empty and `userCurrentId` is 1. The courses are exactly the four seeded ones under ids 1..4, in that order, and only id 1 is featured. `courseCurrentId` is 5. |
| `Storage.SeedCourse` | server/storage.ts:32-43 | The seeded course for image `index` has id index + 1 and that image. It is featured only for index 0. |
| `Storage.MemStorage.GetUser` | server/storage.ts:47-49 | Returns the stored user for the id, or undefined when there is none. It reads only. |
| `Storage.MemStorage.GetUserByUsername` | server/storage.ts:51-55 | Returns the first user, in insertion order, with the username. It returns undefined only when no stored user has it. |
| `Storage.MemStorage.CreateUser` | server/storage.ts:57-62 | Stores the inserted fields plus the current counter as id. The id is fresh, so the table grows by one. The counter goes up by one, and the frame leaves the courses untouched. |
| `Storage.MemStorage.GetAllCourses` | server/storage.ts:64-66 | Returns the stored courses in insertion order, each exactly once, with ids increasing. |
| `Storage.MemStorage.GetCourse` | server/storage.ts:68-70 | Returns the stored course for the id, or undefined when there is none. |
| `Storage.MemStorage.CreateCourse` | server/storage.ts:72-77 | Stores the inserted fields plus the current counter as id. The id is fresh and the counter goes up by one. The users are untouched. |
| `Storage.ValuesInOrder` | server/storage.ts:64-66 | `Array.from(map.values())` has one value per key, at the key's position in insertion order. |
| `Storage.DuplicateUsernames` | server/storage.ts:51-62 | Two users with the same username are both stored, and the lookup returns the first. |

## Left out

- **Network and caching.** `useQuery`, `apiRequest`, `queryClient.invalidateQueries` and `toast` are not modelled. The fetched test, questions and signed-in user are constructor parameters. The POST is a body appended to `posted`, and its outcome is the `success` argument of `SettleSubmit`.
- **Request timestamp and route parsing.** The `completedAt` timestamp is not part of the posted body. The route id from `parseInt` is given as `testId`.
- **React scheduling.** Effect scheduling, re-rendering, `setInterval` and `clearInterval` are not modelled. `Tick` is one interval firing plus the effect's re-run. `Load` re-runs the timer effect only when `timeLeft` changed, as React's dependency check does. The model does not capture re-fetches other than by calling `Load` again.
- **Scoring.Score** is exact rational round-half-up, `(200 * correct + total) div (2 * total)`. The source divides first in floating point, then multiplies by 100 and rounds. At some half-way percentages that gives 1 less than the model. For 23 of 40 correct, 23 / 40 is stored just below 0.575, the product is 57.49999999999999, and the source posts 57 where the model gives 58. 29 of 200 likewise gives 14 against 15. `MockTestPage.Attempt` inherits this difference.
- **Scoring.CorrectAnswers** requires no more answers than questions. In the source a longer answer array would throw inside the `try`. `Load` always makes the lengths equal, so this cannot arise.
- **MockTestPage.Session.HandleSubmit** requires the questions to be loaded and the answers initialised (`Ready`). Both callers, the visible Submit button and a running countdown, guarantee it. An empty question list would make the source's score `NaN`.
- **TimeFormat.FormatTime** is defined for non-negative seconds only. A negative duration column lets the countdown run below 0 without ever submitting (`Tick` models that), but its display is not modelled.
- **MockTestPage.Session.Interactive** shows the question view only once the answers are initialised (`Ready`). The source renders it as soon as the test and a non-empty question list are present (mock-test-page.tsx lines 122-126). On a render where both queries have resolved but the initialisation effect (lines 35-43) has not run yet, `selectedAnswers` is still `[]`. Line 174 then calls `toString()` on `undefined` and the render throws. The model assumes that render does not happen and does not capture that crash.
- **Lower-casing.** `toLowerCase` is ASCII-only. Full Unicode case mapping is not modelled.
- **Rendering.** The progress-bar width (mock-test-page.tsx line 165) and all JSX are not modelled. The same holds for the rest of the interface: footer, navbar, course pages, course card and routing.
- **Server plumbing.** `sessionStore`, memorystore and express-session are not modelled. Neither are server/routes.ts and the zod schemas; shared/schema.ts is used only for field shapes.
- **Async wrappers.** The `async`/`Promise` wrappers of the storage methods are not modelled; they resolve synchronously here.
