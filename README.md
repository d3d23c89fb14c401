# Adult attachment-deficiency test: quiz engine

The application is a single React component, `App`, that shows an intro screen, then one Likert-scale question at a time, then a result screen. Each question is answered with a score from 1 to 4. The component keeps four pieces of state: `started`, `currentQuestion`, `answers` and `showResult`. Three operations change that state: the start button, `handleAnswer(score)` and `resetTest()`. The result sums the answers and compares the percentage of the maximum (four points per question) with the thresholds 75 and 50. It yields one of three fixed title/description pairs. The result can be shared as a text message.

This Dafny project models that engine in two modules:

- `Scoring` (`Scoring.dfy`) holds `calculateResult` and the share-text template as pure functions, with lemmas about them. The floating-point percentage is replaced by exact integer cross-multiplication with the positive maximum score.
- `Quiz` (`Quiz.dfy`) holds the state machine. The transitions are functions on a `QuizState` value. The class `QuizApp` holds the four fields, and its methods update them in place, as the component's setters do. Each method is specified by the matching transition function. `Inv` describes exactly the states reachable from the initial one: reachable states satisfy it (`CompleteRun`, `RunFromQuestion`), and every state satisfying it is reachable (`InvReachable`).

The question list itself is not modelled. Only its length matters, and it is the parameter `n >= 1` (the class constant `QuizApp.n`).

## Model

| member | source | states |
|---|---|---|
| `Scoring.Classify` | src/App.tsx:24-42 | With maximum `MaxScore(n) = 4n` (`questions.length * 4`), the category is severe exactly when the total reaches 75 % (an average of at least 3 per question). It is moderate exactly when the total reaches 50 % but not 75 %, and healthy exactly below 50 %. Lower bounds are inclusive and the tests run in descending order. |
| `Scoring.CalculateResult` | src/App.tsx:22-43 | The title is severe iff `4*total >= 3*maxScore`, moderate iff `2*total >= maxScore` and `4*total < 3*maxScore`, healthy iff `2*total < maxScore`. Each title comes with its own fixed description. |
| `Scoring.ShareText` | src/App.tsx:54 | The message is the fixed prefix, then the title, `"\n"`, the description, `"\n\n"`, the fixed label and the url, in that order, with nothing else. Each part sits at the stated position and the length is the sum of the parts. |
| `Scoring.SumAppend` | src/App.tsx:23 | The left-to-right sum of a concatenation is the sum of the parts. |
| `Scoring.SumSnoc` | src/App.tsx:23 | Appending one answer adds exactly that answer to the sum. |
| `Scoring.SumRemove` | src/App.tsx:23 | Taking one answer out of a sequence lowers the sum by exactly that answer. |
| `Scoring.SumPermutation` | src/App.tsx:23 | Any two orderings of the same answers have the same sum. |
| `Scoring.SumMonotone` | src/App.tsx:23 | Raising answers position by position never lowers the sum. |
| `Scoring.Sum` | src/App.tsx:23 | The left-to-right `reduce` sum of the answers. When every answer is one of the offered scores 1..4 (src/App.tsx:149-153), `k` answers total between `k` and `4k`. |
| `Scoring.SumConstant` | src/App.tsx:23 | `k` answers that all equal `c` total `c*k`. |
| `Scoring.ResultPermutationInvariant` | src/App.tsx:22-43 | The result depends only on the answers' sum, so any reordering of the answers gives the same outcome. |
| `Scoring.OutcomeOf` | src/App.tsx:27-42 | Each category gets its own fixed title: the severe, moderate and healthy titles belong to exactly the severe, moderate and healthy categories. |
| `Scoring.ClassifyMonotone` | src/App.tsx:27-42 | A larger total never gives a less severe category. |
| `Scoring.ResultMonotone` | src/App.tsx:22-43 | Raising any answers never gives a less severe category. On `calculateResult`'s outcome: if the lower answers give the severe title, so do the raised ones, and if the raised answers give the healthy title, so do the lower ones. |
| `Scoring.TenQuestionBoundaries` | src/App.tsx:27-32 | For ten answers and ten questions, `calculateResult` gives the severe title for a total of 30, the moderate title for 29 and for 20, and the healthy title for 19. |
| `Scoring.AllLowestIsHealthy` | src/App.tsx:22-43 | `n` answers of 1 give the healthy title and description. |
| `Scoring.AllHighestIsSevere` | src/App.tsx:22-43 | `n` answers of 4 give the severe title and description. |
| `Quiz.ScreenOf` | src/App.tsx:69-128 | The screen choice. The intro is shown exactly when not started (:69). The result is shown exactly when started and `showResult` holds (:94). Otherwise the question screen shows question `currentQuestion` (:128-145). |
| `Quiz.Start` | src/App.tsx:82 | `setStarted(true)`: leaves the intro screen, and the question index, answers and `showResult` are unchanged. |
| `Quiz.Answer` | src/App.tsx:11-20 | `handleAnswer(score)`: the answers grow by one, the earlier ones are unchanged and the last one is `score`. `started` is unchanged. Below the last question the index goes up by one and `showResult` is unchanged. Otherwise the index is unchanged and `showResult` becomes true. |
| `Quiz.InitialValid` | src/App.tsx:6-9 | The initial values satisfy the invariant and show the intro screen. |
| `Quiz.StartValid` | src/App.tsx:82 | Starting keeps the invariant. From the intro it shows question 0 with no answers. |
| `Quiz.AnswerValid` | src/App.tsx:11-20 | On the question screen, an answer with a score from 1 to 4 keeps the invariant and appends exactly that score. It shows the result exactly when it is the `n`-th answer, and otherwise the next question. |
| `Quiz.QuestionIndexInBounds` | src/App.tsx:145 | Under the invariant, the question screen's index is below `n` and equals the number of answers, so `questions[currentQuestion]` is in bounds. |
| `Quiz.ResultTotalInRange` | src/App.tsx:94-105 | On the result screen there are exactly `n` answers, and their total lies between `n` and `4n`. |
| `Quiz.RunFromQuestion` | src/App.tsx:11-20 | From a question screen, feeding answers one by one, up to `n` in all, appends them in order. It reaches the result screen exactly when the `n`-th answer arrives, and otherwise shows the question whose index is the answer count. |
| `Quiz.CompleteRun` | src/App.tsx:15-19 | From the initial state after start, `n` answers reach the result screen holding exactly those answers. No shorter prefix reaches it: after `k < n` answers, question `k` is shown. |
| `Quiz.InvReachable` | src/App.tsx:6-19 | The converse of the invariant lemmas: every state satisfying `Inv` is either the initial state, or the state reached by starting and then giving its own answers one by one. |
| `Quiz.QuizApp.constructor` | src/App.tsx:6-9 | The four fields start at `false`, `0`, `[]`, `false`: the invariant holds and the intro screen is shown. |
| `Quiz.QuizApp.StartTest` | src/App.tsx:82 | Sets `started` and changes nothing else. It keeps the invariant, and from the intro it shows question 0. |
| `Quiz.QuizApp.HandleAnswer` | src/App.tsx:11-20 | The new fields are `Answer` of the old ones, so by `Answer`'s contract it appends exactly `score` and leaves earlier answers unchanged. Below the last question it increments `currentQuestion` by one and leaves `showResult` alone. Otherwise it sets `showResult` and leaves `currentQuestion`. On the question screen with a score from 1 to 4 it keeps the invariant, and the result is shown iff `n` answers are in. |
| `Quiz.QuizApp.ResetTest` | src/App.tsx:45-50 | From any state, restores exactly the initial values and the intro screen. It is therefore idempotent. |
| `Quiz.QuizApp.ShownQuestion` | src/App.tsx:140-145 | On the question screen, the shown index is below `n` and equals the number of answers collected. |
| `Quiz.QuizApp.ShownResult` | src/App.tsx:94-105 | On the result screen there are `n` answers. The title shown is severe iff their total is at least `3n`, moderate iff it is at least `2n` and below `3n`, and healthy iff it is below `2n`. |

## Left out

- Rendering: JSX markup, CSS classes and icons, including the progress-bar width and the "k / n" label. These are presentation only. The model keeps only the choice of screen (`Quiz.ScreenOf`).
- `shareResult`'s platform calls: `navigator.share`, the clipboard fallback, `alert` and `console.log`. These are browser I/O. The page location `window.location.href` is the `url` parameter of `Scoring.ShareText`.
- The contents of the question list, which is not part of this model. Only its length `n` is a parameter, assumed to be at least 1.
- React's state batching and re-rendering. Each setter call is an ordinary assignment to a field, applied in program order. `setCurrentQuestion(prev => prev + 1)` is an increment of the current value.
- Scoring.Classify: compares exact ratios. It does not model how the JavaScript floating-point quotient `(total / maxScore) * 100` rounds. The thresholds 3/4 and 1/2 are exact in binary, so the two agree at the boundaries.
- Quiz.QuizApp.HandleAnswer: its invariant-preservation clause is stated only for calls from the question screen with a score of 1 to 4. Those are the only calls the page makes. Outside them the method still does exactly what the code does, and its other clauses say so.
