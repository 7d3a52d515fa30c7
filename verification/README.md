# SUS questionnaire: scoring, shuffling and result text

A Dafny model of the System Usability Scale (SUS) questionnaire in the
`tnm115` course repository. The repository has two front ends:

- Task3 scores locally in the browser.
- Task4 posts the answers to a small Node.js server that scores them.

The model covers the parts that decide what a user sees and what score they get:

- **`calculateScore`** (module `SusScore`). One pass over the `{id, value}`
  answers sums the values of odd and of even ids. It returns `null` at the
  first missing value. Otherwise it returns `((sumOdd - 5) + (25 - sumEven)) * 2.5`.
  The module relates this to Brooke's per-item contributions, to the range
  0 to 100, and to the order of the answers.
- **The server's `/score` status decision** (module `SusServer`). It answers
  406 with no body for `null`. For a score it answers 200 with the JSON body
  `{name: "SUS Score from Server", result}`.
- **The Task4 client** (modules `FisherYates`, `SusClient` and `Form`):
  - the `random=true` flag;
  - the whole-item Fisher–Yates shuffle of the global item array, which
    rearranges that array itself;
  - reading a radio group's value: the last checked button, or `null`;
  - building the results array;
  - turning the server's response into the message shown.
- **The Task3 front end** (module `StatementShuffle`):
  - the statement-only shuffle within each parity class, written back into
    the global item objects, because `filter` keeps references to them;
  - the odd/even merge of the two classes;
  - local submission with its result text (module `ResultText`).

Modelling choices:

- Randomness becomes an explicit sequence of Fisher–Yates draws
  `choices[i] <= i`, one per iteration.
- The DOM lookup of a radio group becomes a map from item id to that group's
  buttons.
- JavaScript `null` becomes `Option.None`.
- Scores are exact reals. Every score is a whole number of half points, and
  the decimal text JavaScript prints for such a number is modelled with a
  parser that reads it back.
- Parity is `id % 2 != 0`. For integers this agrees with JavaScript's
  truncating `%`, so Dafny's Euclidean `%` needs no correction here.

## Model

| member | source | states |
|---|---|---|
| SusScore.CalculateScore | Task4/sus-server/app.js:191-207 | The loop with its early `return null` gives `None` exactly when some answer has no value, whatever the rest; otherwise it gives the closed formula over all answers, which is a whole number of half points |
| SusScore.ScoreIsHalfPoints | Task4/sus-server/app.js:203-206 | Every score `(x + y) * 2.5` with whole sums is a multiple of 0.5 |
| SusScore.SumsPartition | Task4/sus-server/app.js:194-201 | Every answer lands in exactly one of `sumOdd` and `sumEven`: the two counts add up to the number of answers and the two sums add up to the sum of all values |
| SusScore.ContributionSum | Task4/sus-server/app.js:181-184 | For any numbers of odd and even answers, the sum of Brooke's per-item contributions equals `(sumOdd - #odd) + (5 * #even - sumEven)` |
| SusScore.ScoreIsContributionSum | Task4/sus-server/app.js:181-184 | With five odd and five even answers the score is 2.5 times the sum of per-item contributions (value − 1 for odd ids, 5 − value for even ids), which is what the constants 5 and 25 encode |
| SusScore.ContributionBounds | Task4/sus-server/app.js:182 | Each in-scale answer contributes between 0 and 4 |
| SusScore.ScoreInRange | Task4/sus-server/app.js:185 | Ten in-scale answers, five odd and five even, always get a score, and it lies in [0, 100] |
| SusScore.SumByPermutation | Task4/sus-server/app.js:194-201 | A sum over the answers does not depend on their order |
| SusScore.ScoreOrderIndependent | Task4/sus-server/app.js:194-201 | Two answer lists that are permutations of each other get the same score (or both `null`) |
| SusScore.AlternatingCounts | Task4/sus-server/app.js:196 | Answers whose ids alternate odd, even, … hold as many odd-id as even-id answers |
| SusServer.ScoreResponse | Task4/sus-server/app.js:153-165 | `null` gets 406 with no Content-Type and no body; a score gets 200 with Content-Type `application/json` and the body `{name: "SUS Score from Server", result: score}` |
| SusServer.RoutingScore | Task4/sus-server/app.js:149-166 | The response is 406 exactly when some answer lacks a value and 200 otherwise; a 406 has no Content-Type and no body; a 200 is `application/json` and carries `name: "SUS Score from Server"` and the score of the answers |
| SusServer.CompleteAnswersAccepted | Task4/sus-server/app.js:153-165 | Ten in-scale answers, five odd and five even, get a 200 whose result lies in [0, 100] |
| SusServer.BestCaseAccepted | Task4/sus-server/app.js:153-165 | Answering 5 to every odd item and 1 to every even item gets a 200 carrying exactly 100 |
| FisherYates.ShuffleLoop | Task4/sus-client/scripts.js:47-52 | The in-place loop, with its temporary-variable swap, computes the Fisher–Yates shuffle for the given draws, and the result is a permutation of the input |
| FisherYates.ShufflePermutes | Task4/sus-client/scripts.js:47-54 | The shuffle returns a permutation of the array: same elements, same multiplicities |
| FisherYates.ShuffleKeepsElements | Task4/sus-client/scripts.js:47-54 | Every element after the shuffle was an element before it |
| FisherYates.PassKeepsSuffix | Task4/sus-client/scripts.js:47-52 | The iterations from index `i` down never touch positions above `i`, so the last positions are fixed once their iteration is done |
| FisherYates.MapShuffle | Task4/sus-client/scripts.js:47-52 | Shuffling moves whole objects: projecting a field after the shuffle is the same as shuffling the projected fields with the same draws |
| SusClient.Generate | Task4/sus-client/scripts.js:64-72 | Labels are shown exactly when `random` is not `"true"`; with `random=true` what is shown is the Fisher–Yates shuffle of the global array for the given draws, without randomisation the global array as is; what is shown is the global array afterwards |
| SusClient.GeneratePermutes | Task4/sus-client/scripts.js:42-55 | Every rendering leaves the global array a permutation of what it was, whole items at a time |
| SusClient.RepeatedRenderings | Task4/sus-client/scripts.js:47-54 | Because the shuffle rewrites the global array, a second rendering shuffles the first rendering's order, and the result is still a permutation of the original |
| SusClient.ShuffledTableIds | Task4/sus-client/scripts.js:27-38 | After any shuffle of the ten items, the ids are 1 to 10, each exactly once |
| SusClient.ShuffleKeepsScore | Task4/sus-client/scripts.js:179-183 | The answers collected after a whole-item shuffle are the unshuffled answers in another order, so the score is unchanged |
| SusClient.TableAnswersInRange | Task4/sus-client/scripts.js:179-183 | A fully answered page of Likert buttons for the ten items scores within [0, 100] |
| SusClient.TableAnswerCounts | Task4/sus-client/scripts.js:179-183 | Whatever is checked, the answers collected for the ten items hold five odd-id and five even-id answers, because each answer carries its item's id |
| SusClient.SubmissionInRange | Task4/sus-client/scripts.js:179-183 | The same holds after any shuffle of the items |
| SusClient.RemoteMessage | Task4/sus-client/scripts.js:208-231 | A 2xx response shows `SUS Score = ` followed by the returned result; any other status shows the invalid message |
| SusClient.RemoteAgreesWithLocal | Task4/sus-client/scripts.js:208-231 | Scoring on the server and showing its response gives exactly the text local scoring would show |
| Form.SubmittedValue | Task4/sus-client/scripts.js:163-172 | The value is `null` exactly when no button of the group is checked; otherwise it is the value of the last checked button |
| Form.FoldChecked | Task3/scripts.js:217-222 | Every checked button overwrites the running result: the last checked one wins, and with none checked the initial value stays |
| Form.FoldNoneIffUnchecked | Task3/scripts.js:217-224 | Starting from `null`, the result stays `null` exactly when nothing is checked |
| Form.CollectResults | Task4/sus-client/scripts.js:179-183 | One answer per item, in the current order of the global array, carrying that item's id and its group's submitted value |
| Form.CollectedValuesInScale | Task4/sus-client/scripts.js:163-172 | On a page whose buttons carry Likert values, every submitted value lies in [1, 5] |
| Questionnaire.LikertValues | Task4/sus-client/scripts.js:17-23 | A value is on the Likert scale exactly when it lies between 1 and 5 |
| Questionnaire.TableIds | Task4/sus-client/scripts.js:27-38 | The ten items have ids 1 to 10 in order, alternating odd and even |
| StatementShuffle.WithStatements | Task3/scripts.js:51 | Giving items new statements keeps every id and position and puts the new statements in order |
| StatementShuffle.WriteBackFilter | Task3/scripts.js:45-58 | Because `filter` keeps references, the global array afterwards holds, among its odd-id objects, the shuffled odd statements in order, and likewise for even ids |
| StatementShuffle.RandomizeStatements | Task3/scripts.js:42-68 | Ids stay in place; within each parity class the statements are Fisher–Yates shuffled; the array shown is the odd/even merge of the updated objects |
| StatementShuffle.InterleaveAt | Task3/scripts.js:61-65 | The merge puts the `k`-th odd object at position `2k` and the `k`-th even object at `2k + 1` |
| StatementShuffle.StatementsPermutedWithinParity | Task3/scripts.js:44-58 | Within each parity class the statements afterwards are a permutation of those before |
| StatementShuffle.NoStatementChangesParity | Task3/scripts.js:44-58 | No statement crosses from odd to even ids or back, so each statement keeps its scoring polarity |
| StatementShuffle.InterleaveAlternating | Task3/scripts.js:60-65 | For ids that alternate odd, even, …, the merge of the two classes gives back the original order |
| StatementShuffle.AlternatingShownInPlace | Task3/scripts.js:42-68 | When the global array alternates odd and even ids, the merged array shown holds the global objects in their own positions |
| StatementShuffle.CanonicalOrderShown | Task3/scripts.js:121-124 | On the ten-item table the array shown is the updated global array, with ids 1 to 10 in order |
| StatementShuffle.SubmitQuestionnaire | Task3/scripts.js:198-209 | The text shown reads back as the score of the collected answers, and it is the invalid message exactly when some item has no checked button |
| ResultText.ScoreMessage | Task3/scripts.js:205-208 | `null` shows the invalid message and a score shows `SUS Score = ` followed by its number; the message reads back as the outcome it reports |
| ResultText.NumberText | Task3/scripts.js:208 | The decimal text of a half-point score reads back as that score |
| ResultText.HalfTextRoundTrip | Task3/scripts.js:208 | The text of any multiple of 0.5, with a minus sign when it is negative, reads back as that number |
| ResultText.ParseNatText | Task3/scripts.js:208 | The decimal digits of a natural number read back as that number |
| ResultText.ParseNatCanonical | Task3/scripts.js:208 | A text that reads as a natural number, with no leading zero, is exactly the digits JavaScript prints for it |
| ResultText.ParseHalfCanonical | Task3/scripts.js:208 | A text that reads as a multiple of 0.5 is exactly the text JavaScript prints for it, so leading zeros and "-0" are not readings |
| ResultText.NumberTextCanonical | Task3/scripts.js:208 | Every text that reads as a score is a half-point score's own decimal text: the reading is one-to-one |
| ResultText.MessageCanonical | Task3/scripts.js:205-208 | A message that reads as an outcome is exactly the message shown for that outcome, so the message text is fixed by the score |

## Left out

- Building the DOM is not modelled: the page container, the item `div`s, the labels and the `hr` separators. The model keeps the order in which items are rendered and whether labels are shown.
- Reading a radio button's `value` string through `Number(...)` is not modelled. Buttons carry integer values.
- HTTP plumbing is not modelled; `RoutingScore` starts from the parsed `results` array. Left out:
  - reading the body in chunks;
  - the 500 response when reading the body fails;
  - the CORS headers;
  - the GET, OPTIONS and unknown-endpoint routes;
  - `JSON.parse` and `JSON.stringify`.
- Malformed requests have no error path in the model, because the code has none. The server's header comment promises a 500 for a body that cannot be parsed (app.js:17) and a 406 for input that is "not as expected" (app.js:16). The code does neither:
  - `JSON.parse` (app.js:143) throws inside the request's `end` listener (app.js:88-96).
  - A parsed body without a `results` array throws when `calculateScore` reads `.length` of `undefined` (app.js:194).
  - No handler catches either exception, so under Node's default behaviour the server process terminates. The failing request, and every later one, gets no response.
- `fetch`, `await` and the promise from `response.json()` are not modelled. `RemoteMessage` takes the final response.
- The uniformity of `Math.random` is not modelled. The draws are a parameter, so the proofs hold for every possible draw sequence.
- JavaScript's floating-point numbers and loose `==` are not modelled. Scores are exact reals, and ids and values are integers. Non-numeric JSON values in a request are not modelled.
- ResultText.NumberText: covers multiples of 0.5 only, because every computed score is one. It does not model JavaScript's exponent notation for magnitudes of 1e21 and above.
- StatementShuffle.RandomizeStatements: requires as many odd-id as even-id items. With unequal classes, the source's merge would push `undefined` entries. The ten-item table always has five of each.
- SusClient.RemoteMessage: requires a body on a 2xx response, and a body result that is a whole number of half points. This server always sends such a body, because every computed score is a half-point multiple. The model does not cover a 2xx reply without a body, or one carrying an arbitrary number, from some other server.
- The Task4 shuffle rewrites the global array in place, so repeated renderings compound. `RepeatedRenderings` states this; the model does not re-shuffle from a stable copy.
- Task3's `generateQuestionnaire` and `createSusQuestionnaire` are not modelled apart from their effect: which array is shown (`CanonicalOrderShown`). Task3 always shows the item ids as labels.
- Task3's copy of `calculateScore` (Task3/scripts.js:73-105) is the same as the server's (Task4/sus-server/app.js:176-208). `SusScore.CalculateScore` models both.
