# Codeforces rating predictor — verified model of its core

The tool takes a Codeforces handle and a contest id. It fetches the user's
current rating (`user.info`) and the contest standings (`contest.standings`,
unofficial rows included). From the standings it finds the user's rank among
the official contestants and counts those contestants. It then shows a
heuristic rating delta and the predicted new rating.

This project models the logic of `cf_rating_predictor.py` in Dafny:

- `ascii.dfy` (module `Ascii`): the lowercasing used for case-insensitive handle comparison.
- `user_rating.dfy` (module `UserRating`): `get_user_rating`. It takes the decoded `user.info` reply. A non-"OK" status gives an absent rating. Otherwise the result is the first entry's `rating`, or 1500 when the entry has none.
- `contest_standings.dfy` (module `ContestStandings`): `get_contest_data`. It is an imperative method with a loop over the rows, proved equal to the specification function `StandingsScan`. The properties of the scan are proved as lemmas about that function: the all-absent failure unit, the count of "CONTESTANT" rows, the last-match-wins rank, that unofficial rows play no part, and that the handle's letter case does not matter.
- `predictor.dfy` (module `Predictor`): the branch run when "Predict" is pressed. An empty input gives a warning. A missing rating or rank gives an error. Otherwise the result is a prediction with `new_rating = rating + delta`. The estimator enters as an opaque function `(rank, rating, total) -> int`.
- `wrappers.dfy` (module `Wrappers`): `Option`, which stands for Python's `None`.

## Model

| member | source | states |
|---|---|---|
| `Ascii.Lower` | cf_rating_predictor.py:28 | lowercasing keeps the length and lowercases each character in place |
| `Ascii.LowerIdempotent` | cf_rating_predictor.py:28 | lowercasing twice is the same as lowercasing once |
| `Ascii.LowerOfUpper` | cf_rating_predictor.py:28 | upper-casing a handle does not change its lowercase form |
| `Ascii.CaseVariantsAreSame` | cf_rating_predictor.py:28 | a handle compares equal, ignoring case, to its upper- and lower-case variants |
| `UserRating.GetUserRating` | cf_rating_predictor.py:8-10 | absent exactly when the status is not "OK"; otherwise the first entry's rating, or 1500 when it has none |
| `UserRating.UnratedDefaults` | cf_rating_predictor.py:10 | an unrated first entry gives rating 1500 |
| `UserRating.OnlyFirstEntryMatters` | cf_rating_predictor.py:10 | entries after the first never change the rating returned |
| `ContestStandings.ContestantsOnly` | cf_rating_predictor.py:24-25 | the filtered rows are all "CONTESTANT" rows and are no more than the input rows |
| `ContestStandings.GetContestData` | cf_rating_predictor.py:12-31 | the loop's result equals `StandingsScan`: the all-absent triple on a failed status, else the last match's rank, the count of official rows and the rows |
| `ContestStandings.FailureIsAllAbsent` | cf_rating_predictor.py:15-16 | the result is all-absent exactly when the status is not "OK"; an "OK" reply always has a total and returns its rows |
| `ContestStandings.CountIsContestantsOnly` | cf_rating_predictor.py:19-26 | the total equals the number of rows whose type is exactly "CONTESTANT" |
| `ContestStandings.TotalBounded` | cf_rating_predictor.py:19-26 | on an "OK" reply, 0 <= total <= number of rows |
| `ContestStandings.CountAllContestants` | cf_rating_predictor.py:24-26 | a reply made only of "CONTESTANT" rows counts every row |
| `ContestStandings.RankAbsentIffNoMatch` | cf_rating_predictor.py:20-29 | the rank is absent exactly when no "CONTESTANT" row's first handle equals the target, ignoring case |
| `ContestStandings.LastMatchWins` | cf_rating_predictor.py:22-29 | if a row matches and no later row does, its rank is the one returned |
| `ContestStandings.RankComesFromLastMatch` | cf_rating_predictor.py:22-29 | a present rank is the rank of a matching row that no later row matches |
| `ContestStandings.RankImpliesParticipant` | cf_rating_predictor.py:24-29 | when a rank is present, the total is present and at least 1 |
| `ContestStandings.ContestantsOnlyKeeps` | cf_rating_predictor.py:24-25 | every "CONTESTANT" row survives the filter |
| `ContestStandings.UnofficialOnlyIsNotFound` | cf_rating_predictor.py:24-29 | a handle found in no "CONTESTANT" row gives an absent rank, while the total still counts the official rows |
| `ContestStandings.CountIgnoresUnofficial` | cf_rating_predictor.py:24-26 | removing unofficial rows does not change the count |
| `ContestStandings.RankIgnoresUnofficial` | cf_rating_predictor.py:24-29 | removing unofficial rows does not change the rank |
| `ContestStandings.UnofficialRowsIrrelevant` | cf_rating_predictor.py:24-25 | the scan of the reply without its unofficial rows has the same rank and total |
| `ContestStandings.RankIgnoresHandleCase` | cf_rating_predictor.py:28 | two targets equal ignoring case get the same rank |
| `ContestStandings.ScanIgnoresHandleCase` | cf_rating_predictor.py:28 | two targets equal ignoring case get the same result |
| `ContestStandings.ScanIgnoresUpperCasing` | cf_rating_predictor.py:28 | upper-casing the target handle does not change the result |
| `Predictor.Predict` | cf_rating_predictor.py:46-58 | a warning exactly when an input is empty; an error exactly when the rating or the rank is absent; otherwise the fetched rating, rank and total, `delta = estimate(rank, rating, total)` and `new_rating = rating + delta`, with a total of at least 1 passed to the estimator |
| `Predictor.MissingInputIgnoresFetches` | cf_rating_predictor.py:47-48 | an empty input gives the warning whatever the fetches would return, so no fetch is consulted |
| `Predictor.UpstreamFailureIsError` | cf_rating_predictor.py:51-55 | a non-"OK" status from either endpoint gives the error |
| `Predictor.UnofficialParticipantIsError` | cf_rating_predictor.py:52-55 | a handle that matches no "CONTESTANT" row gives the error |
| `Predictor.PredictionIsGrounded` | cf_rating_predictor.py:51-58 | a prediction has 1 <= total <= rows, exactly the first entry's rating (1500 when it has none), and the rank of the last matching official row |
| `Predictor.PredictIgnoresHandleCase` | cf_rating_predictor.py:52 | for the same two replies, upper-casing the handle does not change the outcome |

## Left out

- `estimate_delta` (cf_rating_predictor.py:33-36) is not modelled. It uses floating-point `math.pow`, the factor 0.03 and Python's `round`. `Predictor.Predict` takes the estimator as an opaque function of (rank, rating, total).
- HTTP requests and JSON decoding (cf_rating_predictor.py:6-7, 13-14) are not modelled. The replies enter as already-decoded values, and transport or decoding failures (unhandled in the source) are not modelled. `contest_id` is used only in the URL, so the scan does not take it.
- The Streamlit page (titles, text inputs, button, spinner, messages) is presentation. Only its decision is modelled, as the `Outcome` of `Predictor.Predict`.
- `Ascii.Lower`: folds only the ASCII letters 'A'..'Z', whereas Python's `str.lower()` folds all of Unicode; handles and typed input with non-ASCII letters may compare differently.
- `Predictor.PredictIgnoresHandleCase`: holds for the same two replies; that the `user.info` endpoint (cf_rating_predictor.py:6, 51) returns the same profile for a case variant of the handle is assumed, not modelled.
- `ContestStandings.GetContestData`: requires every "CONTESTANT" row to have a first member. The source raises `IndexError` on such a row, and that exception is not modelled. For the same reason the specification predicate `Matches` treats a row without members as not matching.
- `UserRating.GetUserRating`: requires an "OK" reply to have at least one result entry. The source raises `IndexError` otherwise, and that exception is not modelled.
- `Predictor.Predict`: requires the two replies to satisfy the two conditions above when both inputs are non-empty.
- Missing keys in a reply (`status`, `result`, `party`, `rank`, `handle`) raise `KeyError` in the source. The datatypes make every such field present, so this is not modelled.
