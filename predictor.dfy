/**
 * The decision made when "Predict" is pressed: warn on a missing input,
 * report an error when the rating or the rank cannot be had, otherwise
 * report the prediction. The delta estimator is floating-point and enters
 * the model as an opaque function of (rank, rating, total participants).
 */
module Predictor {
  import opened Wrappers
  import opened Ascii
  import opened UserRating
  import opened ContestStandings

  datatype Outcome =
    | MissingInput
    | RetrievalError
    | Prediction(rating: int, rank: int, total: int, delta: int, newRating: int)

  /** What the two fetches must satisfy for the source not to raise on them. */
  predicate FetchesIndexable(user: UserInfoResponse, standings: StandingsResponse)
  {
    Indexable(user) && (standings.status == "OK" ==> WellFormed(standings.rows))
  }

  /**
   * The "Predict" branch. `user` and `standings` are the replies the two
   * fetches would return; they are consulted only when both inputs are
   * non-empty, which is when the source issues them.
   */
  function Predict(handle: string, contestId: string, user: UserInfoResponse, standings: StandingsResponse,
                   estimate: (int, int, int) -> int): (r: Outcome)
    requires handle != [] && contestId != [] ==> FetchesIndexable(user, standings)
    ensures r == MissingInput <==> handle == [] || contestId == []
    ensures r == RetrievalError <==>
              handle != [] && contestId != [] &&
              (GetUserRating(user).None? || StandingsScan(standings, handle).userRank.None?)
    ensures r.Prediction? ==>
              Some(r.rating) == GetUserRating(user) &&
              Some(r.rank) == StandingsScan(standings, handle).userRank &&
              Some(r.total) == StandingsScan(standings, handle).total &&
              r.delta == estimate(r.rank, r.rating, r.total) &&
              r.newRating == r.rating + r.delta
    ensures r.Prediction? ==> r.total >= 1
  {
    if handle == [] || contestId == [] then MissingInput
    else
      var rating := GetUserRating(user);
      var data := StandingsScan(standings, handle);
      if rating.None? || data.userRank.None? then RetrievalError
      else
        RankImpliesParticipant(standings, handle);
        var delta := estimate(data.userRank.value, rating.value, data.total.value);
        Prediction(rating.value, data.userRank.value, data.total.value, delta, rating.value + delta)
  }

  /** A missing input is reported whatever the fetches would have returned: no fetch is consulted. */
  lemma MissingInputIgnoresFetches(handle: string, contestId: string,
                                   user1: UserInfoResponse, standings1: StandingsResponse,
                                   user2: UserInfoResponse, standings2: StandingsResponse,
                                   estimate: (int, int, int) -> int)
    requires handle == [] || contestId == []
    ensures Predict(handle, contestId, user1, standings1, estimate) == MissingInput
    ensures Predict(handle, contestId, user1, standings1, estimate) == Predict(handle, contestId, user2, standings2, estimate)
  {
  }

  /** A failed status on either endpoint is a retrieval error. */
  lemma UpstreamFailureIsError(handle: string, contestId: string, user: UserInfoResponse,
                               standings: StandingsResponse, estimate: (int, int, int) -> int)
    requires handle != [] && contestId != [] && FetchesIndexable(user, standings)
    requires user.status != "OK" || standings.status != "OK"
    ensures Predict(handle, contestId, user, standings, estimate) == RetrievalError
  {
  }

  /** A user who took part only unofficially is not found, so the outcome is a retrieval error. */
  lemma UnofficialParticipantIsError(handle: string, contestId: string, user: UserInfoResponse,
                                     standings: StandingsResponse, estimate: (int, int, int) -> int)
    requires handle != [] && contestId != [] && FetchesIndexable(user, standings)
    requires forall i :: 0 <= i < |standings.rows| ==> !Matches(standings.rows[i], handle)
    ensures Predict(handle, contestId, user, standings, estimate) == RetrievalError
  {
    RankAbsentIffNoMatch(standings.rows, handle);
  }

  /**
   * A prediction is about a real official participant: the rank is that of
   * the last official row whose first handle matches, the total counts at
   * least that row, and the rating is the profile's or the default 1500.
   */
  lemma PredictionIsGrounded(handle: string, contestId: string, user: UserInfoResponse,
                             standings: StandingsResponse, estimate: (int, int, int) -> int)
    requires handle != [] && contestId != [] && FetchesIndexable(user, standings)
    requires Predict(handle, contestId, user, standings, estimate).Prediction?
    ensures var p := Predict(handle, contestId, user, standings, estimate);
            1 <= p.total <= |standings.rows| &&
            p.rating == user.result[0].rating.GetOr(DefaultRating) &&
            exists k :: 0 <= k < |standings.rows| && Matches(standings.rows[k], handle) &&
                        standings.rows[k].rank == p.rank &&
                        forall j :: k < j < |standings.rows| ==> !Matches(standings.rows[j], handle)
  {
    RankImpliesParticipant(standings, handle);
    TotalBounded(standings, handle);
    RankComesFromLastMatch(standings.rows, handle);
  }

  /**
   * Given the same two replies, the decision ignores the handle's letter case.
   * Whether the remote `user.info` endpoint answers a case variant with the
   * same profile is outside the model.
   */
  lemma PredictIgnoresHandleCase(handle: string, contestId: string, user: UserInfoResponse,
                                 standings: StandingsResponse, estimate: (int, int, int) -> int)
    requires handle != [] && contestId != [] && FetchesIndexable(user, standings)
    ensures Predict(Upper(handle), contestId, user, standings, estimate) ==
            Predict(handle, contestId, user, standings, estimate)
  {
    ScanIgnoresUpperCasing(standings, handle);
  }
}
