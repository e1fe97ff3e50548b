/**
 * Resolving a handle to its current rating (`get_user_rating`): the already
 * decoded reply of the `user.info` endpoint is the input.
 */
module UserRating {
  import opened Wrappers

  /** Rating assumed for a user whose profile has no `rating` field (an unrated user). */
  const DefaultRating: int := 1500

  /** One entry of the `result` list: only the fields the core reads. */
  datatype UserEntry = UserEntry(handle: string, rating: Option<int>)

  datatype UserInfoResponse = UserInfoResponse(status: string, result: seq<UserEntry>)

  /**
   * A successful reply that the source can index: `response["result"][0]`
   * raises when the list is empty, which the model does not reproduce.
   */
  predicate Indexable(resp: UserInfoResponse)
  {
    resp.status == "OK" ==> |resp.result| > 0
  }

  /** `get_user_rating`: absent on a failed status, else the first entry's rating or 1500. */
  function GetUserRating(resp: UserInfoResponse): (r: Option<int>)
    requires Indexable(resp)
    ensures r.None? <==> resp.status != "OK"
    ensures r.Some? ==> r.value == resp.result[0].rating.GetOr(DefaultRating)
  {
    if resp.status != "OK" then None
    else Some(resp.result[0].rating.GetOr(DefaultRating))
  }

  /** An unrated first entry is reported with the default rating 1500. */
  lemma UnratedDefaults(resp: UserInfoResponse)
    requires resp.status == "OK" && |resp.result| > 0
    requires resp.result[0].rating.None?
    ensures GetUserRating(resp) == Some(1500)
  {
  }

  /** Only the status and the first entry matter: the remaining entries never change the answer. */
  lemma OnlyFirstEntryMatters(resp: UserInfoResponse, rest: seq<UserEntry>)
    requires Indexable(resp)
    ensures var other := UserInfoResponse(resp.status, if resp.result == [] then [] else [resp.result[0]] + rest);
            Indexable(other) && GetUserRating(other) == GetUserRating(resp)
  {
  }
}
