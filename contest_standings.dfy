/**
 * Finding a handle's rank among the official contestants of a contest
 * (`get_contest_data`): the already decoded reply of the `contest.standings`
 * endpoint is the input.
 */
module ContestStandings {
  import opened Wrappers
  import opened Ascii

  /** One standings row: the party's participant type, the row's rank and the party members' handles. */
  datatype Row = Row(participantType: string, rank: int, members: seq<string>)

  datatype StandingsResponse = StandingsResponse(status: string, rows: seq<Row>)

  /**
   * What `get_contest_data` returns: the user's rank, the number of official
   * contestants and the rows themselves; all three are absent together on a
   * failed status.
   */
  datatype ContestData = ContestData(userRank: Option<int>, total: Option<int>, rows: Option<seq<Row>>)

  /** Only rows of type exactly "CONTESTANT" are official participants. */
  predicate IsContestant(row: Row)
  {
    row.participantType == "CONTESTANT"
  }

  /**
   * Every official row has a first member: the source reads `members[0]` of
   * each such row and raises otherwise, which the model does not reproduce.
   */
  predicate WellFormed(rows: seq<Row>)
  {
    forall i :: 0 <= i < |rows| && IsContestant(rows[i]) ==> |rows[i].members| > 0
  }

  /** An official row whose first member's handle equals `handle` ignoring case. */
  predicate Matches(row: Row, handle: string)
  {
    IsContestant(row) && |row.members| > 0 && SameIgnoringCase(row.members[0], handle)
  }

  /** Number of official rows, counted row by row as the scan does. */
  function CountContestants(rows: seq<Row>): nat
  {
    if rows == [] then 0
    else CountContestants(rows[..|rows| - 1]) + (if IsContestant(rows[|rows| - 1]) then 1 else 0)
  }

  /** Rank of the last matching row, absent when no row matches. */
  function LastMatchRank(rows: seq<Row>, handle: string): Option<int>
  {
    if rows == [] then None
    else if Matches(rows[|rows| - 1], handle) then Some(rows[|rows| - 1].rank)
    else LastMatchRank(rows[..|rows| - 1], handle)
  }

  /** The official rows alone, in their original order. */
  function ContestantsOnly(rows: seq<Row>): (r: seq<Row>)
    ensures |r| <= |rows|
    ensures forall i :: 0 <= i < |r| ==> IsContestant(r[i])
  {
    if rows == [] then []
    else ContestantsOnly(rows[..|rows| - 1]) + (if IsContestant(rows[|rows| - 1]) then [rows[|rows| - 1]] else [])
  }

  /** The value `get_contest_data` returns, as a function of the reply and the handle. */
  function StandingsScan(resp: StandingsResponse, handle: string): ContestData
  {
    if resp.status != "OK" then ContestData(None, None, None)
    else ContestData(LastMatchRank(resp.rows, handle), Some(CountContestants(resp.rows)), Some(resp.rows))
  }

  /** `get_contest_data`: one pass over the rows, counting official rows and keeping the last match's rank. */
  method GetContestData(resp: StandingsResponse, handle: string) returns (data: ContestData)
    requires resp.status == "OK" ==> WellFormed(resp.rows)
    ensures data == StandingsScan(resp, handle)
  {
    if resp.status != "OK" {
      return ContestData(None, None, None);
    }
    var rows := resp.rows;
    var totalParticipants := 0;
    var userRank: Option<int> := None;
    var target := Lower(handle);
    for i := 0 to |rows|
      invariant totalParticipants == CountContestants(rows[..i])
      invariant userRank == LastMatchRank(rows[..i], handle)
    {
      assert rows[..i + 1][..i] == rows[..i];
      var row := rows[i];
      if row.participantType != "CONTESTANT" {
        continue;
      }
      totalParticipants := totalParticipants + 1;
      var member := row.members[0];
      if Lower(member) == target {
        userRank := Some(row.rank);
      }
    }
    assert rows[..|rows|] == rows;
    data := ContestData(userRank, Some(totalParticipants), Some(rows));
  }

  // ---------------------------------------------------------------------------
  // The failure unit

  /** A failed status yields all three values absent, and a successful one none of the last two. */
  lemma FailureIsAllAbsent(resp: StandingsResponse, handle: string)
    ensures var d := StandingsScan(resp, handle);
            (resp.status != "OK" <==> d == ContestData(None, None, None)) &&
            (resp.status == "OK" ==> d.total.Some? && d.rows == Some(resp.rows))
  {
  }

  // ---------------------------------------------------------------------------
  // The count

  /** The number of official participants is the length of the list of official rows. */
  lemma {:induction false} CountIsContestantsOnly(rows: seq<Row>)
    ensures CountContestants(rows) == |ContestantsOnly(rows)|
  {
    if rows != [] {
      CountIsContestantsOnly(rows[..|rows| - 1]);
    }
  }

  /** 0 <= total <= number of rows, on every successful reply. */
  lemma TotalBounded(resp: StandingsResponse, handle: string)
    requires resp.status == "OK"
    ensures 0 <= StandingsScan(resp, handle).total.value <= |resp.rows|
  {
    CountIsContestantsOnly(resp.rows);
  }

  /** A reply made only of official rows counts every row. */
  lemma {:induction false} CountAllContestants(rows: seq<Row>)
    requires forall i :: 0 <= i < |rows| ==> IsContestant(rows[i])
    ensures CountContestants(rows) == |rows|
  {
    if rows != [] {
      CountAllContestants(rows[..|rows| - 1]);
    }
  }

  // ---------------------------------------------------------------------------
  // The rank

  /** The rank is absent exactly when no official row's first handle matches. */
  lemma {:induction false} RankAbsentIffNoMatch(rows: seq<Row>, handle: string)
    ensures LastMatchRank(rows, handle).None? <==> forall i :: 0 <= i < |rows| ==> !Matches(rows[i], handle)
  {
    if rows != [] {
      var init := rows[..|rows| - 1];
      RankAbsentIffNoMatch(init, handle);
      assert forall i :: 0 <= i < |init| ==> init[i] == rows[i];
    }
  }

  /** When the row at `k` matches and no later row does, its rank is the one returned: the last match wins. */
  lemma {:induction false} LastMatchWins(rows: seq<Row>, handle: string, k: nat)
    requires k < |rows| && Matches(rows[k], handle)
    requires forall j :: k < j < |rows| ==> !Matches(rows[j], handle)
    ensures LastMatchRank(rows, handle) == Some(rows[k].rank)
  {
    if k < |rows| - 1 {
      var init := rows[..|rows| - 1];
      assert forall j :: k < j < |init| ==> init[j] == rows[j];
      LastMatchWins(init, handle, k);
    }
  }

  /** A present rank is the rank of some matching official row after which no row matches. */
  lemma {:induction false} RankComesFromLastMatch(rows: seq<Row>, handle: string)
    requires LastMatchRank(rows, handle).Some?
    ensures exists k :: 0 <= k < |rows| && Matches(rows[k], handle) &&
                        rows[k].rank == LastMatchRank(rows, handle).value &&
                        forall j :: k < j < |rows| ==> !Matches(rows[j], handle)
  {
    var n := |rows| - 1;
    if Matches(rows[n], handle) {
      assert Matches(rows[n], handle) && rows[n].rank == LastMatchRank(rows, handle).value;
    } else {
      var init := rows[..n];
      RankComesFromLastMatch(init, handle);
      var k :| 0 <= k < |init| && Matches(init[k], handle) &&
               init[k].rank == LastMatchRank(init, handle).value &&
               forall j :: k < j < |init| ==> !Matches(init[j], handle);
      assert init[k] == rows[k];
      assert forall j :: k < j < |rows| ==> !Matches(rows[j], handle) by {
        forall j | k < j < |rows| ensures !Matches(rows[j], handle) {
          if j < n { assert init[j] == rows[j]; }
        }
      }
    }
  }

  /** A present rank implies at least one official participant. */
  lemma RankImpliesParticipant(resp: StandingsResponse, handle: string)
    requires StandingsScan(resp, handle).userRank.Some?
    ensures StandingsScan(resp, handle).total.Some? && StandingsScan(resp, handle).total.value >= 1
  {
    RankComesFromLastMatch(resp.rows, handle);
    var k :| 0 <= k < |resp.rows| && Matches(resp.rows[k], handle);
    CountIsContestantsOnly(resp.rows);
    ContestantsOnlyKeeps(resp.rows, k);
  }

  /** Every official row survives the filter, so the filter is nonempty when one exists. */
  lemma {:induction false} ContestantsOnlyKeeps(rows: seq<Row>, k: nat)
    requires k < |rows| && IsContestant(rows[k])
    ensures rows[k] in ContestantsOnly(rows)
  {
    if k < |rows| - 1 {
      ContestantsOnlyKeeps(rows[..|rows| - 1], k);
    }
  }

  /**
   * A handle that appears only in unofficial rows is not found: the rank is
   * absent while the total still counts the official rows.
   */
  lemma UnofficialOnlyIsNotFound(resp: StandingsResponse, handle: string)
    requires resp.status == "OK"
    requires forall i :: 0 <= i < |resp.rows| && IsContestant(resp.rows[i]) ==>
               |resp.rows[i].members| > 0 && !SameIgnoringCase(resp.rows[i].members[0], handle)
    ensures StandingsScan(resp, handle) == ContestData(None, Some(CountContestants(resp.rows)), Some(resp.rows))
  {
    RankAbsentIffNoMatch(resp.rows, handle);
  }

  // ---------------------------------------------------------------------------
  // Unofficial rows are invisible

  lemma {:induction false} CountIgnoresUnofficial(rows: seq<Row>)
    ensures CountContestants(ContestantsOnly(rows)) == CountContestants(rows)
  {
    CountIsContestantsOnly(rows);
    CountAllContestants(ContestantsOnly(rows));
  }

  lemma {:induction false} RankIgnoresUnofficial(rows: seq<Row>, handle: string)
    ensures LastMatchRank(ContestantsOnly(rows), handle) == LastMatchRank(rows, handle)
  {
    if rows != [] {
      var init := rows[..|rows| - 1];
      var last := rows[|rows| - 1];
      RankIgnoresUnofficial(init, handle);
      if IsContestant(last) {
        var f := ContestantsOnly(init) + [last];
        assert ContestantsOnly(rows) == f;
        assert f[..|f| - 1] == ContestantsOnly(init);
      } else {
        assert ContestantsOnly(rows) == ContestantsOnly(init);
      }
    }
  }

  /** Removing the unofficial rows leaves the rank and the total unchanged. */
  lemma UnofficialRowsIrrelevant(resp: StandingsResponse, handle: string)
    ensures var filtered := StandingsScan(StandingsResponse(resp.status, ContestantsOnly(resp.rows)), handle);
            var full := StandingsScan(resp, handle);
            filtered.userRank == full.userRank && filtered.total == full.total
  {
    CountIgnoresUnofficial(resp.rows);
    RankIgnoresUnofficial(resp.rows, handle);
  }

  // ---------------------------------------------------------------------------
  // Letter case of the target handle

  lemma {:induction false} RankIgnoresHandleCase(rows: seq<Row>, h1: string, h2: string)
    requires SameIgnoringCase(h1, h2)
    ensures LastMatchRank(rows, h1) == LastMatchRank(rows, h2)
  {
    if rows != [] {
      RankIgnoresHandleCase(rows[..|rows| - 1], h1, h2);
    }
  }

  /** Two handles equal ignoring case give the same result; in particular a case variant of the handle does. */
  lemma ScanIgnoresHandleCase(resp: StandingsResponse, h1: string, h2: string)
    requires SameIgnoringCase(h1, h2)
    ensures StandingsScan(resp, h1) == StandingsScan(resp, h2)
  {
    RankIgnoresHandleCase(resp.rows, h1, h2);
  }

  lemma ScanIgnoresUpperCasing(resp: StandingsResponse, handle: string)
    ensures StandingsScan(resp, Upper(handle)) == StandingsScan(resp, handle)
  {
    CaseVariantsAreSame(handle);
    ScanIgnoresHandleCase(resp, Upper(handle), handle);
  }
}
