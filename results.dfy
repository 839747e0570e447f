/** The public results page: the total of the per-party counts returned by
    get_vote_counts, the parties ranked by votes, the leader, each party's
    percentage and the award badge. */
module Results {
  import opened Types
  import opened Seqs

  /** `Number(r.vote_count)` */
  function VotesOf(c: VoteCount): int {
    c.voteCount
  }

  /** `results.reduce((sum, r) => sum + Number(r.vote_count), 0)` */
  function TotalVotes(results: seq<VoteCount>): int {
    Sum(results, VotesOf)
  }

  /** With no negative count, the total is at least every party's count. */
  lemma TotalBoundsEachParty(results: seq<VoteCount>)
    requires forall i :: 0 <= i < |results| ==> results[i].voteCount >= 0
    ensures TotalVotes(results) >= 0
    ensures forall i :: 0 <= i < |results| ==> results[i].voteCount <= TotalVotes(results)
  {
    SumBoundsTerms(results, VotesOf);
  }

  /** `[...results].sort((a, b) => Number(b.vote_count) - Number(a.vote_count))` */
  function SortedResults(results: seq<VoteCount>): seq<VoteCount> {
    SortDesc(results, VotesOf)
  }

  /** The ranking lists the same parties, most votes first, with the same
      total; `results` itself is a value and keeps its order. */
  lemma SortedResultsProperties(results: seq<VoteCount>)
    ensures multiset(SortedResults(results)) == multiset(results)
    ensures |SortedResults(results)| == |results|
    ensures forall i, j :: 0 <= i < j < |results| ==> SortedResults(results)[i].voteCount >= SortedResults(results)[j].voteCount
    ensures TotalVotes(SortedResults(results)) == TotalVotes(results)
  {
    SortDescProperties(results, VotesOf);
    assert |SortedResults(results)| == |multiset(SortedResults(results))|;
    SumSortDesc(results, VotesOf, VotesOf);
  }

  /** `sortedResults[0]`, absent when there are no results. */
  function Leader(results: seq<VoteCount>): (r: Option<VoteCount>)
    ensures r.None? <==> results == []
    ensures r.Some? ==> r.value in results
    ensures r.Some? ==> forall i :: 0 <= i < |results| ==> results[i].voteCount <= r.value.voteCount
  {
    if results == [] then None
    else
      SortDescHeadIsMax(results, VotesOf);
      SortDescProperties(results, VotesOf);
      assert SortedResults(results)[0] in multiset(SortedResults(results));
      Some(SortedResults(results)[0])
  }

  /** Among parties with the most votes, the leader is the one listed first
      by get_vote_counts. */
  lemma LeaderTieBreak(results: seq<VoteCount>, k: nat)
    requires k < |results|
    requires forall i :: 0 <= i < |results| ==> results[i].voteCount <= results[k].voteCount
    requires forall i :: 0 <= i < k ==> results[i].voteCount < results[k].voteCount
    ensures Leader(results) == Some(results[k])
  {
    SortDescHeadIsFirstMax(results, VotesOf, k);
  }

  /** `leader ? leader.short_name : "—"` */
  function LeaderLabel(results: seq<VoteCount>): string {
    var leader := Leader(results);
    if leader.Some? then leader.value.shortName else "—"
  }

  /** getPercentage, before toFixed(1): zero when nothing has been counted. */
  function Percentage(count: int, totalVotes: int): real {
    if totalVotes == 0 then 0.0 else (count as real / totalVotes as real) * 100.0
  }

  /** A party's percentage lies between 0 and 100, and ranking by votes ranks
      by percentage. */
  lemma PercentageBounds(count: int, other: int, totalVotes: int)
    requires 0 <= other <= count <= totalVotes
    ensures 0.0 <= Percentage(count, totalVotes) <= 100.0
    ensures Percentage(other, totalVotes) <= Percentage(count, totalVotes)
  {
    if totalVotes != 0 {
      var t := totalVotes as real;
      assert count as real / t <= 1.0;
      assert other as real / t <= count as real / t;
    }
  }

  /** `index === 0 && totalVotes > 0` */
  predicate ShowAward(index: nat, totalVotes: int) {
    index == 0 && totalVotes > 0
  }

  /** With no positive count, the total is not positive. */
  lemma {:induction false} NoPositiveCountNoTotal(results: seq<VoteCount>)
    requires forall i :: 0 <= i < |results| ==> results[i].voteCount <= 0
    ensures TotalVotes(results) <= 0
    decreases |results|
  {
    if results != [] {
      NoPositiveCountNoTotal(results[1..]);
    }
  }

  /** The award badge is on one row only, the first of the ranking: it is
      the party the leader card names, it has the most votes, and, since
      some vote was counted, it has at least one. */
  lemma AwardOnLeaderOnly(results: seq<VoteCount>, i: nat)
    requires i < |results| && ShowAward(i, TotalVotes(results))
    requires forall k :: 0 <= k < |results| ==> results[k].voteCount >= 0
    ensures forall j :: 0 <= j < |results| && ShowAward(j, TotalVotes(results)) ==> j == i
    ensures Leader(results) == Some(SortedResults(results)[i])
    ensures LeaderLabel(results) == SortedResults(results)[i].shortName
    ensures forall k :: 0 <= k < |results| ==> results[k].voteCount <= SortedResults(results)[i].voteCount
    ensures SortedResults(results)[i].voteCount > 0
  {
    var top := Leader(results).value;
    if top.voteCount <= 0 {
      NoPositiveCountNoTotal(results);
    }
  }
}
