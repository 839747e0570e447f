/** The admin dashboard: gated on the admin role, it counts the voters by
    status, lists the ten newest registrations, and shows turnout and each
    party's share of the votes. */
module AdminDashboard {
  import opened Types
  import opened Seqs
  import opened Store
  import Results
  import VotingBooth

  const RecentLimit: nat := 10

  predicate IsVerifiedRow(v: Voter) {
    v.verificationStatus == Verified
  }

  predicate IsPendingRow(v: Voter) {
    v.verificationStatus != Verified
  }

  predicate HasVotedRow(v: Voter) {
    v.hasVoted
  }

  datatype Stats = Stats(totalVoters: nat, verifiedVoters: nat, votedCount: nat, pendingVerification: nat)

  /** The three filters over the fetched rows, and the exact row count:
      each count is the number of rows of its kind. */
  function StatsOf(voters: seq<Voter>): (s: Stats)
    ensures s.totalVoters == |voters|
    ensures s.verifiedVoters == |set i | 0 <= i < |voters| && voters[i].verificationStatus == Verified|
    ensures s.votedCount == |set i | 0 <= i < |voters| && voters[i].hasVoted|
    ensures s.pendingVerification == |set i | 0 <= i < |voters| && voters[i].verificationStatus != Verified|
    ensures s.verifiedVoters + s.pendingVerification == s.totalVoters
    ensures s.votedCount <= s.totalVoters
  {
    FilterComplement(voters, IsVerifiedRow, IsPendingRow);
    CountVerified(voters);
    CountVoted(voters);
    CountPending(voters);
    Stats(|voters|, |Filter(voters, IsVerifiedRow)|, |Filter(voters, HasVotedRow)|, |Filter(voters, IsPendingRow)|)
  }

  lemma CountVerified(voters: seq<Voter>)
    ensures |Filter(voters, IsVerifiedRow)| == |set i | 0 <= i < |voters| && voters[i].verificationStatus == Verified|
  {
    FilterCountsPositions(voters, IsVerifiedRow);
    assert Positions(voters, IsVerifiedRow) == set i | 0 <= i < |voters| && voters[i].verificationStatus == Verified;
  }

  lemma CountVoted(voters: seq<Voter>)
    ensures |Filter(voters, HasVotedRow)| == |set i | 0 <= i < |voters| && voters[i].hasVoted|
  {
    FilterCountsPositions(voters, HasVotedRow);
    assert Positions(voters, HasVotedRow) == set i | 0 <= i < |voters| && voters[i].hasVoted;
  }

  lemma CountPending(voters: seq<Voter>)
    ensures |Filter(voters, IsPendingRow)| == |set i | 0 <= i < |voters| && voters[i].verificationStatus != Verified|
  {
    FilterCountsPositions(voters, IsPendingRow);
    assert Positions(voters, IsPendingRow) == set i | 0 <= i < |voters| && voters[i].verificationStatus != Verified;
  }

  function CreatedAt(v: Voter): int {
    v.createdAt
  }

  /** `[...votersData].sort((a, b) => time(b.created_at) - time(a.created_at)).slice(0, 10)` */
  function RecentVoters(voters: seq<Voter>): seq<Voter> {
    Take(SortDesc(voters, CreatedAt), RecentLimit)
  }

  /** The list holds at most ten of the fetched rows, newest first, and any
      row registered strictly later than the oldest one listed is listed. */
  lemma RecentVotersNewest(voters: seq<Voter>)
    ensures var r := RecentVoters(voters);
      && |r| == (if |voters| < RecentLimit then |voters| else RecentLimit)
      && multiset(r) <= multiset(voters)
      && (forall i, j :: 0 <= i < j < |r| ==> r[i].createdAt >= r[j].createdAt)
      && (forall k :: 0 <= k < |voters| && |r| > 0 && voters[k].createdAt > r[|r| - 1].createdAt ==> voters[k] in r)
  {
    var s := SortDesc(voters, CreatedAt);
    SortDescProperties(voters, CreatedAt);
    assert |s| == |multiset(s)| == |voters|;
    var r := RecentVoters(voters);
    assert s == r + s[|r|..];
    assert multiset(s) == multiset(r) + multiset(s[|r|..]);
    forall k | 0 <= k < |voters| && |r| > 0 && voters[k].createdAt > r[|r| - 1].createdAt
      ensures voters[k] in r
    {
      NewerVoterListed(voters, k);
    }
  }

  /** A row registered strictly later than the last one listed is listed. */
  lemma NewerVoterListed(voters: seq<Voter>, k: nat)
    requires k < |voters|
    requires |RecentVoters(voters)| > 0
    requires voters[k].createdAt > RecentVoters(voters)[|RecentVoters(voters)| - 1].createdAt
    ensures voters[k] in RecentVoters(voters)
  {
    var s := SortDesc(voters, CreatedAt);
    var r := RecentVoters(voters);
    SortDescProperties(voters, CreatedAt);
    assert voters[k] in multiset(s);
    var j :| 0 <= j < |s| && s[j] == voters[k];
    assert r[|r| - 1] == s[|r| - 1];
    assert forall m :: |r| <= m < |s| ==> CreatedAt(s[m]) <= CreatedAt(s[|r| - 1]);
    assert j < |r|;
    assert r[j] == voters[k];
  }

  /** `whole > 0 ? Math.round((part / whole) * 100) : 0`, in exact
      arithmetic: Math.round(x) is the integer nearest x, halves going up. */
  function RoundedShare(part: int, whole: int): (r: int)
    ensures whole <= 0 ==> r == 0
    ensures whole > 0 ==> 2 * whole * r <= 200 * part + whole < 2 * whole * (r + 1)
  {
    if whole > 0 then
      var q := (200 * part + whole) / (2 * whole);
      DivFloor(200 * part + whole, 2 * whole);
      q
    else 0
  }

  lemma DivFloor(n: int, d: int)
    requires d > 0
    ensures d * (n / d) <= n < d * (n / d + 1)
  {
  }

  /** A part of a whole rounds to a percentage from 0 to 100. */
  lemma RoundedShareBounds(part: int, whole: int)
    requires 0 <= part <= whole
    ensures 0 <= RoundedShare(part, whole) <= 100
  {
    if whole > 0 {
      var r := RoundedShare(part, whole);
      assert 2 * whole * r <= 200 * whole + whole;
      assert 0 < 2 * whole * (r + 1);
      BelowProduct(2 * whole, r, 100);
      PositiveProduct(2 * whole, r + 1);
    }
  }

  lemma BelowProduct(a: int, r: int, m: int)
    requires a > 0 && a * r <= a * m + a / 2 && a % 2 == 0
    ensures r <= m
  {
    assert a * r < a * (m + 1);
    ProductOrder(a, r, m + 1);
  }

  lemma ProductOrder(a: int, x: int, y: int)
    requires a > 0 && a * x < a * y
    ensures x < y
  {
  }

  lemma PositiveProduct(a: int, b: int)
    requires a > 0 && a * b > 0
    ensures b > 0
  {
  }

  /** Turnout: voters who voted as a share of verified voters. */
  function Turnout(stats: Stats): int {
    RoundedShare(stats.votedCount, stats.verifiedVoters)
  }

  /** Every voter row marked as voted is verified. */
  ghost predicate VotedAreVerified(voters: seq<Voter>) {
    forall i :: 0 <= i < |voters| && voters[i].hasVoted ==> voters[i].verificationStatus == Verified
  }

  /** When every voter who voted is verified, turnout is between 0 and 100;
      the lemmas below show the pages' writes keep that premise. */
  lemma TurnoutAtMost100(voters: seq<Voter>)
    requires VotedAreVerified(voters)
    ensures 0 <= Turnout(StatsOf(voters)) <= 100
  {
    FilterMonotone(voters, HasVotedRow, IsVerifiedRow);
    RoundedShareBounds(StatsOf(voters).votedCount, StatsOf(voters).verifiedVoters);
  }

  /** Recording a vote keeps every voted row verified: the booth marks only
      the voter it admitted, who is verified, and row ids are unique. */
  lemma CastKeepsVotedVerified(voters: seq<Voter>, userId: string, voter: Voter, at: string)
    requires VotedAreVerified(voters)
    requires VotingBooth.Admit(Some(userId), voters) == VotingBooth.Ballot(voter)
    requires |Filter(voters, HasId(voter.id))| <= 1
    ensures VotedAreVerified(UpdateWhereId(voters, voter.id, MarkVoted(at)))
  {
    var after := UpdateWhereId(voters, voter.id, MarkVoted(at));
    forall i | 0 <= i < |after| && after[i].hasVoted
      ensures after[i].verificationStatus == Verified
    {
      if voters[i].id == voter.id {
        assert voters[i] in Filter(voters, HasId(voter.id));
        assert voter in Filter(voters, HasId(voter.id));
        assert voters[i] == voter;
      } else {
        assert after[i] == voters[i];
      }
    }
  }

  /** Registering a new, not-yet-voted row keeps every voted row verified. */
  lemma RegisterKeepsVotedVerified(voters: seq<Voter>, row: Voter)
    requires VotedAreVerified(voters) && !row.hasVoted
    ensures VotedAreVerified(voters + [row])
  {
    var after := voters + [row];
    forall i | 0 <= i < |after| && after[i].hasVoted
      ensures after[i].verificationStatus == Verified
    {
      assert after[i] == voters[i];
    }
  }

  /** Sending a code keeps every voted row verified: the verification page
      loads only a voter who is not verified, who therefore has not voted,
      and row ids are unique. */
  lemma SendOtpKeepsVotedVerified(voters: seq<Voter>, userId: string, voter: Voter, code: string, expiresAt: int)
    requires VotedAreVerified(voters)
    requires VoterOfUser(voters, userId) == Some(voter) && voter.verificationStatus != Verified
    requires |Filter(voters, HasId(voter.id))| <= 1
    ensures VotedAreVerified(UpdateWhereId(voters, voter.id, StoreOtp(code, expiresAt)))
  {
    forall i | 0 <= i < |voters| && voters[i].id == voter.id
      ensures voters[i] == voter
    {
      assert voters[i] in Filter(voters, HasId(voter.id));
      assert voter in Filter(voters, HasId(voter.id));
    }
    var after := UpdateWhereId(voters, voter.id, StoreOtp(code, expiresAt));
    forall i | 0 <= i < |after| && after[i].hasVoted
      ensures after[i].verificationStatus == Verified
    {
      assert after[i] == Patched(voters[i], voter.id, StoreOtp(code, expiresAt));
    }
  }

  /** Accepting a voter's code keeps every voted row verified. */
  lemma VerifyKeepsVotedVerified(voters: seq<Voter>, id: string)
    requires VotedAreVerified(voters)
    ensures VotedAreVerified(UpdateWhereId(voters, id, MarkVerified))
  {
    var after := UpdateWhereId(voters, id, MarkVerified);
    forall i | 0 <= i < |after| && after[i].hasVoted
      ensures after[i].verificationStatus == Verified
    {
      assert after[i] == Patched(voters[i], id, MarkVerified);
    }
  }

  /** Each party's share of the total is between 0 and 100. */
  lemma PartySharesAtMost100(voteCounts: seq<VoteCount>, i: nat)
    requires i < |voteCounts|
    requires forall k :: 0 <= k < |voteCounts| ==> voteCounts[k].voteCount >= 0
    ensures 0 <= RoundedShare(voteCounts[i].voteCount, Results.TotalVotes(voteCounts)) <= 100
  {
    Results.TotalBoundsEachParty(voteCounts);
    RoundedShareBounds(voteCounts[i].voteCount, Results.TotalVotes(voteCounts));
  }

  /** `.from("user_roles").select("role").eq("user_id", id).eq("role", "admin").single()`
      finds a row: exactly one admin row for the user. */
  predicate IsAdminUser(roles: seq<RoleRow>, userId: string) {
    |Filter(roles, (r: RoleRow) => r.userId == userId && r.role == Admin)| == 1
  }

  datatype AdminOutcome = SentToAuth | AccessDenied | Loaded

  class AdminPage {
    var isLoading: bool
    var isAdmin: bool
    var stats: Stats
    var recentVoters: seq<Voter>
    var voteCounts: seq<VoteCount>

    constructor ()
      ensures isLoading && !isAdmin && stats == Stats(0, 0, 0, 0) && recentVoters == [] && voteCounts == []
    {
      isLoading := true;
      isAdmin := false;
      stats := Stats(0, 0, 0, 0);
      recentVoters := [];
      voteCounts := [];
    }

    /** fetchData. The role read, the voters query and the get_vote_counts
        call may fail independently; their answers are parameters. The role
        read's error is ignored, so a failed read (`roleOk` false) denies
        access even to an admin. */
    method FetchData(db: Database, session: Option<string>, roleOk: bool, votersOk: bool, rpcOk: bool, rpcData: seq<VoteCount>)
      returns (outcome: AdminOutcome)
      modifies this
      ensures session.None? || !roleOk || !IsAdminUser(db.roles, session.value) ==>
        && outcome == (if session.None? then SentToAuth else AccessDenied)
        && isLoading == old(isLoading) && isAdmin == old(isAdmin) && stats == old(stats)
        && recentVoters == old(recentVoters) && voteCounts == old(voteCounts)
      ensures session.Some? && roleOk && IsAdminUser(db.roles, session.value) ==>
        && outcome == Loaded && isAdmin && !isLoading
        && stats == (if votersOk then StatsOf(db.voters) else old(stats))
        && recentVoters == (if votersOk then RecentVoters(db.voters) else old(recentVoters))
        && voteCounts == (if rpcOk then rpcData else old(voteCounts))
    {
      if session.None? {
        return SentToAuth;
      }
      if !roleOk || !IsAdminUser(db.roles, session.value) {
        return AccessDenied;
      }
      isAdmin := true;
      if votersOk {
        stats := StatsOf(db.voters);
        recentVoters := RecentVoters(db.voters);
      }
      if rpcOk {
        voteCounts := rpcData;
      }
      isLoading := false;
      outcome := Loaded;
    }
  }

  /** Recording a vote for a voter who had not voted, whose id is held by
      exactly one row, raises the voted count by one and leaves the other
      counts alone. */
  lemma CastVoteRaisesVotedCount(voters: seq<Voter>, id: string, at: string)
    requires VoterWithId(voters, id).Some? && !VoterWithId(voters, id).value.hasVoted
    ensures var after := StatsOf(UpdateWhereId(voters, id, MarkVoted(at)));
      && after.votedCount == StatsOf(voters).votedCount + 1
      && after.verifiedVoters == StatsOf(voters).verifiedVoters
      && after.totalVoters == StatsOf(voters).totalVoters
  {
    MarkVotedCounts(voters, id, at);
  }

  lemma MarkVotedCounts(voters: seq<Voter>, id: string, at: string)
    requires |Filter(voters, HasId(id))| <= 1
    ensures var after := UpdateWhereId(voters, id, MarkVoted(at));
      && |Filter(after, IsVerifiedRow)| == |Filter(voters, IsVerifiedRow)|
      && |Filter(after, HasVotedRow)| ==
         |Filter(voters, HasVotedRow)| + (if VoterWithId(voters, id).Some? && !VoterWithId(voters, id).value.hasVoted then 1 else 0)
  {
    UpdateKeepsRows(voters, id, MarkVoted(at), IsVerifiedRow);
    MarkVotedRaisesVoted(voters, id, at);
  }

  lemma {:induction false} MarkVotedRaisesVoted(voters: seq<Voter>, id: string, at: string)
    requires |Filter(voters, HasId(id))| <= 1
    ensures |Filter(UpdateWhereId(voters, id, MarkVoted(at)), HasVotedRow)| ==
      |Filter(voters, HasVotedRow)| + (if VoterWithId(voters, id).Some? && !VoterWithId(voters, id).value.hasVoted then 1 else 0)
    decreases |voters|
  {
    if voters != [] {
      var v0, t := voters[0], voters[1..];
      assert voters == [v0] + t;
      UpdateCons(v0, t, id, MarkVoted(at));
      var u0 := Patched(v0, id, MarkVoted(at));
      var ut := UpdateWhereId(t, id, MarkVoted(at));
      FilterCons(v0, t, HasId(id));
      FilterCons(u0, ut, HasVotedRow);
      FilterCons(v0, t, HasVotedRow);
      MarkVotedRaisesVoted(t, id, at);
      if v0.id == id {
        assert Filter(t, HasId(id)) == [];
        assert VoterWithId(voters, id) == Some(v0);
        assert VoterWithId(t, id).None?;
      } else {
        assert Filter(voters, HasId(id)) == Filter(t, HasId(id));
      }
    }
  }
}
