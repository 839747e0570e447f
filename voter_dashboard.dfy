/** The voter dashboard: the status card chosen by getStatusInfo and the
    quick actions shown beneath it, all read off the user's voter row. */
module VoterDashboard {
  import opened Types
  import opened Store
  import VotingBooth

  datatype StatusKind = NotRegistered | PendingVerification | ReadyToVote | VoteCast

  datatype StatusInfo = StatusInfo(kind: StatusKind, title: string, action: Route)

  /** getStatusInfo: no row, not verified, not voted, voted, in that order. */
  function GetStatusInfo(voter: Option<Voter>): (s: StatusInfo)
    ensures s.kind == NotRegistered <==> voter.None?
    ensures s.kind == PendingVerification <==> voter.Some? && voter.value.verificationStatus != Verified
    ensures s.kind == ReadyToVote <==> voter.Some? && voter.value.verificationStatus == Verified && !voter.value.hasVoted
    ensures s.kind == VoteCast <==> voter.Some? && voter.value.verificationStatus == Verified && voter.value.hasVoted
  {
    if voter.None? then StatusInfo(NotRegistered, "Not Registered", RegisterPage)
    else if voter.value.verificationStatus != Verified then StatusInfo(PendingVerification, "Pending Verification", VerifyPage)
    else if !voter.value.hasVoted then StatusInfo(ReadyToVote, "Ready to Vote", VotePage)
    else StatusInfo(VoteCast, "Vote Cast", ConfirmationPage)
  }

  /** Each status card carries its own title and action: /register,
      /verify, /vote and /confirmation respectively. */
  lemma StatusActions(voter: Option<Voter>)
    ensures var s := GetStatusInfo(voter);
      && (s.kind == NotRegistered ==> s.action == RegisterPage && s.title == "Not Registered")
      && (s.kind == PendingVerification ==> s.action == VerifyPage && s.title == "Pending Verification")
      && (s.kind == ReadyToVote ==> s.action == VotePage && s.title == "Ready to Vote")
      && (s.kind == VoteCast ==> s.action == ConfirmationPage && s.title == "Vote Cast")
  {
  }

  /** For a signed-in user the card's action is where the voting booth
      would send the user, the ballot itself for "Ready to Vote". */
  lemma StatusAgreesWithBooth(voters: seq<Voter>, userId: string)
    ensures var s := GetStatusInfo(VoterOfUser(voters, userId));
      && (s.action == RegisterPage <==> VotingBooth.Admit(Some(userId), voters) == VotingBooth.Redirect(RegisterPage))
      && (s.action == VerifyPage <==> VotingBooth.Admit(Some(userId), voters) == VotingBooth.Redirect(VerifyPage))
      && (s.action == VotePage <==> VotingBooth.Admit(Some(userId), voters).Ballot?)
      && (s.action == ConfirmationPage <==> VotingBooth.Admit(Some(userId), voters) == VotingBooth.Redirect(ConfirmationPage))
  {
  }

  /** `voter?.verification_status !== "verified"`: shown also when there is no row. */
  predicate ShowVerifyIdentity(voter: Option<Voter>) {
    voter.None? || voter.value.verificationStatus != Verified
  }

  /** `voter?.verification_status === "verified" && !voter?.has_voted` */
  predicate ShowCastVote(voter: Option<Voter>) {
    voter.Some? && voter.value.verificationStatus == Verified && !voter.value.hasVoted
  }

  /** `voter.has_voted && voter.voted_at` */
  predicate ShowVoteTime(voter: Voter) {
    voter.hasVoted && Truthy(voter.votedAt)
  }

  /** The two quick actions are never offered together; "Cast Vote" appears
      exactly on a "Ready to Vote" card, and "Verify Identity" exactly on a
      "Not Registered" or "Pending Verification" one. */
  lemma QuickActionsExclusive(voter: Option<Voter>)
    ensures !(ShowVerifyIdentity(voter) && ShowCastVote(voter))
    ensures ShowCastVote(voter) <==> GetStatusInfo(voter).kind == ReadyToVote
    ensures ShowVerifyIdentity(voter) <==>
      GetStatusInfo(voter).kind == NotRegistered || GetStatusInfo(voter).kind == PendingVerification
  {
  }

  /** After a vote is recorded for the user's row, the card reads "Vote
      Cast" and the vote time is shown, whatever the timestamp was as long
      as it is not empty. */
  lemma CastVoteShowsTime(voters: seq<Voter>, userId: string, v: Voter, at: string)
    requires VotingBooth.Admit(Some(userId), voters) == VotingBooth.Ballot(v)
    requires at != ""
    ensures var after := VoterOfUser(UpdateWhereId(voters, v.id, MarkVoted(at)), userId);
      && GetStatusInfo(after).kind == VoteCast
      && ShowVoteTime(after.value)
      && !ShowCastVote(after)
  {
    UpdateSeenByUser(voters, v.id, MarkVoted(at), userId);
  }
}
