/** The voting booth page: the eligibility checks made before the ballot is
    shown, and handleVote, which reads the highest block, builds the next
    block of the ledger, inserts it and then marks the voter as having voted. */
module VotingBooth {
  import opened Types
  import opened Store
  import opened VoteHash

  datatype BoothEntry = Redirect(to: Route) | Ballot(voter: Voter)

  /** fetchData's checks, first failure wins: no session, no voter row,
      not verified, already voted. */
  function Admit(session: Option<string>, voters: seq<Voter>): (e: BoothEntry)
    ensures e == Redirect(AuthPage) <==> session.None?
    ensures e == Redirect(RegisterPage) <==> session.Some? && VoterOfUser(voters, session.value).None?
    ensures e == Redirect(VerifyPage) <==>
      session.Some? && VoterOfUser(voters, session.value).Some? &&
      VoterOfUser(voters, session.value).value.verificationStatus != Verified
    ensures e == Redirect(ConfirmationPage) <==>
      session.Some? && VoterOfUser(voters, session.value).Some? &&
      VoterOfUser(voters, session.value).value.verificationStatus == Verified &&
      VoterOfUser(voters, session.value).value.hasVoted
    ensures e.Ballot? <==>
      session.Some? && VoterOfUser(voters, session.value).Some? &&
      VoterOfUser(voters, session.value).value.verificationStatus == Verified &&
      !VoterOfUser(voters, session.value).value.hasVoted
    ensures e.Ballot? ==> VoterOfUser(voters, session.value) == Some(e.voter)
  {
    if session.None? then Redirect(AuthPage)
    else
      var row := VoterOfUser(voters, session.value);
      if row.None? then Redirect(RegisterPage)
      else if row.value.verificationStatus != Verified then Redirect(VerifyPage)
      else if row.value.hasVoted then Redirect(ConfirmationPage)
      else Ballot(row.value)
  }

  /** `(lastVote?.block_number || 0) + 1` */
  function NextBlockNumber(last: Option<VoteRow>): int {
    (if last.None? || last.value.blockNumber == 0 then 0 else last.value.blockNumber) + 1
  }

  /** `lastVote?.vote_hash || null` */
  function PreviousHashOf(last: Option<VoteRow>): Option<string> {
    if last.None? || last.value.voteHash == "" then None else Some(last.value.voteHash)
  }

  /** The row handleVote inserts for this voter, party and timestamp when
      the highest-block query answered `last` (None when it failed). */
  function BlockAfter(last: Option<VoteRow>, voterRef: string, partyId: string, timestamp: string): VoteRow {
    var prev := PreviousHashOf(last);
    VoteRow(voterRef, partyId, VoteHashOf(voterRef, partyId, timestamp, prev), prev, NextBlockNumber(last), timestamp, VoteVerified)
  }

  /** The row handleVote inserts on top of the given ledger when the
      highest-block query succeeds. */
  function NewBlock(votes: seq<VoteRow>, voterRef: string, partyId: string, timestamp: string): VoteRow {
    BlockAfter(LastVote(votes), voterRef, partyId, timestamp)
  }

  /** On a well-formed ledger of n blocks the new block is number n + 1 and
      links to block n's digest, or to nothing when the ledger is empty; it
      is stored as verified with the hashed timestamp. */
  lemma NewBlockOnChain(votes: seq<VoteRow>, voterRef: string, partyId: string, timestamp: string)
    requires ChainShaped(votes)
    ensures NewBlock(votes, voterRef, partyId, timestamp).blockNumber == |votes| + 1
    ensures votes == [] ==> NewBlock(votes, voterRef, partyId, timestamp).previousHash.None?
    ensures votes != [] ==> NewBlock(votes, voterRef, partyId, timestamp).previousHash == Some(votes[|votes| - 1].voteHash)
    ensures NewBlock(votes, voterRef, partyId, timestamp).status == VoteVerified
    ensures NewBlock(votes, voterRef, partyId, timestamp).timestamp == timestamp
  {
    if votes != [] {
      LastVoteOfChain(votes);
    }
  }

  /** Appending the block handleVote builds keeps the ledger well formed. */
  lemma AppendKeepsChain(votes: seq<VoteRow>, voterRef: string, partyId: string, timestamp: string)
    requires ChainShaped(votes)
    ensures ChainShaped(votes + [NewBlock(votes, voterRef, partyId, timestamp)])
  {
    var b := NewBlock(votes, voterRef, partyId, timestamp);
    NewBlockOnChain(votes, voterRef, partyId, timestamp);
    assert b.voteHash != "" by {
      VoteHashShape(voterRef, partyId, timestamp, b.previousHash);
    }
    var w := votes + [b];
    forall i | 0 <= i < |w|
      ensures w[i].blockNumber == i + 1
      ensures w[i].voteHash != ""
      ensures i == 0 ==> w[i].previousHash.None?
      ensures i > 0 ==> w[i].previousHash == Some(w[i - 1].voteHash)
    {
      if i < |votes| {
        assert w[i] == votes[i];
        ChainAt(votes, i);
        assert i > 0 ==> w[i - 1] == votes[i - 1];
      } else {
        assert w[i] == b;
        assert i > 0 ==> w[i - 1] == votes[|votes| - 1];
      }
    }
    assert ChainShaped(w);
  }

  datatype VoteOutcome =
    | Ignored                      // no voter loaded or no party selected
    | InsertFailed                 // the vote row was not written
    | VoterUpdateFailed(block: VoteRow)  // the vote row stays; the voter is not marked
    | Cast(block: VoteRow)         // both writes succeeded; the page goes to /confirmation

  /** handleVote. Whether the highest-block read succeeds and the database's
      answers to the two writes are parameters; a failed read is treated by
      the page as an empty ledger, since only `data` is kept. */
  method HandleVote(db: Database, voter: Option<Voter>, selectedParty: Option<string>, timestamp: string,
                    lastOk: bool, insertOk: bool, updateOk: bool)
    returns (outcome: VoteOutcome)
    modifies db
    ensures db.roles == old(db.roles)
    ensures !(voter.Some? && Truthy(selectedParty)) ==>
      outcome == Ignored && db.votes == old(db.votes) && db.voters == old(db.voters)
    ensures voter.Some? && Truthy(selectedParty) ==>
      var block := BlockAfter(if lastOk then LastVote(old(db.votes)) else None, voter.value.id, selectedParty.value, timestamp);
      && (!insertOk ==> outcome == InsertFailed && db.votes == old(db.votes) && db.voters == old(db.voters))
      && (insertOk ==> db.votes == old(db.votes) + [block])
      && (insertOk && !updateOk ==> outcome == VoterUpdateFailed(block) && db.voters == old(db.voters))
      && (insertOk && updateOk ==>
            outcome == Cast(block) && db.voters == UpdateWhereId(old(db.voters), voter.value.id, MarkVoted(timestamp)))
    ensures lastOk && ChainShaped(old(db.votes)) ==> ChainShaped(db.votes)
    ensures DigestsReproducible(old(db.votes)) ==> DigestsReproducible(db.votes)
  {
    if voter.None? || !Truthy(selectedParty) {
      return Ignored;
    }
    var v, party := voter.value, selectedParty.value;
    var lastVote := if lastOk then LastVote(db.votes) else None;
    var previousHash := PreviousHashOf(lastVote);
    var blockNumber := NextBlockNumber(lastVote);
    var voteHash := GenerateVoteHash(v.id, party, timestamp, previousHash);
    if !insertOk {
      return InsertFailed;
    }
    var block := VoteRow(v.id, party, voteHash, previousHash, blockNumber, timestamp, VoteVerified);
    assert block == BlockAfter(lastVote, v.id, party, timestamp);
    if lastOk && ChainShaped(db.votes) {
      AppendKeepsChain(db.votes, v.id, party, timestamp);
    }
    db.votes := db.votes + [block];
    if !updateOk {
      return VoterUpdateFailed(block);
    }
    db.voters := UpdateWhereId(db.voters, v.id, MarkVoted(timestamp));
    outcome := Cast(block);
  }

  /** When the highest-block read fails, the page builds block 1 with no
      predecessor: on an empty ledger that is the right block, on any other
      well-formed ledger it breaks the chain. */
  lemma FailedReadRestartsChain(votes: seq<VoteRow>, voterRef: string, partyId: string, timestamp: string)
    ensures BlockAfter(None, voterRef, partyId, timestamp).blockNumber == 1
    ensures BlockAfter(None, voterRef, partyId, timestamp).previousHash.None?
    ensures votes == [] ==> BlockAfter(None, voterRef, partyId, timestamp) == NewBlock(votes, voterRef, partyId, timestamp)
    ensures votes != [] ==> !ChainShaped(votes + [BlockAfter(None, voterRef, partyId, timestamp)])
  {
    var w := votes + [BlockAfter(None, voterRef, partyId, timestamp)];
    if votes != [] {
      assert w[|votes|].blockNumber == 1 != |votes| + 1;
    }
  }

  /** A voter admitted to the ballot whose vote is cast is sent to the
      confirmation page on the next visit: the booth cannot be used twice. */
  lemma CastVoterIsTurnedAway(voters: seq<Voter>, userId: string, voter: Voter, timestamp: string)
    requires Admit(Some(userId), voters) == Ballot(voter)
    ensures Admit(Some(userId), UpdateWhereId(voters, voter.id, MarkVoted(timestamp))) == Redirect(ConfirmationPage)
  {
    UpdateSeenByUser(voters, voter.id, MarkVoted(timestamp), userId);
  }
}
