/** The managed database as the pages see it: the voters table, the votes
    table (the ledger) and the user_roles table, with the queries and updates
    the pages issue. Rows are kept in insertion order. */
module Store {
  import opened Types
  import opened Seqs
  import VoteHash

  class Database {
    var voters: seq<Voter>
    var votes: seq<VoteRow>
    var roles: seq<RoleRow>

    constructor (voters0: seq<Voter>, votes0: seq<VoteRow>, roles0: seq<RoleRow>)
      ensures voters == voters0 && votes == votes0 && roles == roles0
    {
      voters := voters0;
      votes := votes0;
      roles := roles0;
    }
  }

  function HasUser(userId: string): Voter -> bool {
    (v: Voter) => v.userId == userId
  }

  function HasId(id: string): Voter -> bool {
    (v: Voter) => v.id == id
  }

  /** `.single()` on a filtered select: the row when exactly one row matches,
      an error (None) when none or several do. */
  function Single(matches: seq<Voter>): (r: Option<Voter>)
    ensures r.Some? <==> |matches| == 1
    ensures r.Some? ==> r.value == matches[0]
  {
    if |matches| == 1 then Some(matches[0]) else None
  }

  /** `.from("voters").select("*").eq("user_id", userId).single()` */
  function VoterOfUser(voters: seq<Voter>, userId: string): (r: Option<Voter>)
    ensures r.Some? <==> |Filter(voters, HasUser(userId))| == 1
    ensures r.Some? ==> r.value in voters && r.value.userId == userId
  {
    Single(Filter(voters, HasUser(userId)))
  }

  /** `.from("voters").select(...).eq("id", id).single()` */
  function VoterWithId(voters: seq<Voter>, id: string): (r: Option<Voter>)
    ensures r.Some? <==> |Filter(voters, HasId(id))| == 1
    ensures r.Some? ==> r.value in voters && r.value.id == id
  {
    Single(Filter(voters, HasId(id)))
  }

  /** The three updates the pages make to a voters row. */
  datatype VoterPatch =
    | MarkVoted(at: string)                        // after a vote is recorded
    | StoreOtp(code: string, expiresAt: int)       // when an e-mail OTP is sent
    | MarkVerified                                 // when the OTP is accepted

  function Apply(v: Voter, p: VoterPatch): (r: Voter)
    ensures r.id == v.id && r.userId == v.userId && r.voterId == v.voterId && r.email == v.email
  {
    match p
    case MarkVoted(at) => v.(hasVoted := true, votedAt := Some(at))
    case StoreOtp(code, expiresAt) =>
      v.(emailOtpCode := Some(code), emailOtpExpiresAt := Some(expiresAt), verificationStatus := OtpSent)
    case MarkVerified =>
      v.(verificationStatus := Verified, emailOtpCode := None, emailOtpExpiresAt := None, emailVerified := Some(true))
  }

  /** `.update(patch).eq("id", id)`: every row with that id is patched; when
      no row has it, nothing changes and no error is reported. */
  function UpdateWhereId(voters: seq<Voter>, id: string, p: VoterPatch): seq<Voter> {
    seq(|voters|, i requires 0 <= i < |voters| => Patched(voters[i], id, p))
  }

  /** An update by id does not change which rows a filter on an unpatched
      column (the user or the id) selects, and patches those rows in place. */
  lemma {:induction false} UpdateKeepsRows(voters: seq<Voter>, id: string, p: VoterPatch, h: Voter -> bool)
    requires forall v: Voter :: h(Patched(v, id, p)) == h(v)
    ensures Filter(UpdateWhereId(voters, id, p), h) == UpdateWhereId(Filter(voters, h), id, p)
    decreases |voters|
  {
    if voters != [] {
      var v0, t := voters[0], voters[1..];
      assert voters == [v0] + t;
      var u0 := Patched(v0, id, p);
      UpdateCons(v0, t, id, p);
      FilterCons(u0, UpdateWhereId(t, id, p), h);
      FilterCons(v0, t, h);
      UpdateKeepsRows(t, id, p, h);
      if h(v0) {
        UpdateCons(v0, Filter(t, h), id, p);
      }
    }
  }

  function Patched(v: Voter, id: string, p: VoterPatch): Voter {
    if v.id == id then Apply(v, p) else v
  }

  lemma UpdateCons(v: Voter, t: seq<Voter>, id: string, p: VoterPatch)
    ensures UpdateWhereId([v] + t, id, p) == [Patched(v, id, p)] + UpdateWhereId(t, id, p)
  {
  }

  lemma FilterCons<T>(x: T, t: seq<T>, h: T -> bool)
    ensures Filter([x] + t, h) == (if h(x) then [x] else []) + Filter(t, h)
  {
    assert ([x] + t)[1..] == t;
  }

  /** After an update by id, the voter row a user's lookup returns is the
      patched row (or the same row, when the ids differ). */
  lemma UpdateSeenByUser(voters: seq<Voter>, id: string, p: VoterPatch, userId: string)
    requires VoterOfUser(voters, userId).Some?
    ensures VoterOfUser(UpdateWhereId(voters, id, p), userId).Some?
    ensures var v := VoterOfUser(voters, userId).value;
            VoterOfUser(UpdateWhereId(voters, id, p), userId).value == Patched(v, id, p)
  {
    UpdateKeepsRows(voters, id, p, HasUser(userId));
  }

  /** After an update by id, the row a lookup by that id returns is the
      patched row. */
  lemma UpdateSeenById(voters: seq<Voter>, id: string, p: VoterPatch)
    requires VoterWithId(voters, id).Some?
    ensures VoterWithId(UpdateWhereId(voters, id, p), id) == Some(Apply(VoterWithId(voters, id).value, p))
  {
    UpdateKeepsRows(voters, id, p, HasId(id));
  }

  function BlockNumber(v: VoteRow): int {
    v.blockNumber
  }

  /** `.from("votes").select("vote_hash, block_number").order("block_number",
      { ascending: false }).limit(1).single()`: the row with the highest block
      number, or nothing (an error) when the table is empty. */
  function LastVote(votes: seq<VoteRow>): (r: Option<VoteRow>)
    ensures r.None? <==> votes == []
    ensures r.Some? ==> r.value in votes
    ensures r.Some? ==> forall i :: 0 <= i < |votes| ==> votes[i].blockNumber <= r.value.blockNumber
  {
    if votes == [] then None
    else
      var sorted := SortDesc(votes, BlockNumber);
      SortDescHeadIsMax(votes, BlockNumber);
      SortDescProperties(votes, BlockNumber);
      assert sorted[0] in multiset(votes) by {
        assert sorted[0] in multiset(sorted);
      }
      Some(sorted[0])
  }

  /** The shape of a well-formed ledger: block i (counting from 1) has number
      i, the first block has no predecessor, every later block names its
      predecessor's digest, and no digest is empty. */
  ghost predicate ChainShaped(votes: seq<VoteRow>) {
    forall i :: 0 <= i < |votes| ==>
      && votes[i].blockNumber == i + 1
      && votes[i].voteHash != ""
      && (i == 0 ==> votes[i].previousHash.None?)
      && (i > 0 ==> votes[i].previousHash == Some(votes[i - 1].voteHash))
  }

  /** What a well-formed ledger says about one block. */
  lemma ChainAt(votes: seq<VoteRow>, i: int)
    requires ChainShaped(votes) && 0 <= i < |votes|
    ensures votes[i].blockNumber == i + 1 && votes[i].voteHash != ""
    ensures i == 0 ==> votes[i].previousHash.None?
    ensures i > 0 ==> votes[i].previousHash == Some(votes[i - 1].voteHash)
  {
  }

  /** Every stored digest is the one generateVoteHash gives for the block's
      own voter, party, timestamp and predecessor. */
  ghost predicate DigestsReproducible(votes: seq<VoteRow>) {
    forall i :: 0 <= i < |votes| ==>
      votes[i].voteHash == VoteHash.VoteHashOf(votes[i].voterRef, votes[i].partyId, votes[i].timestamp, votes[i].previousHash)
  }

  /** On a well-formed ledger the highest block is the last one appended. */
  lemma LastVoteOfChain(votes: seq<VoteRow>)
    requires ChainShaped(votes) && votes != []
    ensures LastVote(votes) == Some(votes[|votes| - 1])
  {
    var n := |votes|;
    var r := LastVote(votes).value;
    assert votes[n - 1].blockNumber <= r.blockNumber;
    var j :| 0 <= j < n && votes[j] == r;
    assert votes[j].blockNumber == j + 1;
  }
}
