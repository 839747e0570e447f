/** The registration page: the voter id format, the initial insert of an
    unverified voter row, and the view shown to a user who is already
    registered. */
module VoterRegistration {
  import opened Types
  import opened Text
  import opened Seqs
  import opened Store
  import VotingBooth

  const VoterIdPrefix: string := "BHV"
  const VoterIdDigits: nat := 9

  /** `'BHV' + Math.floor(Math.random() * 1000000000).toString().padStart(9, '0')`,
      where draw is the integer part of `Math.random() * 1000000000`. */
  function GenerateVoterId(draw: nat): string
    requires draw < 1000000000
  {
    VoterIdPrefix + PadStart(Radix(draw, 10), VoterIdDigits, '0')
  }

  /** A voter id is "BHV" and exactly nine decimal digits, and the digits
      spell the draw with leading zeros. */
  lemma VoterIdShape(draw: nat)
    requires draw < 1000000000
    ensures |GenerateVoterId(draw)| == 12
    ensures GenerateVoterId(draw)[..3] == VoterIdPrefix
    ensures forall i :: 3 <= i < 12 ==> IsDecimalDigit(GenerateVoterId(draw)[i])
    ensures ParseRadix(GenerateVoterId(draw)[3..], 10) == draw
  {
    var digits := Radix(draw, 10);
    PowConstants();
    RadixLength(draw, 10, 9);
    var padded := PadStart(digits, VoterIdDigits, '0');
    var id := GenerateVoterId(draw);
    assert id == VoterIdPrefix + padded;
    assert id[..3] == VoterIdPrefix && id[3..] == padded;
    assert forall i :: 0 <= i < |digits| ==> IsDecimalDigit(digits[i]);
    PaddedDecimal(digits, VoterIdDigits);
    assert forall i :: 3 <= i < 12 ==> id[i] == padded[i - 3];
    ParseRadixOfRadix(draw, 10);
    ParsePadded(digits, VoterIdDigits, 10);
  }

  /** Distinct draws give distinct voter ids. */
  lemma VoterIdInjective(d1: nat, d2: nat)
    requires d1 < 1000000000 && d2 < 1000000000
    requires GenerateVoterId(d1) == GenerateVoterId(d2)
    ensures d1 == d2
  {
    VoterIdShape(d1);
    VoterIdShape(d2);
  }

  /** The form fields. */
  datatype RegistrationForm = RegistrationForm(
    fullName: string, phoneNumber: string, dateOfBirth: string, address: string, constituency: string)

  /** The columns the database fills in itself for a new row. */
  datatype RowDefaults = RowDefaults(id: string, createdAt: int, email: Option<string>)

  /** The row handleSubmit inserts: the form, the signed-in user, the new
      voter id and status "unverified"; every other column takes its default
      (not voted, no code, no expiry). */
  function NewVoterRow(userId: string, form: RegistrationForm, voterId: string, defaults: RowDefaults): Voter {
    Voter(defaults.id, userId, voterId, form.fullName, form.phoneNumber, form.dateOfBirth, form.address,
          form.constituency, defaults.email, Unverified, false, None, None, None, None, defaults.createdAt)
  }

  /** Where the existing-voter view's main button leads. */
  function ExistingVoterRoute(v: Voter): (r: Route)
    ensures r == VerifyPage <==> v.verificationStatus != Verified
    ensures r == ConfirmationPage <==> v.verificationStatus == Verified && v.hasVoted
    ensures r == VotePage <==> v.verificationStatus == Verified && !v.hasVoted
  {
    if v.verificationStatus != Verified then VerifyPage
    else if v.hasVoted then ConfirmationPage
    else VotePage
  }

  /** The existing-voter view sends the user where the voting booth would:
      to verification, to the receipt, or to the ballot. */
  lemma ExistingRouteAgreesWithBooth(voters: seq<Voter>, userId: string)
    requires VoterOfUser(voters, userId).Some?
    ensures var v := VoterOfUser(voters, userId).value;
      && (ExistingVoterRoute(v) == VerifyPage <==> VotingBooth.Admit(Some(userId), voters) == VotingBooth.Redirect(VerifyPage))
      && (ExistingVoterRoute(v) == ConfirmationPage <==> VotingBooth.Admit(Some(userId), voters) == VotingBooth.Redirect(ConfirmationPage))
      && (ExistingVoterRoute(v) == VotePage <==> VotingBooth.Admit(Some(userId), voters) == VotingBooth.Ballot(v))
  {
  }

  /** A user who registers with no row yet is sent on to verification by
      the booth: the new row is the one the user's lookup finds, and it is
      not verified. */
  lemma NewVoterMustVerify(voters: seq<Voter>, userId: string, form: RegistrationForm, draw: nat, defaults: RowDefaults)
    requires draw < 1000000000
    requires Filter(voters, HasUser(userId)) == []
    ensures var row := NewVoterRow(userId, form, GenerateVoterId(draw), defaults);
      && VoterOfUser(voters + [row], userId) == Some(row)
      && VotingBooth.Admit(Some(userId), voters + [row]) == VotingBooth.Redirect(VerifyPage)
  {
    var row := NewVoterRow(userId, form, GenerateVoterId(draw), defaults);
    FilterAppend(voters, row, HasUser(userId));
  }

  /** When the lookup of a registered user fails, the form is shown and a
      submit adds a second row for the same user; from then on the user's
      `.single()` lookup finds no row, on every page. */
  lemma SecondRowHidesVoter(voters: seq<Voter>, userId: string, form: RegistrationForm, draw: nat, defaults: RowDefaults)
    requires draw < 1000000000
    requires VoterOfUser(voters, userId).Some?
    ensures |Filter(voters + [NewVoterRow(userId, form, GenerateVoterId(draw), defaults)], HasUser(userId))| == 2
    ensures VoterOfUser(voters + [NewVoterRow(userId, form, GenerateVoterId(draw), defaults)], userId).None?
  {
    FilterAppend(voters, NewVoterRow(userId, form, GenerateVoterId(draw), defaults), HasUser(userId));
  }

  datatype SubmitOutcome =
    | NotSignedIn          // no user: nothing happens
    | InsertFailed         // the row was not written
    | Registered(voterId: string)  // written; the page goes to /verify

  class RegistrationPage {
    var user: Option<string>
    var existingVoter: Option<Voter>

    constructor ()
      ensures user.None? && existingVoter.None?
    {
      user := None;
      existingVoter := None;
    }

    /** The form is rendered only when the user has no voter row. */
    predicate FormShown()
      reads this
    {
      existingVoter.None?
    }

    /** checkAuth: remembers the user and looks up an existing row. The
        lookup's error is ignored, so a read that fails (`lookupOk` false)
        leaves the form in place just as a lookup finding none or several
        rows does. Returns false when there is no session and the page goes
        to /auth. */
    method CheckAuth(session: Option<string>, voters: seq<Voter>, lookupOk: bool) returns (signedIn: bool)
      modifies this
      ensures signedIn == session.Some?
      ensures !signedIn ==> user == old(user) && existingVoter == old(existingVoter)
      ensures signedIn ==> user == session
      ensures signedIn ==>
        existingVoter == if lookupOk && VoterOfUser(voters, session.value).Some? then VoterOfUser(voters, session.value) else old(existingVoter)
    {
      if session.None? {
        return false;
      }
      user := session;
      var voter := if lookupOk then VoterOfUser(voters, session.value) else None;
      if voter.Some? {
        existingVoter := voter;
      }
      signedIn := true;
    }

    /** handleSubmit, reachable only from the form. The random draw and the
        database's own column values and answer are parameters. */
    method Submit(db: Database, form: RegistrationForm, draw: nat, defaults: RowDefaults, insertOk: bool)
      returns (outcome: SubmitOutcome)
      requires FormShown()
      requires draw < 1000000000
      modifies db
      ensures db.votes == old(db.votes) && db.roles == old(db.roles)
      ensures user.None? ==> outcome == NotSignedIn && db.voters == old(db.voters)
      ensures user.Some? && !insertOk ==> outcome == InsertFailed && db.voters == old(db.voters)
      ensures user.Some? && insertOk ==>
        && outcome == Registered(GenerateVoterId(draw))
        && db.voters == old(db.voters) + [NewVoterRow(user.value, form, GenerateVoterId(draw), defaults)]
        && db.voters[|db.voters| - 1].verificationStatus == Unverified
        && !db.voters[|db.voters| - 1].hasVoted
    {
      if user.None? {
        return NotSignedIn;
      }
      var voterId := GenerateVoterId(draw);
      if !insertOk {
        return InsertFailed;
      }
      db.voters := db.voters + [NewVoterRow(user.value, form, voterId, defaults)];
      outcome := Registered(voterId);
    }
  }
}
