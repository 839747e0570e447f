/** The identity-verification page: loading the voter, sending a one-time
    password by e-mail, the resend countdown, the code input and checking the
    entered code against the stored one. */
module VoterVerification {
  import opened Types
  import opened Text
  import opened Seqs
  import opened Store
  import VotingBooth

  /** Five minutes, in milliseconds. */
  const OtpLifetime: int := 5 * 60 * 1000
  /** Seconds before the code may be sent again. */
  const ResendDelay: int := 60
  const OtpLength: nat := 6

  datatype VerifyEntry = Redirect(to: Route) | Show(voter: Voter)

  /** fetchVoter: no session, no voter row, already verified, in that order;
      otherwise the page is shown for the voter. */
  function Enter(session: Option<string>, voters: seq<Voter>): (e: VerifyEntry)
    ensures e == Redirect(AuthPage) <==> session.None?
    ensures e == Redirect(RegisterPage) <==> session.Some? && VoterOfUser(voters, session.value).None?
    ensures e == Redirect(VotePage) <==>
      session.Some? && VoterOfUser(voters, session.value).Some? &&
      VoterOfUser(voters, session.value).value.verificationStatus == Verified
    ensures e.Show? <==>
      session.Some? && VoterOfUser(voters, session.value).Some? &&
      VoterOfUser(voters, session.value).value.verificationStatus != Verified
    ensures e.Show? ==> VoterOfUser(voters, session.value) == Some(e.voter)
  {
    if session.None? then Redirect(AuthPage)
    else
      var row := VoterOfUser(voters, session.value);
      if row.None? then Redirect(RegisterPage)
      else if row.value.verificationStatus == Verified then Redirect(VotePage)
      else Show(row.value)
  }

  /** This page and the voting booth split the signed-in, registered users
      between them: the page is shown exactly to those the booth sends here,
      and sends on to the booth exactly those the booth does not send back. */
  lemma EnterAgreesWithBooth(session: Option<string>, voters: seq<Voter>)
    ensures Enter(session, voters).Show? <==> VotingBooth.Admit(session, voters) == VotingBooth.Redirect(VerifyPage)
    ensures Enter(session, voters) == Redirect(VotePage) <==>
      VotingBooth.Admit(session, voters).Ballot? || VotingBooth.Admit(session, voters) == VotingBooth.Redirect(ConfirmationPage)
  {
  }

  /** `Math.floor(100000 + Math.random() * 900000).toString()`, where draw is
      the integer part of `Math.random() * 900000`. The code is six decimal
      digits spelling a number from 100000 to 999999. */
  function OtpCode(draw: nat): (code: string)
    requires draw < 900000
    ensures |code| == OtpLength
    ensures forall i :: 0 <= i < |code| ==> IsDecimalDigit(code[i])
    ensures ParseRadix(code, 10) == 100000 + draw
    ensures 100000 <= ParseRadix(code, 10) <= 999999
  {
    var n := 100000 + draw;
    PowConstants();
    RadixLength(n, 10, 6);
    RadixLengthAtLeast(n, 10, 5);
    ParseRadixOfRadix(n, 10);
    Radix(n, 10)
  }

  /** Distinct draws give distinct codes. */
  lemma OtpCodeInjective(d1: nat, d2: nat)
    requires d1 < 900000 && d2 < 900000 && OtpCode(d1) == OtpCode(d2)
    ensures d1 == d2
  {
    assert ParseRadix(OtpCode(d1), 10) == 100000 + d1;
  }

  /** The input handler: `value.replace(/\D/g, '').slice(0, 6)`. */
  function Sanitize(input: string): (r: string)
    ensures |r| <= OtpLength
    ensures forall i :: 0 <= i < |r| ==> IsDecimalDigit(r[i])
    ensures IsSubsequence(r, input)
    ensures |r| == if |Filter(input, IsDecimalDigit)| < OtpLength then |Filter(input, IsDecimalDigit)| else OtpLength
  {
    var digits := Filter(input, IsDecimalDigit);
    FilterIsSubsequence(input, IsDecimalDigit);
    var r := if |digits| <= OtpLength then digits else digits[..OtpLength];
    SubsequencePrefix(digits, input, |r|);
    assert digits[..|r|] == r;
    r
  }

  /** Sanitizing twice is sanitizing once. */
  lemma SanitizeIdempotent(input: string)
    ensures Sanitize(Sanitize(input)) == Sanitize(input)
  {
    SanitizeFixpoint(Sanitize(input));
  }

  /** The inputs the sanitizer leaves untouched are exactly the strings of at
      most six decimal digits. */
  lemma SanitizeFixpoint(s: string)
    ensures Sanitize(s) == s <==> |s| <= OtpLength && forall i :: 0 <= i < |s| ==> IsDecimalDigit(s[i])
  {
    if |s| <= OtpLength && forall i :: 0 <= i < |s| ==> IsDecimalDigit(s[i]) {
      FilterAll(s, IsDecimalDigit);
    }
  }

  /** Every generated code passes through the input unchanged. */
  lemma CodeSurvivesInput(draw: nat)
    requires draw < 900000
    ensures Sanitize(OtpCode(draw)) == OtpCode(draw)
  {
    SanitizeFixpoint(OtpCode(draw));
  }

  /** The send button: `disabled={isSendingOtp || !voter.email}`. */
  predicate SendEnabled(voter: Voter, sending: bool) {
    !(sending || !Truthy(voter.email))
  }

  /** The resend button: `disabled={countdown > 0 || isSendingOtp}`. */
  predicate ResendEnabled(countdown: int, sending: bool) {
    !(countdown > 0 || sending)
  }

  /** The verify button: `disabled={isLoading || otp.length !== 6}`. */
  predicate VerifyEnabled(otp: string, loading: bool) {
    !(loading || |otp| != OtpLength)
  }

  /** The verify button opens exactly when the field's value holds at least
      six digits and no check is running; once open, the code
      handleVerifyOtp reads is the first six digits. The field's
      `maxLength={6}` limits what can be typed, so in practice the value is
      six digits; the lemma holds for any value, pasted or typed. */
  lemma VerifyEnabledAfterInput(input: string, loading: bool)
    ensures VerifyEnabled(Sanitize(input), loading) <==> !loading && |Filter(input, IsDecimalDigit)| >= OtpLength
    ensures VerifyEnabled(Sanitize(input), loading) ==> Sanitize(input) == Filter(input, IsDecimalDigit)[..OtpLength]
  {
  }

  /** An enabled send button means a non-empty address is on file, so
      sendEmailOtp never takes its no-address branch from the button; a
      voter without one can never press it. */
  lemma SendEnabledHasAddress(voter: Voter, sending: bool)
    ensures SendEnabled(voter, sending) ==> voter.email.Some? && voter.email.value != ""
    ensures voter.email.None? || voter.email.value == "" ==> !SendEnabled(voter, sending)
  {
  }

  /** One firing of the countdown effect. */
  function TickOnce(countdown: int): int {
    if countdown > 0 then countdown - 1 else countdown
  }

  /** The countdown after k firings of the effect. */
  function CountdownAfter(countdown: int, k: nat): int
    decreases k
  {
    if k == 0 then countdown else CountdownAfter(TickOnce(countdown), k - 1)
  }

  /** From a non-negative start the countdown goes down by one per tick and
      stops at zero, so resend opens after exactly that many ticks. */
  lemma {:induction false} CountdownElapses(countdown: int, k: nat)
    requires countdown >= 0
    ensures CountdownAfter(countdown, k) == if k >= countdown then 0 else countdown - k
    ensures ResendEnabled(CountdownAfter(countdown, k), false) <==> k >= countdown
    decreases k
  {
    if k > 0 {
      CountdownElapses(TickOnce(countdown), k - 1);
    }
  }

  /** The entered code equals the stored one (a null stored code matches
      nothing, since the guard ensures the entry is not empty). */
  predicate CodeMatches(row: Voter, entered: string) {
    row.emailOtpCode == Some(entered)
  }

  /** `email_otp_expires_at && new Date(email_otp_expires_at) < new Date()`:
      a missing expiry never expires. */
  predicate OtpExpired(row: Voter, now: int) {
    row.emailOtpExpiresAt.Some? && row.emailOtpExpiresAt.value < now
  }

  datatype SendOutcome =
    | NoEmail                          // no voter loaded or no address on file
    | StoreFailed                      // the code was not stored
    | MailFailed(code: string)         // stored, but the mail was not sent
    | Sent(to: string, code: string)   // stored and mailed

  datatype VerifyOutcome =
    | NotAttempted    // no voter loaded or nothing entered
    | FetchFailed     // the voter row could not be read back
    | InvalidOtp      // the entry differs from the stored code
    | ExpiredOtp      // the code matched but its expiry has passed
    | UpdateFailed    // the row could not be marked verified
    | VerifiedNow     // marked verified; the page goes to /vote

  class VerificationPage {
    var voter: Option<Voter>
    var otpSent: bool
    var otp: string
    var countdown: int

    ghost predicate Valid()
      reads this
    {
      && 0 <= countdown <= ResendDelay
      && |otp| <= OtpLength
      && forall i :: 0 <= i < |otp| ==> IsDecimalDigit(otp[i])
    }

    constructor ()
      ensures Valid()
      ensures voter.None? && !otpSent && otp == "" && countdown == 0
    {
      voter := None;
      otpSent := false;
      otp := "";
      countdown := 0;
    }

    /** fetchVoter: keeps the voter row when the page is shown. */
    method Load(session: Option<string>, voters: seq<Voter>) returns (e: VerifyEntry)
      modifies this
      ensures e == Enter(session, voters)
      ensures voter == if e.Show? then Some(e.voter) else old(voter)
      ensures otpSent == old(otpSent) && otp == old(otp) && countdown == old(countdown)
    {
      e := Enter(session, voters);
      if e.Show? {
        voter := Some(e.voter);
      }
    }

    /** The countdown effect, once. */
    method Tick()
      requires Valid()
      modifies this
      ensures Valid()
      ensures countdown == TickOnce(old(countdown))
      ensures voter == old(voter) && otpSent == old(otpSent) && otp == old(otp)
    {
      if countdown > 0 {
        countdown := countdown - 1;
      }
    }

    /** The input's onChange handler. */
    method EnterOtp(input: string)
      requires Valid()
      modifies this
      ensures Valid()
      ensures otp == Sanitize(input)
      ensures voter == old(voter) && otpSent == old(otpSent) && countdown == old(countdown)
    {
      otp := Sanitize(input);
    }

    /** handleSendEmailOtp. The database's and the mailer's answers are
        parameters, as are the random draw and the current time. */
    method SendEmailOtp(db: Database, draw: nat, now: int, dbOk: bool, mailOk: bool) returns (outcome: SendOutcome)
      requires Valid()
      requires draw < 900000
      modifies this, db
      ensures Valid()
      ensures db.votes == old(db.votes) && db.roles == old(db.roles)
      ensures voter == old(voter) && otp == old(otp)
      ensures voter.None? || !Truthy(voter.value.email) ==>
        outcome == NoEmail && db.voters == old(db.voters) && otpSent == old(otpSent) && countdown == old(countdown)
      ensures voter.Some? && Truthy(voter.value.email) ==>
        var code := OtpCode(draw);
        && (!dbOk ==> outcome == StoreFailed && db.voters == old(db.voters)
                      && otpSent == old(otpSent) && countdown == old(countdown))
        && (dbOk ==> db.voters == UpdateWhereId(old(db.voters), voter.value.id, StoreOtp(code, now + OtpLifetime)))
        && (dbOk && !mailOk ==> outcome == MailFailed(code) && otpSent == old(otpSent) && countdown == old(countdown))
        && (dbOk && mailOk ==> outcome == Sent(voter.value.email.value, code) && otpSent && countdown == ResendDelay)
    {
      if voter.None? || !Truthy(voter.value.email) {
        return NoEmail;
      }
      var v := voter.value;
      var code := OtpCode(draw);
      var expiresAt := now + OtpLifetime;
      if !dbOk {
        return StoreFailed;
      }
      db.voters := UpdateWhereId(db.voters, v.id, StoreOtp(code, expiresAt));
      if !mailOk {
        return MailFailed(code);
      }
      otpSent := true;
      countdown := ResendDelay;
      outcome := Sent(v.email.value, code);
    }

    /** handleVerifyOtp: read the stored code back, reject a wrong code, then
        an expired one, then mark the voter verified. */
    method VerifyOtp(db: Database, now: int, fetchOk: bool, updateOk: bool) returns (outcome: VerifyOutcome)
      modifies db
      ensures db.votes == old(db.votes) && db.roles == old(db.roles)
      ensures voter.None? || otp == "" ==> outcome == NotAttempted && db.voters == old(db.voters)
      ensures voter.Some? && otp != "" ==>
        var row := VoterWithId(old(db.voters), voter.value.id);
        && (!fetchOk || row.None? ==> outcome == FetchFailed && db.voters == old(db.voters))
        && (fetchOk && row.Some? && !CodeMatches(row.value, otp) ==>
              outcome == InvalidOtp && db.voters == old(db.voters))
        && (fetchOk && row.Some? && CodeMatches(row.value, otp) && OtpExpired(row.value, now) ==>
              outcome == ExpiredOtp && db.voters == old(db.voters))
        && (fetchOk && row.Some? && CodeMatches(row.value, otp) && !OtpExpired(row.value, now) && !updateOk ==>
              outcome == UpdateFailed && db.voters == old(db.voters))
        && (fetchOk && row.Some? && CodeMatches(row.value, otp) && !OtpExpired(row.value, now) && updateOk ==>
              outcome == VerifiedNow && db.voters == UpdateWhereId(old(db.voters), voter.value.id, MarkVerified))
    {
      if voter.None? || otp == "" {
        return NotAttempted;
      }
      var id := voter.value.id;
      var row := VoterWithId(db.voters, id);
      if !fetchOk || row.None? {
        return FetchFailed;
      }
      if !CodeMatches(row.value, otp) {
        return InvalidOtp;
      }
      if OtpExpired(row.value, now) {
        return ExpiredOtp;
      }
      if !updateOk {
        return UpdateFailed;
      }
      db.voters := UpdateWhereId(db.voters, id, MarkVerified);
      outcome := VerifiedNow;
    }
  }

  /** A code sent at time sentAt is the one read back for the voter; it
      matches the code mailed out, and it counts as expired exactly when the
      check happens more than five minutes later. */
  lemma SentCodeWindow(voters: seq<Voter>, id: string, draw: nat, sentAt: int, now: int)
    requires draw < 900000
    requires VoterWithId(voters, id).Some?
    ensures var stored := UpdateWhereId(voters, id, StoreOtp(OtpCode(draw), sentAt + OtpLifetime));
      && VoterWithId(stored, id).Some?
      && CodeMatches(VoterWithId(stored, id).value, OtpCode(draw))
      && (OtpExpired(VoterWithId(stored, id).value, now) <==> now > sentAt + OtpLifetime)
      && VoterWithId(stored, id).value.verificationStatus == OtpSent
  {
    UpdateSeenById(voters, id, StoreOtp(OtpCode(draw), sentAt + OtpLifetime));
  }

  /** A code is good for one verification: once it is accepted the row is
      verified, its code and expiry are cleared, and no entry matches any more. */
  lemma CodeIsSingleUse(voters: seq<Voter>, id: string, entered: string)
    requires VoterWithId(voters, id).Some?
    ensures var marked := UpdateWhereId(voters, id, MarkVerified);
      && VoterWithId(marked, id).Some?
      && !CodeMatches(VoterWithId(marked, id).value, entered)
      && VoterWithId(marked, id).value.emailOtpExpiresAt.None?
      && VoterWithId(marked, id).value.verificationStatus == Verified
      && VoterWithId(marked, id).value.emailVerified == Some(true)
  {
    UpdateSeenById(voters, id, MarkVerified);
  }

  /** Once the user's row is marked verified, this page sends the user on to
      the booth, and the booth shows the ballot unless the voter has voted. */
  lemma VerificationOpensBooth(voters: seq<Voter>, userId: string, v: Voter)
    requires VoterOfUser(voters, userId) == Some(v)
    ensures var marked := UpdateWhereId(voters, v.id, MarkVerified);
      && Enter(Some(userId), marked) == Redirect(VotePage)
      && VotingBooth.Admit(Some(userId), marked)
         == if v.hasVoted then VotingBooth.Redirect(ConfirmationPage) else VotingBooth.Ballot(Apply(v, MarkVerified))
  {
    UpdateSeenByUser(voters, v.id, MarkVerified, userId);
  }
}
