/** Row and enum shapes of the managed database, restricted to the columns the
    pages read or write. Timestamps that are hashed or stored as text stay
    strings; timestamps that are compared (OTP expiry, registration time) are
    milliseconds since the epoch. */
module Types {

  datatype Option<+T> = None | Some(value: T)

  /** JavaScript truthiness of a nullable string: null and "" are falsy. */
  predicate Truthy(s: Option<string>) {
    s.Some? && s.value != ""
  }

  /** Enum verification_status. */
  datatype VerificationStatus = Unverified | OtpSent | Verified

  /** Enum vote_status. */
  datatype VoteStatus = VotePending | VoteVerified | VoteRejected

  /** Enum app_role. */
  datatype AppRole = Admin | User

  /** A row of the voters table. `id` is the row's key; `voterId` is the
      printed "BHV..." identifier. */
  datatype Voter = Voter(
    id: string,
    userId: string,
    voterId: string,
    fullName: string,
    phoneNumber: string,
    dateOfBirth: string,
    address: string,
    constituency: string,
    email: Option<string>,
    verificationStatus: VerificationStatus,
    hasVoted: bool,
    votedAt: Option<string>,
    emailOtpCode: Option<string>,
    emailOtpExpiresAt: Option<int>,
    emailVerified: Option<bool>,
    createdAt: int)

  /** A row of the votes table: one block of the ledger. `voterRef` is the
      voters row id of the voter who cast it. */
  datatype VoteRow = VoteRow(
    voterRef: string,
    partyId: string,
    voteHash: string,
    previousHash: Option<string>,
    blockNumber: int,
    timestamp: string,
    status: VoteStatus)

  /** A row returned by the get_vote_counts procedure. */
  datatype VoteCount = VoteCount(
    partyId: string,
    partyName: string,
    shortName: string,
    color: string,
    isNota: bool,
    voteCount: int)

  /** A row of the user_roles table. */
  datatype RoleRow = RoleRow(userId: string, role: AppRole)

  /** The application routes a page can send the user to. */
  datatype Route = AuthPage | HomePage | RegisterPage | VerifyPage | VotePage | ConfirmationPage | DashboardPage
}
