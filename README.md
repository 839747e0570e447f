# Bharote vote ledger, modelled in Dafny

Bharote is an online voting application. Voters register, confirm their
identity with a one-time password sent by e-mail, and then cast one vote.
Each vote is stored as a block of a hash-linked ledger. The votes table is
read publicly by a block explorer and a results page. An admin dashboard
counts voters and votes.

This project models the logic those pages run against the database:

- The database is the `Store.Database` class. It holds three tables as
  sequences in insertion order: `voters`, `votes` (the ledger) and
  `user_roles`.
- Each page is its own module.
  - Pages whose state changes step by step are classes. Their methods
    update the fields and the database.
  - Selection, routing and formatting logic is written as functions.
- `.single()` is modelled exactly. It yields a row only when exactly one
  row matches; otherwise it is an error.
- `.update().eq("id", …)` patches every row with that id.
- `.range(from, to)` is inclusive and is cut short at the end of the result.
- The block digest `generateVoteHash` is reproduced code unit by code unit.
  - It is a 32-bit multiply-by-31 fold with ECMAScript `ToInt32` wrap-around.
  - It is written as `BLK` and 16 upper-case hexadecimal digits.
  - It is a method with a loop, proved equal to a fold function.

Answers from the database and the mailer are boolean parameters
(`lastOk`, `lookupOk`, `roleOk`, `insertOk`, `updateOk`, `dbOk`, `mailOk`,
…). Every error path of the pages modelled as classes is covered this way,
including reads whose error the code ignores:

- A failed read of the highest block makes `handleVote` start a second
  block 1.
- A failed lookup of a registered user shows the registration form again.
- A failed role read denies an admin access.

The entry checks of the booth and the verification page are functions of
the table state, and their ignored read errors are listed under "Left out".
So are `Math.random()` draws (the integer the code derives from
them) and the current time.

The properties proved include:

- **Ledger shape.** Appending the block `handleVote` builds keeps the
  ledger well formed: block *i* is number *i*, links to block *i − 1*'s
  digest and has a non-empty digest.
- **Voter lifecycle.**
  - A voter whose vote is recorded is turned away from the booth.
  - A verified voter is sent from the verification page to the booth.
  - A newly registered voter must verify first.
  - The dashboard, registration and verification pages route a user exactly
    as the booth would.
- **One-time password.**
  - The code is six digits and survives the input sanitizer.
  - It expires exactly five minutes after sending.
  - It cannot match again once it has been accepted.
- **Explorer.**
  - Its pages tile the ledger newest first.
  - Its search finds a block by its digest in any letter case, or by its
    number.
- **Counts and percentages.**
  - Results ranking is a permutation that keeps the total.
  - The leader is the first party with the most votes.
  - Percentages lie between 0 and 100.
  - The recent-voters list holds the newest ten registrations.
- **Device fingerprint.** The hex encoding of the SHA-256 digest round-trips
  and is 64 characters long.

Points where the code is weaker than a voting ledger would need, all
modelled as written:

- The digest is a demo string hash, not a 256-bit cryptographic digest.
- The digest does not cover the device fingerprint.
- The first block's predecessor is stored as null. `GENESIS` appears only
  inside the hashed text.
- Writing the block and flipping the voter's has-voted flag are two
  separate writes, not one atomic transaction. `HandleVote` models the
  state where the block was written and the flag was not
  (`VoterUpdateFailed`).
- No chain verifier routine exists in the code. The ledger's well-formedness
  is the predicate `Store.ChainShaped`, which the model proves is preserved.

## Model

| member | source | states |
|---|---|---|
| VoteHash.ToInt32 | src/pages/bharote/VotingBooth.tsx:105-106 | the 32-bit truncation of `hash & hash` / `<<`: the result lies in [-2^31, 2^31) and is congruent to the input modulo 2^32 |
| VoteHash.ToInt32Congruent | src/pages/bharote/VotingBooth.tsx:105-106 | truncation depends only on the value modulo 2^32, so shift-and-subtract and multiply-by-31 give the same accumulator |
| VoteHash.Accumulate | src/pages/bharote/VotingBooth.tsx:102-107 | the accumulator after any prefix of code units stays a signed 32-bit value |
| VoteHash.GenerateVoteHash | src/pages/bharote/VotingBooth.tsx:99-109 | the loop over the code units of voter, party, timestamp and predecessor digest (or `GENESIS`), joined by bars, returns exactly the fold-and-render digest `VoteHashOf` |
| VoteHash.StepAgrees | src/pages/bharote/VotingBooth.tsx:104-106 | one loop step `((h << 5) - h) + c` followed by `hash & hash` equals the fold step ToInt32(31h + c) |
| VoteHash.RenderShape | src/pages/bharote/VotingBooth.tsx:108 | a digest is 19 characters: `BLK`, eight leading zeros, upper-case hex digits that parse back to the magnitude of the accumulator |
| VoteHash.VoteHashShape | src/pages/bharote/VotingBooth.tsx:99-109 | every vote digest has length 19, starts with `BLK` and encodes the accumulator of its input; hence it is never empty |
| VoteHash.GenesisAliases | src/pages/bharote/VotingBooth.tsx:100 | a null predecessor, an empty one and the literal `GENESIS` give the same digest |
| Store.Database.constructor | src/integrations/supabase/types.ts:181-326 | the database starts with the given voters, votes and user_roles rows |
| Store.Single | src/pages/bharote/VotingBooth.tsx:55-64 | `.single()` yields a row exactly when one row matches, and then that row |
| Store.VoterOfUser | src/pages/bharote/VotingBooth.tsx:55-59 | a voter is found exactly when one row has that user id, and it is a row of the table with that user id |
| Store.VoterWithId | src/pages/bharote/VoterVerification.tsx:143-147 | a voter is found exactly when one row has that id, and it is a row of the table with that id |
| Store.Apply | src/pages/bharote/VotingBooth.tsx:146-152 | the three voter updates (mark voted, store OTP, mark verified) never change a row's id, user, voter id or e-mail |
| Store.UpdateKeepsRows | src/pages/bharote/VoterVerification.tsx:161-169 | an update by id commutes with any filter on a column the update does not touch: same rows selected, patched in place |
| Store.UpdateSeenByUser | src/pages/bharote/VotingBooth.tsx:146-152 | after an update by id, the user's lookup still finds one row, the patched version of the row it found before |
| Store.UpdateSeenById | src/pages/bharote/VoterVerification.tsx:90-97 | after an update by id, the lookup by that id returns the patched row |
| Store.LastVote | src/pages/bharote/VotingBooth.tsx:119-124 | the highest-block query fails exactly when the ledger is empty; otherwise it returns a row of the ledger whose block number is at least every block's |
| Store.LastVoteOfChain | src/pages/bharote/VotingBooth.tsx:119-124 | on a well-formed ledger the highest-numbered block is the last one appended |
| VotingBooth.Admit | src/pages/bharote/VotingBooth.tsx:46-97 | the entry checks in order, each as an if-and-only-if: no session to /auth, no single voter row to /register, not verified to /verify, voted to /confirmation, otherwise the ballot for the user's row |
| VotingBooth.NewBlockOnChain | src/pages/bharote/VotingBooth.tsx:119-141 | on a ledger of n blocks the new block is number n+1, links to block n's digest (none when empty), is verified and carries the timestamp |
| VotingBooth.AppendKeepsChain | src/pages/bharote/VotingBooth.tsx:126-141 | appending the new block keeps the ledger well formed (numbering, linkage, non-empty digests) |
| VotingBooth.HandleVote | src/pages/bharote/VotingBooth.tsx:111-176 | ignored without voter or party; failed insert changes nothing; otherwise the block built on the highest-block read (on nothing when that read failed) is appended, and the voter row is marked voted at the timestamp only when the second write succeeds; keeps reproducible digests always, and keeps the ledger well formed when the read succeeded |
| VotingBooth.FailedReadRestartsChain | src/pages/bharote/VotingBooth.tsx:119-127 | after a failed highest-block read the new block is number 1 with no predecessor: the right block on an empty ledger, a break in the chain on any other |
| VotingBooth.CastVoterIsTurnedAway | src/pages/bharote/VotingBooth.tsx:76-79 | a voter admitted to the ballot whose vote is recorded is sent to /confirmation next time |
| VoterVerification.Enter | src/pages/bharote/VoterVerification.tsx:31-64 | page entry checks in order, as if-and-only-ifs: /auth, /register, /vote for a verified voter, otherwise the page for the user's row |
| VoterVerification.EnterAgreesWithBooth | src/pages/bharote/VoterVerification.tsx:55-58 | the page is shown exactly to users the booth sends to /verify, and sends to /vote exactly the users the booth does not send to /verify, /register or /auth |
| VoterVerification.OtpCode | src/pages/bharote/VoterVerification.tsx:86 | the code is six decimal digits spelling 100000 + draw, within 100000..999999 |
| VoterVerification.OtpCodeInjective | src/pages/bharote/VoterVerification.tsx:86 | distinct draws give distinct codes |
| VoterVerification.Sanitize | src/pages/bharote/VoterVerification.tsx:294 | the input keeps only its decimal digits, in order, at most six of them, and exactly min(6, number of digits) |
| VoterVerification.SanitizeIdempotent | src/pages/bharote/VoterVerification.tsx:294 | sanitizing twice equals sanitizing once |
| VoterVerification.SanitizeFixpoint | src/pages/bharote/VoterVerification.tsx:294 | the input is left unchanged if and only if it is at most six decimal digits |
| VoterVerification.CodeSurvivesInput | src/pages/bharote/VoterVerification.tsx:86 | every generated code can be typed in unchanged |
| VoterVerification.VerifyEnabledAfterInput | src/pages/bharote/VoterVerification.tsx:294-303 | the verify button opens exactly when the field holds at least six digits and no check runs, and the code then read is the first six digits |
| VoterVerification.SendEnabledHasAddress | src/pages/bharote/VoterVerification.tsx:260 | the send button is enabled only with a non-empty address on file |
| VoterVerification.CountdownElapses | src/pages/bharote/VoterVerification.tsx:66-71 | after k ticks the countdown is max(0, start − k), and resend is enabled exactly when k reaches the start value |
| VoterVerification.VerificationPage.constructor | src/pages/bharote/VoterVerification.tsx:25-27 | no voter, no code sent, empty input, countdown 0 |
| VoterVerification.VerificationPage.Load | src/pages/bharote/VoterVerification.tsx:31-64 | the page keeps the voter row exactly when it is shown |
| VoterVerification.VerificationPage.Tick | src/pages/bharote/VoterVerification.tsx:66-71 | one second of countdown, stopping at 0; the countdown stays within 0..60 |
| VoterVerification.VerificationPage.EnterOtp | src/pages/bharote/VoterVerification.tsx:294 | the input field holds the sanitized value, at most six digits |
| VoterVerification.VerificationPage.SendEmailOtp | src/pages/bharote/VoterVerification.tsx:73-135 | no e-mail: nothing happens; failed store: nothing changes; otherwise the row gets the code, expiry now+5 min and status otp_sent, and only a successful mail sets the sent flag and the 60-second countdown |
| VoterVerification.VerificationPage.VerifyOtp | src/pages/bharote/VoterVerification.tsx:137-188 | in order: nothing entered, row unreadable, code mismatch, code expired, update failed leave the table unchanged; otherwise the row is marked verified with code and expiry cleared |
| VoterVerification.SentCodeWindow | src/pages/bharote/VoterVerification.tsx:86-97 | a code sent at time t is what the row holds afterwards, its status is otp_sent, and it counts as expired exactly when checked after t + 5 minutes |
| VoterVerification.CodeIsSingleUse | src/pages/bharote/VoterVerification.tsx:161-169 | once accepted the row is verified, e-mail verified, without expiry, and no entry matches its code any more |
| VoterVerification.VerificationOpensBooth | src/pages/bharote/VoterVerification.tsx:161-178 | after verification the page sends the user to /vote, and the booth shows the ballot unless the voter has already voted |
| VoterRegistration.VoterIdShape | src/pages/bharote/VoterRegistration.tsx:59-61 | a voter id is `BHV` and nine decimal digits that spell the draw with leading zeros |
| VoterRegistration.VoterIdInjective | src/pages/bharote/VoterRegistration.tsx:59-61 | distinct draws give distinct voter ids |
| VoterRegistration.ExistingVoterRoute | src/pages/bharote/VoterRegistration.tsx:124-136 | the already-registered view leads to /verify, /confirmation or /vote, each exactly in its case |
| VoterRegistration.ExistingRouteAgreesWithBooth | src/pages/bharote/VoterRegistration.tsx:124-136 | for a registered user that button goes exactly where the booth would send the user |
| VoterRegistration.NewVoterMustVerify | src/pages/bharote/VoterRegistration.tsx:72-81 | after registering, the user's lookup finds the new unverified row and the booth sends the user to /verify |
| VoterRegistration.RegistrationPage.constructor | src/pages/bharote/VoterRegistration.tsx:36-57 | no user and no existing voter before the session is checked |
| VoterRegistration.RegistrationPage.CheckAuth | src/pages/bharote/VoterRegistration.tsx:36-57 | no session: nothing stored; otherwise the user is stored and the user's single voter row, when the read succeeds and finds one, replaces the form |
| VoterRegistration.SecondRowHidesVoter | src/pages/bharote/VoterRegistration.tsx:46-54 | registering again a user who already has a row gives that user two rows, after which the user's lookup finds none |
| VoterRegistration.RegistrationPage.Submit | src/pages/bharote/VoterRegistration.tsx:63-100 | without user nothing happens; a failed insert changes nothing; otherwise one row is appended with the form, the generated id, status unverified and not voted |
| VoterDashboard.GetStatusInfo | src/pages/bharote/VoterDashboard.tsx:58-93 | the four status cards, each exactly in its case: no row, not verified, verified and not voted, voted |
| VoterDashboard.StatusActions | src/pages/bharote/VoterDashboard.tsx:58-93 | each card's title and its link (/register, /verify, /vote, /confirmation) |
| VoterDashboard.StatusAgreesWithBooth | src/pages/bharote/VoterDashboard.tsx:58-93 | each card links exactly where the booth would send the user |
| VoterDashboard.QuickActionsExclusive | src/pages/bharote/VoterDashboard.tsx:262-281 | "Verify Identity" and "Cast Vote" never appear together; "Cast Vote" appears exactly on the Ready-to-Vote card, "Verify Identity" exactly on the Not-Registered and Pending cards |
| VoterDashboard.CastVoteShowsTime | src/pages/bharote/VoterDashboard.tsx:210 | after a vote is recorded the card reads Vote Cast, the vote time is shown and "Cast Vote" is gone |
| BlockchainExplorer.PageRange | src/pages/bharote/BlockchainExplorer.tsx:56 | page p asks for ten offsets starting at 10(p − 1) |
| BlockchainExplorer.PagesAdjacent | src/pages/bharote/BlockchainExplorer.tsx:56 | consecutive pages' ranges neither overlap nor leave a gap |
| BlockchainExplorer.RangeRows | src/pages/bharote/BlockchainExplorer.tsx:56 | an inclusive range returns at most to-from+1 rows, fewer only when the result ends first |
| BlockchainExplorer.RangeRowsAt | src/pages/bharote/BlockchainExplorer.tsx:56 | the i-th row returned is the row at offset from+i of the result |
| BlockchainExplorer.PageIsSlice | src/pages/bharote/BlockchainExplorer.tsx:53-56 | page k (k at least 1) is the slice of the ordered rows from 10(k-1) to 10k, both ends cut at the end of the rows |
| BlockchainExplorer.PagesTile | src/pages/bharote/BlockchainExplorer.tsx:53-56 | pages 1..k together are the first 10k rows of the ordered result |
| BlockchainExplorer.TotalPages | src/pages/bharote/BlockchainExplorer.tsx:86 | the least page count whose pages hold all blocks |
| BlockchainExplorer.AllPagesShowLedger | src/pages/bharote/BlockchainExplorer.tsx:53-56 | paging through every page shows the whole ledger, highest block first |
| BlockchainExplorer.PagesNewestFirst | src/pages/bharote/BlockchainExplorer.tsx:55 | every block on a page has a number at least that of every block on the next page |
| BlockchainExplorer.ChainLinksCountLinks | src/pages/bharote/BlockchainExplorer.tsx:121 | on a well-formed ledger the "chain links" figure equals the number of blocks naming a predecessor |
| BlockchainExplorer.GenesisLabelOnFirstBlock | src/pages/bharote/BlockchainExplorer.tsx:202 | on a well-formed ledger the first block is labelled genesis and every other block shows its predecessor's digest |
| BlockchainExplorer.Search | src/pages/bharote/BlockchainExplorer.tsx:73-84 | an empty query keeps every row; otherwise a subsequence of matching rows that contains every matching row and has one entry per matching position, so duplicates are kept as often as they occur |
| BlockchainExplorer.HashLinkFindsBlock | src/pages/bharote/BlockchainExplorer.tsx:34 | a `?hash=` link with a block's digest, in any letter case, finds that block |
| BlockchainExplorer.NumberQueryFindsBlock | src/pages/bharote/BlockchainExplorer.tsx:73-84 | searching for a block's decimal number finds that block |
| BlockchainExplorer.ExplorerPage.constructor | src/pages/bharote/BlockchainExplorer.tsx:30-38 | query from the `hash` parameter, page 1, nothing loaded |
| BlockchainExplorer.ExplorerPage.Fetch | src/pages/bharote/BlockchainExplorer.tsx:40-71 | the block count (0 on failure) and the rows of the current page (kept on failure), with the search re-applied |
| BlockchainExplorer.ExplorerPage.SetQuery | src/pages/bharote/BlockchainExplorer.tsx:73-84 | the shown rows become the search over the loaded rows |
| BlockchainExplorer.ExplorerPage.PreviousPage | src/pages/bharote/BlockchainExplorer.tsx:222-227 | the page becomes `Math.max(1, p - 1)` |
| BlockchainExplorer.ExplorerPage.NextPage | src/pages/bharote/BlockchainExplorer.tsx:236-238 | the page becomes `Math.min(totalPages, p + 1)` |
| BlockchainExplorer.ButtonsEnabledWhenTheyMove | src/pages/bharote/BlockchainExplorer.tsx:226-238 | within the page range each button is enabled exactly when its update changes the page, and both updates stay within 1..totalPages |
| BlockchainExplorer.ButtonsUndoEachOther | src/pages/bharote/BlockchainExplorer.tsx:226-238 | an enabled Next then Previous, or an enabled Previous then Next, returns to the same page |
| Results.TotalBoundsEachParty | src/pages/bharote/Results.tsx:39 | with no negative count, the total is non-negative and at least each party's count |
| Results.SortedResultsProperties | src/pages/bharote/Results.tsx:72 | the ranking is a permutation of the parties, most votes first, with the same total |
| Results.Leader | src/pages/bharote/Results.tsx:73 | there is a leader exactly when there are results; it is one of them and has the most votes |
| Results.LeaderTieBreak | src/pages/bharote/Results.tsx:72-73 | among tied parties the leader is the one get_vote_counts lists first (the sort is stable) |
| Results.PercentageBounds | src/pages/bharote/Results.tsx:67-70 | a share lies between 0 and 100, and more votes never give a smaller share |
| Results.AwardOnLeaderOnly | src/pages/bharote/Results.tsx:133-167 | the award badge is on one row only; it is the leader the leader card names, it has the most votes, and it has at least one vote |
| Results.NoPositiveCountNoTotal | src/pages/bharote/Results.tsx:39 | when no party has a positive count the total is not positive |
| AdminDashboard.StatsOf | src/pages/bharote/AdminDashboard.tsx:108-118 | total is the row count; verified, voted and pending are the numbers of rows that are verified, have voted, and are not verified; verified plus pending is the total |
| AdminDashboard.RecentVotersNewest | src/pages/bharote/AdminDashboard.tsx:120-124 | at most ten fetched rows, newest first, and every row newer than the last one listed is listed |
| AdminDashboard.NewerVoterListed | src/pages/bharote/AdminDashboard.tsx:120-124 | a row registered later than the last row listed is among the rows listed |
| AdminDashboard.RoundedShare | src/pages/bharote/AdminDashboard.tsx:203-205 | `Math.round(part/whole·100)` in exact arithmetic: the integer nearest the percentage, halves up; 0 when the whole is 0 |
| AdminDashboard.RoundedShareBounds | src/pages/bharote/AdminDashboard.tsx:327-329 | a part of a whole rounds to 0..100 |
| AdminDashboard.TurnoutAtMost100 | src/pages/bharote/AdminDashboard.tsx:203-205 | when only verified voters have voted, turnout lies in 0..100 |
| AdminDashboard.CastKeepsVotedVerified | src/pages/bharote/VotingBooth.tsx:146-152 | recording the vote of the voter the booth admitted keeps every voted row verified |
| AdminDashboard.RegisterKeepsVotedVerified | src/pages/bharote/VoterRegistration.tsx:72-81 | appending a row that has not voted keeps every voted row verified |
| AdminDashboard.SendOtpKeepsVotedVerified | src/pages/bharote/VoterVerification.tsx:86-97 | storing a code for the unverified voter the verification page loaded keeps every voted row verified |
| AdminDashboard.VerifyKeepsVotedVerified | src/pages/bharote/VoterVerification.tsx:161-169 | accepting a code keeps every voted row verified |
| AdminDashboard.PartySharesAtMost100 | src/pages/bharote/AdminDashboard.tsx:327-329 | each party's share of the total lies in 0..100 |
| AdminDashboard.AdminPage.constructor | src/pages/bharote/AdminDashboard.tsx:61-70 | loading, not admin, zero stats, empty lists |
| AdminDashboard.AdminPage.FetchData | src/pages/bharote/AdminDashboard.tsx:75-143 | no session: sent to /auth; a failed role read or no single admin role row: access denied, nothing loaded; otherwise admin, the stats and recent list from the voters (kept on failure) and the vote counts (kept on failure) |
| AdminDashboard.CastVoteRaisesVotedCount | src/pages/bharote/AdminDashboard.tsx:108-118 | recording one vote raises the voted count by one and leaves the other counts unchanged |
| AdminDashboard.MarkVotedCounts | src/pages/bharote/AdminDashboard.tsx:108-110 | marking a row voted keeps the verified count and raises the voted count by one exactly when that row had not voted |
| AdminDashboard.MarkVotedRaisesVoted | src/pages/bharote/AdminDashboard.tsx:108-110 | with at most one row per id, marking that id voted adds one voted row exactly when the row existed and had not voted |
| DeviceFingerprint.HexByte | src/hooks/useDeviceFingerprint.ts:53 | a byte is two lower-case hex digits, high digit b/16 then low digit b%16 |
| DeviceFingerprint.HexByteIsPaddedRadix | src/hooks/useDeviceFingerprint.ts:53 | the two digits are exactly toString(16) of the byte padded to two characters with '0' |
| DeviceFingerprint.HexEncode | src/hooks/useDeviceFingerprint.ts:53 | the text has two characters per byte |
| DeviceFingerprint.HexEncodeLower | src/hooks/useDeviceFingerprint.ts:53 | every character of the text is a lower-case hex digit |
| DeviceFingerprint.HexEncodeAt | src/hooks/useDeviceFingerprint.ts:53 | positions 2i and 2i+1 hold the two digits of byte i |
| DeviceFingerprint.HexEncodePairs | src/hooks/useDeviceFingerprint.ts:53 | byte i is the value of the digits at positions 2i and 2i+1 |
| DeviceFingerprint.HexRoundTrip | src/hooks/useDeviceFingerprint.ts:48-54 | reading the text back two digits at a time recovers the digest bytes |
| DeviceFingerprint.HexEncodeInjective | src/hooks/useDeviceFingerprint.ts:48-54 | different digests give different fingerprint hashes |
| DeviceFingerprint.DigestHexLength | src/hooks/useDeviceFingerprint.ts:48-54 | a SHA-256 digest is stored as 64 characters |

## Left out

- Network, authentication and the managed database service are not modelled as I/O. The session is an optional user id. Every query and write answers from the `Database` object, and each failure is a boolean parameter.
- Two clients running at once are not modelled. The read-then-insert race on the block number in `handleVote` is outside a sequential model, and so are the realtime subscriptions that re-run the fetches.
- The toasts, navigation side effects, `sessionStorage` writes, loading spinners and all rendering are left out. Navigation targets are returned as `Route` values.
- `Math.random()`, `Date.now()` and `new Date()` are parameters: the integer draw the code derives, and milliseconds or ISO strings.
- Date strings are not parsed. OTP expiry and `created_at` are integer milliseconds, and the vote timestamp and `voted_at` are opaque strings.
- DeviceFingerprint.HexRoundTrip: the SHA-256 computation and FingerprintJS are foreign calls. Only the hex encoding of the digest bytes is modelled.
- Results.PercentageBounds: the share is an exact `real`. The `toFixed(1)` formatting and floating-point rounding are not modelled.
- AdminDashboard.RoundedShare: computed on the exact rational value. Floating-point error in `part / whole * 100` before `Math.round` is not modelled.
- AdminDashboard.StatsOf: the total is the number of fetched rows. The `count: "exact"` header is taken to agree with the rows returned, and any server-side row cap is left out.
- BlockchainExplorer.Search: `toLowerCase` is modelled for ASCII letters only. The match is exact for queries without non-ASCII letters. JavaScript also lower-cases some non-ASCII letters to ASCII ones, such as U+212A KELVIN SIGN to `k`, and the model does not find such a query in a digest that the page would find it in.
- VotingBooth.Admit: the voter read's error is ignored by the page, so a failed read sends a registered voter to /register. The function decides from the table state and does not capture that path.
- VoterVerification.Enter: likewise, a failed voter read sends a registered voter to /register. The function decides from the table state and does not capture that path.
- Store.LastVote and BlockchainExplorer.PageRows: rows with equal block numbers come out in the stable sort's order. The database leaves the order of such ties unspecified, and the model picks one order. Such ties arise only after a failed highest-block read or two concurrent votes.
- VoteHash.GenerateVoteHash: `toUpperCase` is likewise ASCII only. Its input is hexadecimal digits.
- VoterRegistration.RegistrationPage.Submit: the e-mail column of a new row is not set by the insert. The database fills it in, so it comes in as a `RowDefaults` parameter with the new row's id and creation time.
- Party lists, party display order and the ballot's party selection are outside this model. The chosen party is an optional string parameter.
- The vote confirmation page and the landing, auth and navbar components are not part of this model.
- The edge functions that send the OTP mail and the notifications are not part of this model. Their success is the `mailOk` parameter.
- The SMS one-time password path is not part of this model.
- The `vote_blocks` and Merkle tables are not part of this model. The pages never write them.
- There is no ledger verifier routine in the code, so none is modelled. `Store.ChainShaped` and `Store.DigestsReproducible` state what such a routine would check.
- The admin reset of the ledger is not part of this model.
- The voters table is a sequence, not a keyed map, so duplicated user ids or ids are possible. `.single()` then fails, exactly as in the code.
