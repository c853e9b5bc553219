# CircleSfera, modelled in Dafny

A Dafny model of the parts of CircleSfera that keep state over time or rewrite text, with proofs
about whole runs and about every input. `dafny verify dfyconfig.toml` checks all of it.

| Files | What they model |
|---|---|
| `StaffModel`, `StaffSessions`, `StaffEnrolment`, `StaffReset`, `StaffLockout`, `StaffWitnesses` | One staff identity: sign-in, enrolment, second factor, renewals and operators' requests, as a state machine whose steps are the awaited calls of each request, interleaved freely |
| `StaffService` | The same methods as they are written, as a class; each is proved to be a run of the state machine in which only that request moves |
| `EnrolmentCode` | The code an administrator reads out, and how it may be typed |
| `TokenFamilies`, `FamilyService` | Participant refresh-token families: the requests as atomic steps, and the service's methods as a class that performs them |
| `FeedInbox` | The capped sorted set of each profile, against the history of every push |
| `EmailWindow` | The pruned window limiter, against a log that keeps everything |
| `NginxScan`, `NginxNames`, `NginxFile`, `NginxEdit`, `NginxTools`, `NginxSites`, `NginxPieces`, `NginxAgain`, `NginxPrograms`, `NginxBareBrace` | The nginx scanner and the two rewriters of site files, over arbitrary text |
| `AppealDeadline`, `Appeals` | The six-month deadline on ECMA-262 dates, and one appeal for each decision under locking |
| `Keyset`, `Archive`, `Comments` | Pages that follow a cursor while rows change |
| `PlanSync` | The sync of the stored plans with the catalogue |
| `HtmlEscape`, `AuditCsv`, `BroadcastLog`, `Similarity`, `ChatBlocks` | The smaller text formats, the vector loop and the blocks of a chat |
| `Optional`, `JsString`, `StringOrder` | Shared helpers |

The clock is a number of milliseconds (it never goes back, except where a lemma takes any times).
Hashes are datatype constructors, so they are injective and cannot be forged. Random values are fresh
numbers or texts handed in. Where a promise turned out not to hold of the code, the model keeps the code
and a lemma states exactly when the promise holds; these are, in short:

- A reset of the authenticator makes the identity prove itself again **unless** an enrolment is between
  its spent proof and its stored secret, or between reading a secret and setting the flag
  (`StaffReset.ResetIsSafeIff`; such a reset is reachable, `StaffReset.ResetCanSplitEnrolment`).
- The confirmed flag lands on the confirmed secret **unless** a secret was stored or a reset happened
  in between (`StaffEnrolment.FlagLandsOnConfirmedSecret`; reachable, `StaffWitnesses.FlagCanMissItsSecret`).
- A password cannot take back the failed count **unless** a sign-in that read the row before is still
  under way (`StaffLockout.CountIsKeptIff`; reachable, `StaffWitnesses.LeftoverCanWait`).
- A token family has at most one live row **unless** a profile switch adds one, and an emptied family
  stays empty **unless** an access token of it is still good to switch with
  (`TokenFamilies.AlwaysOneLiveIff`, `TokenFamilies.NeverReopensIff`; both occur,
  `TokenFamilies.SwitchCanDouble`, `TokenFamilies.EndedCanReopen`).
- Presenting an exchanged token empties its family **unless** a profile switch has opened the ended
  session again, and then it passes unnoticed (`TokenFamilies.ReuseIsAlwaysDetectedIff`,
  `TokenFamilies.ReuseCanPassUnnoticed`).
- The inbox stays within its limit, whatever the recent posts are, **unless** a rebuild's filling finds
  something in it: a post pushed since the purge, or another rebuild's filling (`FeedInbox.WithinLimitIff`,
  `FeedInbox.AloneIff`, `FeedInbox.CutRebuildGoesOver`, `FeedInbox.OverlappingRebuildsGoOver`).
- A later decision has no earlier deadline **unless** both are cut to the last day of one month and the
  later one was taken earlier in its day (`AppealDeadline.KeepsOrderIff`, `AppealDeadline.EveryAugust`).
- Releasing twice is releasing once **unless** what is left between the blocks reads as a server block
  that names the address (`NginxAgain.ReleaseIsIdempotentIff`, `NginxBareBrace.BareBraceUnsettles`).
- A second sync run writes nothing **exactly when** no two plans were found in one row
  (`PlanSync.SecondRunWritesNothingIff`, `PlanSync.RowsCanMeet`).

## Model

| member | source | states |
|---|---|---|
| StaffSessions.ReviewerSessionIsCapped | circlesfera-backend/src/admin-auth/admin-auth.service.ts:697-733 | Through any number of renewals and any interleaving, a reviewer's token never lives past 8 h from the sign-in nor past the end of access it was issued with; the carried start never moves |
| StaffSessions.StoredReviewerSessionsEnd | circlesfera-backend/src/admin-auth/admin-auth.service.ts:724-733 | Every stored row of a reviewer's session obeys that bound at every moment |
| StaffSessions.LateRenewalIsRefused | circlesfera-backend/src/admin-auth/admin-auth.service.ts:556-571 | A renewal after the working day, or with an end missing, past or beyond the maximum, issues nothing |
| StaffSessions.TokenRenewsOnce | circlesfera-backend/src/admin-auth/admin-auth.service.ts:527-581 | Two renewals of one token never both succeed |
| StaffSessions.CrossedChangesLeaveLateEnd | circlesfera-backend/src/admin/admin-operators.service.ts:390-427 | Two operators' changes at once can leave a reviewer with an end beyond the maximum |
| StaffEnrolment.SpentProofIsTheLastKept | circlesfera-backend/src/admin-auth/enrolment-proof.service.ts:122-164 | A spent proof is the last one kept, within its 24 h, with nothing kept, spent or reset since |
| StaffEnrolment.ProofIsSpentOnce | circlesfera-backend/src/admin-auth/enrolment-proof.service.ts:151-163 | No proof is spent twice, in any interleaving |
| StaffEnrolment.OlderProofNeverWorks | circlesfera-backend/src/admin-auth/enrolment-proof.service.ts:44-57 | A proof never works after a newer one or a reset |
| StaffEnrolment.ConfirmedSecretWasProved | circlesfera-backend/src/admin-auth/admin-auth.service.ts:326-358 | Each confirmed authenticator names a secret stored for a proof spent before, one secret for each proof |
| StaffEnrolment.FlagLandsOnConfirmedSecret | circlesfera-backend/src/admin-auth/admin-auth.service.ts:409-456 | The flag is set for the confirmed secret exactly when nothing was stored or reset since the row was read |
| StaffWitnesses.FlagCanMissItsSecret | circlesfera-backend/src/admin-auth/admin-auth.service.ts:409-456 | From a new identity, a flag can be about to be set for a secret that is no longer stored |
| StaffEnrolment.StillStoredIff | circlesfera-backend/src/admin-auth/admin-auth.service.ts:326-333 | A secret is still the stored one exactly when nothing was stored or reset since it was read |
| StaffReset.ResetIsSafeIff | circlesfera-backend/src/admin/admin-operators.service.ts:487-503 | After a reset, every confirmed authenticator has a proof spent since, exactly when the reset fell into no enrolment |
| StaffReset.EveryEnablingIsBacked | circlesfera-backend/src/admin/admin-operators.service.ts:487-503 | While no reset falls into an enrolment, every confirmed authenticator has a proof spent since the last reset |
| StaffReset.SplitResetIsUnsafe | circlesfera-backend/src/admin/admin-operators.service.ts:487-503 | A reset that falls into an enrolment is followed by a run that confirms an unproved secret |
| StaffReset.ResetCanSplitEnrolment | circlesfera-backend/src/admin-auth/admin-auth.service.ts:289-358 | Such a reset is reachable from the start |
| StaffLockout.FailuresAddUp | circlesfera-backend/src/admin-auth/admin-auth.service.ts:159-186 | While an identity has to enrol, neither right nor wrong passwords lower its count: it is the old count plus the failures |
| StaffLockout.FifthFailureLocks | circlesfera-backend/src/admin-auth/admin-auth.service.ts:160-172 | The fifth failure and each one after it leads to a lock of 15 minutes |
| StaffLockout.CountIsKeptIff | circlesfera-backend/src/admin-auth/admin-auth.service.ts:218-226 | Passwords cannot lower the count exactly when no sign-in that read the row before is under way |
| StaffWitnesses.LeftoverCanWait | circlesfera-backend/src/admin-auth/admin-auth.service.ts:148-226 | From a new identity, a sign-in that read the row while there was an authenticator can wait while the identity has to enrol and has failed |
| StaffService.StaffPanel.Login | circlesfera-backend/src/admin-auth/admin-auth.service.ts:148-247 | The method is a run of the state machine in which only this sign-in moves |
| StaffService.StaffPanel.Enrol | circlesfera-backend/src/admin-auth/admin-auth.service.ts:255-320 | The same for an enrolment up to its spent proof, with its answers |
| StaffService.StaffPanel.Consume | circlesfera-backend/src/admin-auth/enrolment-proof.service.ts:122-164 | Succeeds exactly when the proof, trimmed and not too long, is the one kept, in time and of an unchanged password; then it spends that proof and changes nothing else |
| StaffService.StaffPanel.VerifyMfa | circlesfera-backend/src/admin-auth/admin-auth.service.ts:365-456 | The method is a run of the state machine in which only this request moves |
| StaffService.StaffPanel.Refresh | circlesfera-backend/src/admin-auth/admin-auth.service.ts:493-581 | The same for a renewal |
| StaffService.StaffPanel.ReplaceRoles | circlesfera-backend/src/admin/admin-operators.service.ts:390-449 | The same for a change of roles, which is refused exactly for a set of roles that may not be; run alone it leaves a reviewer an end within the maximum, and drops the sessions when the kind of identity changes |
| StaffService.StaffPanel.SetAccessExpiry | circlesfera-backend/src/admin/admin-operators.service.ts:451-485 | The same for a change of the end: it happens exactly when it is not one's own, a date still ahead or none for staff, and within the maximum for a reviewer, whose end stays in order |
| StaffService.StaffPanel.UpdateStatus | circlesfera-backend/src/admin/admin-operators.service.ts:349-388 | The same for a change of status, which is refused exactly for disabling oneself; disabling ends every session |
| StaffService.StaffPanel.ResetMfa | circlesfera-backend/src/admin/admin-operators.service.ts:487-518 | The same for a reset |
| EnrolmentCode.IssueCode | circlesfera-backend/src/admin-auth/enrolment-proof.service.ts:108-115 | Twelve characters of the alphabet, shown in groups that read back to the code and match its hash |
| EnrolmentCode.AcceptedAsTyped | circlesfera-backend/src/admin-auth/enrolment-proof.service.ts:26-28 | A code typed in any case, with any dashes and spaces, is the code |
| EnrolmentCode.GroupedNormalises | circlesfera-backend/src/admin-auth/enrolment-proof.service.ts:108-115 | A code in groups reads back to itself |
| TokenFamilies.FamilyHasOneOwner | circlesfera-backend/src/auth/auth.service.ts:1023-1085 | In every run, all rows of a family, now and later, have one user and one sign-in |
| TokenFamilies.OneLiveIff | circlesfera-backend/src/auth/auth.service.ts:798-821 | A step keeps at most one unrevoked row in each family exactly when it is not a profile switch into a family with one |
| TokenFamilies.AlwaysOneLiveIff | circlesfera-backend/src/profiles/profiles.controller.ts:88-112 | A whole run does so exactly when it has no such switch |
| TokenFamilies.SwitchCanDouble | circlesfera-backend/src/profiles/profiles.controller.ts:88-112 | From the start, a session that switches Profile gets a second live row |
| TokenFamilies.ReuseEmptiesFamily | circlesfera-backend/src/auth/auth.service.ts:740-759 | In every run in which no ended session with an exchanged token is opened again by a Profile switch, presenting a token that was exchanged leaves its whole family empty |
| TokenFamilies.ReuseIsAlwaysDetectedIff | circlesfera-backend/src/auth/auth.service.ts:736-759 | At every moment of a run every exchanged token that can still be presented would empty its family, exactly when the run has no such switch |
| TokenFamilies.ReuseEmptiesFamilyIff | circlesfera-backend/src/auth/auth.service.ts:736-759 | Presenting an exchanged token yields nothing and touches no other family; its own is empty afterwards exactly when its row was there or the family was empty already |
| TokenFamilies.ReuseCanPassUnnoticed | circlesfera-backend/src/profiles/profiles.controller.ts:88-112 | After sign-in, rotation, logout and a Profile switch, the exchanged token is presented, nothing happens, and the family keeps its row |
| TokenFamilies.LogoutEmptiesFamily | circlesfera-backend/src/auth/auth.service.ts:827-851 | So does logging out or revoking one of its rows |
| TokenFamilies.ResetEmptiesItsFamilies | circlesfera-backend/src/auth/auth.service.ts:331-338 | So does resetting the password of its sign-in |
| TokenFamilies.NeverReopensIff | circlesfera-backend/src/profiles/profiles.controller.ts:88-112 | An emptied family never has a row again exactly when no access token of it is still good |
| TokenFamilies.EndedCanReopen | circlesfera-backend/src/profiles/profiles.controller.ts:88-112 | From the start, a family emptied by logging out can be one that gets a row again |
| TokenFamilies.EmptyAfterFifteenMinutes | circlesfera-backend/src/auth/auth.service.ts:1023-1085 | A family that stays empty for the life of an access token stays empty for ever |
| FamilyService.SessionStore.RefreshToken | circlesfera-backend/src/auth/auth.service.ts:689-825 | The method does to the rows exactly what the step says, and its token is in the family presented |
| FamilyService.SessionStore.GenerateTokens | circlesfera-backend/src/auth/auth.service.ts:1015-1097 | One new token and row, of the family given or a new one, when there is a sign-in for it |
| FamilyService.SessionStore.SwitchProfile | circlesfera-backend/src/profiles/profiles.controller.ts:88-112 | The switch does to the rows exactly what the step says |
| FamilyService.SessionStore.LogoutSession | circlesfera-backend/src/auth/auth.service.ts:827-851 | Logging out does to the rows exactly what the step says |
| FamilyService.SessionStore.RevokeOtherSessions | circlesfera-backend/src/auth/auth.service.ts:916-954 | Ends every family of the user but the current one, and only while that one is open |
| FamilyService.SessionStore.ResetSignInPassword | circlesfera-backend/src/auth/auth.service.ts:304-347 | Removes exactly the rows of that sign-in |
| FeedInbox.KeptIsNewest | circlesfera-backend/src/feed/feed-inbox.service.ts:60-75 | Adding and trimming one post at a time leaves what trimming the whole history once would leave |
| FeedInbox.KeptIff | circlesfera-backend/src/feed/feed-inbox.service.ts:60-75 | A post is kept exactly at its last push and exactly when fewer than 1000 posts are newer |
| FeedInbox.PushedHas | circlesfera-backend/src/feed/feed-inbox.service.ts:60-75 | The full history holds each post once, at its last push, in order |
| FeedInbox.WithinLimitIff | circlesfera-backend/src/feed/feed-inbox.service.ts:191-251 | With removals and rebuilds mixed in, the size never exceeds the limit, whatever the recent posts turn out to be, exactly when every filling finds the inbox empty |
| FeedInbox.FitsIffEmpty | circlesfera-backend/src/feed/feed-inbox.service.ts:225-251 | A filling fits, whatever the recent posts are, exactly when the inbox is empty as it starts |
| FeedInbox.AloneIsEnough | circlesfera-backend/src/feed/feed-inbox.service.ts:213-251 | The size stays within the limit when only removals come between a rebuild's purge and its filling |
| FeedInbox.AloneIff | circlesfera-backend/src/feed/feed-inbox.service.ts:213-251 | In runs without removals this is exact: a push or another filling in between can take it over |
| FeedInbox.CutRebuildGoesOver | circlesfera-backend/src/feed/feed-inbox.service.ts:213-251 | One push between the halves of a rebuild can leave 1001 posts |
| FeedInbox.OverlappingRebuildsGoOver | circlesfera-backend/src/feed/feed.service.ts:522-528 | Two rebuilds at once go over the limit with no push |
| FeedInbox.UncutRebuild | circlesfera-backend/src/feed/feed-inbox.service.ts:213-251 | A rebuild that nothing cuts in two leaves exactly the recent posts |
| FeedInbox.PagesGiveAll | circlesfera-backend/src/feed/feed-inbox.service.ts:89-104 | Pages one after another give the whole inbox once, newest first |
| FeedInbox.EmptyPageIsAll | circlesfera-backend/src/feed/feed-inbox.service.ts:96-99 | A page of no posts, asked for at the start, is the whole inbox |
| FeedInbox.FannedOnce | circlesfera-backend/src/feed/feed-inbox.service.ts:60-75 | A fan-out reaches each follower once |
| FeedInbox.FeedInboxService.FanoutToFollowers | circlesfera-backend/src/feed/feed-inbox.service.ts:60-83 | Every inbox is its old self with the pushes meant for it, and no other is touched |
| FeedInbox.FeedInboxService.Repopulate | circlesfera-backend/src/feed/feed-inbox.service.ts:239-251 | Puts each recent post in at the time it was made, in one profile's inbox only |
| FeedInbox.FeedInboxService.FanoutHybrid | circlesfera-backend/src/feed/feed-inbox.service.ts:138-153 | Pushes to every follower below 5000 followers, and to none from there on |
| FeedInbox.FeedInboxService.GetInbox | circlesfera-backend/src/feed/feed-inbox.service.ts:89-104 | Answers one page of the profile's inbox |
| FeedInbox.FeedInboxService.RemovePostsFromInbox | circlesfera-backend/src/feed/feed-inbox.service.ts:191-208 | Removes those posts from that inbox only |
| FeedInbox.FeedInboxService.InvalidateUserFeedCache | circlesfera-backend/src/feed/feed-inbox.service.ts:156-167 | Empties that inbox only |
| EmailWindow.WindowHoldsFive | circlesfera-backend/src/email/email.service.ts:459-473 | In every run, any half-open window of ten minutes holds at most five sends to one recipient |
| EmailWindow.HeldBackIff | circlesfera-backend/src/email/email.service.ts:465-470 | An e-mail is held back exactly when five went to its recipient in the last window |
| EmailWindow.EmailLimiter.DeliverMail | circlesfera-backend/src/email/email.service.ts:459-485 | Decides as the log that keeps everything decides, whatever has been pruned |
| EmailWindow.EmailLimiter.Prune | circlesfera-backend/src/email/email.service.ts:476-485 | Cuts every list to what is active and changes no later decision |
| NginxScan.TopLevelBlocks | infra/host/release-address.py:20-49 | The loops of the scanner find what reading character by character finds, on every text |
| NginxFile.BlocksAreBlocks | infra/host/release-address.py:20-49 | On every text, even unbalanced: the ranges lie inside it, do not overlap, and each is the word `server`, space and a body in braces that closes at its end |
| NginxFile.CutKeepsText | infra/host/release-address.py:55-78 | Every text is its gaps and blocks put together again |
| NginxFile.CutsBack | infra/host/release-address.py:20-49 | A file put together from gaps and blocks is read as those gaps and blocks |
| NginxNames.ChunksText | infra/host/release-address.py:52-52 | Cutting a block where the directive pattern matches loses nothing |
| NginxNames.SplitAppend | infra/host/answer-address.py:40-41 | A name added after stripping trailing space comes last in the list |
| NginxNames.SplitJoin | infra/host/release-address.py:69-73 | Names that are joined split back |
| NginxEdit.EditReadsBack | infra/host/release-address.py:69-75 | An edited block is read as the edit made it |
| NginxEdit.EditedBlock | infra/host/release-address.py:69-75 | An edit of plain directives leaves the braces of the block where the scanner sees them |
| NginxTools.ReleasedBlockNames | infra/host/release-address.py:69-75 | Read again, a block that answers other names too answers exactly those |
| NginxTools.AnsweredBlockNames | infra/host/answer-address.py:34-45 | A block that names the anchor gains the address once, at one place in its list |
| NginxSites.UnnamedIsUntouched | infra/host/release-address.py:60-61 | A file that does not name the address is not touched, whatever is in it |
| NginxPieces.ReleaseKeepsTheRest | infra/host/release-address.py:55-78 | For every text: every character stays in place but those of the blocks that go, of one line break after each, and of the directives |
| NginxPieces.AnswerKeepsTheRest | infra/host/answer-address.py:31-47 | For every text: nothing goes, and only directives change |
| NginxPieces.ChangesIffNamed | infra/host/release-address.py:87-91 | For every text: it changes exactly when a server block names the address, as the check mode promises |
| NginxPieces.AnswerChangesIff | infra/host/answer-address.py:57-61 | For every text: it changes exactly when a block that names the anchor lacks the address, as the check mode promises |
| NginxPieces.NeverPushed | infra/host/release-address.py:55-78 | What went is never made up for by what grew, so a change always shows |
| NginxAgain.CutIsFlat | infra/host/release-address.py:20-49 | A file whose gaps hold blocks of their own is read as those blocks and its own, in order |
| NginxAgain.ReleaseTakesTheAddress | infra/host/release-address.py:55-78 | Read again, blocks that answered only the address are gone and the others answer the rest in order, exactly when what is left between the blocks does not read as a block |
| NginxAgain.ReleaseIsIdempotentIff | infra/host/release-address.py:55-78 | Releasing again changes nothing exactly when nothing left between the blocks reads as a server block that names the address |
| NginxAgain.ReleaseIsIdempotent | infra/host/release-address.py:55-78 | So releasing does what it should, once and for all, where every brace at top level has a word of its own |
| NginxAgain.AnswerIsIdempotent | infra/host/answer-address.py:31-47 | Read again, exactly the blocks that name the anchor gained the address, and answering twice is answering once |
| NginxAgain.ReleaseUndoesAnswer | infra/host/answer-address.py:31-47 | Releasing what was answered gives every block its own names back |
| NginxPrograms.ReleaseText | infra/host/release-address.py:55-78 | The loop with its moving position prints the released file, for every text |
| NginxPrograms.AnswerText | infra/host/answer-address.py:31-47 | The loop prints the answered file, for every text |
| NginxBareBrace.BareBraceUnsettles | infra/host/release-address.py:34-40 | Without a word of its own, a brace at top level is taken by the word left before it: releasing again removes more |
| AppealDeadline.YearLength | circlesfera-backend/src/appeals/appeal-window.ts:6-13 | Years follow one another with 365 or 366 days |
| AppealDeadline.DatesAreDays | circlesfera-backend/src/appeals/appeal-window.ts:6-13 | Day numbers and dates are the same thing, both ways |
| AppealDeadline.AppealDeadline | circlesfera-backend/src/appeals/appeal-window.ts:6-13 | The two changes in place give the date six calendar months later, cut to the length of that month, at the same time of day |
| AppealDeadline.DeadlineDaysRise | circlesfera-backend/src/appeals/appeal-window.ts:6-13 | By days, deadlines keep the order of the decisions; two days share one exactly when both are cut |
| AppealDeadline.KeepsOrderIff | circlesfera-backend/src/appeals/appeal-window.ts:6-13 | A later decision has no earlier deadline, except when both are cut together and it was taken earlier in its day |
| AppealDeadline.EveryAugust | circlesfera-backend/src/appeals/appeal-window.ts:10-11 | The exception happens every year |
| Appeals.EachDecisionOnce | circlesfera-backend/src/appeals/appeals.service.ts:215-253 | In every interleaving, any two appeals have a decision between them |
| Appeals.RefusedIff | circlesfera-backend/src/appeals/appeals.service.ts:229-243 | With the lock held, a request is refused exactly when the decision it read has been appealed |
| Appeals.AskedInTime | circlesfera-backend/src/appeals/appeals.service.ts:202-213 | Each appeal was checked before the deadline of the decision it read |
| Keyset.PageIs | circlesfera-backend/src/feed/feed-preferences.service.ts:275-291 | A page lists what follows the cursor up to the next cursor, and all of it when there is none |
| Keyset.WalkDescends | circlesfera-backend/src/common/pagination/keyset.util.ts:49-62 | Whatever changes between pages, the walk is strictly newest first, so nothing is listed twice |
| Keyset.WalkLists | circlesfera-backend/src/feed/feed-preferences.service.ts:241-291 | A row that keeps its key is listed |
| Keyset.WalkEnds | circlesfera-backend/src/feed/feed-preferences.service.ts:275-291 | With rows drawn from a finite set, the walk ends |
| Keyset.WalkIsAll | circlesfera-backend/src/feed/feed-preferences.service.ts:241-291 | With no change, the walk is the whole table in order |
| Archive.StayingPostOnce | circlesfera-backend/src/archive/archive.service.ts:101-170 | With rows drawn from a finite set, following the cursors ends and lists a post that stays archived exactly once, whatever else is archived or shown between pages |
| Archive.OthersStay | circlesfera-backend/src/archive/archive.service.ts:55-92 | Archiving or showing one post moves no other |
| Archive.ArchiveService.Archive | circlesfera-backend/src/archive/archive.service.ts:55-73 | Only the owner's post that is neither deleted nor removed is archived; archiving again keeps its time |
| Archive.ArchiveService.Unarchive | circlesfera-backend/src/archive/archive.service.ts:77-92 | Clears the time of that post only |
| Archive.ArchiveService.List | circlesfera-backend/src/archive/archive.service.ts:95-170 | One page of the listed posts after the cursor, of 1 to 60 rows |
| Comments.StayingCommentOnce | circlesfera-backend/src/comments/comments.service.ts:311-436 | With comments drawn from a finite set, the reading ends and a shown comment that stays as it is, pinned or not, is listed exactly once, whatever else changes between pages |
| Comments.TotalIsListed | circlesfera-backend/src/comments/comments.service.ts:313-330 | With no change between pages, the reading ends, every shown top-level comment is listed and the total is the comments and replies listed |
| Comments.NumberedPagesAreFirst | circlesfera-backend/src/comments/comments.service.ts:408-436 | With no change, pages by number give the pins and then the newest of the others, none left out and none twice |
| Comments.OthersDescend | circlesfera-backend/src/comments/comments.service.ts:384-436 | After the pins, the list is strictly newest first |
| PlanSync.SecondRunWritesNothingIff | circlesfera-backend/scripts/sync-plan-catalog.ts:61-114 | A second run, in whatever order rows are returned, writes nothing exactly when no two plans were found in one row |
| PlanSync.RowsCanMeet | circlesfera-backend/scripts/plan-catalog.ts:191-206 | Two plans can be found in one row, one by its product and one by its name and price |
| PlanSync.RunReachesCatalog | circlesfera-backend/scripts/sync-plan-catalog.ts:61-114 | A run leaves each plan one row of its own with everything the catalogue and the provider say of it, and no other row with its product |
| PlanSync.UpdateSettles | circlesfera-backend/scripts/plan-catalog.ts:213-245 | Applying an update gives a row with the plan's product that needs no further update |
| PlanSync.OthersStay | circlesfera-backend/scripts/sync-plan-catalog.ts:94-113 | Updating one plan leaves every other row where it is |
| PlanSync.PlatformPlans.SyncPlanCatalog | circlesfera-backend/scripts/sync-plan-catalog.ts:61-114 | The loop does the updates of all plans without a problem, found in what was stored at its start; a dry run does none |
| HtmlEscape.EscapeIsSubstitution | circlesfera-backend/src/email/email-copy.ts:371-378 | The five replacements are one substitution, character by character |
| HtmlEscape.EscapeIsSafe | circlesfera-backend/src/email/email-copy.ts:371-378 | The result has no markup character, every `&` starts an entity, and reading the entities back gives the value |
| AuditCsv.ExportIsReadBack | circlesfera-backend/src/admin/admin-stats.service.ts:665-680 | A reader by section 2 of RFC 4180 gets the titles and exactly the rows and cells printed, whatever is in them |
| AuditCsv.CellsAreSafe | circlesfera-backend/src/admin/admin-stats.service.ts:26-29 | Each cell is its value, or its value after an apostrophe exactly when it would start a formula |
| BroadcastLog.LogIsReadBack | circlesfera-backend/src/admin/admin-users.service.ts:86-113 | The subject, both counts and the audience are read back, for every subject |
| Similarity.Accumulate | circlesfera-backend/src/ai/ai.service.ts:213-222 | The loop computes the dot product and both squared norms, and no number when the second vector is too short |
| Similarity.CauchySchwarz | circlesfera-backend/src/ai/ai.service.ts:213-223 | The square of the dot product is at most the product of the squared norms |
| Similarity.SimilarityInRange | circlesfera-backend/src/ai/ai.service.ts:213-223 | For vectors that are not all zeros it lies from -1 to 1, the same both ways round |
| ChatBlocks.BlocksAmong | circlesfera-backend/src/chat/blocked-participants.ts:49-70 | The loop fills the map of the blocks among the members, as each side sees them |
| ChatBlocks.GroupIsEachViewer | circlesfera-backend/src/chat/blocked-participants.ts:7-70 | That map is symmetric and gives each member what the query for them alone gives, exactly when they do not block themselves |
| ChatBlocks.MaskHidesTheBlocked | circlesfera-backend/src/chat/blocked-participants.ts:110-180 | A masked message hides exactly the people in a block with the viewer, in each of its places, and changes no one else |
| ChatBlocks.UnknownBlocksHideAll | circlesfera-backend/src/chat/blocked-participants.ts:99-106 | With the blocks unknown, anyone but the viewer is at most an id |

## Left out

- Database, cache, queue, payment, e-mail and AI providers: plain maps, sets, sequences and parameters stand for them; a failing provider or database call is not modelled.
- Hashing, signatures and one-time codes: constructors and a parameter that says whether a code or password is right.
- Staff steps: the writes of the audit log and of the last sign-in, and the row read back after a change of roles, are not steps; one identity is modelled, and its sign-in with an unknown e-mail is not.
- Staff and participant sessions listed for their owner, and step-up: they write nothing the results speak of.
- Participant sign-in itself: it ends in `GenerateTokens`; old rows without a family, the fallback insert and raw-token lookup are left out.
- EnrolmentCode.AcceptedAsTyped: upper case is that of ASCII letters.
- FamilyService.SessionStore.ResetSignInPassword: old rows that name no sign-in, which the source removes too.
- StaffService.StaffPanel.Enrol: the secret is stored and shown by a call of its own, `ShowSecret`, as in the steps.
- FeedInbox.WithinLimitIff: a push with its trim, and a filling, are one step each; the two halves of a rebuild are not, and any number of rebuilds may overlap.
- EmailWindow.EmailLimiter.DeliverMail: lower case is that of ASCII letters; the send itself, after the decision, is not modelled.
- NginxNames.SplitJoin: the word boundary after the keyword knows ASCII letters, digits and the underscore.
- NginxAgain.ReleaseTakesTheAddress: asks that no head lies inside a comment and that, in the blocks that name the address, directives have lines of their own with only names in them, as the programs are written for; what is said of every text is in `NginxPieces`.
- NginxPieces.AnswerChangesIff: the address is a name: not empty, with no white space or semicolon in it.
- AppealDeadline.AppealDeadline: dates beyond the range of a time value (section 15.9.1.14) are not cut to "not a number".
- Appeals.EachDecisionOnce: the account's appeals about one item; which items may be appealed, and what approving an appeal restores, are left out.
- Keyset: the text of a cursor; a cursor is the key it names, or malformed.
- Comments: pinning and unpinning, and which viewer is shown which comment (a flag stands for it).
- The list of blocked link domains: the same paging over one unique string.
- PlanSync: how the provider's product and price of a plan are chosen and checked; a write the database refuses.
- Filling placeholders in e-mail copy, sending a broadcast in batches, and masking the participants of a conversation: they would add easy members only.
- Similarity.Accumulate: real numbers; rounding and overflow of floating point are not modelled.
- Controllers, guards, validation of requests, the web app, notifications and operations scripts.
